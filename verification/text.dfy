/**
 * The string helpers the chat client relies on: JavaScript's `trim` and
 * `includes`, the newline-to-`<br>` rendering of a message bubble and the
 * `HH:MM` time stamp printed under each bubble.
 */
module Text {
  import opened Options

  /** The characters JavaScript's `String.prototype.trim` removes: WhiteSpace
      and LineTerminator of ECMA-262 (sections 12.2 and 12.3). */
  const Whitespace: set<char> := {
    ' ', '\t', '\n', '\U{000B}', '\U{000C}', '\r', '\U{00A0}', '\U{1680}',
    '\U{2000}', '\U{2001}', '\U{2002}', '\U{2003}', '\U{2004}', '\U{2005}',
    '\U{2006}', '\U{2007}', '\U{2008}', '\U{2009}', '\U{200A}',
    '\U{2028}', '\U{2029}', '\U{202F}', '\U{205F}', '\U{3000}', '\U{FEFF}'
  }

  /** Every character of `s` belongs to `cs`. */
  predicate AllIn(s: string, cs: set<char>) {
    forall i :: 0 <= i < |s| ==> s[i] in cs
  }

  /** The length of the run of characters from `cs` that `s` starts with
      (what that run is made of is `LeadingRunSpan`). */
  function LeadingRun(s: string, cs: set<char>): (n: nat)
    ensures n <= |s|
  {
    if |s| > 0 && s[0] in cs then 1 + LeadingRun(s[1..], cs) else 0
  }

  /** The leading run holds only characters from `cs` and stops at the end
      of `s` or at a character outside `cs`. */
  lemma {:induction false} LeadingRunSpan(s: string, cs: set<char>)
    ensures forall i :: 0 <= i < LeadingRun(s, cs) ==> s[i] in cs
    ensures LeadingRun(s, cs) == |s| || s[LeadingRun(s, cs)] !in cs
  {
    if |s| > 0 && s[0] in cs {
      LeadingRunSpan(s[1..], cs);
      assert forall i :: 0 < i < LeadingRun(s, cs) ==> s[i] == s[1..][i - 1];
    }
  }

  /** The length of the run of characters from `cs` that `s` ends with
      (what that run is made of is `TrailingRunSpan`). */
  function TrailingRun(s: string, cs: set<char>): (n: nat)
    ensures n <= |s|
  {
    if |s| > 0 && s[|s| - 1] in cs then 1 + TrailingRun(s[..|s| - 1], cs) else 0
  }

  /** The trailing run holds only characters from `cs` and is preceded by
      the start of `s` or by a character outside `cs`. */
  lemma {:induction false} TrailingRunSpan(s: string, cs: set<char>)
    ensures forall i :: |s| - TrailingRun(s, cs) <= i < |s| ==> s[i] in cs
    ensures TrailingRun(s, cs) == |s| || s[|s| - 1 - TrailingRun(s, cs)] !in cs
  {
    if |s| > 0 && s[|s| - 1] in cs {
      var init := s[..|s| - 1];
      TrailingRunSpan(init, cs);
      assert forall i :: 0 <= i < |init| ==> s[i] == init[i];
    }
  }

  /** `s` without the characters from `cs` at either end: what follows the
      leading run, up to the run that ends what remains. The result is
      empty exactly when all of `s` is in `cs`, and otherwise begins and
      ends with a character outside `cs`. */
  function Strip(s: string, cs: set<char>): (r: string)
    ensures |r| <= |s|
    ensures r == [] <==> AllIn(s, cs)
    ensures r == [] || (r[0] !in cs && r[|r| - 1] !in cs)
  {
    var k := LeadingRun(s, cs);
    LeadingRunSpan(s, cs);
    TrailingRunSpan(s[k..], cs);
    s[k..|s| - TrailingRun(s[k..], cs)]
  }

  /** Stripping keeps the middle of `s`: `Strip(s, cs)` is the slice of `s`
      at `k` that is preceded and followed only by characters from `cs`. */
  lemma StripIsMiddle(s: string, cs: set<char>) returns (k: nat)
    ensures k + |Strip(s, cs)| <= |s| && Strip(s, cs) == s[k..k + |Strip(s, cs)|]
    ensures AllIn(s[..k], cs) && AllIn(s[k + |Strip(s, cs)|..], cs)
  {
    k := LeadingRun(s, cs);
    var e := TrailingRun(s[k..], cs);
    LeadingRunSpan(s, cs);
    TrailingRunSpan(s[k..], cs);
    assert |Strip(s, cs)| == |s| - e - k;
    assert s[k + |Strip(s, cs)|..] == s[k..][|s| - k - e..];
  }

  /** What follows the first character outside `cs` does not change the
      length of the leading run. */
  lemma {:induction false} LeadingRunAppend(s: string, u: string, cs: set<char>)
    requires LeadingRun(s, cs) < |s|
    ensures LeadingRun(s + u, cs) == LeadingRun(s, cs)
  {
    assert (s + u)[0] == s[0];
    if s[0] in cs {
      assert (s + u)[1..] == s[1..] + u;
      LeadingRunAppend(s[1..], u, cs);
    }
  }

  /** A character from `cs` appended to `s` lengthens the trailing run of
      every suffix of `s` by one. */
  lemma TrailingRunAppend(s: string, k: nat, c: char, cs: set<char>)
    requires k <= |s| && c in cs
    ensures TrailingRun((s + [c])[k..], cs) == 1 + TrailingRun(s[k..], cs)
  {
    var t := (s + [c])[k..];
    assert t[|t| - 1] == c;
    assert t[..|t| - 1] == s[k..];
  }

  /** A trailing character from `cs` is removed by stripping. */
  lemma StripDropsTrailing(s: string, c: char, cs: set<char>)
    requires c in cs
    ensures Strip(s + [c], cs) == Strip(s, cs)
  {
    if LeadingRun(s, cs) < |s| {
      var k := LeadingRun(s, cs);
      LeadingRunAppend(s, [c], cs);
      TrailingRunAppend(s, k, c, cs);
      SliceOfPrefix(s, [c], k, |s| - TrailingRun(s[k..], cs));
    } else {
      BlankStaysBlank(s, c, cs);
    }
  }

  /** A slice that lies inside `s` is the same slice of `s + u`. */
  lemma SliceOfPrefix<T>(s: seq<T>, u: seq<T>, i: nat, j: nat)
    requires i <= j <= |s|
    ensures (s + u)[i..j] == s[i..j]
  {
  }

  /** A blank `s` stays blank when `c` from `cs` is appended. */
  lemma BlankStaysBlank(s: string, c: char, cs: set<char>)
    requires c in cs && LeadingRun(s, cs) == |s|
    ensures AllIn(s, cs) && AllIn(s + [c], cs)
  {
    LeadingRunSpan(s, cs);
    var t := s + [c];
    assert forall i :: 0 <= i < |s| ==> t[i] == s[i];
  }

  /** `s.trim()`. The result is empty exactly when `s` is blank, and
      otherwise begins and ends with a non-whitespace character. */
  function Trim(s: string): (r: string)
    ensures |r| <= |s|
    ensures r == [] <==> AllIn(s, Whitespace)
    ensures r == [] || (r[0] !in Whitespace && r[|r| - 1] !in Whitespace)
  {
    Strip(s, Whitespace)
  }

  /** Trimming keeps the middle of `s`, dropping only whitespace around it. */
  lemma TrimIsMiddle(s: string) returns (k: nat)
    ensures k + |Trim(s)| <= |s| && Trim(s) == s[k..k + |Trim(s)|]
    ensures AllIn(s[..k], Whitespace) && AllIn(s[k + |Trim(s)|..], Whitespace)
  {
    k := StripIsMiddle(s, Whitespace);
  }

  /** A trailing space, such as the one the dictation handler puts after each
      final transcript, is removed by trimming. */
  lemma TrimDropsTrailingSpace(s: string)
    ensures Trim(s + " ") == Trim(s)
  {
    StripDropsTrailing(s, ' ', Whitespace);
  }

  /** `s.startsWith(p)`. */
  predicate StartsWith(s: string, p: string) {
    |p| <= |s| && s[..|p|] == p
  }

  /** `s.includes(sub)`: some suffix of `s` starts with `sub`. */
  predicate Contains(s: string, sub: string)
    decreases |s|
  {
    StartsWith(s, sub) || (|s| > 0 && Contains(s[1..], sub))
  }

  /** `sub` occurs in `s` at position `i`. */
  predicate OccursAt(s: string, sub: string, i: int) {
    0 <= i && i + |sub| <= |s| && s[i..i + |sub|] == sub
  }

  /** `Contains` agrees with the positional definition of a substring. */
  lemma {:induction false} ContainsIffOccurs(s: string, sub: string)
    ensures Contains(s, sub) <==> exists i :: OccursAt(s, sub, i)
    decreases |s|
  {
    if StartsWith(s, sub) {
      assert OccursAt(s, sub, 0);
    } else if |s| > 0 {
      forall i | 0 < i && OccursAt(s, sub, i) ensures OccursAt(s[1..], sub, i - 1) {
        assert s[1..][i - 1..i - 1 + |sub|] == s[i..i + |sub|];
      }
      forall i | OccursAt(s[1..], sub, i) ensures OccursAt(s, sub, i + 1) {
        assert s[i + 1..i + 1 + |sub|] == s[1..][i..i + |sub|];
      }
      ContainsIffOccurs(s[1..], sub);
    }
  }

  /** The HTML a line of text gets in its bubble: `text.replace(/\n/g, '<br>')`.
      No line feed survives, and the HTML grows by three characters per line feed. */
  function RenderLineBreaks(text: string): (html: string)
    ensures '\n' !in html
    ensures |html| == |text| + 3 * CountOf(text, '\n')
  {
    if text == [] then []
    else RenderLineBreaks(text[..|text| - 1]) + RenderChar(text[|text| - 1])
  }

  /** What one character becomes in the HTML. */
  function RenderChar(c: char): string {
    if c == '\n' then "<br>" else [c]
  }

  /** How often `c` occurs in `s`. */
  function CountOf(s: string, c: char): nat {
    if s == [] then 0 else CountOf(s[..|s| - 1], c) + (if s[|s| - 1] == c then 1 else 0)
  }

  /** Concatenation is associative. */
  lemma AppendAssociative<T>(a: seq<T>, b: seq<T>, c: seq<T>)
    ensures (a + b) + c == a + (b + c)
  {
  }

  /** Rendering one more character appends what that character becomes. */
  lemma RenderSnoc(text: string, c: char)
    ensures RenderLineBreaks(text + [c]) == RenderLineBreaks(text) + RenderChar(c)
  {
    var t := text + [c];
    assert t[..|t| - 1] == text && t[|t| - 1] == c;
  }

  /** Rendering works character by character: it distributes over concatenation. */
  lemma {:induction false} RenderConcat(a: string, b: string)
    ensures RenderLineBreaks(a + b) == RenderLineBreaks(a) + RenderLineBreaks(b)
    decreases |b|
  {
    if b == [] {
      assert a + b == a;
    } else {
      var b', c := b[..|b| - 1], b[|b| - 1];
      assert b == b' + [c];
      AppendAssociative(a, b', [c]);
      RenderSnoc(a + b', c);
      RenderSnoc(b', c);
      RenderConcat(a, b');
      AppendAssociative(RenderLineBreaks(a), RenderLineBreaks(b'), RenderChar(c));
    }
  }

  /** Every character other than a line feed is kept as it is. */
  lemma {:induction false} RenderWithoutLineFeed(text: string)
    requires '\n' !in text
    ensures RenderLineBreaks(text) == text
  {
    if text != [] {
      var init := text[..|text| - 1];
      NotInPrefix('\n', text, |text| - 1);
      RenderWithoutLineFeed(init);
      InitThenLast(text);
    }
  }

  /** What does not occur in `s` does not occur in a prefix of it. */
  lemma NotInPrefix<T>(x: T, s: seq<T>, n: nat)
    requires x !in s && n <= |s|
    ensures x !in s[..n]
  {
    assert forall i :: 0 <= i < n ==> s[..n][i] == s[i];
  }

  /** A non-empty sequence is its prefix followed by its last element. */
  lemma InitThenLast<T>(s: seq<T>)
    requires s != []
    ensures s[..|s| - 1] + [s[|s| - 1]] == s
  {
  }

  // ---------------------------------------------------------------------
  // Time stamps: String(n).padStart(2, '0') on the hours and minutes.

  predicate IsDigit(c: char) {
    '0' <= c <= '9'
  }

  predicate AllDigits(s: string) {
    forall i :: 0 <= i < |s| ==> IsDigit(s[i])
  }

  function DigitChar(d: nat): (c: char)
    requires d < 10
    ensures IsDigit(c) && c as int - '0' as int == d
  {
    ('0' as int + d) as char
  }

  /** `String(n)` for a non-negative integer: its decimal digits, no leading zero. */
  function DecimalString(n: nat): (r: string)
    ensures 1 <= |r| && AllDigits(r)
    ensures |r| > 1 ==> r[0] != '0'
  {
    if n < 10 then [DigitChar(n)] else DecimalString(n / 10) + [DigitChar(n % 10)]
  }

  /** The number a string of decimal digits denotes (the inverse of `DecimalString`). */
  function DigitsValue(s: string): nat
    requires AllDigits(s)
  {
    if s == [] then 0
    else DigitsValue(s[..|s| - 1]) * 10 + (s[|s| - 1] as int - '0' as int)
  }

  lemma {:induction false} DecimalStringRoundTrip(n: nat)
    ensures DigitsValue(DecimalString(n)) == n
  {
    if n >= 10 {
      var r := DecimalString(n);
      assert r[..|r| - 1] == DecimalString(n / 10);
      DecimalStringRoundTrip(n / 10);
    }
  }

  /** A leading zero does not change the value of a digit string. */
  lemma {:induction false} LeadingZero(s: string)
    requires AllDigits(s)
    ensures AllDigits("0" + s) && DigitsValue("0" + s) == DigitsValue(s)
  {
    if s != [] {
      var z := "0" + s;
      assert z[..|z| - 1] == "0" + s[..|s| - 1];
      LeadingZero(s[..|s| - 1]);
    }
  }

  /** `s.padStart(width, fill)`: `fill` is put in front until `s` is `width` long. */
  function PadStart(s: string, width: nat, fill: char): (r: string)
    ensures |r| == if |s| < width then width else |s|
    ensures forall i :: 0 <= i < |r| ==> r[i] == if i < |r| - |s| then fill else s[i - (|r| - |s|)]
  {
    if |s| >= width then s else seq(width - |s|, _ => fill) + s
  }

  type Hour = h: nat | h < 24
  type Minute = m: nat | m < 60

  /** The local wall-clock reading `getCurrentTime` takes from `new Date()`. */
  datatype Clock = Clock(hours: Hour, minutes: Minute)

  /** `String(n).padStart(2, '0')` for a number below 100: two digits. */
  function TwoDigits(n: nat): (r: string)
    requires n < 100
    ensures |r| == 2 && AllDigits(r)
  {
    TwoDigitsShape(n);
    PadStart(DecimalString(n), 2, '0')
  }

  /** Padding the decimal string of a number below 100 gives two digits. */
  lemma TwoDigitsShape(n: nat)
    requires n < 100
    ensures |PadStart(DecimalString(n), 2, '0')| == 2
    ensures AllDigits(PadStart(DecimalString(n), 2, '0'))
  {
    var d := DecimalString(n);
    if n >= 10 {
      assert DecimalString(n / 10) == [DigitChar(n / 10)];
    }
  }

  /** `getCurrentTime`: `HH:MM`, each part zero-padded to two digits. */
  function FormatClock(c: Clock): (r: string)
    ensures |r| == 5 && r[2] == ':'
  {
    TwoDigits(c.hours) + ":" + TwoDigits(c.minutes)
  }

  /** A number below 100, padded, is two digits that denote it. */
  lemma TwoDigitsRoundTrip(n: nat)
    requires n < 100
    ensures |TwoDigits(n)| == 2 && AllDigits(TwoDigits(n))
    ensures DigitsValue(TwoDigits(n)) == n
  {
    var d := DecimalString(n);
    DecimalStringRoundTrip(n);
    if n < 10 {
      assert TwoDigits(n) == "0" + d;
      LeadingZero(d);
    } else {
      assert DecimalString(n / 10) == [DigitChar(n / 10)];
      assert |d| == 2;
    }
  }

  /** Reads an `HH:MM` stamp back (the inverse of `FormatClock`). */
  function ParseClock(s: string): (r: Option<(nat, nat)>)
  {
    if |s| == 5 && s[2] == ':' && AllDigits(s[..2]) && AllDigits(s[3..])
    then Some((DigitsValue(s[..2]), DigitsValue(s[3..])))
    else None
  }

  /** The time stamp loses nothing: parsing it gives back the hours and minutes. */
  lemma ClockRoundTrip(c: Clock)
    ensures ParseClock(FormatClock(c)) == Some((c.hours, c.minutes))
  {
    var h, m := TwoDigits(c.hours), TwoDigits(c.minutes);
    var r := FormatClock(c);
    assert r == h + ":" + m;
    assert r[..2] == h;
    assert r[3..] == m;
    TwoDigitsRoundTrip(c.hours);
    TwoDigitsRoundTrip(c.minutes);
  }
}
