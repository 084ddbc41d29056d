/**
 * Reading a reply aloud (`speakText`): the utterance the bot hands to the
 * speech synthesiser and the `setVoice` search for a British voice.
 */
module VoiceOutput {
  import opened Options
  import opened Text

  /** A synthesiser voice as `getVoices()` lists it. */
  datatype Voice = Voice(lang: string, name: string)

  /** A voice whose language tag contains `en-GB` or `en_GB`. */
  predicate IsBritish(v: Voice) {
    Contains(v.lang, "en-GB") || Contains(v.lang, "en_GB")
  }

  /** The name test of the first pass. The tests are case-sensitive substring
      tests, so a name containing `Female` passes through `male`. */
  predicate HasMaleName(v: Voice) {
    || Contains(v.name, "Male") || Contains(v.name, "male")
    || Contains(v.name, "Boy") || Contains(v.name, "boy")
    || Contains(v.name, "Daniel") || Contains(v.name, "George")
  }

  predicate IsBritishMale(v: Voice) {
    IsBritish(v) && HasMaleName(v)
  }

  /** The position of the first voice satisfying `p`, if there is one. */
  function FirstWhere(voices: seq<Voice>, p: Voice -> bool): (r: Option<nat>)
    ensures r.Some? ==> r.value < |voices| && p(voices[r.value])
    ensures r.Some? ==> forall j :: 0 <= j < r.value ==> !p(voices[j])
    ensures r.None? ==> forall j :: 0 <= j < |voices| ==> !p(voices[j])
  {
    if voices == [] then None
    else if p(voices[0]) then Some(0)
    else match FirstWhere(voices[1..], p)
      case None => None
      case Some(k) => Some(k + 1)
  }

  /** The voice `setVoice` settles on: the first British voice with a male
      name, otherwise the first British voice, otherwise none. */
  function PreferredVoice(voices: seq<Voice>): (r: Option<nat>)
    ensures r.Some? ==> r.value < |voices| && IsBritish(voices[r.value])
    ensures r.None? <==> forall j :: 0 <= j < |voices| ==> !IsBritish(voices[j])
  {
    match FirstWhere(voices, IsBritishMale)
    case Some(i) => Some(i)
    case None => FirstWhere(voices, IsBritish)
  }

  /** `setVoice`: two linear passes over the voice list, each stopping at its first hit. */
  method SelectVoice(voices: seq<Voice>) returns (choice: Option<nat>)
    ensures choice == PreferredVoice(voices)
  {
    choice := None;
    for i := 0 to |voices|
      invariant choice == None
      invariant forall j :: 0 <= j < i ==> !IsBritishMale(voices[j])
    {
      if IsBritish(voices[i]) && HasMaleName(voices[i]) {
        choice := Some(i);
        break;
      }
    }
    if choice == None {
      for i := 0 to |voices|
        invariant choice == None
        invariant forall j :: 0 <= j < i ==> !IsBritish(voices[j])
      {
        if IsBritish(voices[i]) {
          choice := Some(i);
          break;
        }
      }
    }
    FirstWhereUnique(voices, IsBritishMale, FirstWhere(voices, IsBritishMale));
    FirstWhereUnique(voices, IsBritish, FirstWhere(voices, IsBritish));
  }

  /** The properties of `FirstWhere` determine its result. */
  lemma FirstWhereUnique(voices: seq<Voice>, p: Voice -> bool, r: Option<nat>)
    requires r.Some? ==> r.value < |voices| && p(voices[r.value])
    requires r.Some? ==> forall j :: 0 <= j < r.value ==> !p(voices[j])
    requires r.None? ==> forall j :: 0 <= j < |voices| ==> !p(voices[j])
    ensures FirstWhere(voices, p) == r
  {
  }

  /** A British voice with a male-sounding name wins over every other voice. */
  lemma MaleVoiceWins(voices: seq<Voice>, i: nat)
    requires i < |voices| && IsBritishMale(voices[i])
    requires forall j :: 0 <= j < i ==> !IsBritishMale(voices[j])
    ensures PreferredVoice(voices) == Some(i)
  {
    FirstWhereUnique(voices, IsBritishMale, Some(i));
  }

  /** With no male-sounding British voice, the first British voice is taken. */
  lemma FirstBritishVoiceOtherwise(voices: seq<Voice>, i: nat)
    requires forall j :: 0 <= j < |voices| ==> !IsBritishMale(voices[j])
    requires i < |voices| && IsBritish(voices[i])
    requires forall j :: 0 <= j < i ==> !IsBritish(voices[j])
    ensures PreferredVoice(voices) == Some(i)
  {
    FirstWhereUnique(voices, IsBritishMale, None);
    FirstWhereUnique(voices, IsBritish, Some(i));
  }

  /** Every name containing `Female` passes the name test, because `Female`
      contains `male`. */
  lemma FemaleNamePassesMaleTest(v: Voice)
    requires Contains(v.name, "Female")
    ensures HasMaleName(v)
  {
    ContainsIffOccurs(v.name, "Female");
    var i :| OccursAt(v.name, "Female", i);
    assert v.name[i + 2..i + 6] == v.name[i..i + 6][2..];
    assert OccursAt(v.name, "male", i + 2);
    ContainsIffOccurs(v.name, "male");
  }

  /** So a British voice named `Female` is chosen ahead of an earlier British
      voice with a neutral name. */
  lemma FemaleVoiceBeatsNeutralVoice()
    ensures PreferredVoice([Voice("en-GB", "Amy"), Voice("en-GB", "Female")]) == Some(1)
  {
    var amy, female := Voice("en-GB", "Amy"), Voice("en-GB", "Female");
    assert StartsWith("en-GB", "en-GB");
    assert StartsWith(female.name, "Female");
    FemaleNamePassesMaleTest(female);
    NoMarkerInAmy();
    MaleVoiceWins([amy, female], 1);
  }

  /** `Amy` contains none of the six name markers. */
  lemma NoMarkerInAmy()
    ensures !HasMaleName(Voice("en-GB", "Amy"))
  {
    forall sub | sub in ["Male", "male", "Boy", "boy", "Daniel", "George"]
      ensures !Contains("Amy", sub)
    {
      ContainsIffOccurs("Amy", sub);
      forall i ensures !OccursAt("Amy", sub, i) {
        if 0 <= i && i + |sub| <= 3 {
          assert i == 0 && |sub| == 3 && sub[0] != 'A';
          assert "Amy"[i..i + |sub|][0] == 'A';
        }
      }
    }
  }

  /** The speech request `speakText` issues for a reply. */
  datatype Utterance = Utterance(text: string, lang: string, voice: Option<Voice>)

  /** `speakText`: without a synthesiser nothing is spoken; otherwise the reply
      is spoken in `en-GB`, with the preferred voice when there is one. */
  method SpeakText(text: string, synthesisSupported: bool, voices: seq<Voice>) returns (u: Option<Utterance>)
    ensures !synthesisSupported ==> u == None
    ensures synthesisSupported ==> u.Some? && u.value.text == text && u.value.lang == "en-GB"
    ensures synthesisSupported ==> (u.value.voice ==
      match PreferredVoice(voices)
      case Some(i) => Some(voices[i])
      case None => None)
    ensures u.Some? && u.value.voice.Some? ==> IsBritish(u.value.voice.value)
  {
    if !synthesisSupported {
      return None;
    }
    var choice := SelectVoice(voices);
    var voice := if choice.Some? then Some(voices[choice.value]) else None;
    u := Some(Utterance(text, "en-GB", voice));
  }
}
