/**
 * Dictation (`onresult` of the speech recogniser): how the recogniser's
 * result list is folded into a final and an interim transcript, and what the
 * bot does with them.
 */
module VoiceInput {
  import opened Text

  /** One entry of `event.results`: its first alternative's transcript and whether it is final. */
  datatype SpeechResult = SpeechResult(transcript: string, isFinal: bool)

  /** Every final transcript, in order, each followed by a space. */
  function FinalText(rs: seq<SpeechResult>): string {
    if rs == [] then ""
    else
      FinalText(rs[..|rs| - 1]) + FinalPiece(rs[|rs| - 1])
  }

  /** Every interim transcript, in order, run together. */
  function InterimText(rs: seq<SpeechResult>): string {
    if rs == [] then ""
    else
      InterimText(rs[..|rs| - 1]) + InterimPiece(rs[|rs| - 1])
  }

  /** The final transcript is non-empty exactly when some result is final. */
  lemma {:induction false} FinalTextEmptyIff(rs: seq<SpeechResult>)
    ensures FinalText(rs) == "" <==> forall i :: 0 <= i < |rs| ==> !rs[i].isFinal
  {
    if rs != [] {
      var init := rs[..|rs| - 1];
      FinalTextEmptyIff(init);
      assert forall i :: 0 <= i < |init| ==> init[i] == rs[i];
    }
  }

  /** The part one result contributes to the final transcript. */
  function FinalPiece(r: SpeechResult): string {
    if r.isFinal then r.transcript + " " else ""
  }

  /** One more result adds its piece to the final transcript. */
  lemma FinalTextSnoc(rs: seq<SpeechResult>, r: SpeechResult)
    ensures FinalText(rs + [r]) == FinalText(rs) + FinalPiece(r)
  {
    var t := rs + [r];
    assert t[..|t| - 1] == rs && t[|t| - 1] == r;
  }

  /** The part one result contributes to the interim transcript. */
  function InterimPiece(r: SpeechResult): string {
    if r.isFinal then "" else r.transcript
  }

  /** One more result adds its piece to the interim transcript. */
  lemma InterimTextSnoc(rs: seq<SpeechResult>, r: SpeechResult)
    ensures InterimText(rs + [r]) == InterimText(rs) + InterimPiece(r)
  {
    var t := rs + [r];
    assert t[..|t| - 1] == rs && t[|t| - 1] == r;
  }

  /** Results are taken in order: the final transcript of a concatenation is
      the concatenation of the final transcripts. */
  lemma {:induction false} FinalTextAppend(a: seq<SpeechResult>, b: seq<SpeechResult>)
    ensures FinalText(a + b) == FinalText(a) + FinalText(b)
    decreases |b|
  {
    if b == [] {
      assert a + b == a;
    } else {
      var b', r := b[..|b| - 1], b[|b| - 1];
      assert b == b' + [r];
      AppendAssociative(a, b', [r]);
      FinalTextSnoc(a + b', r);
      FinalTextSnoc(b', r);
      FinalTextAppend(a, b');
      AppendAssociative(FinalText(a), FinalText(b'), FinalPiece(r));
    }
  }

  /** The same for the interim transcript. */
  lemma {:induction false} InterimTextAppend(a: seq<SpeechResult>, b: seq<SpeechResult>)
    ensures InterimText(a + b) == InterimText(a) + InterimText(b)
    decreases |b|
  {
    if b == [] {
      assert a + b == a;
    } else {
      var b', r := b[..|b| - 1], b[|b| - 1];
      assert b == b' + [r];
      AppendAssociative(a, b', [r]);
      InterimTextSnoc(a + b', r);
      InterimTextSnoc(b', r);
      InterimTextAppend(a, b');
      AppendAssociative(InterimText(a), InterimText(b'), InterimPiece(r));
    }
  }

  /** Taking one more result of `rs` extends both transcripts by its pieces. */
  lemma TranscriptsStep(rs: seq<SpeechResult>, j: nat)
    requires j < |rs|
    ensures FinalText(rs[..j + 1]) == FinalText(rs[..j]) + FinalPiece(rs[j])
    ensures InterimText(rs[..j + 1]) == InterimText(rs[..j]) + InterimPiece(rs[j])
  {
    assert rs[..j + 1] == rs[..j] + [rs[j]];
    FinalTextSnoc(rs[..j], rs[j]);
    InterimTextSnoc(rs[..j], rs[j]);
  }

  /** The position the loop starts from: `event.resultIndex`, or the end when it is past it. */
  function StartOf(results: seq<SpeechResult>, resultIndex: nat): (k: nat)
    ensures k <= |results|
    ensures k == resultIndex || (k == |results| && resultIndex > |results|)
  {
    if resultIndex <= |results| then resultIndex else |results|
  }

  /** The loop of `onresult`: results before `resultIndex` are skipped; from there on,
      final transcripts are collected each with a trailing space and interim ones as they are. */
  method CollectTranscripts(results: seq<SpeechResult>, resultIndex: nat)
    returns (finalTranscript: string, interimTranscript: string)
    ensures finalTranscript == FinalText(results[StartOf(results, resultIndex)..])
    ensures interimTranscript == InterimText(results[StartOf(results, resultIndex)..])
  {
    // A `resultIndex` past the end runs the loop zero times.
    var start := StartOf(results, resultIndex);
    finalTranscript, interimTranscript := ScanResults(results[start..]);
  }

  /** The loop of `onresult`, over the results from `resultIndex` on. */
  method ScanResults(recent: seq<SpeechResult>) returns (finalTranscript: string, interimTranscript: string)
    ensures finalTranscript == FinalText(recent)
    ensures interimTranscript == InterimText(recent)
  {
    finalTranscript, interimTranscript := "", "";
    for j := 0 to |recent|
      invariant finalTranscript == FinalText(recent[..j])
      invariant interimTranscript == InterimText(recent[..j])
    {
      TranscriptsStep(recent, j);
      var transcript := recent[j].transcript;
      if recent[j].isFinal {
        finalTranscript := finalTranscript + (transcript + " ");
      } else {
        interimTranscript := interimTranscript + transcript;
      }
    }
    assert recent[..|recent|] == recent;
  }

  /** The status line while listening, after a final result, and in front of interim text. */
  const ListeningStatus: string := "\U{1F3A4} Listening..."
  const GotItStatus: string := "\U{2713} Got it!"
  const InterimPrefix: string := "\U{1F3A4} "

  /** What `onresult` does once the transcripts are collected. */
  datatype ResultEffect =
    | TakeFinal(input: string, status: string)   // the input field and the status line are set
    | ShowInterim(status: string)                 // only the status line is set
    | NoEffect

  /** A non-empty final transcript wins and fills the input, trimmed; otherwise a
      non-empty interim transcript is only shown in the status line. */
  function ResultEffectOf(finalTranscript: string, interimTranscript: string): (e: ResultEffect)
    ensures e.TakeFinal? <==> finalTranscript != ""
    ensures e.TakeFinal? ==> e.input == Trim(finalTranscript) && e.status == GotItStatus
    ensures e.ShowInterim? ==> e.status == InterimPrefix + interimTranscript
    ensures e.NoEffect? <==> finalTranscript == "" && interimTranscript == ""
  {
    if finalTranscript != "" then TakeFinal(Trim(finalTranscript), GotItStatus)
    else if interimTranscript != "" then ShowInterim(InterimPrefix + interimTranscript)
    else NoEffect
  }

  /** As soon as one result is final, the input gets the trimmed final transcript
      and the interim transcript is ignored. */
  lemma FinalResultWins(rs: seq<SpeechResult>, k: nat)
    requires k < |rs| && rs[k].isFinal
    ensures ResultEffectOf(FinalText(rs), InterimText(rs)) == TakeFinal(Trim(FinalText(rs)), GotItStatus)
  {
    FinalTextEmptyIff(rs);
  }

  /** Without a final result the input field is never touched; interim text, if
      any, only reaches the status line. */
  lemma InterimOnlyTouchesStatus(rs: seq<SpeechResult>)
    requires forall i :: 0 <= i < |rs| ==> !rs[i].isFinal
    ensures var e := ResultEffectOf(FinalText(rs), InterimText(rs));
      && !e.TakeFinal?
      && (InterimText(rs) != "" ==> e == ShowInterim(InterimPrefix + InterimText(rs)))
  {
    FinalTextEmptyIff(rs);
  }

  /** A single final result puts its own transcript, trimmed, into the input:
      the space the loop appends does not survive. */
  lemma SingleFinalResultFillsInput(transcript: string)
    ensures var rs := [SpeechResult(transcript, true)];
      ResultEffectOf(FinalText(rs), InterimText(rs)) == TakeFinal(Trim(transcript), GotItStatus)
  {
    var rs := [SpeechResult(transcript, true)];
    assert rs[..0] == [];
    assert FinalText(rs) == transcript + " ";
    TrimDropsTrailingSpace(transcript);
  }
}
