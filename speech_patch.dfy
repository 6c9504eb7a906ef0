/**
 * The speech patch as a two-state machine over the host's two speech entry
 * points and the patcher's two "original" slots, `None` meaning unpatched.
 */
module SpeechPatch {

  import opened Wrappers
  import opened Events

  /** The host's current `speak` and `pauseSpeech`, and the patcher's saved originals. */
  datatype SpeechState = SpeechState(
    speak: Callable,
    pauseSpeech: Callable,
    origSpeak: Option<Callable>,
    origPauseSpeech: Option<Callable>)
  {
    /** Both slots are filled together and cleared together. */
    predicate SlotsAgree() {
      origSpeak.None? == origPauseSpeech.None?
    }

    /** The guard both operations test: is `origSpeak` set? */
    predicate IsPatched() {
      origSpeak.Some?
    }
  }

  /**
   * `patchSpeech`: unless already patched, save both entry points and
   * install the replacements.
   */
  function Patch(s: SpeechState, speakRepl: Callable, pauseRepl: Callable): (r: SpeechState)
    ensures s.SlotsAgree() ==> r.SlotsAgree()
    ensures r.IsPatched()
    ensures s.IsPatched() ==> r == s
    ensures !s.IsPatched() ==>
              r.origSpeak == Some(s.speak) && r.origPauseSpeech == Some(s.pauseSpeech) &&
              r.speak == speakRepl && r.pauseSpeech == pauseRepl
  {
    if s.origSpeak.Some? then s
    else SpeechState(speakRepl, pauseRepl, Some(s.speak), Some(s.pauseSpeech))
  }

  /**
   * `unpatchSpeech`: unless not patched, put the saved originals back and
   * clear both slots.
   */
  function Unpatch(s: SpeechState): (r: SpeechState)
    requires s.SlotsAgree()
    ensures r.SlotsAgree() && !r.IsPatched()
    ensures !s.IsPatched() ==> r == s
    ensures s.IsPatched() ==>
              r.speak == s.origSpeak.value && r.pauseSpeech == s.origPauseSpeech.value
  {
    if s.origSpeak.None? then s
    else SpeechState(s.origSpeak.value, s.origPauseSpeech.value, None, None)
  }

  /** Patching twice is patching once: the saved originals are not replaced by the replacements. */
  lemma PatchIdempotent(s: SpeechState, speakRepl: Callable, pauseRepl: Callable)
    ensures Patch(Patch(s, speakRepl, pauseRepl), speakRepl, pauseRepl) == Patch(s, speakRepl, pauseRepl)
  {
  }

  /** Unpatching twice is unpatching once. */
  lemma UnpatchIdempotent(s: SpeechState)
    requires s.SlotsAgree()
    ensures Unpatch(Unpatch(s)) == Unpatch(s)
  {
  }

  /** Patching an unpatched state and unpatching it restores the exact host entry points and empty slots. */
  lemma PatchThenUnpatchRestores(s: SpeechState, speakRepl: Callable, pauseRepl: Callable)
    requires s.SlotsAgree() && !s.IsPatched()
    ensures Unpatch(Patch(s, speakRepl, pauseRepl)) == s
  {
  }

  /** The calls the patcher's owner can make: `register`/`patchSpeech` and `unregister`/`unpatchSpeech`. */
  datatype Op = PatchOp | UnpatchOp

  function Apply(s: SpeechState, op: Op, speakRepl: Callable, pauseRepl: Callable): (r: SpeechState)
    requires s.SlotsAgree()
    ensures r.SlotsAgree()
  {
    match op
    case PatchOp => Patch(s, speakRepl, pauseRepl)
    case UnpatchOp => Unpatch(s)
  }

  /** The state after a sequence of calls, applied in order. */
  function Run(s: SpeechState, ops: seq<Op>, speakRepl: Callable, pauseRepl: Callable): (r: SpeechState)
    requires s.SlotsAgree()
    ensures r.SlotsAgree()
    decreases |ops|
  {
    if |ops| == 0 then s else Run(Apply(s, ops[0], speakRepl, pauseRepl), ops[1..], speakRepl, pauseRepl)
  }

  /**
   * From a fresh patcher (both slots `None`), any sequence of patch and
   * unpatch calls leaves the host either exactly as it was or patched once:
   * the replacements are never wrapped around themselves and the originals
   * are never lost.
   */
  lemma {:induction false} RunStaysInTwoStates(s0: SpeechState, s: SpeechState, ops: seq<Op>, speakRepl: Callable, pauseRepl: Callable)
    requires s0.SlotsAgree() && !s0.IsPatched()
    requires s == s0 || s == Patch(s0, speakRepl, pauseRepl)
    ensures s.SlotsAgree()
    ensures Run(s, ops, speakRepl, pauseRepl) == s0 || Run(s, ops, speakRepl, pauseRepl) == Patch(s0, speakRepl, pauseRepl)
    decreases |ops|
  {
    if |ops| > 0 {
      var t := Apply(s, ops[0], speakRepl, pauseRepl);
      if s == s0 {
        assert t == s0 || t == Patch(s0, speakRepl, pauseRepl);
      } else {
        PatchThenUnpatchRestores(s0, speakRepl, pauseRepl);
        assert t == s0 || t == Patch(s0, speakRepl, pauseRepl);
      }
      RunStaysInTwoStates(s0, t, ops[1..], speakRepl, pauseRepl);
    }
  }
}
