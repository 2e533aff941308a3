/** Which records the dynamic macros (quantum/dynamic_macro.h) pass on to the rest of the firmware, and what they do
    besides: read off the inputs alone. */
module MacroPassing {
  import opened MacroRecording
  import opened TapRecords

  // ---------- when a recording goes on ----------

  predicate IsStart(i: Input) {
    i.code.RecStart? && !i.record.event.pressed
  }

  /** A recording goes on after these inputs: its start key was released after the last press of the stop key
      that ended one, or it went on from before. */
  predicate GoesOn(before: bool, inputs: seq<Input>) {
    if inputs == [] then before
    else
      var last := inputs[|inputs| - 1];
      if GoesOn(before, inputs[..|inputs| - 1]) then !(last.code.RecStop? && last.record.event.pressed)
      else IsStart(last)
  }

  lemma {:induction false} GoesOnIsRecording(s: State, size: nat, inputs: seq<Input>)
    ensures Run(s, size, inputs).Recording? <==> GoesOn(s.Recording?, inputs)
  {
    if inputs != [] {
      GoesOnIsRecording(s, size, inputs[..|inputs| - 1]);
    }
  }

  // ---------- what is passed on ----------

  /** The release of a start or play key while nothing is recorded, or a stop or play key during a recording */
  predicate KeptBack(recording: bool, i: Input) {
    if recording then i.code.RecStop? || i.code.Play?
    else !i.record.event.pressed && (i.code.RecStart? || i.code.Play?)
  }

  /** The answer to input n */
  predicate PassedOn(s: State, size: nat, inputs: seq<Input>, n: nat)
    requires n < |inputs|
  {
    Step(Run(s, size, inputs[..n]), size, inputs[n]).passOn
  }

  /** In every run a record is kept back if and only if it is the release of a start or play key while nothing is
      recorded, or of a stop or play key during a recording. */
  lemma PassedOnExactly(s: State, size: nat, inputs: seq<Input>, n: nat)
    requires n < |inputs|
    ensures PassedOn(s, size, inputs, n) <==> !KeptBack(GoesOn(s.Recording?, inputs[..n]), inputs[n])
  {
    GoesOnIsRecording(s, size, inputs[..n]);
  }

  /** The records of all other keys that the first n inputs passed on */
  function Passed(s: State, size: nat, inputs: seq<Input>, n: nat): seq<Record>
    requires n <= |inputs|
  {
    if n == 0 then []
    else
      Passed(s, size, inputs, n - 1)
      + if inputs[n - 1].code.OtherCode? && PassedOn(s, size, inputs, n - 1) then [inputs[n - 1].record] else []
  }

  /** The records of all other keys */
  function Others(inputs: seq<Input>, n: nat): seq<Record>
    requires n <= |inputs|
  {
    if n == 0 then []
    else Others(inputs, n - 1) + if inputs[n - 1].code.OtherCode? then [inputs[n - 1].record] else []
  }

  /** No other key is ever lost: in every run all their records are passed on, in order. */
  lemma {:induction false} OthersArePassed(s: State, size: nat, inputs: seq<Input>, n: nat)
    requires n <= |inputs|
    ensures Passed(s, size, inputs, n) == Others(inputs, n)
  {
    if n > 0 {
      OthersArePassed(s, size, inputs, n - 1);
      PassedOnExactly(s, size, inputs, n - 1);
    }
  }

  // ---------- what else is done ----------

  /** The keyboard and the layers cleared, the records one after the other, and the keyboard cleared again */
  predicate IsPlayback(acts: seq<Act>, macro: seq<Record>) {
    && |acts| == |macro| + 3 && acts[0] == ClearKeyboard && acts[1] == ClearLayers && acts[|macro| + 2] == ClearKeyboard
    && forall i :: 0 <= i < |macro| ==> acts[i + 2] == Replay(macro[i])
  }

  lemma {:induction false} ReplaysAll(rs: seq<Record>)
    ensures |Replays(rs)| == |rs| && forall i :: 0 <= i < |rs| ==> Replays(rs)[i] == Replay(rs[i])
  {
    if rs != [] { ReplaysAll(rs[..|rs| - 1]); }
  }

  /** The start of a recording clears the keyboard and the layers, a play key plays the macro of its slot, and
      nothing else does anything. */
  predicate Does(t: State, acting: bool, code: Code, acts: seq<Act>) {
    if !acting || !t.Idle? then acts == []
    else
      match code
      case RecStart(_) => acts == [ClearKeyboard, ClearLayers]
      case Play(slot) => IsPlayback(acts, if slot == One then t.first else t.second)
      case _ => acts == []
  }

  lemma PlaybackIsPlaying(macro: seq<Record>)
    ensures IsPlayback(Playing(macro), macro)
  {
    ReplaysAll(macro);
  }

  lemma StepDoes(t: State, size: nat, input: Input)
    ensures Does(t, !input.record.event.pressed, input.code, Step(t, size, input).acts)
  {
    if t.Idle? {
      PlaybackIsPlaying(t.first);
      PlaybackIsPlaying(t.second);
    }
  }

  /** In every run only the release of a start or play key while nothing is recorded does anything. */
  lemma ActsExactly(s: State, size: nat, inputs: seq<Input>, n: nat)
    requires n < |inputs|
    ensures var t, acting := Run(s, size, inputs[..n]), !GoesOn(s.Recording?, inputs[..n]);
      && (acting <==> t.Idle?)
      && Does(t, acting && !inputs[n].record.event.pressed, inputs[n].code, Step(t, size, inputs[n]).acts)
  {
    GoesOnIsRecording(s, size, inputs[..n]);
    StepDoes(Run(s, size, inputs[..n]), size, inputs[n]);
  }
}
