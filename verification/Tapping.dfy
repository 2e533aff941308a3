/** The tap/hold decision machine of quantum/action_tapping.c, as a function from state to
    state: one call takes one event. Configuration of the keyboard: TAPPING_TERM_PER_KEY and
    PERMISSIVE_HOLD are defined, COMBO_ENABLE, TAPPING_FORCE_HOLD and HOLD_ON_OTHER_KEY_PRESS
    are not. The ring buffer appears here as the sequence of its entries. */
module Tapping {
  import opened TapRecords

  const BUFFER_SIZE := 8

  datatype State = State(tk: Record, buf: seq<Record>, log: seq<Emit>)

  const INIT := State(NO_RECORD, [], [])

  predicate IsTapping(st: State) {
    !IsNoEvent(st.tk.event)
  }

  /** A tapping key is held down and neither its tap nor its hold has been emitted yet. */
  predicate Undecided(st: State) {
    IsTapping(st) && st.tk.event.pressed && st.tk.tap.count == 0
  }

  predicate Within(env: Env, st: State, e: Event) {
    Elapsed(e.time, st.tk.event.time) < env.term(st.log, st.tk)
  }

  predicate IsTappingKeyRelease(st: State, e: Event) {
    IsTapping(st) && st.tk.event.key == e.key && !e.pressed
  }

  /** process_record: the empty event is ignored. */
  function Deliver(st: State, r: Record): State {
    if IsNoEvent(r.event) then st else st.(log := st.log + [Real(r)])
  }

  function WithCount(r: Record, n: nat): Record {
    r.(tap := r.tap.(count := n))
  }

  predicate Typed(buf: seq<Record>, e: Event) {
    exists i :: 0 <= i < |buf| && buf[i].event.key == e.key && buf[i].event.pressed != e.pressed
  }

  predicate EndsTap(env: Env, st: State, i: nat)
    requires i < |st.buf|
  {
    IsTappingKeyRelease(st, st.buf[i].event) && Within(env, st, st.buf[i].event)
  }

  /** The first buffered release of the tapping key within its term, from i on. */
  function FindTap(env: Env, st: State, i: nat): (j: nat)
    requires i <= |st.buf|
    ensures i <= j <= |st.buf|
    ensures forall k :: i <= k < j ==> !EndsTap(env, st, k)
    ensures j < |st.buf| ==> EndsTap(env, st, j)
    decreases |st.buf| - i
  {
    if i == |st.buf| || EndsTap(env, st, i) then i else FindTap(env, st, i + 1)
  }

  /** waiting_buffer_scan_tap */
  function ScanTap(env: Env, st: State): State {
    if st.tk.tap.count > 0 || !st.tk.event.pressed then st
    else
      var i := FindTap(env, st, 0);
      if i == |st.buf| then st
      else
        var tk := WithCount(st.tk, 1);
        Deliver(State(tk, st.buf[i := WithCount(st.buf[i], 1)], st.log), tk)
  }

  datatype Outcome = Outcome(st: State, keyp: Record, consumed: bool)

  /** A press of a tap key becomes the new tapping key. A last tap counted more than once is
      released first. */
  function StartTap(env: Env, st: State, r: Record): Outcome {
    var released := Synthetic(Record(Event(st.tk.event.key, false, r.event.time), st.tk.tap));
    var log := if st.tk.tap.count > 1 then st.log + [released] else st.log;
    Outcome(ScanTap(env, State(r, st.buf, log)), r, true)
  }

  /** The tapping key is held within its term and not counted as a tap. */
  function ProcessUndecided(env: Env, st: State, r: Record): Outcome {
    var e := r.event;
    var settled := Deliver(st, st.tk).(tk := NO_RECORD);
    if IsTappingKeyRelease(st, e) then
      var tk := WithCount(st.tk, 1);
      Outcome(Deliver(st.(tk := tk), tk), r.(tap := tk.tap), false)
    else if !IsNoEvent(e) && !e.pressed && Typed(st.buf, e) then
      Outcome(settled, r, false)
    else if !IsNoEvent(e) && !e.pressed then
      if env.retains(st.log, r) then Outcome(st, r, false) else Outcome(Deliver(st, r), r, true)
    else if e.pressed then
      Outcome(st.(tk := st.tk.(tap := st.tk.tap.(interrupted := true))), r, false)
    else
      Outcome(st, r, false)
  }

  /** The tapping key is held and its tap was emitted. */
  function ProcessTapHeld(env: Env, st: State, r: Record): Outcome {
    var e := r.event;
    if IsTappingKeyRelease(st, e) then
      var r1 := r.(tap := st.tk.tap);
      var next := if Within(env, st, e) then r1 else NO_RECORD;
      Outcome(Deliver(st, r1).(tk := next), r1, true)
    else if env.isTap(st.log, e.key) && e.pressed then
      StartTap(env, st, r)
    else
      Outcome(Deliver(st, r), r, true)
  }

  function SequentialCount(n: nat): nat {
    if n < 15 then n + 1 else n
  }

  /** The tapping key was tapped and released. */
  function ProcessTapReleased(env: Env, st: State, r: Record): Outcome {
    var e := r.event;
    if !Within(env, st, e) then
      Outcome(st.(tk := NO_RECORD), r, false)
    else if !e.pressed then
      Outcome(Deliver(st, r), r, true)
    else if st.tk.event.key == e.key then
      if !st.tk.tap.interrupted && st.tk.tap.count > 0 then
        var r1 := r.(tap := st.tk.tap.(count := SequentialCount(st.tk.tap.count)));
        Outcome(Deliver(st, r1).(tk := r1), r1, true)
      else
        Outcome(st.(tk := r), r, true)
    else if env.isTap(st.log, e.key) then
      Outcome(ScanTap(env, st.(tk := r)), r, true)
    else
      Outcome(Deliver(st.(tk := st.tk.(tap := st.tk.tap.(interrupted := true))), r), r, true)
  }

  /** process_tapping: consumed is false when the record must (still) wait in the buffer. */
  function Process(env: Env, st: State, r: Record): Outcome {
    if IsTapping(st) && st.tk.event.pressed then
      if st.tk.tap.count > 0 then ProcessTapHeld(env, st, r)
      else if Within(env, st, r.event) then ProcessUndecided(env, st, r)
      else Outcome(Deliver(st, st.tk).(tk := NO_RECORD), r, false)
    else if IsTapping(st) then
      ProcessTapReleased(env, st, r)
    else if r.event.pressed && env.isTap(st.log, r.event.key) then
      Outcome(ScanTap(env, st.(tk := r)), r, true)
    else
      Outcome(Deliver(st, r), r, true)
  }

  predicate IsFull(buf: seq<Record>) {
    |buf| >= BUFFER_SIZE - 1
  }

  /** waiting_buffer_enq, and what follows when it overflows. */
  function Enqueue(st: State, r: Record): State {
    if IsNoEvent(r.event) then st
    else if IsFull(st.buf) then State(NO_RECORD, [], st.log + [Cleared])
    else st.(buf := st.buf + [r])
  }

  lemma ProcessKeepsLength(env: Env, st: State, r: Record)
    ensures |Process(env, st, r).st.buf| == |st.buf|
  {
  }

  /** The loop that hands buffered records to process_tapping until one must wait. */
  function Drain(env: Env, st: State): State
    decreases |st.buf|
  {
    if st.buf == [] then st
    else
      var o := Process(env, st, st.buf[0]);
      ProcessKeepsLength(env, st, st.buf[0]);
      if o.consumed then Drain(env, o.st.(buf := o.st.buf[1..]))
      else o.st.(buf := o.st.buf[0 := o.keyp])
  }

  function Admit(env: Env, st: State, e: Event): State {
    var o := Process(env, st, Record(e, NO_TAP));
    if o.consumed then o.st else Enqueue(o.st, o.keyp)
  }

  /** action_tapping_process */
  function Step(env: Env, st: State, e: Event): State {
    Drain(env, Admit(env, st, e))
  }

  function Run(env: Env, events: seq<Event>): State {
    if events == [] then INIT
    else Step(env, Run(env, events[..|events| - 1]), events[|events| - 1])
  }

  predicate Overflows(env: Env, st: State, e: Event) {
    var o := Process(env, st, Record(e, NO_TAP));
    !o.consumed && !IsNoEvent(e) && IsFull(o.st.buf)
  }
}
