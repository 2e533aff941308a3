/** What the tap/hold machine decides (quantum/action_tapping.c): which count the press of a tap key
    is handed on with, for a tap, a hold, a key typed while it is held, and a key rolled over it. */
module TapDecisions {
  import opened TapRecords
  import opened Tapping

  /** Nothing waits and no tap is going on. */
  predicate Idle(st: State) {
    st.buf == [] && !IsTapping(st)
  }

  function Steps(env: Env, st: State, events: seq<Event>): State
    decreases |events|
  {
    if events == [] then st else Steps(env, Step(env, st, events[0]), events[1..])
  }

  function With(e: Event, count: nat, interrupted: bool): Emit {
    Real(Record(e, Tap(count, interrupted)))
  }

  predicate Press(e: Event) {
    !IsNoEvent(e) && e.pressed
  }

  predicate ReleaseOf(e: Event, p: Event) {
    !IsNoEvent(e) && !e.pressed && e.key == p.key
  }

  predicate InTerm(env: Env, log: seq<Emit>, p: Record, e: Event) {
    Elapsed(e.time, p.event.time) < env.term(log, p)
  }

  /** Within the term of an undecided tap key, whether or not another key was pressed meanwhile */
  predicate WhileHeld(env: Env, log: seq<Emit>, p: Event, e: Event) {
    InTerm(env, log, Record(p, NO_TAP), e) && InTerm(env, log, Record(p, Tap(0, true)), e)
  }

  /** The press of a tap key is kept back. */
  lemma TapKeyWaits(env: Env, st: State, p: Event)
    requires Idle(st) && Press(p) && env.isTap(st.log, p.key)
    ensures Step(env, st, p) == State(Record(p, NO_TAP), [], st.log)
  {
  }

  /** Released within its term: a tap, press and release with count 1. */
  lemma QuickTap(env: Env, st: State, p: Event, r: Event)
    requires Idle(st) && Press(p) && env.isTap(st.log, p.key) && ReleaseOf(r, p)
    requires InTerm(env, st.log, Record(p, NO_TAP), r)
    ensures Steps(env, st, [p, r]).log == st.log + [With(p, 1, false), With(r, 1, false)]
    ensures Steps(env, st, [p, r]).buf == []
  {
    TapKeyWaits(env, st, p);
    var s1 := Step(env, st, p);
    var a := Admit(env, s1, r);
    var log := st.log + [With(p, 1, false)];
    assert a == State(Record(p, Tap(1, false)), [Record(r, Tap(1, false))], log);
    var o := Process(env, a, a.buf[0]);
    assert o.consumed && o.st.log == log + [With(r, 1, false)] && o.st.buf[1..] == [];
    assert Drain(env, a) == Drain(env, o.st.(buf := []));
    StepsTwo(env, st, p, r);
  }

  lemma StepsTwo(env: Env, st: State, a: Event, b: Event)
    ensures Steps(env, st, [a, b]) == Step(env, Step(env, st, a), b)
  {
    assert [a, b][1..] == [b] && [b][1..] == [];
    assert Steps(env, Step(env, st, a), [b]) == Step(env, Step(env, st, a), b);
  }

  lemma StepsThree(env: Env, st: State, a: Event, b: Event, c: Event)
    ensures Steps(env, st, [a, b, c]) == Step(env, Step(env, Step(env, st, a), b), c)
  {
    assert [a, b, c][1..] == [b, c];
    StepsTwo(env, Step(env, st, a), b, c);
  }

  /** Released after its term: a hold, press and release with count 0. */
  lemma LongHold(env: Env, st: State, p: Event, r: Event)
    requires Idle(st) && Press(p) && env.isTap(st.log, p.key) && ReleaseOf(r, p)
    requires !InTerm(env, st.log, Record(p, NO_TAP), r)
    ensures Steps(env, st, [p, r]).log == st.log + [With(p, 0, false), With(r, 0, false)]
    ensures Idle(Steps(env, st, [p, r]))
  {
    TapKeyWaits(env, st, p);
    var s1 := Step(env, st, p);
    var a := Admit(env, s1, r);
    var log := st.log + [With(p, 0, false)];
    assert a == State(NO_RECORD, [Record(r, NO_TAP)], log);
    assert a.buf[1..] == [];
    assert Drain(env, a) == Drain(env, State(NO_RECORD, [], log + [With(r, 0, false)]));
    StepsTwo(env, st, p, r);
  }

  /** Another key pressed and released while it is held, within its term: a hold, and the other key
      after it (permissive hold). */
  lemma PermissiveHold(env: Env, st: State, p: Event, q: Event, r: Event)
    requires Idle(st) && Press(p) && env.isTap(st.log, p.key)
    requires Press(q) && q.key != p.key && ReleaseOf(r, q)
    requires WhileHeld(env, st.log, p, q) && WhileHeld(env, st.log, p, r)
    requires !env.isTap(st.log + [With(p, 0, true)], q.key)
    ensures Steps(env, st, [p, q, r]).log == st.log + [With(p, 0, true), With(q, 0, false), With(r, 0, false)]
    ensures Idle(Steps(env, st, [p, q, r]))
  {
    TapKeyWaits(env, st, p);
    var s1 := Step(env, st, p);
    PressWaits(env, s1, q);
    var s2 := Step(env, s1, q);
    var a := Admit(env, s2, r);
    assert s2.buf[0].event == q;
    var log := st.log + [With(p, 0, true)];
    assert a == State(NO_RECORD, [Record(q, NO_TAP), Record(r, NO_TAP)], log);
    DrainTwo(env, a, q, r);
    StepsThree(env, st, p, q, r);
  }

  /** A press within the term waits behind the undecided tap key. */
  lemma PressWaits(env: Env, s: State, q: Event)
    requires s.buf == [] && Press(s.tk.event) && s.tk.tap == NO_TAP && Press(q) && q.key != s.tk.event.key
    requires InTerm(env, s.log, s.tk, q) && InTerm(env, s.log, s.tk.(tap := Tap(0, true)), q)
    ensures Step(env, s, q) == State(s.tk.(tap := Tap(0, true)), [Record(q, NO_TAP)], s.log)
  {
    var a := Admit(env, s, q);
    assert a == State(s.tk.(tap := Tap(0, true)), [Record(q, NO_TAP)], s.log);
  }

  lemma DrainTwo(env: Env, a: State, q: Event, r: Event)
    requires !IsTapping(a) && a.buf == [Record(q, NO_TAP), Record(r, NO_TAP)] && Press(q) && ReleaseOf(r, q)
    requires !env.isTap(a.log, q.key)
    ensures Drain(env, a) == State(a.tk, [], a.log + [With(q, 0, false), With(r, 0, false)])
  {
    var b := a.(log := a.log + [With(q, 0, false)], buf := [Record(r, NO_TAP)]);
    assert a.buf[1..] == b.buf && b.buf[1..] == [];
    assert Drain(env, b) == State(a.tk, [], b.log + [With(r, 0, false)]);
    assert b.log + [With(r, 0, false)] == a.log + [With(q, 0, false), With(r, 0, false)];
  }

  /** Another key pressed while it is held, but the tap key released first and within its term: a tap,
      and the other key's press between its press and its release. */
  lemma RolledOver(env: Env, st: State, p: Event, q: Event, r: Event)
    requires Idle(st) && Press(p) && env.isTap(st.log, p.key)
    requires Press(q) && q.key != p.key && ReleaseOf(r, p)
    requires WhileHeld(env, st.log, p, q) && WhileHeld(env, st.log, p, r)
    requires !env.isTap(st.log + [With(p, 1, true)], q.key)
    ensures Steps(env, st, [p, q, r]).log == st.log + [With(p, 1, true), With(q, 0, false), With(r, 1, true)]
    ensures Steps(env, st, [p, q, r]).buf == []
  {
    TapKeyWaits(env, st, p);
    var s1 := Step(env, st, p);
    PressWaits(env, s1, q);
    var s2 := Step(env, s1, q);
    var a := Admit(env, s2, r);
    var tk := Record(p, Tap(1, true));
    assert a == State(tk, [Record(q, NO_TAP), Record(r, tk.tap)], st.log + [Real(tk)]);
    var b := State(tk, [Record(r, tk.tap)], a.log + [With(q, 0, false)]);
    assert a.buf[1..] == b.buf && b.buf[1..] == [];
    assert Process(env, a, a.buf[0]).consumed;
    assert Drain(env, a) == Drain(env, b);
    var o := Process(env, b, b.buf[0]);
    assert o.consumed && o.st.log == b.log + [With(r, 1, true)] && o.st.buf[1..] == [];
    assert Drain(env, b) == Drain(env, o.st.(buf := []));
    StepsThree(env, st, p, q, r);
  }

  /** The release of a key that was pressed before the tap key does not wait for the decision, unless
      it must be retained. */
  lemma EarlierKeyReleased(env: Env, st: State, p: Event, r: Event)
    requires Idle(st) && Press(p) && env.isTap(st.log, p.key)
    requires !IsNoEvent(r) && !r.pressed && r.key != p.key && InTerm(env, st.log, Record(p, NO_TAP), r)
    ensures var retained := env.retains(st.log, Record(r, NO_TAP));
      Steps(env, st, [p, r])
      == State(Record(p, NO_TAP), if retained then [Record(r, NO_TAP)] else [],
               if retained then st.log else st.log + [With(r, 0, false)])
  {
    TapKeyWaits(env, st, p);
    var s1 := Step(env, st, p);
    var a := Admit(env, s1, r);
    if env.retains(st.log, Record(r, NO_TAP)) {
      assert a == State(s1.tk, [Record(r, NO_TAP)], st.log);
      assert !Process(env, a, a.buf[0]).consumed;
    }
    StepsTwo(env, st, p, r);
  }
}
