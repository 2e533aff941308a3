/** Repeated taps (quantum/action_tapping.c): the count with which each press and release of a tap key is handed on
    when it is tapped several times in turn, and what ends the series. */
module TapCounts {
  import opened TapDecisions
  import opened TapRecords
  import opened Tapping

  /** Event times wrap around after 65.536 seconds. */
  lemma EventTimer(later: Time, earlier: Time)
    ensures Elapsed(later, earlier) == if earlier <= later then later - earlier else later + 65536 - earlier
  {
  }

  /** The count of the k-th tap, as its four bits hold it */
  function CountOf(k: nat): nat {
    if k <= 15 then k else 15
  }

  /** Presses and releases of one key in turn: tap k + 1 is the press 2 * k with the release behind it. */
  predicate InPairs(es: seq<Event>) {
    && |es| % 2 == 0
    && forall k :: 0 <= k < |es| / 2 ==> PairAt(es, k)
  }

  predicate PairAt(es: seq<Event>, k: nat)
    requires 2 * k + 1 < |es|
  {
    Press(es[2 * k]) && ReleaseOf(es[2 * k + 1], es[2 * k]) && es[2 * k].key == es[0].key
  }

  /** What is handed on for the first k taps */
  function Counted(es: seq<Event>, k: nat): seq<Emit>
    requires 2 * k <= |es|
  {
    if k == 0 then []
    else Counted(es, k - 1) + [With(es[2 * k - 2], CountOf(k), false), With(es[2 * k - 1], CountOf(k), false)]
  }

  /** Tap k + 1 begins within the term of the release before it, and ends within the term of its press. */
  predicate QuickAt(env: Env, log: seq<Emit>, es: seq<Event>, k: nat)
    requires 2 * k + 1 < |es|
  {
    var before := log + Counted(es, k);
    if k == 0 then
      && InTerm(env, log, Record(es[0], NO_TAP), es[1])
      && InTerm(env, log + [With(es[0], 1, false)], Record(es[0], Tap(1, false)), es[1])
    else
      && InTerm(env, before, Record(es[2 * k - 1], Tap(CountOf(k), false)), es[2 * k])
      && InTerm(env, before + [With(es[2 * k], CountOf(k + 1), false)],
                Record(es[2 * k], Tap(CountOf(k + 1), false)), es[2 * k + 1])
  }

  predicate Quick(env: Env, log: seq<Emit>, es: seq<Event>)
    requires |es| % 2 == 0
  {
    forall k :: 0 <= k < |es| / 2 ==> QuickAt(env, log, es, k)
  }

  /** The state in which a tap has been counted and released */
  predicate Tapped(st: State, r: Event, count: nat) {
    st.tk == Record(r, Tap(count, false)) && st.buf == []
  }

  lemma {:induction false} StepsMore(env: Env, st: State, a: seq<Event>, b: seq<Event>)
    ensures Steps(env, st, a + b) == Steps(env, Steps(env, st, a), b)
    decreases |a|
  {
    if a == [] {
      assert a + b == b;
    } else {
      assert (a + b)[1..] == a[1..] + b;
      StepsMore(env, Step(env, st, a[0]), a[1..], b);
    }
  }

  /** The first tap leaves the key tapped once, if it ends within the term of its press as counted. */
  lemma FirstTap(env: Env, st: State, p: Event, r: Event)
    requires Idle(st) && Press(p) && env.isTap(st.log, p.key) && ReleaseOf(r, p)
    requires InTerm(env, st.log, Record(p, NO_TAP), r)
    requires InTerm(env, st.log + [With(p, 1, false)], Record(p, Tap(1, false)), r)
    ensures var t := Steps(env, st, [p, r]);
      Tapped(t, r, 1) && t.log == st.log + [With(p, 1, false), With(r, 1, false)]
  {
    TapKeyWaits(env, st, p);
    var s1 := Step(env, st, p);
    var a := Admit(env, s1, r);
    var log := st.log + [With(p, 1, false)];
    assert a == State(Record(p, Tap(1, false)), [Record(r, Tap(1, false))], log);
    var o := Process(env, a, a.buf[0]);
    assert o.consumed && o.st.log == log + [With(r, 1, false)] && o.st.buf[1..] == [];
    assert o.st.tk == Record(r, Tap(1, false));
    assert Drain(env, a) == Drain(env, o.st.(buf := []));
    StepsTwo(env, st, p, r);
  }

  /** One more press within the term: handed on at once with the next count. */
  lemma PressCounts(env: Env, st: State, r: Event, k: nat, p: Event)
    requires 0 < k && Tapped(st, r, CountOf(k)) && !IsNoEvent(r) && !r.pressed && Press(p) && p.key == r.key
    requires InTerm(env, st.log, st.tk, p)
    ensures Step(env, st, p)
            == State(Record(p, Tap(CountOf(k + 1), false)), [], st.log + [With(p, CountOf(k + 1), false)])
  {
  }

  lemma ReleaseCounts(env: Env, st: State, p: Event, count: nat, r: Event)
    requires 0 < count && st.tk == Record(p, Tap(count, false)) && st.buf == [] && Press(p) && ReleaseOf(r, p)
    requires InTerm(env, st.log, st.tk, r)
    ensures Tapped(Step(env, st, r), r, count) && Step(env, st, r).log == st.log + [With(r, count, false)]
  {
  }

  lemma {:induction false} CountedPrefix(es: seq<Event>, m: nat, k: nat)
    requires 2 * k <= m <= |es|
    ensures Counted(es[..m], k) == Counted(es, k)
  {
    if k > 0 { CountedPrefix(es, m, k - 1); }
  }

  /** A series of taps without its last */
  predicate Series(env: Env, log: seq<Emit>, es: seq<Event>) {
    InPairs(es) && Quick(env, log, es)
  }

  lemma SeriesPrefix(env: Env, log: seq<Emit>, es: seq<Event>)
    requires Series(env, log, es) && |es| >= 4
    ensures Series(env, log, es[..|es| - 2])
  {
    var init := es[..|es| - 2];
    forall k | 0 <= k < |init| / 2
      ensures PairAt(init, k) && QuickAt(env, log, init, k)
    {
      assert PairAt(es, k) && QuickAt(env, log, es, k);
      CountedPrefix(es, |es| - 2, k);
    }
  }

  /** One more tap */
  lemma TapCountsOn(env: Env, st: State, r: Event, k: nat, p: Event, r2: Event)
    requires 0 < k && Tapped(st, r, CountOf(k)) && !IsNoEvent(r) && !r.pressed
    requires Press(p) && p.key == r.key && ReleaseOf(r2, p)
    requires InTerm(env, st.log, Record(r, Tap(CountOf(k), false)), p)
    requires InTerm(env, st.log + [With(p, CountOf(k + 1), false)], Record(p, Tap(CountOf(k + 1), false)), r2)
    ensures var t := Steps(env, st, [p, r2]);
      && Tapped(t, r2, CountOf(k + 1))
      && t.log == st.log + [With(p, CountOf(k + 1), false), With(r2, CountOf(k + 1), false)]
  {
    PressCounts(env, st, r, k, p);
    ReleaseCounts(env, Step(env, st, p), p, CountOf(k + 1), r2);
    StepsTwo(env, st, p, r2);
  }

  /** What the last tap of a series is known to meet */
  lemma LastPair(es: seq<Event>)
    requires InPairs(es) && |es| >= 4
    ensures var p, r := es[|es| - 2], es[|es| - 1];
      && !IsNoEvent(es[|es| - 3]) && !es[|es| - 3].pressed && es[|es| - 3].key == p.key
      && Press(p) && ReleaseOf(r, p)
  {
    var n := |es| / 2;
    assert 2 * n == |es|;
    assert PairAt(es, n - 1) && PairAt(es, n - 2);
  }

  lemma LastQuick(env: Env, log: seq<Emit>, es: seq<Event>, k: nat)
    requires 0 < k && |es| == 2 * k + 2 && Quick(env, log, es)
    ensures var p, r := es[2 * k], es[2 * k + 1];
      var before := log + Counted(es, k);
      && InTerm(env, before, Record(es[2 * k - 1], Tap(CountOf(k), false)), p)
      && InTerm(env, before + [With(p, CountOf(k + 1), false)], Record(p, Tap(CountOf(k + 1), false)), r)
  {
    assert QuickAt(env, log, es, k);
  }

  predicate Result(env: Env, st: State, es: seq<Event>)
    requires es != []
  {
    && Tapped(Steps(env, st, es), es[|es| - 1], CountOf(|es| / 2))
    && Steps(env, st, es).log == st.log + Counted(es, |es| / 2)
  }

  lemma StepsLastTwo(env: Env, st: State, es: seq<Event>, k: nat)
    requires |es| == 2 * k + 2
    ensures Steps(env, st, es) == Steps(env, Steps(env, st, es[..2 * k]), [es[2 * k], es[2 * k + 1]])
  {
    StepsMore(env, st, es[..2 * k], [es[2 * k], es[2 * k + 1]]);
    assert es == es[..2 * k] + [es[2 * k], es[2 * k + 1]];
  }

  lemma LastTap(env: Env, st: State, es: seq<Event>, k: nat)
    requires 0 < k && |es| == 2 * k + 2 && Series(env, st.log, es) && Result(env, st, es[..2 * k])
    ensures Result(env, st, es)
  {
    var init, p, r := es[..2 * k], es[2 * k], es[2 * k + 1];
    CountedPrefix(es, 2 * k, k);
    LastPair(es);
    LastQuick(env, st.log, es, k);
    TapCountsOn(env, Steps(env, st, init), es[2 * k - 1], k, p, r);
    StepsLastTwo(env, st, es, k);
  }

  /** A tap key pressed and released n times in turn, each time within the term: the k-th press and its release are
      handed on with count k, from the fifteenth on with 15. */
  lemma {:induction false} TapsCount(env: Env, st: State, es: seq<Event>)
    requires Idle(st) && es != [] && Series(env, st.log, es) && env.isTap(st.log, es[0].key)
    ensures Tapped(Steps(env, st, es), es[|es| - 1], CountOf(|es| / 2))
    ensures Steps(env, st, es).log == st.log + Counted(es, |es| / 2)
    decreases |es|
  {
    if |es| == 2 {
      OneTap(env, st, es);
    } else {
      SeriesPrefix(env, st.log, es);
      TapsCount(env, st, es[..|es| - 2]);
      LastTap(env, st, es, |es| / 2 - 1);
    }
  }

  lemma OneTap(env: Env, st: State, es: seq<Event>)
    requires Idle(st) && |es| == 2 && Series(env, st.log, es) && env.isTap(st.log, es[0].key)
    ensures Result(env, st, es)
  {
    assert PairAt(es, 0) && QuickAt(env, st.log, es, 0);
    FirstTap(env, st, es[0], es[1]);
    assert es == [es[0], es[1]];
    assert Counted(es, 1) == Counted(es, 0) + [With(es[0], 1, false), With(es[1], 1, false)];
  }

  // ---------- what follows a series ----------

  lemma LastRelease(env: Env, log: seq<Emit>, es: seq<Event>)
    requires Series(env, log, es) && es != []
    ensures var r := es[|es| - 1]; !IsNoEvent(r) && !r.pressed && r.key == es[0].key
  {
    assert PairAt(es, |es| / 2 - 1);
  }

  lemma StepsLast(env: Env, st: State, es: seq<Event>, e: Event)
    ensures Steps(env, st, es + [e]) == Step(env, Steps(env, st, es), e)
  {
    StepsMore(env, st, es, [e]);
    assert [e][1..] == [];
    assert Steps(env, Step(env, Steps(env, st, es), e), []) == Step(env, Steps(env, st, es), e);
  }

  /** The next press within the term is handed on at once, counted one higher, before its release. */
  lemma NextPressCounts(env: Env, st: State, es: seq<Event>, p: Event)
    requires Idle(st) && es != [] && Series(env, st.log, es) && env.isTap(st.log, es[0].key)
    requires Press(p) && p.key == es[0].key
    requires InTerm(env, st.log + Counted(es, |es| / 2), Record(es[|es| - 1], Tap(CountOf(|es| / 2), false)), p)
    ensures Steps(env, st, es + [p]).log
            == st.log + Counted(es, |es| / 2) + [With(p, CountOf(|es| / 2 + 1), false)]
  {
    TapsCount(env, st, es);
    LastRelease(env, st.log, es);
    PressCounts(env, Steps(env, st, es), es[|es| - 1], |es| / 2, p);
    StepsLast(env, st, es, p);
  }

  /** A press of the key that comes after the term starts a new decision: nothing is handed on yet. */
  lemma LatePressWaits(env: Env, st: State, r: Event, count: nat, p: Event)
    requires Tapped(st, r, count) && !IsNoEvent(r) && !r.pressed && Press(p) && p.key == r.key
    requires !InTerm(env, st.log, st.tk, p) && env.isTap(st.log, p.key)
    ensures Step(env, st, p) == State(Record(p, NO_TAP), [], st.log)
  {
    var a := Admit(env, st, p);
    assert a == State(NO_RECORD, [Record(p, NO_TAP)], st.log);
    assert Process(env, a, a.buf[0]) == Outcome(State(Record(p, NO_TAP), a.buf, st.log), a.buf[0], true);
    assert a.buf[1..] == [];
    assert Drain(env, a) == Drain(env, State(Record(p, NO_TAP), [], st.log));
  }

  /** Another key typed between two taps, within the term: it is handed on at once, and the next press of the tap key
      starts undecided, without a count. */
  lemma InterruptedStartsAgain(env: Env, st: State, r: Event, count: nat, q: Event, u: Event, p: Event)
    requires Tapped(st, r, count) && !IsNoEvent(r) && !r.pressed && Press(p) && p.key == r.key
    requires Press(q) && q.key != r.key && ReleaseOf(u, q) && !env.isTap(st.log, q.key)
    requires InTerm(env, st.log, st.tk, q)
    requires InTerm(env, st.log + [With(q, 0, false)], Record(r, Tap(count, true)), u)
    requires InTerm(env, st.log + [With(q, 0, false)] + [With(u, 0, false)], Record(r, Tap(count, true)), p)
    ensures Steps(env, st, [q, u, p])
            == State(Record(p, NO_TAP), [], st.log + [With(q, 0, false), With(u, 0, false)])
  {
    var s1 := State(Record(r, Tap(count, true)), [], st.log + [With(q, 0, false)]);
    assert Step(env, st, q) == s1;
    var s2 := s1.(log := s1.log + [With(u, 0, false)]);
    assert Step(env, s1, u) == s2;
    assert Step(env, s2, p) == State(Record(p, NO_TAP), [], s2.log);
    StepsThree(env, st, q, u, p);
  }

  /** A tick within the term changes nothing, whether the key is held after its tap or released. */
  lemma TickInTerm(env: Env, st: State, t: Time)
    requires IsTapping(st) && st.buf == [] && (st.tk.event.pressed ==> st.tk.tap.count > 0)
    requires InTerm(env, st.log, st.tk, Event(TICK_KEY, false, t)) && st.tk.event.key != TICK_KEY
    ensures Step(env, st, Event(TICK_KEY, false, t)) == st
  {
  }

  // ---------- other keys between press and release ----------

  /** A tap key pressed and released while another is held undecided: the outer key is a hold, and the inner one,
      whose release is found waiting, a tap. */
  lemma NestedTap(env: Env, st: State, p: Event, q: Event, r: Event)
    requires Idle(st) && Press(p) && env.isTap(st.log, p.key)
    requires Press(q) && q.key != p.key && ReleaseOf(r, q)
    requires WhileHeld(env, st.log, p, q) && WhileHeld(env, st.log, p, r)
    requires env.isTap(st.log + [With(p, 0, true)], q.key)
    requires InTerm(env, st.log + [With(p, 0, true)], Record(q, NO_TAP), r)
    ensures Steps(env, st, [p, q, r]).log == st.log + [With(p, 0, true), With(q, 1, false), With(r, 1, false)]
    ensures Steps(env, st, [p, q, r]).buf == []
  {
    TapKeyWaits(env, st, p);
    var s1 := Step(env, st, p);
    PressWaits(env, s1, q);
    var s2 := Step(env, s1, q);
    var log := st.log + [With(p, 0, true)];
    assert Admit(env, s2, r) == State(NO_RECORD, [Record(q, NO_TAP), Record(r, NO_TAP)], log);
    NestedDrain(env, log, q, r);
    StepsThree(env, st, p, q, r);
  }

  lemma NestedDrain(env: Env, log: seq<Emit>, q: Event, r: Event)
    requires Press(q) && ReleaseOf(r, q) && env.isTap(log, q.key) && InTerm(env, log, Record(q, NO_TAP), r)
    ensures var t := Drain(env, State(NO_RECORD, [Record(q, NO_TAP), Record(r, NO_TAP)], log));
      t.log == log + [With(q, 1, false), With(r, 1, false)] && t.buf == []
  {
    var a := State(NO_RECORD, [Record(q, NO_TAP), Record(r, NO_TAP)], log);
    var tk := Record(q, Tap(1, false));
    var b := State(tk, [Record(q, NO_TAP), Record(r, tk.tap)], log + [Real(tk)]);
    assert Process(env, a, a.buf[0]) == Outcome(b, a.buf[0], true) by {
      var c := State(Record(q, NO_TAP), a.buf, log);
      assert !EndsTap(env, c, 0) && EndsTap(env, c, 1);
      assert FindTap(env, c, 0) == 1;
    }
    var c := b.(buf := [Record(r, tk.tap)]);
    assert b.buf[1..] == c.buf;
    assert Drain(env, a) == Drain(env, c);
    var o := Process(env, c, c.buf[0]);
    assert o.consumed && o.st.log == b.log + [With(r, 1, false)] && o.st.buf[1..] == [];
    assert Drain(env, c) == Drain(env, o.st.(buf := []));
  }

  /** Another tap key pressed while the key is held after its taps: if it was tapped twice or more its release is made
      up, with the count it has; tapped once, it stays pressed. */
  lemma OtherTapKey(env: Env, st: State, p: Event, count: nat, interrupted: bool, q: Event)
    requires 0 < count && st.tk == Record(p, Tap(count, interrupted)) && st.buf == [] && Press(p)
    requires Press(q) && q.key != p.key && env.isTap(st.log, q.key)
    ensures Step(env, st, q)
            == State(Record(q, NO_TAP), [],
                     if count >= 2 then
                       st.log + [Synthetic(Record(Event(p.key, false, q.time), Tap(count, interrupted)))]
                     else st.log)
  {
  }

  /** Seven events wait behind an undecided key; the eighth clears everything. */
  lemma SevenWait(env: Env, st: State, p: Event, q: Event)
    requires st.tk == Record(p, Tap(0, true)) && Press(p) && Press(q) && q.key != p.key && st.buf != []
    requires Press(st.buf[0].event) && st.buf[0].event.key != p.key
    requires InTerm(env, st.log, st.tk, q) && InTerm(env, st.log, st.tk, st.buf[0].event)
    ensures |st.buf| < 7 ==> Step(env, st, q) == st.(buf := st.buf + [Record(q, NO_TAP)])
    ensures |st.buf| == 7 ==> Step(env, st, q) == State(NO_RECORD, [], st.log + [Cleared])
  {
    if |st.buf| < 7 {
      var a := st.(buf := st.buf + [Record(q, NO_TAP)]);
      assert Admit(env, st, q) == a;
      assert Process(env, a, a.buf[0]) == Outcome(a, a.buf[0], false);
      assert a.buf[0 := a.buf[0]] == a.buf;
    }
  }
}
