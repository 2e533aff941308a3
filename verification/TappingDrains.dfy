/** Presses are emitted in the order they were fed, a late tick always makes progress, and the
    machine invents nothing but releases of repeated taps. */
module TappingDrains {
  import opened TapRecords
  import opened Tapping
  import opened TappingOrder
  import opened TappingRuns

  // ---------- presses ----------

  lemma WaitingPresses(buf: seq<Record>)
    requires GoodBuffer(buf) && forall i :: 0 <= i < |buf| ==> !buf[i].event.pressed
    ensures Waiting(Presses, buf) == []
  {
  }

  predicate HasPress(buf: seq<Record>) {
    exists i :: 0 <= i < |buf| && buf[i].event.pressed
  }

  predicate PressOvertakes(st: State, e: Event) {
    e.pressed && !Undecided(st) && HasPress(st.buf)
  }

  lemma UndecidedHoldsPresses(env: Env, st: State, e: Event)
    requires Undecided(st) && e.pressed
    ensures !Process(env, st, Record(e, NO_TAP)).consumed
  {
  }

  /** A press that joins the end, or an event that is no press, does not disturb the presses. */
  lemma AdmitPressOrder(env: Env, st: State, e: Event)
    requires Good(st) && Fed(e) && !Overflows(env, st, e) && !PressOvertakes(st, e)
    ensures View(Presses, Admit(env, st, e)) == View(Presses, st) + Presses.Pick(e)
  {
    AdmitAppends(env, st, e, Presses);
    var w := Waiting(Presses, st.buf);
    if Presses.Pick(e) == [] {
      assert [] + w == w && View(Presses, st) + [] == View(Presses, st);
    } else if Undecided(st) {
      UndecidedHoldsPresses(env, st, e);
    } else {
      WaitingPresses(st.buf);
      assert Front(Presses, st) + (Presses.Pick(e) + []) == View(Presses, st) + Presses.Pick(e);
    }
  }

  lemma StepPressOrder(env: Env, st: State, e: Event)
    requires Good(st) && Fed(e) && !Overflows(env, st, e) && !PressOvertakes(st, e)
    ensures View(Presses, Step(env, st, e)) == View(Presses, st) + Presses.Pick(e)
  {
    AdmitPressOrder(env, st, e);
    AdmitGood(env, st, e);
    DrainView(env, Admit(env, st, e), Presses);
  }

  lemma {:induction false} PressWaits(buf: seq<Record>)
    requires GoodBuffer(buf) && HasPress(buf)
    ensures Waiting(Presses, buf) != []
  {
    var i :| 0 <= i < |buf| && buf[i].event.pressed;
    if i > 0 {
      assert buf[1..][i - 1] == buf[i];
      PressWaits(buf[1..]);
    }
  }

  lemma AheadDiffers(f: seq<Event>, w: seq<Event>, e: Event)
    requires w != [] && e !in w
    ensures f + ([e] + w) != f + w + [e]
  {
    assert (f + ([e] + w))[|f|] == e;
    assert (f + w + [e])[|f|] == w[0];
  }

  /** A press that overtakes waiting ones, all unlike itself, is out of order. */
  lemma StepOvertakes(env: Env, st: State, e: Event)
    requires Good(st) && Halted(st) && Fed(e) && PressOvertakes(st, e) && e !in Waiting(Presses, st.buf)
    ensures !Overflows(env, st, e)
    ensures View(Presses, Step(env, st, e)) != View(Presses, st) + Presses.Pick(e)
  {
    NotUndecidedConsumes(env, st, e);
    AdmitAppends(env, st, e, Presses);
    AdmitGood(env, st, e);
    DrainView(env, Admit(env, st, e), Presses);
    PressWaits(st.buf);
    AheadDiffers(Front(Presses, st), Waiting(Presses, st.buf), e);
  }

  predicate PressesInOrder(env: Env, events: seq<Event>, n: nat)
    requires n <= |events|
  {
    View(Presses, Run(env, events[..n])) == Input(Presses, env, events[..n])
  }

  predicate PressOvertakesAt(env: Env, events: seq<Event>, n: nat)
    requires n < |events|
  {
    PressOvertakes(Run(env, events[..n]), events[n])
  }

  /** A press is unlike those fed before it: it has another key or another time. */
  predicate NewPress(events: seq<Event>, n: nat)
    requires n < |events|
  {
    events[n].pressed ==> events[n] !in FedEvents(Presses, events[..n])
  }

  lemma WaitingWasFed(env: Env, events: seq<Event>, n: nat, e: Event)
    requires n <= |events| && PressesInOrder(env, events, n) && e in Waiting(Presses, Run(env, events[..n]).buf)
    ensures e in FedEvents(Presses, events[..n])
  {
    InputIsSuffix(Presses, env, events[..n]);
    assert e in View(Presses, Run(env, events[..n]));
  }

  lemma RunOvertakes(env: Env, events: seq<Event>, n: nat)
    requires AllFed(events) && n < |events| && PressesInOrder(env, events, n)
    requires PressOvertakesAt(env, events, n) && NewPress(events, n)
    ensures !PressesInOrder(env, events, n + 1)
  {
    var st, e := Run(env, events[..n]), events[n];
    RunNext(env, events, n, Presses);
    ReachableGood(env, events[..n]);
    if e in Waiting(Presses, st.buf) { WaitingWasFed(env, events, n, e); }
    StepOvertakes(env, st, e);
  }

  lemma RunPressStep(env: Env, events: seq<Event>, n: nat)
    requires AllFed(events) && n < |events| && PressesInOrder(env, events, n)
    requires !PressOvertakesAt(env, events, n)
    ensures PressesInOrder(env, events, n + 1)
  {
    var st, e := Run(env, events[..n]), events[n];
    RunNext(env, events, n, Presses);
    ReachableGood(env, events[..n]);
    if Overflows(env, st, e) {
      OverflowClears(env, st, e, Presses);
    } else {
      StepPressOrder(env, st, e);
    }
  }

  lemma {:induction false} PressOrderUpTo(env: Env, events: seq<Event>, n: nat)
    requires AllFed(events) && n <= |events|
    requires forall k :: 0 <= k < n ==> !PressOvertakesAt(env, events, k)
    ensures PressesInOrder(env, events, n)
  {
    if n > 0 {
      PressOrderUpTo(env, events, n - 1);
      RunPressStep(env, events, n - 1);
    }
  }

  /** Whatever the keys: unless a press arrives while presses wait and none is undecided, the presses emitted,
      then the undecided one, then those waiting, are at every moment the presses fed, in order. If no press is
      fed twice, only then. */
  lemma PressOrder(env: Env, events: seq<Event>)
    requires AllFed(events)
    ensures (forall n :: 0 <= n < |events| ==> !PressOvertakesAt(env, events, n))
            ==> (forall n :: 0 <= n <= |events| ==> PressesInOrder(env, events, n))
    ensures (forall n :: 0 <= n < |events| ==> NewPress(events, n)) ==>
      ((forall n :: 0 <= n <= |events| ==> PressesInOrder(env, events, n))
       <==> (forall n :: 0 <= n < |events| ==> !PressOvertakesAt(env, events, n)))
  {
    if forall n :: 0 <= n < |events| ==> !PressOvertakesAt(env, events, n) {
      forall n | 0 <= n <= |events|
        ensures PressesInOrder(env, events, n)
      {
        PressOrderUpTo(env, events, n);
      }
    } else if forall n :: 0 <= n < |events| ==> NewPress(events, n) {
      var n :| 0 <= n < |events| && PressOvertakesAt(env, events, n);
      if PressesInOrder(env, events, n) {
        RunOvertakes(env, events, n);
      }
    }
  }

  lemma {:induction false} DrainGrowsFront(env: Env, st: State)
    requires Good(st)
    ensures Front(Presses, st) <= Front(Presses, Drain(env, st))
    decreases |st.buf|
  {
    if st.buf != [] {
      var o := Process(env, st, st.buf[0]);
      RoundGood(env, st);
      ProcessAdds(env, st, st.buf[0], Presses);
      FrontIgnoresBuffer(Presses, o.st, Round(st, o).buf);
      if o.consumed {
        DrainGrowsFront(env, Round(st, o));
      }
    }
  }

  lemma StepGrowsFront(env: Env, st: State, e: Event)
    requires Good(st) && Fed(e) && !Overflows(env, st, e)
    ensures Front(Presses, st) <= Front(Presses, Step(env, st, e))
  {
    var a := Admit(env, st, e);
    var o := Process(env, st, Record(e, NO_TAP));
    ProcessAdds(env, st, Record(e, NO_TAP), Presses);
    FrontIgnoresBuffer(Presses, o.st, a.buf);
    AdmitGood(env, st, e);
    DrainGrowsFront(env, a);
  }

  /** While a key is undecided, the next press to be emitted is its own. */
  lemma UndecidedGoesFirst(env: Env, st: State, e: Event)
    requires Good(st) && Fed(e) && !Overflows(env, st, e) && Undecided(st)
    ensures var before, after := Emitted(Presses, st.log), Emitted(Presses, Step(env, st, e).log);
      after == before || before + [st.tk.event] <= after
  {
    StepGrowsFront(env, st, e);
    var before, after := Emitted(Presses, st.log), Emitted(Presses, Step(env, st, e).log);
    assert Front(Presses, st) == before + [st.tk.event];
    var pending := Pending(Presses, Step(env, st, e));
    assert before + [st.tk.event] <= after + pending;
    if |after| <= |before| {
      assert after == (after + pending)[..|before|] == before;
    }
  }

  // ---------- nothing is invented but releases of repeated taps ----------

  /** What a made-up release may look like. */
  predicate Honest(x: Emit) {
    x.Synthetic? ==> !x.record.event.pressed && x.record.tap.count > 1
  }

  predicate AllHonest(log: seq<Emit>) {
    forall i :: 0 <= i < |log| ==> Honest(log[i])
  }

  /** The call only appends, and only honest entries. */
  ghost predicate AppendsHonestly(old_: seq<Emit>, new_: seq<Emit>) {
    old_ <= new_ && AllHonest(new_[|old_|..])
  }

  lemma AppendsTransitive(a: seq<Emit>, b: seq<Emit>, c: seq<Emit>)
    requires AppendsHonestly(a, b) && AppendsHonestly(b, c)
    ensures AppendsHonestly(a, c)
  {
  }

  lemma ProcessAppends(env: Env, st: State, r: Record)
    ensures AppendsHonestly(st.log, Process(env, st, r).st.log)
  {
  }

  lemma {:induction false} DrainAppends(env: Env, st: State)
    ensures AppendsHonestly(st.log, Drain(env, st).log)
    decreases |st.buf|
  {
    if st.buf != [] {
      var o := Process(env, st, st.buf[0]);
      ProcessAppends(env, st, st.buf[0]);
      ProcessKeepsLength(env, st, st.buf[0]);
      if o.consumed {
        DrainAppends(env, Round(st, o));
        AppendsTransitive(st.log, o.st.log, Drain(env, st).log);
      }
    }
  }

  lemma StepAppends(env: Env, st: State, e: Event)
    ensures AppendsHonestly(st.log, Step(env, st, e).log)
  {
    var o := Process(env, st, Record(e, NO_TAP));
    ProcessAppends(env, st, Record(e, NO_TAP));
    var a := Admit(env, st, e);
    AppendsTransitive(st.log, o.st.log, a.log);
    DrainAppends(env, a);
    AppendsTransitive(st.log, a.log, Step(env, st, e).log);
  }

  /** In every run, an emitted record that was never fed is a release of a key tapped more
      than once. */
  lemma {:induction false} OnlyRepeatedTapsAreReleasedTwice(env: Env, events: seq<Event>)
    ensures AllHonest(Run(env, events).log)
  {
    if events != [] {
      var before := events[..|events| - 1];
      OnlyRepeatedTapsAreReleasedTwice(env, before);
      StepAppends(env, Run(env, before), events[|events| - 1]);
      assert Run(env, events).log == Run(env, before).log + Run(env, events).log[|Run(env, before).log|..];
    }
  }

  // ---------- draining ----------

  predicate LateFor(env: Env, t: Time, term: nat, r: Record) {
    IsNoEvent(r.event) || Elapsed(t, r.event.time) >= term
  }

  /** The time is at least one term after the tapping key and everything buffered. */
  predicate Late(env: Env, st: State, t: Time, term: nat) {
    && LateFor(env, t, term, st.tk)
    && forall i :: 0 <= i < |st.buf| ==> LateFor(env, t, term, st.buf[i])
  }

  ghost predicate BoundedTerms(env: Env, term: nat) {
    forall log, r :: env.term(log, r) <= term
  }

  function Tick(t: Time): Event { Event(TICK_KEY, false, t) }

  /** Every record of a is an event of b. */
  predicate EventsWithin(a: State, b: State) {
    && (forall i :: 0 <= i < |a.buf| ==> IsEventOf(a.buf[i].event, b))
    && (IsTapping(a) ==> IsEventOf(a.tk.event, b))
  }

  predicate IsEventOf(e: Event, st: State) {
    (IsTapping(st) && st.tk.event == e) || exists i :: 0 <= i < |st.buf| && st.buf[i].event == e
  }

  lemma EventsTransitive(a: State, b: State, c: State)
    requires EventsWithin(a, b) && EventsWithin(b, c)
    ensures EventsWithin(a, c)
  {
  }

  lemma LateWithin(env: Env, a: State, b: State, t: Time, term: nat)
    requires EventsWithin(a, b) && Late(env, b, t, term)
    ensures Late(env, a, t, term)
  {
  }

  lemma RoundWithin(env: Env, st: State)
    requires Good(st) && st.buf != []
    ensures var o := Process(env, st, st.buf[0]); |o.st.buf| == |st.buf| && EventsWithin(Round(st, o), st)
  {
  }

  lemma {:induction false} DrainWithin(env: Env, st: State)
    requires Good(st)
    ensures EventsWithin(Drain(env, st), st) && |Drain(env, st).buf| <= |st.buf|
    decreases |st.buf|
  {
    if st.buf != [] {
      var o := Process(env, st, st.buf[0]);
      RoundGood(env, st);
      RoundWithin(env, st);
      if o.consumed {
        DrainWithin(env, Round(st, o));
        EventsTransitive(Drain(env, st), Round(st, o), st);
      }
    }
  }

  /** A late tick settles the undecided key at once. */
  lemma LateTickSettles(env: Env, st: State, t: Time, term: nat)
    requires Good(st) && Halted(st) && BoundedTerms(env, term) && Late(env, st, t, term)
    ensures var a := Admit(env, st, Tick(t));
      a.buf == st.buf && !Undecided(a) && EventsWithin(a, st) && Good(a)
      && (st.buf != [] ==> Process(env, a, a.buf[0]).consumed)
  {
  }

  /** A late tick removes at least one buffered record, and with an empty buffer leaves no
      undecided key. */
  lemma LateTickDrains(env: Env, st: State, t: Time, term: nat)
    requires Good(st) && Halted(st) && BoundedTerms(env, term) && Late(env, st, t, term)
    requires t != 0
    ensures var next := Step(env, st, Tick(t));
      && Good(next) && Halted(next) && EventsWithin(next, st)
      && (st.buf != [] ==> |next.buf| < |st.buf|)
      && (st.buf == [] ==> next.buf == [] && !Undecided(next))
  {
    var a := Admit(env, st, Tick(t));
    LateTickSettles(env, st, t, term);
    StepGood(env, st, Tick(t));
    DrainWithin(env, a);
    EventsTransitive(Drain(env, a), a, st);
    if a.buf != [] {
      var o := Process(env, a, a.buf[0]);
      RoundGood(env, a);
      DrainWithin(env, Round(a, o));
    }
  }

  function Ticks(env: Env, st: State, times: seq<Time>): State
    decreases |times|
  {
    if times == [] then st else Ticks(env, Step(env, st, Tick(times[0])), times[1..])
  }

  lemma {:induction false} TicksDrain(env: Env, st: State, times: seq<Time>, term: nat)
    requires Good(st) && Halted(st) && BoundedTerms(env, term)
    requires forall i :: 0 <= i < |times| ==> times[i] != 0 && Late(env, st, times[i], term)
    ensures var end := Ticks(env, st, times);
      && (|times| > |st.buf| ==> end.buf == [] && !Undecided(end))
    decreases |times|
  {
    if times != [] {
      var next := Step(env, st, Tick(times[0]));
      LateTickDrains(env, st, times[0], term);
      forall i | 0 <= i < |times[1..]|
        ensures times[1..][i] != 0 && Late(env, next, times[1..][i], term)
      {
        LateWithin(env, next, st, times[1..][i], term);
      }
      if st.buf == [] {
        TicksStayIdle(env, next, times[1..], term);
      } else {
        TicksDrain(env, next, times[1..], term);
      }
    }
  }

  lemma {:induction false} TicksStayIdle(env: Env, st: State, times: seq<Time>, term: nat)
    requires Good(st) && BoundedTerms(env, term) && st.buf == [] && !Undecided(st)
    requires forall i :: 0 <= i < |times| ==> times[i] != 0 && Late(env, st, times[i], term)
    ensures Ticks(env, st, times).buf == [] && !Undecided(Ticks(env, st, times))
    decreases |times|
  {
    if times != [] {
      var next := Step(env, st, Tick(times[0]));
      LateTickDrains(env, st, times[0], term);
      forall i | 0 <= i < |times[1..]|
        ensures times[1..][i] != 0 && Late(env, next, times[1..][i], term)
      {
        LateWithin(env, next, st, times[1..][i], term);
      }
      TicksStayIdle(env, next, times[1..], term);
    }
  }

  lemma {:induction false} TicksConserve(env: Env, st: State, times: seq<Time>)
    requires Good(st) && forall i :: 0 <= i < |times| ==> times[i] != 0
    ensures multiset(View(All, Ticks(env, st, times))) == multiset(View(All, st))
    decreases |times|
  {
    if times != [] {
      StepGood(env, st, Tick(times[0]));
      StepConserves(env, st, Tick(times[0]));
      TicksConserve(env, Step(env, st, Tick(times[0])), times[1..]);
    }
  }

  lemma SettledView(st: State)
    requires st.buf == [] && !Undecided(st)
    ensures View(All, st) == Emitted(All, st.log)
  {
  }

  /** From every reachable state, eight late ticks empty the buffer and settle every key: then
      every event fed since the last overflow has been emitted, exactly once. */
  lemma EightTicksDrain(env: Env, events: seq<Event>, times: seq<Time>, term: nat)
    requires AllFed(events) && BoundedTerms(env, term) && |times| >= 8
    requires forall i :: 0 <= i < |times| ==> times[i] != 0 && Late(env, Run(env, events), times[i], term)
    ensures var end := Ticks(env, Run(env, events), times);
      && end.buf == [] && !Undecided(end)
      && multiset(Emitted(All, end.log)) == multiset(Input(All, env, events))
  {
    var end := Ticks(env, Run(env, events), times);
    ReachableGood(env, events);
    TicksDrain(env, Run(env, events), times, term);
    TicksConserve(env, Run(env, events), times);
    Conservation(env, events);
    SettledView(end);
  }

  // ---------- the order can break ----------

  const DEMO_ENV := Env((log: seq<Emit>, k: Key) => k.row == 0, (log: seq<Emit>, r: Record) => false,
    (log: seq<Emit>, r: Record) => 200)
  const FIRST_TAP := Event(Key(0, 0), true, 1)
  const SECOND_TAP := Event(Key(0, 1), true, 3)
  const PLAIN_PRESS := Event(Key(1, 0), true, 251)
  const PLAIN_RELEASE := Event(Key(1, 0), false, 253)

  /** Two tap keys held for longer than their terms, then a plain key pressed and released
      with no tick in between: its release is emitted before its press. */
  lemma OrderCanBreak()
    ensures var log := Run(DEMO_ENV, [FIRST_TAP, SECOND_TAP, PLAIN_PRESS, PLAIN_RELEASE]).log;
      Emitted(OfKey(Key(1, 0)), log) == [PLAIN_RELEASE, PLAIN_PRESS]
  {
    var env := DEMO_ENV;
    var events := [FIRST_TAP, SECOND_TAP, PLAIN_PRESS, PLAIN_RELEASE];
    assert events[..3][..2] == [FIRST_TAP, SECOND_TAP] && events[..3][..2][..1] == [FIRST_TAP];
    var s1 := State(Record(FIRST_TAP, NO_TAP), [], []);
    assert Run(env, [FIRST_TAP]) == s1 by { assert [FIRST_TAP][..0] == []; }
    var s2 := State(Record(FIRST_TAP, Tap(0, true)), [Record(SECOND_TAP, NO_TAP)], []);
    assert Run(env, [FIRST_TAP, SECOND_TAP]) == s2 by {
      assert [FIRST_TAP, SECOND_TAP][..1] == [FIRST_TAP];
      assert Admit(env, s1, SECOND_TAP) == s2;
    }
    var first := Real(Record(FIRST_TAP, Tap(0, true)));
    var s3 := State(NO_RECORD, [Record(PLAIN_PRESS, NO_TAP)], [first, Real(Record(SECOND_TAP, NO_TAP))]);
    assert Run(env, events[..3]) == s3 by {
      BreakThird(env, s2, s3, first);
    }
    BreakFourth(env, s3);
    assert Run(env, events) == Step(env, s3, PLAIN_RELEASE);
  }

  lemma BreakThird(env: Env, s2: State, s3: State, first: Emit)
    requires env == DEMO_ENV && first == Real(Record(FIRST_TAP, Tap(0, true)))
    requires s2 == State(Record(FIRST_TAP, Tap(0, true)), [Record(SECOND_TAP, NO_TAP)], [])
    requires s3 == State(NO_RECORD, [Record(PLAIN_PRESS, NO_TAP)], [first, Real(Record(SECOND_TAP, NO_TAP))])
    ensures Step(env, s2, PLAIN_PRESS) == s3
  {
    var a := State(NO_RECORD, [Record(SECOND_TAP, NO_TAP), Record(PLAIN_PRESS, NO_TAP)], [first]);
    assert Admit(env, s2, PLAIN_PRESS) == a;
    var b := State(Record(SECOND_TAP, NO_TAP), [Record(PLAIN_PRESS, NO_TAP)], [first]);
    assert Process(env, a, a.buf[0]) == Outcome(b.(buf := a.buf), a.buf[0], true) by {
      assert !EndsTap(env, b.(buf := a.buf), 0) && !EndsTap(env, b.(buf := a.buf), 1);
    }
    assert a.buf[1..] == b.buf;
    assert Drain(env, a) == Drain(env, b);
    assert Process(env, b, b.buf[0]) == Outcome(s3, b.buf[0], false);
  }

  lemma BreakFourth(env: Env, s3: State)
    requires env == DEMO_ENV && s3.tk == NO_RECORD && s3.buf == [Record(PLAIN_PRESS, NO_TAP)]
    requires |s3.log| == 2 && s3.log[0].Real? && s3.log[1].Real?
    requires s3.log[0].record.event == FIRST_TAP && s3.log[1].record.event == SECOND_TAP
    ensures Emitted(OfKey(Key(1, 0)), Step(env, s3, PLAIN_RELEASE).log) == [PLAIN_RELEASE, PLAIN_PRESS]
  {
    var sel := OfKey(Key(1, 0));
    var release, press := Real(Record(PLAIN_RELEASE, NO_TAP)), Real(Record(PLAIN_PRESS, NO_TAP));
    var a := Admit(env, s3, PLAIN_RELEASE);
    assert a == State(NO_RECORD, s3.buf, s3.log + [release]);
    var b := State(NO_RECORD, [], a.log + [press]);
    assert Process(env, a, a.buf[0]) == Outcome(b.(buf := a.buf), a.buf[0], true);
    assert a.buf[1..] == b.buf;
    assert Drain(env, a) == Drain(env, b) == b;
    assert Step(env, s3, PLAIN_RELEASE) == b;
    EmittedOne(sel, s3.log, release);
    EmittedOne(sel, a.log, press);
    assert s3.log == [] + [s3.log[0]] + [s3.log[1]];
    EmittedOne(sel, [], s3.log[0]);
    EmittedOne(sel, [s3.log[0]], s3.log[1]);
  }
}
