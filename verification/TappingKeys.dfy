/** What the rest of the firmware sees of one key: presses and releases in turn, starting with a press,
    exactly as long as none of its events overtakes another. */
module TappingKeys {
  import opened TapRecords
  import opened Tapping
  import opened TappingDrains
  import opened TappingOrder
  import opened TappingRuns
  import KeyboardEvents

  /** Presses and releases in turn, the first a press */
  predicate InTurn(s: seq<Event>) {
    forall i :: 0 <= i < |s| ==> TurnAt(s, i)
  }

  predicate TurnAt(s: seq<Event>, i: nat)
    requires i < |s|
  {
    s[i].pressed <==> i % 2 == 0
  }

  lemma {:induction false} AlternatingInTurn(s: seq<Event>)
    requires Alternates(s) && (s != [] ==> s[0].pressed)
    ensures InTurn(s)
  {
    if |s| > 1 {
      var init := s[..|s| - 1];
      AlternatingInTurn(init);
      forall i | 0 <= i < |s|
        ensures TurnAt(s, i)
      {
        assert TurnAt(init, if i < |s| - 1 then i else i - 1);
      }
    }
  }

  /** The events of a key come in turn when the matrix scan feeds them. */
  lemma ScannedInTurn(calls: seq<KeyboardEvents.Call>, n: nat, cols: nat, key: Key)
    requires KeyboardEvents.Sized(calls, n) && 0 < cols <= 255
    ensures AllFed(KeyboardEvents.Events(calls, n, cols))
    ensures InTurn(FedEvents(OfKey(key), KeyboardEvents.Events(calls, n, cols)))
  {
    KeyboardEvents.EventsAreFed(calls, n, cols);
    KeyboardEvents.EveryKeyAlternates(calls, n, cols, key);
    AlternatingInTurn(FedEvents(OfKey(key), KeyboardEvents.Events(calls, n, cols)));
  }

  lemma InTurnAlternates(s: seq<Event>)
    requires InTurn(s)
    ensures Alternates(s)
  {
    forall i | 0 <= i < |s| - 1
      ensures s[i].pressed != s[i + 1].pressed
    {
      assert TurnAt(s, i) && TurnAt(s, i + 1);
    }
  }

  /** One event in front of others instead of behind them is out of turn. */
  lemma AheadIsOutOfTurn(f: seq<Event>, w: seq<Event>, e: Event)
    requires w != [] && InTurn(f + w + [e])
    ensures !InTurn(f + ([e] + w))
  {
    var s, t := f + w + [e], f + ([e] + w);
    assert TurnAt(s, |f|) && s[|f|] == w[0] == t[|f| + 1];
    assert !TurnAt(t, |f| + 1);
  }

  lemma OvertakenView(env: Env, st: State, e: Event)
    requires Good(st) && Halted(st) && Fed(e) && Overtakes(st, e)
    ensures !Overflows(env, st, e)
    ensures Waiting(OfKey(e.key), st.buf) != []
    ensures View(OfKey(e.key), Step(env, st, e)) == Front(OfKey(e.key), st) + ([e] + Waiting(OfKey(e.key), st.buf))
  {
    NotUndecidedConsumes(env, st, e);
    WaitingOfKey(st.buf, e.key);
    AdmitAppends(env, st, e, OfKey(e.key));
    AdmitGood(env, st, e);
    DrainView(env, Admit(env, st, e), OfKey(e.key));
  }

  predicate FullAt(env: Env, events: seq<Event>, n: nat)
    requires n < |events|
  {
    Overflows(env, Run(env, events[..n]), events[n])
  }

  predicate NeverFull(env: Env, events: seq<Event>) {
    forall n :: 0 <= n < |events| ==> !FullAt(env, events, n)
  }

  lemma NeverFullBefore(env: Env, events: seq<Event>, n: nat)
    requires NeverFull(env, events) && n <= |events|
    ensures NeverFull(env, events[..n])
  {
    forall k | 0 <= k < n
      ensures !FullAt(env, events[..n], k)
    {
      assert events[..n][..k] == events[..k];
      assert !FullAt(env, events, k);
    }
  }

  /** Without an overflow everything fed counts. */
  lemma {:induction false} AllCounts(sel: Sel, env: Env, events: seq<Event>)
    requires NeverFull(env, events)
    ensures Input(sel, env, events) == FedEvents(sel, events)
  {
    if events != [] {
      NeverFullBefore(env, events, |events| - 1);
      AllCounts(sel, env, events[..|events| - 1]);
      assert !FullAt(env, events, |events| - 1);
    }
  }

  lemma InputIsFed(sel: Sel, env: Env, events: seq<Event>, n: nat)
    requires NeverFull(env, events) && n <= |events|
    ensures Input(sel, env, events[..n]) == FedEvents(sel, events[..n])
  {
    NeverFullBefore(env, events, n);
    AllCounts(sel, env, events[..n]);
  }

  /** What is emitted, undecided and waiting of a key is in turn at a moment. */
  predicate SeenInTurn(env: Env, events: seq<Event>, key: Key, n: nat)
    requires n <= |events|
  {
    InTurn(View(OfKey(key), Run(env, events[..n])))
  }

  lemma FedInTurn(events: seq<Event>, key: Key, n: nat)
    requires InTurn(FedEvents(OfKey(key), events)) && n <= |events|
    ensures InTurn(FedEvents(OfKey(key), events[..n]))
  {
    FedPrefix(OfKey(key), events, n);
    var s, t := FedEvents(OfKey(key), events[..n]), FedEvents(OfKey(key), events);
    forall i | 0 <= i < |s|
      ensures TurnAt(s, i)
    {
      assert TurnAt(t, i) && s[i] == t[i];
    }
  }

  /** The views around an event that overtakes, and what was fed of the key up to it */
  lemma OvertakenViews(env: Env, events: seq<Event>, key: Key, n: nat) returns (f: seq<Event>, w: seq<Event>)
    requires AllFed(events) && NeverFull(env, events)
    requires n < |events| && InOrder(env, events, key, n) && OvertakesAt(env, events, key, n)
    ensures w != [] && FedEvents(OfKey(key), events[..n + 1]) == f + w + [events[n]]
    ensures View(OfKey(key), Run(env, events[..n + 1])) == f + ([events[n]] + w)
  {
    var st, e, sel := Run(env, events[..n]), events[n], OfKey(key);
    f, w := Front(sel, st), Waiting(sel, st.buf);
    ReachableGood(env, events[..n]);
    OvertakenView(env, st, e);
    RunNext(env, events, n, sel);
    InputIsFed(sel, env, events, n + 1);
  }

  lemma OvertakingShows(env: Env, events: seq<Event>, key: Key, n: nat)
    requires AllFed(events) && InTurn(FedEvents(OfKey(key), events)) && NeverFull(env, events)
    requires n < |events| && InOrder(env, events, key, n) && OvertakesAt(env, events, key, n)
    ensures !SeenInTurn(env, events, key, n + 1)
  {
    var f, w := OvertakenViews(env, events, key, n);
    FedInTurn(events, key, n + 1);
    AheadIsOutOfTurn(f, w, events[n]);
  }

  lemma InOrderShows(env: Env, events: seq<Event>, key: Key, n: nat)
    requires InTurn(FedEvents(OfKey(key), events)) && NeverFull(env, events)
    requires n <= |events| && InOrder(env, events, key, n)
    ensures SeenInTurn(env, events, key, n)
  {
    InputIsFed(OfKey(key), env, events, n);
    FedInTurn(events, key, n);
  }

  /** In order so far and in turn after one more event: that event did not overtake. */
  lemma NotNext(env: Env, events: seq<Event>, key: Key, n: nat)
    requires AllFed(events) && InTurn(FedEvents(OfKey(key), events)) && NeverFull(env, events) && n < |events|
    requires InOrder(env, events, key, n) && SeenInTurn(env, events, key, n + 1)
    ensures !OvertakesAt(env, events, key, n) && InOrder(env, events, key, n + 1)
  {
    if OvertakesAt(env, events, key, n) {
      OvertakingShows(env, events, key, n);
    }
    InTurnAlternates(FedEvents(OfKey(key), events));
    RunKeyStep(env, events, key, n);
  }

  lemma {:induction false} InTurnMeansInOrder(env: Env, events: seq<Event>, key: Key, n: nat)
    requires AllFed(events) && InTurn(FedEvents(OfKey(key), events)) && NeverFull(env, events) && n <= |events|
    requires forall k :: 0 <= k <= n ==> SeenInTurn(env, events, key, k)
    ensures InOrder(env, events, key, n)
  {
    if n > 0 {
      InTurnMeansInOrder(env, events, key, n - 1);
      NotNext(env, events, key, n - 1);
    }
  }

  /** For a key whose events are in turn, as the scanner sends them, and a buffer that never overflows: what is
      emitted, undecided and waiting of the key is in turn at every moment if and only if none of its events
      arrives while others of it wait and no press is undecided. */
  lemma InTurnExactly(env: Env, events: seq<Event>, key: Key)
    requires AllFed(events) && InTurn(FedEvents(OfKey(key), events)) && NeverFull(env, events)
    ensures (forall n :: 0 <= n <= |events| ==> SeenInTurn(env, events, key, n))
        <==> (forall n :: 0 <= n < |events| ==> !OvertakesAt(env, events, key, n))
  {
    if forall n :: 0 <= n <= |events| ==> SeenInTurn(env, events, key, n) {
      forall n | 0 <= n < |events|
        ensures !OvertakesAt(env, events, key, n)
      {
        InTurnMeansInOrder(env, events, key, n);
        NotNext(env, events, key, n);
      }
    } else if forall n :: 0 <= n < |events| ==> !OvertakesAt(env, events, key, n) {
      InTurnAlternates(FedEvents(OfKey(key), events));
      forall n | 0 <= n <= |events|
        ensures SeenInTurn(env, events, key, n)
      {
        KeyOrderUpTo(env, events, key, n);
        InOrderShows(env, events, key, n);
      }
    }
  }

  // ---------- once the key has settled ----------

  lemma {:induction false} TicksKeepKey(env: Env, st: State, times: seq<Time>, key: Key)
    requires Good(st) && key != TICK_KEY && forall i :: 0 <= i < |times| ==> times[i] != 0
    ensures View(OfKey(key), Ticks(env, st, times)) == View(OfKey(key), st)
    decreases |times|
  {
    if times != [] {
      var e := Tick(times[0]);
      OtherKeyOrder(env, st, e, OfKey(key));
      AdmitGood(env, st, e);
      StepGood(env, st, e);
      DrainView(env, Admit(env, st, e), OfKey(key));
      TicksKeepKey(env, Step(env, st, e), times[1..], key);
    }
  }

  lemma SettledKey(st: State, key: Key)
    requires st.buf == [] && !Undecided(st)
    ensures View(OfKey(key), st) == Emitted(OfKey(key), st.log)
  {
  }

  /** A key none of whose events overtakes: after eight late ticks the rest of the firmware has been handed exactly
      its events, in the order fed, presses and releases in turn. */
  lemma SettledInTurn(env: Env, events: seq<Event>, times: seq<Time>, term: nat, key: Key)
    requires AllFed(events) && InTurn(FedEvents(OfKey(key), events)) && NeverFull(env, events) && key != TICK_KEY
    requires forall n :: 0 <= n < |events| ==> !OvertakesAt(env, events, key, n)
    requires BoundedTerms(env, term) && |times| >= 8
    requires forall i :: 0 <= i < |times| ==> times[i] != 0 && Late(env, Run(env, events), times[i], term)
    ensures Emitted(OfKey(key), Ticks(env, Run(env, events), times).log) == FedEvents(OfKey(key), events)
  {
    var st := Run(env, events);
    ReachableGood(env, events);
    InTurnAlternates(FedEvents(OfKey(key), events));
    KeyOrderUpTo(env, events, key, |events|);
    assert events[..|events|] == events;
    AllCounts(OfKey(key), env, events);
    TicksDrain(env, st, times, term);
    TicksKeepKey(env, st, times, key);
    SettledKey(Ticks(env, st, times), key);
  }
}
