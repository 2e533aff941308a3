/** What holds over all runs of the tap/hold machine. */
module TappingRuns {
  import opened TapRecords
  import opened Tapping
  import opened TappingOrder

  // ---------- one event ----------

  lemma AdmitGood(env: Env, st: State, e: Event)
    requires Good(st) && Fed(e)
    ensures Good(Admit(env, st, e))
  {
    var o := Process(env, st, Record(e, NO_TAP));
    ProcessGood(env, st, Record(e, NO_TAP));
    if IsTapping(o.st) && o.st.tk.event.pressed && o.st.tk.tap.count == 1 && !o.consumed {
      assert (o.st.buf + [o.keyp])[|o.st.buf|] == o.keyp;
    }
  }

  lemma StepGood(env: Env, st: State, e: Event)
    requires Good(st) && Fed(e)
    ensures Good(Step(env, st, e)) && Halted(Step(env, st, e))
  {
    AdmitGood(env, st, e);
    DrainGood(env, Admit(env, st, e));
  }

  /** In every reachable state a released tapping key was tapped, a tapping key held after its
      first tap has its release in the buffer, counts fit four bits, buffered presses are not
      counted, at most seven records wait, and records wait only for an undecided key, behind
      a first tap, or (until the next event) for nothing. */
  lemma {:induction false} ReachableGood(env: Env, events: seq<Event>)
    requires AllFed(events)
    ensures Good(Run(env, events)) && Halted(Run(env, events))
  {
    if events != [] {
      ReachableGood(env, events[..|events| - 1]);
      StepGood(env, Run(env, events[..|events| - 1]), events[|events| - 1]);
    }
  }

  lemma OverflowClears(env: Env, st: State, e: Event, sel: Sel)
    requires Overflows(env, st, e)
    ensures View(sel, Step(env, st, e)) == []
  {
  }

  lemma MatchesExtend(sel: Sel, a: seq<Event>, b: seq<Event>, w: seq<Event>, x: seq<Event>)
    requires Matches(sel, a, b)
    ensures Matches(sel, a + (w + x), b + w + x)
  {
  }

  lemma EnqueuedMatches(sel: Sel, st: State, o: Outcome, e: Event)
    requires !IsNoEvent(e) && o.keyp.event == e && |o.st.buf| == |st.buf|
    requires forall i :: 0 <= i < |st.buf| ==> o.st.buf[i].event == st.buf[i].event
    requires Matches(sel, Front(sel, o.st), Front(sel, st))
    ensures Matches(sel, View(sel, o.st.(buf := o.st.buf + [o.keyp])), View(sel, st) + sel.Pick(e))
  {
    var next := o.st.(buf := o.st.buf + [o.keyp]);
    WaitingSameEvents(sel, st.buf, o.st.buf);
    WaitingAppend(sel, o.st.buf, [o.keyp]);
    assert Waiting(sel, [o.keyp]) == sel.Pick(e);
    assert Waiting(sel, next.buf) == Waiting(sel, st.buf) + sel.Pick(e);
    FrontIgnoresBuffer(sel, o.st, next.buf);
    MatchesExtend(sel, Front(sel, o.st), Front(sel, st), Waiting(sel, st.buf), sel.Pick(e));
  }

  lemma KeptMatches(sel: Sel, st: State, next: State, added: seq<Event>)
    requires |next.buf| == |st.buf|
    requires forall i :: 0 <= i < |st.buf| ==> next.buf[i].event == st.buf[i].event
    requires Matches(sel, Front(sel, next), Front(sel, st) + added)
    ensures Matches(sel, View(sel, next), Front(sel, st) + (added + Waiting(sel, st.buf)))
  {
    WaitingSameEvents(sel, st.buf, next.buf);
    MatchesAppend(sel, Front(sel, next), Front(sel, st), added, Waiting(sel, st.buf));
  }

  /** The picked event joins the end of the view, unless it is handled at once: then it comes
      before the picked records that wait. */
  ghost predicate Joins(sel: Sel, st: State, next: State, e: Event, atOnce: bool) {
    Matches(sel, View(sel, next),
            if atOnce then Front(sel, st) + (sel.Pick(e) + Waiting(sel, st.buf)) else View(sel, st) + sel.Pick(e))
  }

  lemma TickJoins(sel: Sel, st: State, next: State, e: Event)
    requires |next.buf| == |st.buf| && sel.Pick(e) == []
    requires forall i :: 0 <= i < |st.buf| ==> next.buf[i].event == st.buf[i].event
    requires Matches(sel, Front(sel, next), Front(sel, st))
    ensures Joins(sel, st, next, e, false)
  {
    WaitingSameEvents(sel, st.buf, next.buf);
    MatchesExtend(sel, Front(sel, next), Front(sel, st), Waiting(sel, st.buf), sel.Pick(e));
    assert Waiting(sel, st.buf) + sel.Pick(e) == Waiting(sel, st.buf);
  }

  lemma AdmitAppends(env: Env, st: State, e: Event, sel: Sel)
    requires Good(st) && Fed(e) && !Overflows(env, st, e)
    ensures Joins(sel, st, Admit(env, st, e), e, Process(env, st, Record(e, NO_TAP)).consumed)
  {
    var r := Record(e, NO_TAP);
    var o := Process(env, st, r);
    ProcessGood(env, st, r);
    ProcessAdds(env, st, r, sel);
    if o.consumed {
      KeptMatches(sel, st, o.st, sel.Pick(e));
    } else if IsNoEvent(e) {
      assert Front(sel, st) + [] == Front(sel, st);
      TickJoins(sel, st, o.st, e);
    } else {
      assert Front(sel, st) + [] == Front(sel, st);
      EnqueuedMatches(sel, st, o, e);
    }
  }

  // ---------- conservation ----------

  lemma StepConserves(env: Env, st: State, e: Event)
    requires Good(st) && Fed(e) && !Overflows(env, st, e)
    ensures multiset(View(All, Step(env, st, e))) == multiset(View(All, st)) + multiset(All.Pick(e))
  {
    AdmitAppends(env, st, e, All);
    AdmitGood(env, st, e);
    DrainView(env, Admit(env, st, e), All);
  }

  /** Since the last overflow, the real events emitted, the undecided press and the buffer are
      together exactly the events that were fed: none is lost and none is emitted twice. */
  lemma {:induction false} Conservation(env: Env, events: seq<Event>)
    requires AllFed(events)
    ensures multiset(View(All, Run(env, events))) == multiset(Input(All, env, events))
  {
    if events != [] {
      var before, e := events[..|events| - 1], events[|events| - 1];
      Conservation(env, before);
      ReachableGood(env, before);
      if Overflows(env, Run(env, before), e) {
        OverflowClears(env, Run(env, before), e, All);
      } else {
        StepConserves(env, Run(env, before), e);
      }
    }
  }

  // ---------- order of each key's events ----------

  /** The events of the run, without regard to overflows. */
  function FedEvents(sel: Sel, events: seq<Event>): seq<Event> {
    if events == [] then []
    else FedEvents(sel, events[..|events| - 1]) + sel.Pick(events[|events| - 1])
  }

  predicate Alternates(s: seq<Event>) {
    forall i :: 0 <= i < |s| - 1 ==> s[i].pressed != s[i + 1].pressed
  }

  predicate HasKey(buf: seq<Record>, key: Key) {
    exists i :: 0 <= i < |buf| && buf[i].event.key == key
  }

  /** The event is handled at once although records of its key wait. */
  predicate Overtakes(st: State, e: Event) {
    !IsNoEvent(e) && !Undecided(st) && HasKey(st.buf, e.key)
  }

  lemma {:induction false} WaitingOfKey(buf: seq<Record>, key: Key)
    requires GoodBuffer(buf)
    ensures (Waiting(OfKey(key), buf) != []) <==> HasKey(buf, key)
    ensures forall x :: x in Waiting(OfKey(key), buf) ==>
              exists i :: 0 <= i < |buf| && buf[i].event == x && x.key == key
  {
    if buf != [] {
      var rest := buf[1..];
      WaitingOfKey(rest, key);
      forall x | x in Waiting(OfKey(key), buf)
        ensures exists i :: 0 <= i < |buf| && buf[i].event == x && x.key == key
      {
        if x in Waiting(OfKey(key), rest) {
          var i :| 0 <= i < |rest| && rest[i].event == x;
          assert buf[i + 1].event == x;
        } else {
          assert x in OfKey(key).Pick(buf[0].event);
          assert buf[0].event == x;
        }
      }
      if HasKey(buf, key) && buf[0].event.key != key {
        var i :| 0 <= i < |buf| && buf[i].event.key == key;
        assert rest[i - 1] == buf[i];
      } else if HasKey(rest, key) {
        var i :| 0 <= i < |rest| && rest[i].event.key == key;
        assert buf[i + 1] == rest[i];
      }
    }
  }

  lemma SwapDiffers(f: seq<Event>, w: seq<Event>, e: Event)
    requires w != [] && Alternates(f + w + [e])
    ensures f + ([e] + w) != f + w + [e]
  {
    var s, t := f + ([e] + w), f + w + [e];
    var n := |f| + |w|;
    assert t[n - 1] == w[|w| - 1] && t[n] == e;
    assert s[n] == w[|w| - 1];
  }

  /** When the key has something waiting and its events alternate, the last waiting event is
      the opposite of the new one. */
  lemma AlternatingIsTyped(st: State, e: Event)
    requires GoodBuffer(st.buf) && Waiting(OfKey(e.key), st.buf) != []
    requires Alternates(View(OfKey(e.key), st) + [e])
    ensures Typed(st.buf, e)
  {
    var w := Waiting(OfKey(e.key), st.buf);
    WaitingOfKey(st.buf, e.key);
    var s := View(OfKey(e.key), st) + [e];
    assert s[|s| - 2] == w[|w| - 1] && s[|s| - 1] == e;
    assert w[|w| - 1] in w;
  }

  lemma TypedWaits(env: Env, st: State, e: Event)
    requires Undecided(st) && Typed(st.buf, e) && !IsNoEvent(e)
    ensures !Process(env, st, Record(e, NO_TAP)).consumed
  {
  }

  /** Nothing waits behind a machine that is not undecided and would still make events wait. */
  lemma NotUndecidedConsumes(env: Env, st: State, e: Event)
    requires Good(st) && Halted(st) && !Undecided(st) && st.buf != []
    ensures Process(env, st, Record(e, NO_TAP)).consumed
  {
  }

  /** An event joins the end of its key's view exactly when it does not overtake. */
  lemma AdmitKeyOrder(env: Env, st: State, e: Event)
    requires Good(st) && Halted(st) && Fed(e) && !Overflows(env, st, e) && !IsNoEvent(e)
    requires Alternates(View(OfKey(e.key), st) + [e])
    ensures View(OfKey(e.key), Admit(env, st, e)) == View(OfKey(e.key), st) + [e] <==> !Overtakes(st, e)
  {
    var sel := OfKey(e.key);
    AdmitAppends(env, st, e, sel);
    WaitingOfKey(st.buf, e.key);
    if Waiting(sel, st.buf) == [] {
      assert [e] + [] == [e];
      assert View(sel, st) == Front(sel, st);
    } else if Undecided(st) {
      AlternatingIsTyped(st, e);
      TypedWaits(env, st, e);
    } else {
      NotUndecidedConsumes(env, st, e);
      SwapDiffers(Front(sel, st), Waiting(sel, st.buf), e);
    }
  }

  lemma OtherKeyOrder(env: Env, st: State, e: Event, sel: Sel)
    requires Good(st) && Fed(e) && !Overflows(env, st, e) && sel.Pick(e) == [] && !sel.All?
    ensures View(sel, Admit(env, st, e)) == View(sel, st)
  {
    AdmitAppends(env, st, e, sel);
    assert [] + Waiting(sel, st.buf) == Waiting(sel, st.buf);
  }

  lemma StepKeyOrder(env: Env, st: State, e: Event, key: Key)
    requires Good(st) && Halted(st) && Fed(e) && !Overflows(env, st, e)
    requires Alternates(View(OfKey(key), st) + OfKey(key).Pick(e))
    ensures View(OfKey(key), Step(env, st, e)) == View(OfKey(key), st) + OfKey(key).Pick(e)
            <==> !(e.key == key && Overtakes(st, e))
  {
    AdmitGood(env, st, e);
    DrainView(env, Admit(env, st, e), OfKey(key));
    if OfKey(key).Pick(e) != [] {
      AdmitKeyOrder(env, st, e);
    } else {
      OtherKeyOrder(env, st, e, OfKey(key));
    }
  }

  lemma {:induction false} InputIsSuffix(sel: Sel, env: Env, events: seq<Event>)
    ensures exists j :: 0 <= j <= |FedEvents(sel, events)| && Input(sel, env, events) == FedEvents(sel, events)[j..]
  {
    var all := FedEvents(sel, events);
    if events == [] {
      assert Input(sel, env, events) == all[0..];
    } else {
      var before, e := events[..|events| - 1], events[|events| - 1];
      InputIsSuffix(sel, env, before);
      if Overflows(env, Run(env, before), e) {
        assert Input(sel, env, events) == all[|all|..];
      } else {
        var j :| 0 <= j <= |FedEvents(sel, before)| && Input(sel, env, before) == FedEvents(sel, before)[j..];
        assert Input(sel, env, events) == all[j..];
      }
    }
  }

  predicate InOrder(env: Env, events: seq<Event>, key: Key, n: nat)
    requires n <= |events|
  {
    View(OfKey(key), Run(env, events[..n])) == Input(OfKey(key), env, events[..n])
  }

  predicate OvertakesAt(env: Env, events: seq<Event>, key: Key, n: nat)
    requires n < |events|
  {
    events[n].key == key && Overtakes(Run(env, events[..n]), events[n])
  }

  lemma {:induction false} FedPrefix(sel: Sel, events: seq<Event>, n: nat)
    requires n <= |events|
    ensures FedEvents(sel, events[..n]) <= FedEvents(sel, events)
  {
    if n < |events| {
      FedPrefix(sel, events[..|events| - 1], n);
      assert events[..|events| - 1][..n] == events[..n];
    } else {
      assert events[..n] == events;
    }
  }

  lemma AlternatesSlice(s: seq<Event>, t: seq<Event>, j: nat)
    requires Alternates(s) && t <= s && j <= |t|
    ensures Alternates(t[j..])
  {
  }

  lemma InputAlternates(sel: Sel, env: Env, events: seq<Event>, before: seq<Event>, e: Event)
    requires Alternates(FedEvents(sel, events)) && before + [e] <= events
    ensures Alternates(Input(sel, env, before) + sel.Pick(e))
  {
    var upTo := before + [e];
    assert upTo[..|upTo| - 1] == before;
    FedPrefix(sel, events, |upTo|);
    assert events[..|upTo|] == upTo;
    InputIsSuffix(sel, env, before);
    var j :| 0 <= j <= |FedEvents(sel, before)| && Input(sel, env, before) == FedEvents(sel, before)[j..];
    SuffixAlternates(FedEvents(sel, events), FedEvents(sel, before), sel.Pick(e), j);
  }

  lemma SuffixAlternates(all: seq<Event>, fed: seq<Event>, x: seq<Event>, j: nat)
    requires Alternates(all) && fed + x <= all && j <= |fed|
    ensures Alternates(fed[j..] + x)
  {
    assert fed[j..] + x == (fed + x)[j..];
    AlternatesSlice(all, fed + x, j);
  }

  lemma OverflowKeyStep(env: Env, st: State, e: Event, key: Key)
    requires Good(st) && Halted(st) && Fed(e) && Overflows(env, st, e)
    ensures !Overtakes(st, e)
  {
  }

  /** One more event of a run */
  lemma RunNext(env: Env, events: seq<Event>, n: nat, sel: Sel)
    requires n < |events|
    ensures var st := Run(env, events[..n]);
      && Run(env, events[..n + 1]) == Step(env, st, events[n])
      && Input(sel, env, events[..n + 1])
         == if Overflows(env, st, events[n]) then [] else Input(sel, env, events[..n]) + sel.Pick(events[n])
  {
    assert events[..n + 1][..n] == events[..n] && events[..n + 1][n] == events[n];
  }

  lemma FedAlternates(env: Env, events: seq<Event>, key: Key, n: nat)
    requires Alternates(FedEvents(OfKey(key), events)) && n < |events|
    ensures Alternates(Input(OfKey(key), env, events[..n]) + OfKey(key).Pick(events[n]))
  {
    assert events[..n] + [events[n]] == events[..n + 1];
    InputAlternates(OfKey(key), env, events, events[..n], events[n]);
  }

  lemma RunKeyStep(env: Env, events: seq<Event>, key: Key, n: nat)
    requires AllFed(events) && Alternates(FedEvents(OfKey(key), events))
    requires n < |events| && InOrder(env, events, key, n)
    ensures InOrder(env, events, key, n + 1) <==> !OvertakesAt(env, events, key, n)
  {
    var st, e := Run(env, events[..n]), events[n];
    RunNext(env, events, n, OfKey(key));
    ReachableGood(env, events[..n]);
    if Overflows(env, st, e) {
      OverflowClears(env, st, e, OfKey(key));
      OverflowKeyStep(env, st, e, key);
    } else {
      FedAlternates(env, events, key, n);
      StepKeyOrder(env, st, e, key);
    }
  }

  /** For a key whose events alternate, the machine keeps their order at every moment of the
      run if and only if none of them arrives while records of the key wait and no press is
      undecided. */
  lemma KeyOrder(env: Env, events: seq<Event>, key: Key)
    requires AllFed(events) && Alternates(FedEvents(OfKey(key), events))
    ensures (forall n :: 0 <= n <= |events| ==> InOrder(env, events, key, n))
            <==> (forall n :: 0 <= n < |events| ==> !OvertakesAt(env, events, key, n))
  {
    if forall n :: 0 <= n <= |events| ==> InOrder(env, events, key, n) {
      forall n | 0 <= n < |events|
        ensures !OvertakesAt(env, events, key, n)
      {
        assert InOrder(env, events, key, n + 1);
        RunKeyStep(env, events, key, n);
      }
    }
    if forall n :: 0 <= n < |events| ==> !OvertakesAt(env, events, key, n) {
      forall n | 0 <= n <= |events|
        ensures InOrder(env, events, key, n)
      {
        KeyOrderUpTo(env, events, key, n);
      }
    }
  }

  lemma {:induction false} KeyOrderUpTo(env: Env, events: seq<Event>, key: Key, n: nat)
    requires AllFed(events) && Alternates(FedEvents(OfKey(key), events)) && n <= |events|
    requires forall k :: 0 <= k < n ==> !OvertakesAt(env, events, key, k)
    ensures InOrder(env, events, key, n)
  {
    if n > 0 {
      KeyOrderUpTo(env, events, key, n - 1);
      RunKeyStep(env, events, key, n - 1);
    }
  }
}
