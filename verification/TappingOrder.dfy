/** What the tap/hold machine keeps of the events it is fed: none is lost, none is emitted
    twice, and the order of each key's events and of all presses survives, although releases
    overtake buffered events. */
module TappingOrder {
  import opened TapRecords
  import opened Tapping

  /** Which events a statement is about. */
  datatype Sel = OfKey(key: Key) | Presses | All {
    predicate Picks(e: Event) {
      match this
      case OfKey(k) => e.key == k
      case Presses => e.pressed
      case All => true
    }

    function Pick(e: Event): seq<Event> {
      if Picks(e) && !IsNoEvent(e) then [e] else []
    }
  }

  /** The picked real events emitted since the last clear_keyboard. */
  function Emitted(sel: Sel, log: seq<Emit>): seq<Event> {
    if log == [] then []
    else
      match log[|log| - 1]
      case Cleared => []
      case Synthetic(_) => Emitted(sel, log[..|log| - 1])
      case Real(r) => Emitted(sel, log[..|log| - 1]) + sel.Pick(r.event)
  }

  function Waiting(sel: Sel, buf: seq<Record>): seq<Event> {
    if buf == [] then [] else sel.Pick(buf[0].event) + Waiting(sel, buf[1..])
  }

  function Pending(sel: Sel, st: State): seq<Event> {
    if Undecided(st) then sel.Pick(st.tk.event) else []
  }

  /** Emitted, then the undecided press. */
  function Front(sel: Sel, st: State): seq<Event> {
    Emitted(sel, st.log) + Pending(sel, st)
  }

  /** Emitted, then the undecided press, then the buffer. */
  function View(sel: Sel, st: State): seq<Event> {
    Front(sel, st) + Waiting(sel, st.buf)
  }

  /** The picked events fed since the last overflow. */
  function Input(sel: Sel, env: Env, events: seq<Event>): seq<Event> {
    if events == [] then []
    else
      var before, e := events[..|events| - 1], events[|events| - 1];
      if Overflows(env, Run(env, before), e) then [] else Input(sel, env, before) + sel.Pick(e)
  }

  predicate AllFed(events: seq<Event>) {
    forall i :: 0 <= i < |events| ==> Fed(events[i])
  }

  /** A buffered press is uncounted and a buffered event is a real one. */
  predicate GoodWaiting(r: Record) {
    !IsNoEvent(r.event) && r.tap.count <= 1 && (r.event.pressed ==> r.tap.count == 0)
  }

  predicate GoodBuffer(buf: seq<Record>) {
    forall i :: 0 <= i < |buf| ==> GoodWaiting(buf[i])
  }

  /** Equal in order, or for all events together equal up to order. */
  ghost predicate Matches(sel: Sel, a: seq<Event>, b: seq<Event>) {
    if sel.All? then multiset(a) == multiset(b) else a == b
  }

  // ---------- sequences of events ----------

  lemma EmittedOne(sel: Sel, log: seq<Emit>, x: Emit)
    ensures x.Real? ==> Emitted(sel, log + [x]) == Emitted(sel, log) + sel.Pick(x.record.event)
    ensures x.Synthetic? ==> Emitted(sel, log + [x]) == Emitted(sel, log)
    ensures x.Cleared? ==> Emitted(sel, log + [x]) == []
  {
    assert (log + [x])[..|log|] == log;
  }

  lemma EmittedDeliver(sel: Sel, st: State, r: Record)
    ensures Emitted(sel, Deliver(st, r).log) == Emitted(sel, st.log) + sel.Pick(r.event)
  {
    EmittedOne(sel, st.log, Real(r));
  }

  lemma {:induction false} WaitingAppend(sel: Sel, a: seq<Record>, b: seq<Record>)
    ensures Waiting(sel, a + b) == Waiting(sel, a) + Waiting(sel, b)
  {
    if a == [] {
      assert a + b == b;
    } else {
      assert (a + b)[1..] == a[1..] + b;
      WaitingAppend(sel, a[1..], b);
    }
  }

  lemma {:induction false} WaitingSameEvents(sel: Sel, a: seq<Record>, b: seq<Record>)
    requires |a| == |b| && forall i :: 0 <= i < |a| ==> a[i].event == b[i].event
    ensures Waiting(sel, a) == Waiting(sel, b)
  {
    if a != [] {
      WaitingSameEvents(sel, a[1..], b[1..]);
    }
  }

  // ---------- one call of process_tapping ----------

  lemma ScanFront(env: Env, st: State, sel: Sel)
    ensures Front(sel, ScanTap(env, st)) == Front(sel, st)
  {
    EmittedDeliver(sel, st, WithCount(st.tk, 1));
  }

  /** A consumed record is emitted or becomes the undecided press; otherwise nothing is added.
      Only the order of a release and an undecided press of another key may be swapped. */
  ghost predicate Adds(sel: Sel, st: State, o: Outcome, e: Event) {
    Matches(sel, Front(sel, o.st), Front(sel, st) + (if o.consumed then sel.Pick(e) else []))
  }

  lemma SwapMatches(sel: Sel, a: seq<Event>, press: seq<Event>, release: seq<Event>)
    requires sel.All? || press == [] || release == []
    ensures Matches(sel, a + release + press, a + press + release)
  {
    if press == [] {
      assert a + release + press == a + press + release;
    } else if release == [] {
      assert a + release + press == a + press + release;
    }
  }

  /** A release overtakes the undecided press of another key. */
  lemma OvertakingAdds(sel: Sel, st: State, r: Record)
    requires Undecided(st) && !r.event.pressed && !IsTappingKeyRelease(st, r.event)
    ensures Adds(sel, st, Outcome(Deliver(st, r), r, true), r.event)
  {
    EmittedDeliver(sel, st, r);
    SwapMatches(sel, Emitted(sel, st.log), sel.Pick(st.tk.event), sel.Pick(r.event));
  }

  /** The undecided press is emitted, as a tap or as a hold. */
  lemma SettlingKeepsFront(sel: Sel, st: State, tk: Record, next: State)
    requires Undecided(st) && tk.event == st.tk.event
    requires next.log == st.log + [Real(tk)] && !Undecided(next)
    ensures Front(sel, next) == Front(sel, st)
  {
    EmittedOne(sel, st.log, Real(tk));
  }

  lemma UndecidedAdds(env: Env, st: State, r: Record, sel: Sel)
    requires Fed(r.event) && Undecided(st)
    ensures Adds(sel, st, ProcessUndecided(env, st, r), r.event)
  {
    var o := ProcessUndecided(env, st, r);
    if o.consumed {
      OvertakingAdds(sel, st, r);
    } else {
      var e := r.event;
      if IsTappingKeyRelease(st, e) {
        SettlingKeepsFront(sel, st, WithCount(st.tk, 1), o.st);
      } else if !IsNoEvent(e) && !e.pressed && Typed(st.buf, e) {
        SettlingKeepsFront(sel, st, st.tk, o.st);
      } else {
        assert Undecided(o.st) && o.st.tk.event == st.tk.event && o.st.log == st.log;
      }
    }
  }

  /** The record is handed on while nothing is undecided. */
  lemma DeliveredAdds(sel: Sel, st: State, o: Outcome, e: Event)
    requires !Undecided(st) && !Undecided(o.st) && o.consumed && o.keyp.event == e
    requires o.st.log == Deliver(st, o.keyp).log
    ensures Adds(sel, st, o, e)
  {
    EmittedDeliver(sel, st, o.keyp);
    FrontSettled(sel, st);
    FrontSettled(sel, o.st);
    SameMatches(sel, Front(sel, o.st), Front(sel, st) + sel.Pick(e));
  }

  /** Without an undecided key the front is what was emitted. */
  lemma FrontSettled(sel: Sel, st: State)
    requires !Undecided(st)
    ensures Front(sel, st) == Emitted(sel, st.log)
  {
  }

  lemma SameMatches(sel: Sel, a: seq<Event>, b: seq<Event>)
    requires a == b
    ensures Matches(sel, a, b)
  {
  }

  /** The press becomes the tapping key, perhaps after a made-up release. */
  lemma StartedAdds(sel: Sel, env: Env, st: State, r: Record, log: seq<Emit>)
    requires Fed(r.event) && r.event.pressed && r.tap.count == 0 && !Undecided(st)
    requires log == st.log || (log != [] && log[..|log| - 1] == st.log && log[|log| - 1].Synthetic?)
    ensures Adds(sel, st, Outcome(ScanTap(env, State(r, st.buf, log)), r, true), r.event)
    ensures Adds(sel, st, Outcome(State(r, st.buf, log), r, true), r.event)
  {
    var next := State(r, st.buf, log);
    ScanFront(env, next, sel);
    FrontSettled(sel, st);
    StartedFront(sel, st.log, next);
    SameMatches(sel, Front(sel, next), Front(sel, st) + sel.Pick(r.event));
    SameMatches(sel, Front(sel, ScanTap(env, next)), Front(sel, st) + sel.Pick(r.event));
  }

  /** A new undecided press stands behind what was emitted; a made-up release is no event. */
  lemma StartedFront(sel: Sel, log: seq<Emit>, next: State)
    requires next.tk.event.pressed && next.tk.tap.count == 0
    requires next.log == log
             || (next.log != [] && next.log[..|next.log| - 1] == log && next.log[|next.log| - 1].Synthetic?)
    ensures Front(sel, next) == Emitted(sel, log) + sel.Pick(next.tk.event)
  {
    if next.log != log {
      assert next.log == log + [next.log[|next.log| - 1]];
      EmittedOne(sel, log, next.log[|next.log| - 1]);
    }
  }

  lemma TapHeldAdds(env: Env, st: State, r: Record, sel: Sel)
    requires Fed(r.event) && (r.event.pressed ==> r.tap.count == 0)
    requires IsTapping(st) && st.tk.tap.count > 0
    ensures Adds(sel, st, ProcessTapHeld(env, st, r), r.event)
  {
    var e := r.event;
    if !IsTappingKeyRelease(st, e) && env.isTap(st.log, e.key) && e.pressed {
      var released := Synthetic(Record(Event(st.tk.event.key, false, e.time), st.tk.tap));
      StartedAdds(sel, env, st, r, if st.tk.tap.count > 1 then st.log + [released] else st.log);
    } else {
      DeliveredAdds(sel, st, ProcessTapHeld(env, st, r), e);
    }
  }

  lemma TapReleasedAdds(env: Env, st: State, r: Record, sel: Sel)
    requires Fed(r.event) && (r.event.pressed ==> r.tap.count == 0)
    requires IsTapping(st) && !st.tk.event.pressed
    ensures Adds(sel, st, ProcessTapReleased(env, st, r), r.event)
  {
    var o, e := ProcessTapReleased(env, st, r), r.event;
    if !Within(env, st, e) {
      assert Front(sel, o.st) == Front(sel, st) + [];
    } else if !e.pressed {
      DeliveredAdds(sel, st, o, e);
    } else if st.tk.event.key == e.key {
      if !st.tk.tap.interrupted && st.tk.tap.count > 0 {
        DeliveredAdds(sel, st, o, e);
      } else {
        StartedAdds(sel, env, st, r, st.log);
      }
    } else if env.isTap(st.log, e.key) {
      StartedAdds(sel, env, st, r, st.log);
    } else {
      DeliveredAdds(sel, st, o, e);
    }
  }

  lemma SettledAdds(sel: Sel, st: State, r: Record)
    requires Undecided(st)
    ensures Adds(sel, st, Outcome(Deliver(st, st.tk).(tk := NO_RECORD), r, false), r.event)
  {
    SettlingKeepsFront(sel, st, st.tk, Deliver(st, st.tk).(tk := NO_RECORD));
  }

  lemma ProcessAdds(env: Env, st: State, r: Record, sel: Sel)
    requires Fed(r.event) && (r.event.pressed ==> r.tap.count == 0)
    ensures Adds(sel, st, Process(env, st, r), r.event)
  {
    if IsTapping(st) && st.tk.event.pressed {
      if st.tk.tap.count > 0 {
        TapHeldAdds(env, st, r, sel);
      } else if Within(env, st, r.event) {
        UndecidedAdds(env, st, r, sel);
      } else {
        SettledAdds(sel, st, r);
      }
    } else if IsTapping(st) {
      TapReleasedAdds(env, st, r, sel);
    } else if r.event.pressed && env.isTap(st.log, r.event.key) {
      StartedAdds(sel, env, st, r, st.log);
    } else {
      DeliveredAdds(sel, st, Process(env, st, r), r.event);
    }
  }

  // ---------- the state between calls ----------

  predicate HasRelease(buf: seq<Record>, key: Key) {
    exists i :: 0 <= i < |buf| && buf[i].event.key == key && !buf[i].event.pressed
  }

  /** A released tapping key was tapped; a tap count fits four bits; a key held after its first
      tap has its release in the buffer. */
  predicate GoodTapping(tk: Record, buf: seq<Record>) {
    !IsNoEvent(tk.event) ==>
      && (!tk.event.pressed ==> tk.tap.count > 0)
      && tk.tap.count <= 15
      && (tk.event.pressed && tk.tap.count == 1 ==> HasRelease(buf, tk.event.key))
  }

  predicate Good(st: State) {
    GoodTapping(st.tk, st.buf) && GoodBuffer(st.buf) && |st.buf| < BUFFER_SIZE
  }

  /** When the drain loop stops before the buffer is empty, there is no tapping key, or it is
      held with at most one tap. */
  predicate Halted(st: State) {
    st.buf == [] || !IsTapping(st) || (st.tk.event.pressed && st.tk.tap.count <= 1)
  }

  lemma ScanGood(env: Env, st: State)
    requires GoodBuffer(st.buf) && st.tk.tap.count == 0 && st.tk.event.pressed
    ensures var s := ScanTap(env, st);
      && GoodBuffer(s.buf) && |s.buf| == |st.buf| && s.tk.tap.count <= 1
      && s.tk.event == st.tk.event
      && (forall i :: 0 <= i < |s.buf| ==> s.buf[i].event == st.buf[i].event)
      && (IsTapping(s) && s.tk.tap.count == 1 ==> HasRelease(s.buf, s.tk.event.key))
  {
    var i := FindTap(env, st, 0);
    if i < |st.buf| && IsTapping(st) {
      assert ScanTap(env, st).buf[i].event == st.buf[i].event;
    }
  }

  predicate IsReleaseOf(e: Event, key: Key) {
    e.key == key && !e.pressed
  }

  /** What process_tapping leaves behind after it has seen a record */
  ghost predicate GoodOutcome(st: State, o: Outcome, r: Record) {
    && GoodBuffer(o.st.buf) && o.keyp.event == r.event && |o.st.buf| == |st.buf|
    && (forall i :: 0 <= i < |o.st.buf| ==> o.st.buf[i].event == st.buf[i].event)
    && (!o.consumed ==> (!IsNoEvent(r.event) ==> GoodWaiting(o.keyp)) && Halted(o.st))
    && (IsTapping(o.st) ==>
          && (!o.st.tk.event.pressed ==> o.st.tk.tap.count > 0)
          && o.st.tk.tap.count <= 15)
    && (IsTapping(o.st) && o.st.tk.event.pressed && o.st.tk.tap.count == 1 ==>
          if o.consumed then
            HasRelease(o.st.buf, o.st.tk.event.key) && !IsReleaseOf(r.event, o.st.tk.event.key)
          else IsReleaseOf(r.event, o.st.tk.event.key))
  }

  lemma StartedGood(env: Env, st: State, r: Record, log: seq<Emit>)
    requires Good(st) && r.event.pressed && r.tap.count == 0 && Fed(r.event)
    ensures GoodOutcome(st, Outcome(ScanTap(env, State(r, st.buf, log)), r, true), r)
    ensures GoodOutcome(st, StartTap(env, st, r), r)
  {
    var released := Synthetic(Record(Event(st.tk.event.key, false, r.event.time), st.tk.tap));
    ScanGood(env, State(r, st.buf, log));
    ScanGood(env, State(r, st.buf, st.log));
    ScanGood(env, State(r, st.buf, st.log + [released]));
  }

  lemma TapHeldGood(env: Env, st: State, r: Record)
    requires Good(st) && Fed(r.event) && (!IsNoEvent(r.event) ==> GoodWaiting(r))
    requires IsTapping(st) && st.tk.event.pressed && st.tk.tap.count > 0
    ensures GoodOutcome(st, ProcessTapHeld(env, st, r), r)
  {
    if !IsTappingKeyRelease(st, r.event) && env.isTap(st.log, r.event.key) && r.event.pressed {
      StartedGood(env, st, r, st.log);
    }
  }

  lemma UndecidedGood(env: Env, st: State, r: Record)
    requires Good(st) && Fed(r.event) && (!IsNoEvent(r.event) ==> GoodWaiting(r))
    requires IsTapping(st) && st.tk.event.pressed && st.tk.tap.count == 0
    ensures GoodOutcome(st, ProcessUndecided(env, st, r), r)
  {
  }

  lemma TapReleasedGood(env: Env, st: State, r: Record)
    requires Good(st) && Fed(r.event) && (!IsNoEvent(r.event) ==> GoodWaiting(r))
    requires IsTapping(st) && !st.tk.event.pressed
    ensures GoodOutcome(st, ProcessTapReleased(env, st, r), r)
  {
    if r.event.pressed {
      StartedGood(env, st, r, st.log);
    }
  }

  lemma ProcessGood(env: Env, st: State, r: Record)
    requires Good(st) && Fed(r.event) && (!IsNoEvent(r.event) ==> GoodWaiting(r))
    ensures GoodOutcome(st, Process(env, st, r), r)
  {
    if IsTapping(st) && st.tk.event.pressed {
      if st.tk.tap.count > 0 {
        TapHeldGood(env, st, r);
      } else {
        UndecidedGood(env, st, r);
      }
    } else if IsTapping(st) {
      TapReleasedGood(env, st, r);
    } else if r.event.pressed {
      StartedGood(env, st, r, st.log);
    }
  }

  lemma ConsumedGood(st: State, o: Outcome)
    requires st.buf != [] && |o.st.buf| == |st.buf| < BUFFER_SIZE && GoodBuffer(o.st.buf)
    requires o.st.buf[0].event == st.buf[0].event
    requires IsTapping(o.st) ==>
      && (!o.st.tk.event.pressed ==> o.st.tk.tap.count > 0)
      && o.st.tk.tap.count <= 15
    requires IsTapping(o.st) && o.st.tk.event.pressed && o.st.tk.tap.count == 1 ==>
      && HasRelease(o.st.buf, o.st.tk.event.key)
      && !IsReleaseOf(st.buf[0].event, o.st.tk.event.key)
    ensures Good(o.st.(buf := o.st.buf[1..]))
  {
    var rest := o.st.buf[1..];
    if IsTapping(o.st) && o.st.tk.event.pressed && o.st.tk.tap.count == 1 {
      var i :| 0 <= i < |o.st.buf| && IsReleaseOf(o.st.buf[i].event, o.st.tk.event.key);
      assert rest[i - 1] == o.st.buf[i];
    }
  }

  lemma WaitedGood(st: State, o: Outcome)
    requires st.buf != [] && |o.st.buf| == |st.buf| < BUFFER_SIZE && GoodBuffer(o.st.buf)
    requires GoodWaiting(o.keyp) && o.keyp.event == st.buf[0].event
    requires IsTapping(o.st) ==>
      && (!o.st.tk.event.pressed ==> o.st.tk.tap.count > 0)
      && o.st.tk.tap.count <= 15
    requires IsTapping(o.st) && o.st.tk.event.pressed && o.st.tk.tap.count == 1 ==>
      IsReleaseOf(st.buf[0].event, o.st.tk.event.key)
    ensures Good(o.st.(buf := o.st.buf[0 := o.keyp]))
  {
    assert o.st.buf[0 := o.keyp][0] == o.keyp;
  }

  /** The first buffered record is tried: what one round of the drain loop leaves. */
  function Round(st: State, o: Outcome): State
    requires o.st.buf != []
  {
    if o.consumed then o.st.(buf := o.st.buf[1..]) else o.st.(buf := o.st.buf[0 := o.keyp])
  }

  lemma RoundGood(env: Env, st: State)
    requires Good(st) && st.buf != []
    ensures var o := Process(env, st, st.buf[0]);
      && |o.st.buf| == |st.buf| && Good(Round(st, o)) && (!o.consumed ==> Halted(Round(st, o)))
  {
    var o := Process(env, st, st.buf[0]);
    ProcessGood(env, st, st.buf[0]);
    if o.consumed {
      ConsumedGood(st, o);
    } else {
      WaitedGood(st, o);
    }
  }

  lemma MatchesAppend(sel: Sel, a: seq<Event>, b: seq<Event>, x: seq<Event>, w: seq<Event>)
    requires Matches(sel, a, b + x)
    ensures Matches(sel, a + w, b + (x + w))
  {
    assert b + (x + w) == b + x + w;
  }

  lemma FrontIgnoresBuffer(sel: Sel, st: State, buf: seq<Record>)
    ensures Front(sel, st.(buf := buf)) == Front(sel, st)
  {
  }

  lemma ConsumedMatches(sel: Sel, st: State, o: Outcome)
    requires st.buf != [] && |o.st.buf| == |st.buf| && o.consumed
    requires forall i :: 0 <= i < |st.buf| ==> o.st.buf[i].event == st.buf[i].event
    requires Adds(sel, st, o, st.buf[0].event)
    ensures Matches(sel, View(sel, o.st.(buf := o.st.buf[1..])), View(sel, st))
  {
    FrontIgnoresBuffer(sel, o.st, o.st.buf[1..]);
    WaitingSameEvents(sel, st.buf[1..], o.st.buf[1..]);
    MatchesAppend(sel, Front(sel, o.st), Front(sel, st), sel.Pick(st.buf[0].event), Waiting(sel, st.buf[1..]));
  }

  lemma WaitedMatches(sel: Sel, st: State, o: Outcome)
    requires st.buf != [] && |o.st.buf| == |st.buf| && !o.consumed && o.keyp.event == st.buf[0].event
    requires forall i :: 0 <= i < |st.buf| ==> o.st.buf[i].event == st.buf[i].event
    requires Adds(sel, st, o, st.buf[0].event)
    ensures Matches(sel, View(sel, o.st.(buf := o.st.buf[0 := o.keyp])), View(sel, st))
  {
    FrontIgnoresBuffer(sel, o.st, o.st.buf[0 := o.keyp]);
    WaitingSameEvents(sel, o.st.buf[0 := o.keyp], st.buf);
    MatchesAppend(sel, Front(sel, o.st), Front(sel, st), [], Waiting(sel, st.buf));
    assert [] + Waiting(sel, st.buf) == Waiting(sel, st.buf);
  }

  lemma RoundView(env: Env, st: State, sel: Sel)
    requires Good(st) && st.buf != []
    ensures var o := Process(env, st, st.buf[0]);
      |o.st.buf| == |st.buf| && Matches(sel, View(sel, Round(st, o)), View(sel, st))
  {
    var o := Process(env, st, st.buf[0]);
    ProcessGood(env, st, st.buf[0]);
    ProcessAdds(env, st, st.buf[0], sel);
    if o.consumed {
      ConsumedMatches(sel, st, o);
    } else {
      WaitedMatches(sel, st, o);
    }
  }

  lemma {:induction false} DrainGood(env: Env, st: State)
    requires Good(st)
    ensures var d := Drain(env, st); Good(d) && Halted(d)
    decreases |st.buf|
  {
    if st.buf != [] {
      var o := Process(env, st, st.buf[0]);
      RoundGood(env, st);
      if o.consumed {
        DrainGood(env, Round(st, o));
      }
    }
  }

  lemma {:induction false} DrainView(env: Env, st: State, sel: Sel)
    requires Good(st)
    ensures Matches(sel, View(sel, Drain(env, st)), View(sel, st))
    decreases |st.buf|
  {
    if st.buf != [] {
      var o := Process(env, st, st.buf[0]);
      RoundGood(env, st);
      RoundView(env, st, sel);
      if o.consumed {
        DrainView(env, Round(st, o), sel);
      }
    }
  }
}
