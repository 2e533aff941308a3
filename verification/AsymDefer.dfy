/** quantum/debounce/asym_eager_defer_pk.c: a press is passed on at once, a release only when
    the raw key has been up for DEBOUNCE milliseconds. */
module AsymDefer {
  import opened Debounce

  // ---------- the counters of the firmware ----------

  datatype Counter = Counter(pressed: bool, time: nat)

  datatype State = State(
    counters: seq<Counter>, cooked: seq<bool>, last: Clock, countersNeedUpdate: bool, matrixNeedUpdate: bool)

  predicate Shaped(st: State, n: nat) {
    |st.counters| == n && |st.cooked| == n
  }

  function Init(n: nat): (st: State)
    ensures Shaped(st, n)
  {
    State(seq(n, _ => Counter(false, 0)), AllUp(n), 0, false, false)
  }

  function RunDown(c: Counter, elapsed: nat): Counter {
    c.(time := CountDown(c.time, elapsed))
  }

  function Expired(c: Counter, elapsed: nat): bool {
    0 < c.time <= elapsed
  }

  /** update_debounce_counters_and_transfer_if_expired */
  function Update(st: State, raw: seq<bool>, elapsed: nat): (r: State)
    requires Shaped(st, |raw|)
    ensures Shaped(r, |raw|)
  {
    State(
      seq(|raw|, i requires 0 <= i < |raw| => RunDown(st.counters[i], elapsed)),
      seq(|raw|, i requires 0 <= i < |raw| =>
        if Expired(st.counters[i], elapsed) && !st.counters[i].pressed then raw[i] else st.cooked[i]),
      st.last,
      exists i :: 0 <= i < |raw| && st.counters[i].time > elapsed,
      exists i :: 0 <= i < |raw| && Expired(st.counters[i], elapsed) && st.counters[i].pressed)
  }

  predicate IsRunning(st: State, i: nat) {
    i < |st.counters| && st.counters[i].time != 0
  }

  predicate RunsOut(st: State, r: State, i: nat) {
    IsRunning(st, i) && !IsRunning(r, i) && st.counters[i].pressed
  }

  /** An update asks for another one if and only if it leaves a counter running, and for a transfer if and only if the
      lock of a press has run out. */
  lemma UpdateFlags(st: State, raw: seq<bool>, elapsed: nat)
    requires Shaped(st, |raw|)
    ensures var r := Update(st, raw, elapsed);
      && (r.countersNeedUpdate <==> exists i: nat :: IsRunning(r, i))
      && (r.matrixNeedUpdate <==> exists i: nat :: RunsOut(st, r, i))
  {
    var r := Update(st, raw, elapsed);
    if i :| 0 <= i < |raw| && st.counters[i].time > elapsed {
      assert IsRunning(r, i);
    }
    if i :| 0 <= i < |raw| && Expired(st.counters[i], elapsed) && st.counters[i].pressed {
      assert RunsOut(st, r, i);
    }
    if i: nat :| IsRunning(r, i) {
      assert st.counters[i].time > elapsed;
    }
    if i: nat :| RunsOut(st, r, i) {
      assert Expired(st.counters[i], elapsed);
    }
  }

  function TransferCounter(debounce: nat, c: Counter, cooked: bool, raw: bool): Counter {
    if raw != cooked then (if c.time == 0 then Counter(raw, debounce) else c)
    else if c.pressed then c
    else c.(time := 0)
  }

  function TransferKey(c: Counter, cooked: bool, raw: bool): bool {
    cooked || (raw && c.time == 0)
  }

  /** transfer_matrix_values */
  function Transfer(debounce: nat, st: State, raw: seq<bool>): (r: State)
    requires Shaped(st, |raw|)
    ensures Shaped(r, |raw|)
  {
    State(
      seq(|raw|, i requires 0 <= i < |raw| => TransferCounter(debounce, st.counters[i], st.cooked[i], raw[i])),
      seq(|raw|, i requires 0 <= i < |raw| => TransferKey(st.counters[i], st.cooked[i], raw[i])),
      st.last,
      st.countersNeedUpdate || (exists i :: 0 <= i < |raw| && raw[i] != st.cooked[i] && st.counters[i].time == 0),
      st.matrixNeedUpdate)
  }

  /** debounce */
  function Call(debounce: nat, st: State, raw: seq<bool>, clock: Clock, changed: bool): (r: State)
    requires Shaped(st, |raw|)
    ensures Shaped(r, |raw|)
  {
    var elapsed := ElapsedTime(clock, st.last);
    var st1 :=
      if !st.countersNeedUpdate then st
      else if elapsed > 0 then Update(st, raw, elapsed).(last := clock)
      else st.(last := clock);
    if changed || st1.matrixNeedUpdate then Transfer(debounce, st1.(last := clock), raw) else st1
  }

  function Run(debounce: nat, n: nat, samples: seq<Sample<bool>>): (st: State)
    requires Proper(samples, AllUp(n))
    ensures Shaped(st, n)
  {
    if samples == [] then Init(n)
    else
      var before, s := samples[..|samples| - 1], samples[|samples| - 1];
      ProperPrefix(samples, AllUp(n), |samples| - 1);
      Call(debounce, Run(debounce, n, before), s.raw, Reading(s.time), s.changed)
  }

  // ---------- the timestamp automaton of one key ----------

  /** Locked since its press, or waiting to pass on a release seen since that time. */
  datatype Phase = Idle | Locked(since: nat) | Deferring(since: nat)

  datatype Key = Key(cooked: bool, phase: Phase)

  function Expire(debounce: nat, k: Key, raw: bool, t: nat): Key {
    match k.phase
    case Idle => k
    case Locked(s) => if t - s >= debounce then Key(k.cooked, Idle) else k
    case Deferring(s) => if t - s >= debounce then Key(raw, Idle) else k
  }

  function Follow(k: Key, raw: bool, t: nat): Key {
    if k.phase.Idle? && raw && !k.cooked then Key(true, Locked(t))
    else if k.phase.Idle? && !raw && k.cooked then Key(true, Deferring(t))
    else if k.phase.Deferring? && raw == k.cooked then Key(k.cooked, Idle)
    else k
  }

  function KeyStep(debounce: nat, k: Key, raw: bool, t: nat): Key {
    Follow(Expire(debounce, k, raw, t), raw, t)
  }

  function KeyRun(debounce: nat, n: nat, samples: seq<Sample<bool>>, i: nat): Key
    requires Proper(samples, AllUp(n)) && i < n
  {
    if samples == [] then Key(false, Idle)
    else
      var before, s := samples[..|samples| - 1], samples[|samples| - 1];
      ProperPrefix(samples, AllUp(n), |samples| - 1);
      KeyStep(debounce, KeyRun(debounce, n, before, i), s.raw[i], s.time)
  }

  // ---------- refinement ----------

  /** The counter of a key holds what is left of its phase. */
  ghost predicate Counts(debounce: nat, st: State, i: nat, k: Key, t: nat)
    requires i < |st.counters| && i < |st.cooked|
  {
    var c := st.counters[i];
    && k.cooked == st.cooked[i]
    && (k.phase.Idle? <==> c.time == 0)
    && (!k.phase.Idle? ==>
          && k.phase.since <= t && c.time == debounce - (t - k.phase.since)
          && st.countersNeedUpdate && c.pressed == k.phase.Locked? && k.cooked)
  }

  ghost predicate Related(debounce: nat, st: State, i: nat, k: Key, raw: bool, t: nat)
    requires i < |st.counters| && i < |st.cooked|
  {
    && Counts(debounce, st, i, k, t)
    && (raw != k.cooked ==> !k.phase.Idle? && k.cooked)
    && (k.phase.Deferring? ==> raw != k.cooked)
  }

  lemma UpdateRefines(debounce: nat, st: State, raw: seq<bool>, elapsed: nat, d: nat, i: nat, k: Key, t: nat)
    requires 0 < debounce <= 127 && Shaped(st, |raw|) && i < |raw|
    requires 0 < elapsed <= d && (elapsed < d ==> elapsed == 255)
    requires Counts(debounce, st, i, k, t)
    ensures var st' := Update(st, raw, elapsed);
      && Counts(debounce, st', i, Expire(debounce, k, raw[i], t + d), t + d)
      && (k.phase.Locked? && st'.counters[i].time == 0 ==> st'.matrixNeedUpdate)
  {
  }

  lemma TransferRefines(debounce: nat, st: State, raw: seq<bool>, i: nat, k: Key, t: nat)
    requires 0 < debounce <= 127 && Shaped(st, |raw|) && i < |raw|
    requires Counts(debounce, st, i, k, t) && (k.phase.Deferring? || k.phase.Locked? ==> k.cooked)
    ensures Related(debounce, Transfer(debounce, st, raw), i, Follow(k, raw[i], t), raw[i], t)
  {
  }

  lemma CallRefines(debounce: nat, st: State, raw: seq<bool>, raw': seq<bool>, t: nat, t': nat,
                    changed: bool, k: Key, i: nat)
    requires 0 < debounce <= 127 && Shaped(st, |raw|) && |raw'| == |raw| && i < |raw|
    requires t <= t' < t + SPAN && (changed || raw' == raw)
    requires st.countersNeedUpdate ==> st.last == Reading(t)
    requires Related(debounce, st, i, k, raw[i], t)
    ensures var st' := Call(debounce, st, raw', Reading(t'), changed);
      && (st'.countersNeedUpdate ==> st'.last == Reading(t'))
      && Related(debounce, st', i, KeyStep(debounce, k, raw'[i], t'), raw'[i], t')
  {
    ElapsedIsTrue(t', t);
    var elapsed := ElapsedTime(Reading(t'), Reading(t));
    var st1 := st.(last := Reading(t'));
    if st.countersNeedUpdate && elapsed > 0 {
      UpdateRefines(debounce, st, raw', elapsed, t' - t, i, k, t);
      st1 := Update(st, raw', elapsed).(last := Reading(t'));
    }
    var k1 := Expire(debounce, k, raw'[i], t');
    assert Counts(debounce, st1, i, k1, t');
    if changed || st1.matrixNeedUpdate {
      TransferRefines(debounce, st1, raw', i, k1, t');
    } else {
      assert k1.phase.Idle? ==> raw'[i] == k1.cooked;
      assert Follow(k1, raw'[i], t') == k1;
    }
  }

  /** The firmware's matrix is that of the automata, whatever the keys and times. */
  lemma {:induction false} Refines(debounce: nat, n: nat, samples: seq<Sample<bool>>, i: nat)
    requires 0 < debounce <= 127 && Proper(samples, AllUp(n)) && i < n
    ensures Run(debounce, n, samples).cooked[i] == KeyRun(debounce, n, samples, i).cooked
    ensures samples != [] ==>
      var st := Run(debounce, n, samples);
      var s := samples[|samples| - 1];
      && (st.countersNeedUpdate ==> st.last == Reading(s.time))
      && Related(debounce, st, i, KeyRun(debounce, n, samples, i), s.raw[i], s.time)
  {
    if samples != [] {
      var before, s := samples[..|samples| - 1], samples[|samples| - 1];
      ProperPrefix(samples, AllUp(n), |samples| - 1);
      Refines(debounce, n, before, i);
      CallRefines(debounce, Run(debounce, n, before), RawBefore(samples, AllUp(n), |samples| - 1), s.raw,
                  TimeBefore(samples), s.time, s.changed, KeyRun(debounce, n, before, i), i);
    }
  }

  // ---------- timing ----------

  /** A pressed raw key is passed on by the very call that reads it. */
  lemma PressIsImmediate(debounce: nat, n: nat, samples: seq<Sample<bool>>, i: nat)
    requires 0 < debounce <= 127 && Proper(samples, AllUp(n)) && i < n && samples != []
    requires RawAt(samples, AllUp(n), |samples| - 1, i)
    ensures Run(debounce, n, samples).cooked[i]
  {
    Refines(debounce, n, samples, i);
  }

  function OutputAt(debounce: nat, n: nat, samples: seq<Sample<bool>>, i: nat, m: nat): bool
    requires Proper(samples, AllUp(n)) && i < n && m <= |samples|
  {
    ProperPrefix(samples, AllUp(n), m);
    Run(debounce, n, samples[..m]).cooked[i]
  }

  /** Nothing this key does before the lock of a press at time tm is over can be a release. */
  predicate After(debounce: nat, k: Key, t: nat, tm: nat) {
    match k.phase
    case Idle => t >= tm + debounce
    case Locked(s) => tm <= s <= t
    case Deferring(s) => tm + debounce <= s <= t
  }

  lemma AfterStep(debounce: nat, k: Key, raw: bool, t: nat, t': nat, tm: nat)
    requires 0 < debounce && tm <= t <= t'
    requires After(debounce, k, t, tm)
    ensures After(debounce, KeyStep(debounce, k, raw, t'), t', tm)
    ensures k.cooked && !KeyStep(debounce, k, raw, t').cooked ==> t' >= tm + 2 * debounce
  {
  }

  lemma KeyRunStep(debounce: nat, n: nat, samples: seq<Sample<bool>>, i: nat, m: nat)
    requires Proper(samples, AllUp(n)) && i < n && m < |samples|
    ensures Proper(samples[..m], AllUp(n)) && Proper(samples[..m + 1], AllUp(n))
    ensures KeyRun(debounce, n, samples[..m + 1], i)
            == KeyStep(debounce, KeyRun(debounce, n, samples[..m], i), RawAt(samples, AllUp(n), m, i), samples[m].time)
  {
    ProperPrefix(samples, AllUp(n), m);
    ProperPrefix(samples, AllUp(n), m + 1);
    assert samples[..m + 1][..m] == samples[..m] && samples[..m + 1][m] == samples[m];
  }

  /** The call that passes a press on locks the key. */
  lemma PressLocks(debounce: nat, n: nat, samples: seq<Sample<bool>>, i: nat, m: nat)
    requires 0 < debounce <= 127 && Proper(samples, AllUp(n)) && i < n && m < |samples|
    requires !OutputAt(debounce, n, samples, i, m) && OutputAt(debounce, n, samples, i, m + 1)
    ensures Proper(samples[..m + 1], AllUp(n))
    ensures After(debounce, KeyRun(debounce, n, samples[..m + 1], i), samples[m].time, samples[m].time)
  {
    KeyRunStep(debounce, n, samples, i, m);
    Refines(debounce, n, samples[..m + 1], i);
    Refines(debounce, n, samples[..m], i);
  }

  lemma {:induction false} AfterPress(debounce: nat, n: nat, samples: seq<Sample<bool>>, i: nat, m: nat, e: nat)
    requires 0 < debounce <= 127 && Proper(samples, AllUp(n)) && i < n && m < e <= |samples|
    requires !OutputAt(debounce, n, samples, i, m) && OutputAt(debounce, n, samples, i, m + 1)
    ensures Proper(samples[..e], AllUp(n))
    ensures After(debounce, KeyRun(debounce, n, samples[..e], i), samples[e - 1].time, samples[m].time)
  {
    if m == e - 1 {
      PressLocks(debounce, n, samples, i, m);
    } else {
      KeyRunStep(debounce, n, samples, i, e - 1);
      AfterPress(debounce, n, samples, i, m, e - 1);
      TimesAscend(samples, AllUp(n), m, e - 2);
      TimesAscend(samples, AllUp(n), e - 2, e - 1);
      AfterStep(debounce, KeyRun(debounce, n, samples[..e - 1], i), RawAt(samples, AllUp(n), e - 1, i),
                samples[e - 2].time, samples[e - 1].time, samples[m].time);
    }
  }

  /** A key that went down stays down for at least twice the debounce time. */
  lemma StaysPressed(debounce: nat, n: nat, samples: seq<Sample<bool>>, i: nat, m: nat, e: nat)
    requires 0 < debounce <= 127 && Proper(samples, AllUp(n)) && i < n && m < e < |samples|
    requires !OutputAt(debounce, n, samples, i, m) && OutputAt(debounce, n, samples, i, m + 1)
    requires OutputAt(debounce, n, samples, i, e) && !OutputAt(debounce, n, samples, i, e + 1)
    ensures samples[e].time - samples[m].time >= 2 * debounce
  {
    AfterPress(debounce, n, samples, i, m, e);
    KeyRunStep(debounce, n, samples, i, e);
    Refines(debounce, n, samples[..e], i);
    Refines(debounce, n, samples[..e + 1], i);
    TimesAscend(samples, AllUp(n), m, e - 1);
    TimesAscend(samples, AllUp(n), e - 1, e);
    AfterStep(debounce, KeyRun(debounce, n, samples[..e], i), RawAt(samples, AllUp(n), e, i),
              samples[e - 1].time, samples[e].time, samples[m].time);
  }

  /** A call that leaves a key deferring saw it up, and either began the deferring or found it so. */
  lemma DeferringStep(debounce: nat, n: nat, samples: seq<Sample<bool>>, i: nat)
    requires 0 < debounce <= 127 && Proper(samples, AllUp(n)) && i < n
    requires KeyRun(debounce, n, samples, i).phase.Deferring?
    ensures samples != [] && Proper(samples[..|samples| - 1], AllUp(n))
    ensures !RawAt(samples, AllUp(n), |samples| - 1, i)
    ensures var phase := KeyRun(debounce, n, samples, i).phase;
      phase.since == samples[|samples| - 1].time || KeyRun(debounce, n, samples[..|samples| - 1], i).phase == phase
  {
    var e := |samples| - 1;
    assert samples[..e + 1] == samples;
    KeyRunStep(debounce, n, samples, i, e);
    Refines(debounce, n, samples[..e], i);
    Refines(debounce, n, samples, i);
  }

  /** A deferring key has read as up since the call its automaton remembers. */
  lemma {:induction false} DeferringMeansUp(debounce: nat, n: nat, samples: seq<Sample<bool>>, i: nat) returns (m: nat)
    requires 0 < debounce <= 127 && Proper(samples, AllUp(n)) && i < n
    requires KeyRun(debounce, n, samples, i).phase.Deferring?
    ensures m < |samples| && samples[m].time == KeyRun(debounce, n, samples, i).phase.since
    ensures forall j :: m <= j < |samples| ==> !RawAt(samples, AllUp(n), j, i)
  {
    var e := |samples| - 1;
    DeferringStep(debounce, n, samples, i);
    if KeyRun(debounce, n, samples, i).phase.since == samples[e].time {
      m := e;
    } else {
      RawAtPrefix(samples, AllUp(n), e, i);
      m := DeferringMeansUp(debounce, n, samples[..e], i);
    }
  }

  /** A release is passed on only after the raw key read as up for the debounce time. */
  lemma ReleaseOnlyAfterHolding(debounce: nat, n: nat, samples: seq<Sample<bool>>, i: nat, e: nat) returns (m: nat)
    requires 0 < debounce <= 127 && Proper(samples, AllUp(n)) && i < n && e < |samples|
    requires OutputAt(debounce, n, samples, i, e) && !OutputAt(debounce, n, samples, i, e + 1)
    ensures m <= e && samples[e].time - samples[m].time >= debounce
    ensures forall j :: m <= j <= e ==> !RawAt(samples, AllUp(n), j, i)
  {
    KeyRunStep(debounce, n, samples, i, e);
    Refines(debounce, n, samples[..e], i);
    Refines(debounce, n, samples[..e + 1], i);
    RawAtPrefix(samples, AllUp(n), e, i);
    m := DeferringMeansUp(debounce, n, samples[..e], i);
  }

  /** What a key that has read as up since time tm can be at time t: locked since before, deferring, or up */
  predicate Releasing(debounce: nat, k: Key, t: nat, tm: nat) {
    match k.phase
    case Idle => !k.cooked
    case Locked(s) => s <= tm && t < s + debounce
    case Deferring(s) => s <= t < s + debounce
  }

  lemma ReleasingStep(debounce: nat, k: Key, t: nat, tm: nat)
    requires 0 < debounce && tm <= t && (!k.phase.Idle? ==> k.cooked)
    requires (!k.phase.Idle? ==> k.phase.since <= tm) || Releasing(debounce, k, t, tm)
    ensures Releasing(debounce, KeyStep(debounce, k, false, t), t, tm)
  {
  }

  /** One call later */
  lemma ReleasingNext(debounce: nat, k: Key, t: nat, t': nat, tm: nat)
    requires 0 < debounce && tm <= t <= t' && (!k.phase.Idle? ==> k.cooked) && Releasing(debounce, k, t, tm)
    ensures Releasing(debounce, KeyStep(debounce, k, false, t'), t', tm)
    ensures KeyStep(debounce, k, false, t').phase.Deferring? && (k.phase.Idle? || k.phase.Deferring?) ==>
      KeyStep(debounce, k, false, t') == k
  {
  }

  predicate UpFrom(samples: seq<Sample<bool>>, n: nat, i: nat, m: nat)
    requires Proper(samples, AllUp(n)) && i < n
  {
    forall j :: m <= j < |samples| ==> !RawAt(samples, AllUp(n), j, i)
  }

  lemma {:induction false} UpReleases(debounce: nat, n: nat, samples: seq<Sample<bool>>, i: nat, m: nat, e: nat)
    requires 0 < debounce <= 127 && Proper(samples, AllUp(n)) && i < n && m < e <= |samples|
    requires UpFrom(samples, n, i, m)
    ensures Proper(samples[..e], AllUp(n))
    ensures Releasing(debounce, KeyRun(debounce, n, samples[..e], i), samples[e - 1].time, samples[m].time)
  {
    KeyRunStep(debounce, n, samples, i, e - 1);
    var k := KeyRun(debounce, n, samples[..e - 1], i);
    Refines(debounce, n, samples[..e - 1], i);
    if e - 1 > 0 {
      TimesAscend(samples, AllUp(n), e - 2, e - 1);
    }
    if m == e - 1 {
      ReleasingStep(debounce, k, samples[m].time, samples[m].time);
    } else {
      UpReleases(debounce, n, samples, i, m, e - 1);
      TimesAscend(samples, AllUp(n), m, e - 2);
      ReleasingNext(debounce, k, samples[e - 2].time, samples[e - 1].time, samples[m].time);
    }
  }

  /** Past the lock, a deferring stays the one it was. */
  lemma {:induction false} SameDeferring(debounce: nat, n: nat, samples: seq<Sample<bool>>, i: nat,
                                         m: nat, a: nat, e: nat)
    requires 0 < debounce <= 127 && Proper(samples, AllUp(n)) && i < n && m <= a < e <= |samples|
    requires UpFrom(samples, n, i, m) && samples[a].time >= samples[m].time + debounce
    ensures Proper(samples[..e], AllUp(n))
    ensures var k := KeyRun(debounce, n, samples[..e], i);
      !k.phase.Locked? && (k.phase.Deferring? ==> k.phase.since <= samples[a].time)
  {
    UpReleases(debounce, n, samples, i, m, e);
    TimesAscend(samples, AllUp(n), a, e - 1);
    if a < e - 1 {
      SameDeferring(debounce, n, samples, i, m, a, e - 1);
      UpReleases(debounce, n, samples, i, m, e - 1);
      KeyRunStep(debounce, n, samples, i, e - 1);
      Refines(debounce, n, samples[..e - 1], i);
      TimesAscend(samples, AllUp(n), m, e - 2);
      TimesAscend(samples, AllUp(n), e - 2, e - 1);
      ReleasingNext(debounce, KeyRun(debounce, n, samples[..e - 1], i), samples[e - 2].time, samples[e - 1].time,
                    samples[m].time);
    }
  }

  /** A raw key that reads as up from call m on is up in the output: a lock may take one debounce time, up to a
      call a, and the release another. StaysPressed is the lower bound. */
  lemma Settles(debounce: nat, n: nat, samples: seq<Sample<bool>>, i: nat, m: nat, a: nat)
    requires 0 < debounce <= 127 && Proper(samples, AllUp(n)) && i < n && m <= a < |samples|
    requires UpFrom(samples, n, i, m)
    requires samples[a].time >= samples[m].time + debounce
    requires samples[|samples| - 1].time >= samples[a].time + debounce
    ensures !Run(debounce, n, samples).cooked[i]
  {
    assert samples[..|samples|] == samples;
    SameDeferring(debounce, n, samples, i, m, a, |samples|);
    UpReleases(debounce, n, samples, i, m, |samples|);
    Refines(debounce, n, samples, i);
  }
}
