/** quantum/debounce/sym_defer_pk.c: a key's change is passed on when the raw key has differed
    for DEBOUNCE milliseconds. */
module SymDefer {
  import opened Debounce

  // ---------- the counters of the firmware ----------

  datatype State = State(counters: seq<nat>, cooked: seq<bool>, last: Clock, needUpdate: bool)

  predicate Shaped(st: State, n: nat) {
    |st.counters| == n && |st.cooked| == n
  }

  function Init(n: nat): (st: State)
    ensures Shaped(st, n)
  {
    State(seq(n, _ => 0), seq(n, _ => false), 0, false)
  }

  function Transfer(c: nat, cooked: bool, raw: bool, elapsed: nat): bool {
    if c != 0 && c <= elapsed then raw else cooked
  }

  /** update_debounce_counters_and_transfer_if_expired */
  function Update(st: State, raw: seq<bool>, elapsed: nat): (r: State)
    requires Shaped(st, |raw|)
    ensures Shaped(r, |raw|)
  {
    State(
      seq(|raw|, i requires 0 <= i < |raw| => CountDown(st.counters[i], elapsed)),
      seq(|raw|, i requires 0 <= i < |raw| => Transfer(st.counters[i], st.cooked[i], raw[i], elapsed)),
      st.last,
      exists i :: 0 <= i < |raw| && st.counters[i] > elapsed)
  }

  predicate IsRunning(st: State, i: nat) {
    i < |st.counters| && st.counters[i] != 0
  }

  /** An update asks for another one if and only if it leaves a counter running. */
  lemma UpdateFlag(st: State, raw: seq<bool>, elapsed: nat)
    requires Shaped(st, |raw|)
    ensures Update(st, raw, elapsed).needUpdate <==> exists i: nat :: IsRunning(Update(st, raw, elapsed), i)
  {
    var r := Update(st, raw, elapsed);
    if i :| 0 <= i < |raw| && st.counters[i] > elapsed {
      assert IsRunning(r, i);
    }
    if i: nat :| IsRunning(r, i) {
      assert st.counters[i] > elapsed;
    }
  }

  function StartCounter(debounce: nat, c: nat, cooked: bool, raw: bool): nat {
    if raw == cooked then 0 else if c == 0 then debounce else c
  }

  /** start_debounce_counters */
  function Start(debounce: nat, st: State, raw: seq<bool>): (r: State)
    requires Shaped(st, |raw|)
    ensures Shaped(r, |raw|)
  {
    State(
      seq(|raw|, i requires 0 <= i < |raw| => StartCounter(debounce, st.counters[i], st.cooked[i], raw[i])),
      st.cooked,
      st.last,
      st.needUpdate || exists i :: 0 <= i < |raw| && raw[i] != st.cooked[i] && st.counters[i] == 0)
  }

  /** debounce */
  function Call(debounce: nat, st: State, raw: seq<bool>, clock: Clock, changed: bool): (r: State)
    requires Shaped(st, |raw|)
    ensures Shaped(r, |raw|)
  {
    var elapsed := ElapsedTime(clock, st.last);
    var st1 :=
      if !st.needUpdate then st
      else if elapsed > 0 then Update(st, raw, elapsed).(last := clock)
      else st.(last := clock);
    if changed then Start(debounce, st1.(last := clock), raw) else st1
  }

  function Run(debounce: nat, n: nat, samples: seq<Sample<bool>>): (st: State)
    requires Proper(samples, AllUp(n))
    ensures Shaped(st, n)
  {
    if samples == [] then Init(n)
    else
      var before, s := samples[..|samples| - 1], samples[|samples| - 1];
      ProperPrefix(samples, AllUp(n), |samples| - 1);
      Call(debounce, Run(debounce, n, before), s.raw, Reading(s.time), s.changed)
  }

  // ---------- the timestamp automaton of one key ----------

  /** since: the time of the call at which the raw key began to differ. */
  datatype Key = Key(cooked: bool, since: Since)

  function KeyStep(debounce: nat, k: Key, raw: bool, t: nat): Key {
    var expired := k.since.Since? && t - k.since.time >= debounce;
    var cooked := if expired then raw else k.cooked;
    if raw == cooked then Key(cooked, Never)
    else if k.since.Since? && !expired then Key(cooked, k.since)
    else Key(cooked, Since(t))
  }

  function KeyRun(debounce: nat, n: nat, samples: seq<Sample<bool>>, i: nat): Key
    requires Proper(samples, AllUp(n)) && i < n
  {
    if samples == [] then Key(false, Never)
    else
      var before, s := samples[..|samples| - 1], samples[|samples| - 1];
      ProperPrefix(samples, AllUp(n), |samples| - 1);
      KeyStep(debounce, KeyRun(debounce, n, before, i), s.raw[i], s.time)
  }

  // ---------- refinement ----------

  /** The counter of a key holds what is left of the debounce time. */
  predicate Related(debounce: nat, c: nat, cooked: bool, k: Key, raw: bool, t: nat, needUpdate: bool) {
    && k.cooked == cooked
    && (k.since.Since? <==> raw != cooked)
    && (k.since.Never? ==> c == 0)
    && (k.since.Since? ==> k.since.time <= t < k.since.time + debounce
                           && c == debounce - (t - k.since.time) && needUpdate)
  }

  lemma CallRefines(debounce: nat, st: State, raw: seq<bool>, raw': seq<bool>, t: nat, t': nat,
                    changed: bool, k: Key, i: nat)
    requires 0 < debounce <= 255 && Shaped(st, |raw|) && |raw'| == |raw| && i < |raw|
    requires t <= t' < t + SPAN && (changed || raw' == raw)
    requires st.needUpdate ==> st.last == Reading(t)
    requires Related(debounce, st.counters[i], st.cooked[i], k, raw[i], t, st.needUpdate)
    ensures var st' := Call(debounce, st, raw', Reading(t'), changed);
      && (st'.needUpdate ==> st'.last == Reading(t'))
      && Related(debounce, st'.counters[i], st'.cooked[i], KeyStep(debounce, k, raw'[i], t'),
                 raw'[i], t', st'.needUpdate)
  {
    ElapsedIsTrue(t', t);
  }

  /** The firmware's matrix is that of the automata, whatever the keys and times. */
  lemma {:induction false} Refines(debounce: nat, n: nat, samples: seq<Sample<bool>>, i: nat)
    requires 0 < debounce <= 255 && Proper(samples, AllUp(n)) && i < n
    ensures Run(debounce, n, samples).cooked[i] == KeyRun(debounce, n, samples, i).cooked
    ensures samples != [] ==>
      var st := Run(debounce, n, samples);
      var s := samples[|samples| - 1];
      && (st.needUpdate ==> st.last == Reading(s.time))
      && Related(debounce, st.counters[i], st.cooked[i], KeyRun(debounce, n, samples, i),
                 s.raw[i], s.time, st.needUpdate)
  {
    if samples != [] {
      var before, s := samples[..|samples| - 1], samples[|samples| - 1];
      ProperPrefix(samples, AllUp(n), |samples| - 1);
      Refines(debounce, n, before, i);
      CallRefines(debounce, Run(debounce, n, before), RawBefore(samples, AllUp(n), |samples| - 1), s.raw,
                  TimeBefore(samples), s.time, s.changed, KeyRun(debounce, n, before, i), i);
    }
  }

  // ---------- timing ----------

  /** The raw key had the value at every call from m to the end, and these calls span the time. */
  predicate Held(samples: seq<Sample<bool>>, n: nat, i: nat, value: bool, m: nat, duration: nat)
    requires Proper(samples, AllUp(n)) && i < n && samples != []
  {
    && m < |samples|
    && samples[|samples| - 1].time - samples[m].time >= duration
    && forall j :: m <= j < |samples| ==> RawAt(samples, AllUp(n), j, i) == value
  }

  /** A key differs since the call its automaton remembers. */
  lemma {:induction false} SinceMeansDiffering(debounce: nat, n: nat, samples: seq<Sample<bool>>, i: nat)
    returns (m: nat)
    requires Proper(samples, AllUp(n)) && i < n
    requires KeyRun(debounce, n, samples, i).since.Since?
    ensures var k := KeyRun(debounce, n, samples, i);
      && m < |samples| && samples[m].time == k.since.time
      && forall j :: m <= j < |samples| ==> RawAt(samples, AllUp(n), j, i) != k.cooked
  {
    var before := samples[..|samples| - 1];
    ProperPrefix(samples, AllUp(n), |samples| - 1);
    RawAtPrefix(samples, AllUp(n), |samples| - 1, i);
    var k, k' := KeyRun(debounce, n, before, i), KeyRun(debounce, n, samples, i);
    if k.since == k'.since && k.cooked == k'.cooked && k.since.Since? {
      m := SinceMeansDiffering(debounce, n, before, i);
    } else {
      m := |samples| - 1;
    }
  }

  /** An output key flips only after the raw key held the new value for the debounce time. */
  lemma FlipsOnlyAfterHolding(debounce: nat, n: nat, samples: seq<Sample<bool>>, s: Sample<bool>, i: nat)
    returns (m: nat)
    requires 0 < debounce <= 255 && Proper(samples + [s], AllUp(n)) && i < n
    requires Proper(samples, AllUp(n))
    requires Run(debounce, n, samples + [s]).cooked[i] != Run(debounce, n, samples).cooked[i]
    ensures Held(samples + [s], n, i, Run(debounce, n, samples + [s]).cooked[i], m, debounce)
  {
    var all := samples + [s];
    assert all[..|all| - 1] == samples;
    Refines(debounce, n, all, i);
    Refines(debounce, n, samples, i);
    RawAtPrefix(all, AllUp(n), |samples|, i);
    m := SinceMeansDiffering(debounce, n, samples, i);
  }

  lemma HoldingStep(debounce: nat, k: Key, value: bool, t: nat, tm: nat)
    requires 0 < debounce && tm <= t
    requires k.cooked == value || (k.since.Since? && k.since.time <= tm)
      || (tm == t && (k.since.Since? ==> k.since.time <= t))
    ensures var k' := KeyStep(debounce, k, value, t);
      k'.cooked == value || (k'.since.Since? && k'.since.time <= tm && t < k'.since.time + debounce)
  {
  }

  /** While the raw key holds a value, its automaton either agrees or counts from early enough. */
  lemma {:induction false} HoldingSettles(debounce: nat, n: nat, samples: seq<Sample<bool>>, i: nat,
      value: bool, m: nat)
    requires 0 < debounce && Proper(samples, AllUp(n)) && i < n && m < |samples|
    requires forall j :: m <= j < |samples| ==> RawAt(samples, AllUp(n), j, i) == value
    ensures var k := KeyRun(debounce, n, samples, i);
      k.cooked == value
      || (k.since.Since? && k.since.time <= samples[m].time && samples[|samples| - 1].time < k.since.time + debounce)
  {
    var before := samples[..|samples| - 1];
    ProperPrefix(samples, AllUp(n), |samples| - 1);
    RawAtPrefix(samples, AllUp(n), |samples| - 1, i);
    TimesAscend(samples, AllUp(n), m, |samples| - 1);
    assert RawAt(samples, AllUp(n), |samples| - 1, i) == value;
    if m < |samples| - 1 {
      HoldingSettles(debounce, n, before, i, value, m);
    } else {
      SinceIsPast(debounce, n, before, i);
    }
    HoldingStep(debounce, KeyRun(debounce, n, before, i), value, samples[|samples| - 1].time, samples[m].time);
  }

  lemma {:induction false} SinceIsPast(debounce: nat, n: nat, samples: seq<Sample<bool>>, i: nat)
    requires 0 < debounce && Proper(samples, AllUp(n)) && i < n
    ensures var k := KeyRun(debounce, n, samples, i);
      k.since.Since? ==> samples != [] && k.since.time <= samples[|samples| - 1].time
  {
    if samples != [] {
      var before := samples[..|samples| - 1];
      ProperPrefix(samples, AllUp(n), |samples| - 1);
      SinceIsPast(debounce, n, before, i);
    }
  }

  /** A raw key that holds a value for the debounce time is passed on. */
  lemma Settles(debounce: nat, n: nat, samples: seq<Sample<bool>>, i: nat, value: bool, m: nat)
    requires 0 < debounce <= 255 && Proper(samples, AllUp(n)) && i < n && samples != []
    requires Held(samples, n, i, value, m, debounce)
    ensures Run(debounce, n, samples).cooked[i] == value
  {
    Refines(debounce, n, samples, i);
    HoldingSettles(debounce, n, samples, i, value, m);
  }
}
