/** quantum/debounce/sym_eager_pk.c and sym_eager_pr.c: a change is passed on at once, and then
    nothing more for DEBOUNCE milliseconds. The two differ only in what is debounced together:
    a key (V = bool) or a whole row (V = a row word). */
module SymEager {
  import opened Debounce

  // ---------- the counters of the firmware ----------

  datatype State<V> = State(
    counters: seq<nat>, cooked: seq<V>, last: Clock, countersNeedUpdate: bool, matrixNeedUpdate: bool)

  predicate Shaped<V>(st: State<V>, n: nat) {
    |st.counters| == n && |st.cooked| == n
  }

  function Init<V>(up: seq<V>): (st: State<V>)
    ensures Shaped(st, |up|)
  {
    State(seq(|up|, _ => 0), up, 0, false, false)
  }

  /** update_debounce_counters */
  function Update<V>(st: State<V>, elapsed: nat): (r: State<V>)
    ensures |r.counters| == |st.counters| && r.cooked == st.cooked
  {
    var n := |st.counters|;
    State(
      seq(n, i requires 0 <= i < n => CountDown(st.counters[i], elapsed)),
      st.cooked,
      st.last,
      exists i :: 0 <= i < n && st.counters[i] > elapsed,
      exists i :: 0 <= i < n && 0 < st.counters[i] <= elapsed)
  }

  predicate IsRunning<V>(st: State<V>, i: nat) {
    i < |st.counters| && st.counters[i] != 0
  }

  predicate RunsOut<V>(st: State<V>, r: State<V>, i: nat) {
    IsRunning(st, i) && !IsRunning(r, i)
  }

  /** An update asks for another one if and only if it leaves a counter running, and for a transfer if and only if one
      has run out. */
  lemma UpdateFlags<V>(st: State<V>, elapsed: nat)
    ensures var r := Update(st, elapsed);
      && (r.countersNeedUpdate <==> exists i: nat :: IsRunning(r, i))
      && (r.matrixNeedUpdate <==> exists i: nat :: RunsOut(st, r, i))
  {
    var r := Update(st, elapsed);
    if i :| 0 <= i < |st.counters| && st.counters[i] > elapsed {
      assert IsRunning(r, i);
    }
    if i :| 0 <= i < |st.counters| && 0 < st.counters[i] <= elapsed {
      assert RunsOut(st, r, i);
    }
  }

  /** transfer_matrix_values */
  function Transfer<V(==)>(debounce: nat, st: State<V>, raw: seq<V>): (r: State<V>)
    requires Shaped(st, |raw|)
    ensures Shaped(r, |raw|)
  {
    State(
      seq(|raw|, i requires 0 <= i < |raw| =>
        if raw[i] != st.cooked[i] && st.counters[i] == 0 then debounce else st.counters[i]),
      seq(|raw|, i requires 0 <= i < |raw| => if st.counters[i] == 0 then raw[i] else st.cooked[i]),
      st.last,
      st.countersNeedUpdate || (exists i :: 0 <= i < |raw| && raw[i] != st.cooked[i] && st.counters[i] == 0),
      st.matrixNeedUpdate)
  }

  /** debounce */
  function Call<V(==)>(debounce: nat, st: State<V>, raw: seq<V>, clock: Clock, changed: bool): (r: State<V>)
    requires Shaped(st, |raw|)
    ensures Shaped(r, |raw|)
  {
    var elapsed := ElapsedTime(clock, st.last);
    var st1 :=
      if !st.countersNeedUpdate then st
      else if elapsed > 0 then Update(st, elapsed).(last := clock)
      else st.(last := clock);
    if changed || st1.matrixNeedUpdate then Transfer(debounce, st1.(last := clock), raw) else st1
  }

  function Run<V(==)>(debounce: nat, up: seq<V>, samples: seq<Sample<V>>): (st: State<V>)
    requires Proper(samples, up)
    ensures Shaped(st, |up|)
  {
    if samples == [] then Init(up)
    else
      var before, s := samples[..|samples| - 1], samples[|samples| - 1];
      ProperPrefix(samples, up, |samples| - 1);
      Call(debounce, Run(debounce, up, before), s.raw, Reading(s.time), s.changed)
  }

  // ---------- the timestamp automaton of one key ----------

  datatype Key<V> = Key(cooked: V, lastFlip: Since)

  predicate Locked<V>(debounce: nat, k: Key<V>, t: nat) {
    k.lastFlip.Since? && t - k.lastFlip.time < debounce
  }

  function KeyStep<V(==)>(debounce: nat, k: Key<V>, raw: V, t: nat): Key<V> {
    if raw != k.cooked && !Locked(debounce, k, t) then Key(raw, Since(t)) else k
  }

  function KeyRun<V(==)>(debounce: nat, up: seq<V>, samples: seq<Sample<V>>, i: nat): Key<V>
    requires Proper(samples, up) && i < |up|
  {
    if samples == [] then Key(up[i], Never)
    else
      var before, s := samples[..|samples| - 1], samples[|samples| - 1];
      ProperPrefix(samples, up, |samples| - 1);
      KeyStep(debounce, KeyRun(debounce, up, before, i), s.raw[i], s.time)
  }

  // ---------- refinement ----------

  /** The counter of a key holds what is left of its lock. */
  ghost predicate Related<V>(debounce: nat, st: State<V>, i: nat, k: Key<V>, raw: V, t: nat)
    requires i < |st.counters| && i < |st.cooked|
  {
    && k.cooked == st.cooked[i]
    && (k.lastFlip.Since? ==> k.lastFlip.time <= t)
    && (st.counters[i] == 0 <==> !Locked(debounce, k, t))
    && (st.counters[i] > 0 ==> st.countersNeedUpdate && st.counters[i] == debounce - (t - k.lastFlip.time))
    && (raw != st.cooked[i] ==> st.counters[i] > 0)
  }

  lemma UpdateRefines<V>(debounce: nat, st: State<V>, elapsed: nat, d: nat, i: nat, k: Key<V>, raw: V, t: nat)
    requires 0 < debounce <= 255 && |st.counters| == |st.cooked| && i < |st.counters|
    requires 0 < elapsed <= d && (elapsed < d ==> elapsed == 255)
    requires Related(debounce, st, i, k, raw, t)
    ensures var st' := Update(st, elapsed);
      && (st'.counters[i] == 0 <==> !Locked(debounce, k, t + d))
      && (st'.counters[i] > 0 ==> st'.countersNeedUpdate && st'.counters[i] == debounce - (t + d - k.lastFlip.time))
      && (raw != st.cooked[i] && st'.counters[i] == 0 ==> st'.matrixNeedUpdate)
  {
    var st' := Update(st, elapsed);
    if st.counters[i] > elapsed {
      assert st'.countersNeedUpdate;
    } else if st.counters[i] > 0 {
      assert st'.matrixNeedUpdate;
    }
  }

  lemma CallRefines<V>(debounce: nat, st: State<V>, raw: seq<V>, raw': seq<V>, t: nat, t': nat,
                           changed: bool, k: Key<V>, i: nat)
    requires 0 < debounce <= 255 && Shaped(st, |raw|) && |raw'| == |raw| && i < |raw|
    requires t <= t' < t + SPAN && (changed || raw' == raw)
    requires st.countersNeedUpdate ==> st.last == Reading(t)
    requires Related(debounce, st, i, k, raw[i], t)
    ensures var st' := Call(debounce, st, raw', Reading(t'), changed);
      && (st'.countersNeedUpdate ==> st'.last == Reading(t'))
      && Related(debounce, st', i, KeyStep(debounce, k, raw'[i], t'), raw'[i], t')
  {
    ElapsedIsTrue(t', t);
    var elapsed := ElapsedTime(Reading(t'), Reading(t));
    if st.countersNeedUpdate && elapsed > 0 {
      UpdateRefines(debounce, st, elapsed, t' - t, i, k, raw[i], t);
    }
  }

  /** The firmware's matrix is that of the automata, whatever the keys and times. */
  lemma {:induction false} Refines<V>(debounce: nat, up: seq<V>, samples: seq<Sample<V>>, i: nat)
    requires 0 < debounce <= 255 && Proper(samples, up) && i < |up|
    ensures Run(debounce, up, samples).cooked[i] == KeyRun(debounce, up, samples, i).cooked
    ensures samples != [] ==>
      var st := Run(debounce, up, samples);
      var s := samples[|samples| - 1];
      && (st.countersNeedUpdate ==> st.last == Reading(s.time))
      && Related(debounce, st, i, KeyRun(debounce, up, samples, i), s.raw[i], s.time)
  {
    if samples != [] {
      var before, s := samples[..|samples| - 1], samples[|samples| - 1];
      ProperPrefix(samples, up, |samples| - 1);
      Refines(debounce, up, before, i);
      CallRefines(debounce, Run(debounce, up, before), RawBefore(samples, up, |samples| - 1), s.raw,
                  TimeBefore(samples), s.time, s.changed, KeyRun(debounce, up, before, i), i);
    }
  }

  // ---------- timing ----------

  /** The output of key i changes with the m-th call. */
  predicate FlipsAt<V(==)>(debounce: nat, up: seq<V>, samples: seq<Sample<V>>, i: nat, m: nat)
    requires Proper(samples, up) && i < |up| && m < |samples|
  {
    ProperPrefix(samples, up, m);
    ProperPrefix(samples, up, m + 1);
    Run(debounce, up, samples[..m + 1]).cooked[i] != Run(debounce, up, samples[..m]).cooked[i]
  }

  lemma FlipStep<V>(debounce: nat, k: Key<V>, raw: V, t: nat, tm: nat)
    requires tm <= t
    requires KeyStep(debounce, k, raw, t).cooked != k.cooked || (k.lastFlip.Since? && k.lastFlip.time >= tm)
    ensures var k' := KeyStep(debounce, k, raw, t); k'.lastFlip.Since? && k'.lastFlip.time >= tm
  {
  }

  /** The automaton after one call more. */
  lemma KeyRunStep<V>(debounce: nat, up: seq<V>, samples: seq<Sample<V>>, i: nat, n: nat)
    requires Proper(samples, up) && i < |up| && n < |samples|
    ensures Proper(samples[..n], up) && Proper(samples[..n + 1], up)
    ensures KeyRun(debounce, up, samples[..n + 1], i)
            == KeyStep(debounce, KeyRun(debounce, up, samples[..n], i), RawAt(samples, up, n, i), samples[n].time)
  {
    ProperPrefix(samples, up, n);
    ProperPrefix(samples, up, n + 1);
    assert samples[..n + 1][..n] == samples[..n] && samples[..n + 1][n] == samples[n];
  }

  lemma {:induction false} FlipIsRemembered<V>(debounce: nat, up: seq<V>, samples: seq<Sample<V>>,
      i: nat, m: nat, n: nat)
    requires 0 < debounce <= 255 && Proper(samples, up) && i < |up| && m < n <= |samples|
    requires FlipsAt(debounce, up, samples, i, m)
    ensures Proper(samples[..n], up)
    ensures var k := KeyRun(debounce, up, samples[..n], i);
      k.lastFlip.Since? && k.lastFlip.time >= samples[m].time
  {
    KeyRunStep(debounce, up, samples, i, n - 1);
    TimesAscend(samples, up, m, n - 1);
    if m == n - 1 {
      Refines(debounce, up, samples[..n], i);
      Refines(debounce, up, samples[..m], i);
    } else {
      FlipIsRemembered(debounce, up, samples, i, m, n - 1);
    }
    FlipStep(debounce, KeyRun(debounce, up, samples[..n - 1], i), RawAt(samples, up, n - 1, i),
      samples[n - 1].time, samples[m].time);
  }

  /** Two flips of one key (or row) are at least the debounce time apart. */
  lemma FlipsAreApart<V>(debounce: nat, up: seq<V>, samples: seq<Sample<V>>, i: nat, m: nat, n: nat)
    requires 0 < debounce <= 255 && Proper(samples, up) && i < |up| && m < n < |samples|
    requires FlipsAt(debounce, up, samples, i, m) && FlipsAt(debounce, up, samples, i, n)
    ensures samples[n].time - samples[m].time >= debounce
  {
    KeyRunStep(debounce, up, samples, i, n);
    FlipIsRemembered(debounce, up, samples, i, m, n);
    Refines(debounce, up, samples[..n], i);
    Refines(debounce, up, samples[..n + 1], i);
  }

  lemma {:induction false} HoldingSettles<V>(debounce: nat, up: seq<V>, samples: seq<Sample<V>>, i: nat,
      value: V, m: nat)
    requires 0 < debounce && Proper(samples, up) && i < |up| && m < |samples|
    requires forall j :: m <= j < |samples| ==> RawAt(samples, up, j, i) == value
    ensures var k := KeyRun(debounce, up, samples, i);
      k.cooked == value
      || (Locked(debounce, k, samples[|samples| - 1].time) && k.lastFlip.time <= samples[m].time)
  {
    var before := samples[..|samples| - 1];
    ProperPrefix(samples, up, |samples| - 1);
    RawAtPrefix(samples, up, |samples| - 1, i);
    TimesAscend(samples, up, m, |samples| - 1);
    assert RawAt(samples, up, |samples| - 1, i) == value;
    if m < |samples| - 1 {
      HoldingSettles(debounce, up, before, i, value, m);
    } else {
      FlipIsPast(debounce, up, before, i);
    }
  }

  lemma {:induction false} FlipIsPast<V>(debounce: nat, up: seq<V>, samples: seq<Sample<V>>, i: nat)
    requires Proper(samples, up) && i < |up|
    ensures var k := KeyRun(debounce, up, samples, i);
      k.lastFlip.Since? ==> samples != [] && k.lastFlip.time <= samples[|samples| - 1].time
  {
    if samples != [] {
      var before := samples[..|samples| - 1];
      ProperPrefix(samples, up, |samples| - 1);
      FlipIsPast(debounce, up, before, i);
    }
  }

  /** A raw key (or row) that holds a value for the debounce time is passed on. */
  lemma Settles<V>(debounce: nat, up: seq<V>, samples: seq<Sample<V>>, i: nat, value: V, m: nat)
    requires 0 < debounce <= 255 && Proper(samples, up) && i < |up| && m < |samples|
    requires forall j :: m <= j < |samples| ==> RawAt(samples, up, j, i) == value
    requires samples[|samples| - 1].time - samples[m].time >= debounce
    ensures Run(debounce, up, samples).cooked[i] == value
  {
    Refines(debounce, up, samples, i);
    HoldingSettles(debounce, up, samples, i, value, m);
  }
}
