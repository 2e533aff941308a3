/** What the debounce algorithms share: the wrapping timer and the calls they see. */
module Debounce {

  /** Range of the fast timer (32 bits). */
  const SPAN: nat := 0x1_0000_0000

  type Clock = t: nat | t < SPAN

  /** A timer reading at a true time. */
  function Reading(t: nat): Clock {
    t % SPAN
  }

  /** The fast timer shows the low 32 bits. */
  lemma FastTimer(t: nat)
    ensures Reading(t) == t % 4294967296
  {
  }

  /** TIMER_DIFF_FAST, cut off at UINT8_MAX */
  function ElapsedTime(now: Clock, last: Clock): (e: nat)
    ensures e <= 255
  {
    var d := (now - last) % SPAN;
    if d > 255 then 255 else d
  }

  /** A counter after some time, not below zero */
  function CountDown(c: nat, elapsed: nat): nat {
    if c <= elapsed then 0 else c - elapsed
  }

  lemma ElapsedIsTrue(now: nat, last: nat)
    requires last <= now < last + SPAN
    ensures ElapsedTime(Reading(now), Reading(last)) == if now - last > 255 then 255 else now - last
  {
  }

  /** One call of debounce: the raw keys (or rows), the true time, and whether the scan saw a
      change. */
  datatype Sample<V> = Sample(raw: seq<V>, time: nat, changed: bool)

  /** Equally many keys each time, times that do not go back and calls less than one timer range
      apart, and a change is always announced (up is the matrix before the first call). */
  predicate Proper<V(==)>(samples: seq<Sample<V>>, up: seq<V>) {
    forall i :: 0 <= i < |samples| ==> ProperAt(samples, up, i)
  }

  predicate ProperAt<V(==)>(samples: seq<Sample<V>>, up: seq<V>, i: nat)
    requires i < |samples|
  {
    && |samples[i].raw| == |up|
    && (i > 0 ==> samples[i - 1].time <= samples[i].time < samples[i - 1].time + SPAN)
    && (samples[i].changed || samples[i].raw == RawBefore(samples, up, i))
  }

  /** What key i read at call j. */
  function RawAt<V(==)>(samples: seq<Sample<V>>, up: seq<V>, j: nat, i: nat): V
    requires Proper(samples, up) && j < |samples| && i < |up|
  {
    assert ProperAt(samples, up, j);
    samples[j].raw[i]
  }

  function RawBefore<V>(samples: seq<Sample<V>>, up: seq<V>, i: nat): seq<V>
    requires i <= |samples|
  {
    if i == 0 then up else samples[i - 1].raw
  }

  function TimeBefore<V>(samples: seq<Sample<V>>): nat
    requires samples != []
  {
    if |samples| == 1 then samples[0].time else samples[|samples| - 2].time
  }

  /** The times do not go back, over any distance. */
  lemma {:induction false} TimesAscend<V>(samples: seq<Sample<V>>, up: seq<V>, i: nat, j: nat)
    requires Proper(samples, up) && i <= j < |samples|
    ensures samples[i].time <= samples[j].time
  {
    assert ProperAt(samples, up, j);
    if i < j {
      TimesAscend(samples, up, i, j - 1);
    }
  }

  lemma ProperPrefix<V>(samples: seq<Sample<V>>, up: seq<V>, m: nat)
    requires Proper(samples, up) && m <= |samples|
    ensures Proper(samples[..m], up)
    ensures m < |samples| ==> ProperAt(samples, up, m)
  {
    forall i | 0 <= i < m
      ensures ProperAt(samples[..m], up, i)
    {
      assert ProperAt(samples, up, i);
    }
  }

  function AllUp(n: nat): seq<bool> {
    seq(n, _ => false)
  }

  lemma RawAtPrefix<V>(samples: seq<Sample<V>>, up: seq<V>, m: nat, i: nat)
    requires m <= |samples| && i < |up| && Proper(samples, up) && Proper(samples[..m], up)
    ensures forall j :: 0 <= j < m ==> RawAt(samples[..m], up, j, i) == RawAt(samples, up, j, i)
  {
  }

  datatype Since = Never | Since(time: nat)
}
