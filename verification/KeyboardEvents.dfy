/** The events keyboard_task makes from the differences between scans (quantum/keyboard.c): one per
    call, and for each key presses and releases in turn. */
module KeyboardEvents {
  import opened MatrixBits
  import opened TapRecords
  import opened TappingOrder
  import opened TappingRuns

  /** A call of keyboard_task: the keys as matrix_scan reads them, row after row, and the timer */
  datatype Call = Call(keys: seq<bool>, timer: Time)

  /** The key at a place in the scan order */
  function KeyOf(i: nat, cols: nat): (key: Key)
    requires cols > 0
    ensures key.col < cols
  {
    if i < cols then Key(0, i)
    else
      var above := KeyOf(i - cols, cols);
      Key(above.row + 1, above.col)
  }

  lemma {:induction false} KeyOfPlace(r: nat, c: nat, cols: nat)
    requires c < cols
    ensures KeyOf(KeyCount(r, cols) + c, cols) == Key(r, c)
  {
    if r > 0 { KeyOfPlace(r - 1, c, cols); }
  }

  lemma {:induction false} PlaceOfKey(i: nat, cols: nat)
    requires cols > 0
    ensures KeyCount(KeyOf(i, cols).row, cols) + KeyOf(i, cols).col == i
  {
    if i >= cols { PlaceOfKey(i - cols, cols); }
  }

  /** timer_read() | 1 */
  function Odd(t: Time): Time {
    if t % 2 == 0 then t + 1 else t
  }

  /** The first difference from a place on */
  function FirstDiff(prev: seq<bool>, now: seq<bool>, i: nat): (j: nat)
    requires i <= |prev| == |now|
    ensures i <= j <= |prev|
    ensures j < |prev| ==> prev[j] != now[j]
    ensures forall k :: i <= k < j ==> prev[k] == now[k]
    decreases |prev| - i
  {
    if i < |prev| && prev[i] == now[i] then FirstDiff(prev, now, i + 1) else i
  }

  function Tick(t: Time): Event {
    Event(TICK_KEY, false, Odd(t))
  }

  /** The event of a call, and the keys known afterwards */
  function EventOf(prev: seq<bool>, c: Call, cols: nat): Event
    requires |prev| == |c.keys| && cols > 0
  {
    var j := FirstDiff(prev, c.keys, 0);
    if j < |prev| then Event(KeyOf(j, cols), c.keys[j], Odd(c.timer)) else Tick(c.timer)
  }

  function Known(prev: seq<bool>, c: Call): (next: seq<bool>)
    requires |prev| == |c.keys|
    ensures |next| == |prev|
  {
    var j := FirstDiff(prev, c.keys, 0);
    if j < |prev| then prev[j := c.keys[j]] else prev
  }

  ghost predicate Sized(calls: seq<Call>, n: nat) {
    forall i :: 0 <= i < |calls| ==> |calls[i].keys| == n
  }

  /** The keys known after a run that starts with no key down */
  ghost function KnownAfter(calls: seq<Call>, n: nat): (keys: seq<bool>)
    requires Sized(calls, n)
    ensures |keys| == n
  {
    if calls == [] then seq(n, i => false) else Known(KnownAfter(calls[..|calls| - 1], n), calls[|calls| - 1])
  }

  ghost function Events(calls: seq<Call>, n: nat, cols: nat): (events: seq<Event>)
    requires Sized(calls, n) && cols > 0
    ensures |events| == |calls|
  {
    if calls == [] then []
    else
      var before := calls[..|calls| - 1];
      Events(before, n, cols) + [EventOf(KnownAfter(before, n), calls[|calls| - 1], cols)]
  }

  // ---------- presses and releases in turn ----------

  /** What the events of a key say about it */
  predicate LastPressed(s: seq<Event>) {
    s != [] && s[|s| - 1].pressed
  }

  lemma AlternatesNext(s: seq<Event>, e: Event)
    requires Alternates(s) && e.pressed != LastPressed(s)
    ensures Alternates(s + [e])
    ensures s == [] ==> e.pressed
  {
  }

  /** What is said of key i after its events s */
  ghost predicate Alternating(s: seq<Event>, keys: seq<bool>, i: nat)
    requires i < |keys|
  {
    Alternates(s) && (s != [] ==> s[0].pressed) && keys[i] == LastPressed(s)
  }

  lemma StepAlternates(prev: seq<bool>, c: Call, cols: nat, i: nat, s: seq<Event>)
    requires |prev| == |c.keys| && 0 < cols <= 255 && i < |prev| && Alternating(s, prev, i)
    ensures Alternating(s + OfKey(KeyOf(i, cols)).Pick(EventOf(prev, c, cols)), Known(prev, c), i)
  {
    var e := EventOf(prev, c, cols);
    var j := FirstDiff(prev, c.keys, 0);
    PlaceOfKey(i, cols);
    PlaceOfKey(j, cols);
    if j == i {
      AlternatesNext(s, e);
      assert OfKey(KeyOf(i, cols)).Pick(e) == [e];
    } else {
      assert OfKey(KeyOf(i, cols)).Pick(e) == [];
      assert s + [] == s;
    }
  }

  /** The events of key i alternate, start with a press, and end as the key is known. */
  lemma {:induction false} KeyAlternates(calls: seq<Call>, n: nat, cols: nat, i: nat)
    requires Sized(calls, n) && 0 < cols <= 255 && i < n
    ensures Alternating(FedEvents(OfKey(KeyOf(i, cols)), Events(calls, n, cols)), KnownAfter(calls, n), i)
  {
    if calls != [] {
      var before, last := calls[..|calls| - 1], calls[|calls| - 1];
      KeyAlternates(before, n, cols, i);
      StepAlternates(KnownAfter(before, n), last, cols, i, FedEvents(OfKey(KeyOf(i, cols)), Events(before, n, cols)));
      assert Events(calls, n, cols)[..|calls| - 1] == Events(before, n, cols);
    }
  }

  /** Only keys of the matrix have events. */
  lemma {:induction false} NoOtherKey(calls: seq<Call>, n: nat, cols: nat, key: Key)
    requires Sized(calls, n) && 0 < cols <= 255 && forall i: nat :: i < n ==> KeyOf(i, cols) != key
    ensures FedEvents(OfKey(key), Events(calls, n, cols)) == []
  {
    if calls != [] {
      NoOtherKey(calls[..|calls| - 1], n, cols, key);
      assert Events(calls, n, cols)[..|calls| - 1] == Events(calls[..|calls| - 1], n, cols);
    }
  }

  lemma {:induction false} EventsAreFed(calls: seq<Call>, n: nat, cols: nat)
    requires Sized(calls, n) && 0 < cols <= 255
    ensures AllFed(Events(calls, n, cols))
  {
    if calls != [] {
      EventsAreFed(calls[..|calls| - 1], n, cols);
    }
  }

  /** Over any run, the events of every key alternate, starting with a press. */
  lemma EveryKeyAlternates(calls: seq<Call>, n: nat, cols: nat, key: Key)
    requires Sized(calls, n) && 0 < cols <= 255
    ensures var s := FedEvents(OfKey(key), Events(calls, n, cols)); Alternates(s) && (s != [] ==> s[0].pressed)
  {
    if i: nat :| i < n && KeyOf(i, cols) == key {
      KeyAlternates(calls, n, cols, i);
    } else {
      NoOtherKey(calls, n, cols, key);
    }
  }

  /** What the scan feeds to the tap machine satisfies the assumptions of TappingRuns.KeyOrder. */
  lemma ScannedKeyOrder(env: Env, calls: seq<Call>, n: nat, cols: nat, key: Key)
    requires Sized(calls, n) && 0 < cols <= 255
    ensures var events := Events(calls, n, cols);
      (forall m :: 0 <= m <= |events| ==> InOrder(env, events, key, m))
      <==> (forall m :: 0 <= m < |events| ==> !OvertakesAt(env, events, key, m))
  {
    EventsAreFed(calls, n, cols);
    EveryKeyAlternates(calls, n, cols, key);
    KeyOrder(env, Events(calls, n, cols), key);
  }

  // ---------- the events themselves ----------

  /** Every event, of a key or a tick, has an odd time that is the timer's or the one behind it. */
  lemma {:induction false} EventTimes(calls: seq<Call>, n: nat, cols: nat, k: nat)
    requires Sized(calls, n) && cols > 0 && k < |calls|
    ensures Events(calls, n, cols)[k].time % 2 == 1
    ensures 0 <= Events(calls, n, cols)[k].time - calls[k].timer <= 1
  {
    if k < |calls| - 1 {
      EventTimes(calls[..|calls| - 1], n, cols, k);
    }
  }

  lemma {:induction false} EventAt(calls: seq<Call>, n: nat, cols: nat, k: nat)
    requires Sized(calls, n) && cols > 0 && k < |calls|
    ensures Events(calls, n, cols)[k] == EventOf(KnownAfter(calls[..k], n), calls[k], cols)
  {
    if k < |calls| - 1 {
      EventAt(calls[..|calls| - 1], n, cols, k);
      assert calls[..|calls| - 1][..k] == calls[..k];
    }
  }

  /** The event is that of the first key in scan order that differs, pressed if the matrix has it down. */
  predicate IsChange(e: Event, known: seq<bool>, keys: seq<bool>, cols: nat)
    requires |known| == |keys|
  {
    var j := KeyCount(e.key.row, cols) + e.key.col;
    && e.key.col < cols && j < |keys| && known[..j] == keys[..j] && known[j] != keys[j] && e.pressed == keys[j]
  }

  lemma EventIsChange(prev: seq<bool>, c: Call, cols: nat)
    requires |prev| == |c.keys| && 0 < cols <= 255
    ensures prev != c.keys ==> IsChange(EventOf(prev, c, cols), prev, c.keys, cols)
  {
    var j := FirstDiff(prev, c.keys, 0);
    if j < |prev| {
      PlaceOfKey(j, cols);
      assert prev[..j] == c.keys[..j];
    } else {
      assert prev == c.keys;
    }
  }

  lemma TickIsNoEvent(prev: seq<bool>, c: Call, cols: nat)
    requires |prev| == |c.keys| && 0 < cols <= 255
    ensures var e := EventOf(prev, c, cols);
      (IsNoEvent(e) <==> prev == c.keys) && (IsNoEvent(e) ==> !e.pressed && e.key == Key(255, 255))
  {
  }

  /** A call makes a tick if and only if the matrix is as known, and otherwise the event of the first change. */
  lemma EventsAreChanges(calls: seq<Call>, n: nat, cols: nat, k: nat)
    requires Sized(calls, n) && 0 < cols <= 255 && k < |calls|
    ensures var e, known, keys := Events(calls, n, cols)[k], KnownAfter(calls[..k], n), calls[k].keys;
      && (IsNoEvent(e) <==> known == keys) && (IsNoEvent(e) ==> !e.pressed && e.key == Key(255, 255))
      && (known != keys ==> IsChange(e, known, keys, cols))
  {
    EventAt(calls, n, cols, k);
    EventIsChange(KnownAfter(calls[..k], n), calls[k], cols);
    TickIsNoEvent(KnownAfter(calls[..k], n), calls[k], cols);
  }

  // ---------- catching up with the matrix ----------

  /** In how many of the first n keys two matrices differ */
  function DiffersIn(a: seq<bool>, b: seq<bool>, n: nat): nat
    requires n <= |a| == |b|
  {
    if n == 0 then 0 else DiffersIn(a, b, n - 1) + if a[n - 1] != b[n - 1] then 1 else 0
  }

  function Distance(a: seq<bool>, b: seq<bool>): nat
    requires |a| == |b|
  {
    DiffersIn(a, b, |a|)
  }

  lemma {:induction false} DiffersUpdate(a: seq<bool>, b: seq<bool>, j: nat, n: nat)
    requires n <= |a| == |b| && j < |a| && a[j] != b[j]
    ensures DiffersIn(a[j := b[j]], b, n) == DiffersIn(a, b, n) - if j < n then 1 else 0
  {
    if n > 0 { DiffersUpdate(a, b, j, n - 1); }
  }

  lemma {:induction false} DiffersZero(a: seq<bool>, b: seq<bool>, n: nat)
    requires n <= |a| == |b|
    ensures DiffersIn(a, b, n) == 0 <==> forall k :: 0 <= k < n ==> a[k] == b[k]
  {
    if n > 0 { DiffersZero(a, b, n - 1); }
  }

  lemma DistanceZero(a: seq<bool>, b: seq<bool>)
    requires |a| == |b|
    ensures Distance(a, b) == 0 <==> a == b
  {
    DiffersZero(a, b, |a|);
  }

  /** Every call brings the known keys one step closer to the matrix, until they are equal. */
  lemma CallCatchesUp(prev: seq<bool>, c: Call)
    requires |prev| == |c.keys|
    ensures Distance(Known(prev, c), c.keys) == if Distance(prev, c.keys) > 0 then Distance(prev, c.keys) - 1 else 0
  {
    var j := FirstDiff(prev, c.keys, 0);
    DistanceZero(prev, c.keys);
    if j < |prev| {
      DiffersUpdate(prev, c.keys, j, |prev|);
    } else {
      assert prev == c.keys;
    }
  }

  ghost function KnownFrom(prev: seq<bool>, calls: seq<Call>): (keys: seq<bool>)
    requires Sized(calls, |prev|)
    ensures |keys| == |prev|
  {
    if calls == [] then prev else Known(KnownFrom(prev, calls[..|calls| - 1]), calls[|calls| - 1])
  }

  /** While the matrix stays the same, as many calls as keys differ make the known keys equal to it. */
  lemma {:induction false} StableMatrixIsReached(prev: seq<bool>, now: seq<bool>, calls: seq<Call>)
    requires |prev| == |now| && forall i :: 0 <= i < |calls| ==> calls[i].keys == now
    ensures var d := Distance(prev, now);
      Distance(KnownFrom(prev, calls), now) == if |calls| <= d then d - |calls| else 0
    ensures |calls| >= Distance(prev, now) ==> KnownFrom(prev, calls) == now
  {
    if calls != [] {
      var n := |calls| - 1;
      StableMatrixIsReached(prev, now, calls[..n]);
      CallCatchesUp(KnownFrom(prev, calls[..n]), calls[n]);
    }
    DistanceZero(KnownFrom(prev, calls), now);
  }
}
