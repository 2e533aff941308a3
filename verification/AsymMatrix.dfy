/** The static variables of quantum/debounce/asym_eager_defer_pk.c and the loops over rows and
    columns that update them. */
module AsymMatrix {
  import opened Debounce
  import opened MatrixBits
  import S = AsymDefer

  class Debouncer {
    const debounce: nat
    const numRows: nat
    const cols: nat
    const counters: array<S.Counter>
    var last: Clock
    var countersNeedUpdate: bool
    var matrixNeedUpdate: bool

    ghost predicate Valid()
      reads this
    {
      0 < debounce <= 127 && 0 < cols <= 8 && counters.Length == KeyCount(numRows, cols)
    }

    ghost predicate Fits(raw: seq<Row>, cooked: array<Row>)
      reads this
    {
      Valid() && |raw| == numRows && cooked.Length == numRows && cooked as object != counters
    }

    ghost function State(cooked: seq<Row>): S.State
      requires Valid() && |cooked| == numRows
      reads this, counters
    {
      S.State(counters[..], Keys(cooked, cols), last, countersNeedUpdate, matrixNeedUpdate)
    }

    /** debounce_init */
    constructor (debounce: nat, numRows: nat, cols: nat)
      requires 0 < debounce <= 127 && 0 < cols <= 8
      ensures Valid() && fresh(counters)
      ensures this.debounce == debounce && this.numRows == numRows && this.cols == cols
      ensures forall m: seq<Row> :: |m| == numRows && (forall r :: 0 <= r < numRows ==> m[r] == 0) ==>
                State(m) == S.Init(KeyCount(numRows, cols))
    {
      this.debounce, this.numRows, this.cols := debounce, numRows, cols;
      counters := new S.Counter[KeyCount(numRows, cols)](_ => S.Counter(false, 0));
      last, countersNeedUpdate, matrixNeedUpdate := 0, false, false;
      new;
      forall m: seq<Row> | |m| == numRows && (forall r :: 0 <= r < numRows ==> m[r] == 0)
        ensures State(m) == S.Init(KeyCount(numRows, cols))
      {
        NoKeys(m, cols);
        assert counters[..] == seq(KeyCount(numRows, cols), _ => S.Counter(false, 0));
      }
    }

    /** One key takes its raw value. */
    method CopyKey(raw: seq<Row>, cooked: array<Row>, row: nat, col: nat, p: nat)
      requires Fits(raw, cooked) && row < numRows && col < cols && p == KeyCount(row, cols) + col
      modifies cooked
      ensures p < |Keys(raw, cols)|
      ensures Keys(cooked[..], cols) == old(Keys(cooked[..], cols))[p := Keys(raw, cols)[p]]
    {
      ghost var before := cooked[..];
      KeysAt(raw, cols, row, col);
      var merged := CopyColumn(cooked[row], raw[row], col);
      cooked[row] := merged;
      KeysUpdate(before, cols, row, col, merged);
      assert cooked[..] == before[row := merged];
    }

    method UpdateKey(raw: seq<Row>, cooked: array<Row>, row: nat, col: nat, p: nat, elapsed: nat)
      requires Fits(raw, cooked) && row < numRows && col < cols && p == KeyCount(row, cols) + col
      requires elapsed > 0
      modifies this`countersNeedUpdate, this`matrixNeedUpdate, counters, cooked
      ensures p < |Keys(raw, cols)|
      ensures State(cooked[..]) == UpdateOne(old(State(cooked[..])), Keys(raw, cols), elapsed, p)
    {
      KeysAt(raw, cols, row, col);
      KeysAt(cooked[..], cols, row, col);
      if counters[p].time != 0 {
        if counters[p].time <= elapsed {
          counters[p] := counters[p].(time := 0);
          if counters[p].pressed {
            matrixNeedUpdate := true;
          } else {
            CopyKey(raw, cooked, row, col, p);
          }
        } else {
          counters[p] := counters[p].(time := counters[p].time - elapsed);
          countersNeedUpdate := true;
        }
      }
    }

    method UpdateCountersAndTransfer(raw: seq<Row>, cooked: array<Row>, elapsed: nat)
      requires Fits(raw, cooked) && elapsed > 0
      modifies this`countersNeedUpdate, this`matrixNeedUpdate, counters, cooked
      ensures State(cooked[..]) == S.Update(old(State(cooked[..])), Keys(raw, cols), elapsed)
    {
      ghost var st, rawKeys := State(cooked[..]), Keys(raw, cols);
      countersNeedUpdate := false;
      matrixNeedUpdate := false;
      var p := 0;
      for row := 0 to numRows
        invariant p == KeyCount(row, cols)
        invariant Updated(st, rawKeys, elapsed, p, State(cooked[..]))
      {
        for col := 0 to cols
          invariant p == KeyCount(row, cols) + col
          invariant Updated(st, rawKeys, elapsed, p, State(cooked[..]))
        {
          ghost var now := State(cooked[..]);
          UpdateKey(raw, cooked, row, col, p, elapsed);
          UpdatedMore(st, rawKeys, elapsed, p, now, State(cooked[..]));
          p := p + 1;
        }
      }
      UpdatedAll(st, rawKeys, elapsed, State(cooked[..]));
    }

    method TransferKey(delta: Row, raw: seq<Row>, cooked: array<Row>, row: nat, col: nat, p: nat)
      requires Fits(raw, cooked) && row < numRows && col < cols && p == KeyCount(row, cols) + col
      requires Bit(delta, col) <==> Bit(raw[row], col) != Bit(cooked[row], col)
      modifies this`countersNeedUpdate, counters, cooked
      ensures p < |Keys(raw, cols)|
      ensures State(cooked[..]) == TransferOne(debounce, old(State(cooked[..])), Keys(raw, cols), p)
      ensures forall d :: 0 <= d < 8 && d != col ==> Bit(cooked[row], d) == old(Bit(cooked[row], d))
    {
      ghost var before := cooked[..];
      KeysAt(raw, cols, row, col);
      KeysAt(before, cols, row, col);
      assert before == before[row := cooked[row]];
      var differs := TestColumn(delta, col);
      if differs {
        if counters[p].time == 0 {
          var pressed := TestColumn(raw[row], col);
          counters[p] := S.Counter(pressed, debounce);
          countersNeedUpdate := true;
          if pressed {
            var flipped := FlipColumn(cooked[row], col);
            cooked[row] := flipped;
            KeysUpdate(before, cols, row, col, flipped);
            assert cooked[..] == before[row := flipped];
          } else {
            assert cooked[..] == before;
          }
        } else {
          assert cooked[..] == before;
        }
      } else {
        if counters[p].time != 0 && !counters[p].pressed {
          counters[p] := counters[p].(time := 0);
        }
        assert cooked[..] == before;
      }
    }

    method TransferNext(delta: Row, raw: seq<Row>, cooked: array<Row>, row: nat, col: nat, p: nat, ghost st: S.State)
      requires Fits(raw, cooked) && row < numRows && col < cols && p == KeyCount(row, cols) + col
      requires forall d :: col <= d < cols ==> (Bit(delta, d) <==> Bit(raw[row], d) != Bit(cooked[row], d))
      requires Moved(debounce, st, Keys(raw, cols), p, State(cooked[..]))
      modifies this`countersNeedUpdate, counters, cooked
      ensures Moved(debounce, st, Keys(raw, cols), p + 1, State(cooked[..]))
      ensures forall d :: col < d < cols ==> Bit(cooked[row], d) == old(Bit(cooked[row], d))
    {
      ghost var now := State(cooked[..]);
      TransferKey(delta, raw, cooked, row, col, p);
      MovedMore(debounce, st, Keys(raw, cols), p, now, State(cooked[..]));
    }

    method TransferRow(raw: seq<Row>, cooked: array<Row>, row: nat, start: nat, ghost st: S.State)
      requires Fits(raw, cooked) && row < numRows && start == KeyCount(row, cols)
      requires Moved(debounce, st, Keys(raw, cols), start, State(cooked[..]))
      modifies this`countersNeedUpdate, counters, cooked
      ensures Moved(debounce, st, Keys(raw, cols), start + cols, State(cooked[..]))
    {
      var delta := DeltaRow(raw[row], cooked[row]);
      for col := 0 to cols
        invariant Moved(debounce, st, Keys(raw, cols), start + col, State(cooked[..]))
        invariant forall d :: col <= d < cols ==> (Bit(delta, d) <==> Bit(raw[row], d) != Bit(cooked[row], d))
      {
        TransferNext(delta, raw, cooked, row, col, start + col, st);
      }
    }

    method TransferMatrixValues(raw: seq<Row>, cooked: array<Row>)
      requires Fits(raw, cooked)
      modifies this`countersNeedUpdate, counters, cooked
      ensures State(cooked[..]) == S.Transfer(debounce, old(State(cooked[..])), Keys(raw, cols))
    {
      ghost var st := State(cooked[..]);
      var p := 0;
      for row := 0 to numRows
        invariant p == KeyCount(row, cols)
        invariant Moved(debounce, st, Keys(raw, cols), p, State(cooked[..]))
      {
        TransferRow(raw, cooked, row, p, st);
        p := p + cols;
      }
      MovedAll(debounce, st, Keys(raw, cols), State(cooked[..]));
    }

    method Debounce(raw: seq<Row>, cooked: array<Row>, changed: bool, now: Clock)
      requires Fits(raw, cooked)
      modifies this, counters, cooked
      ensures Valid()
      ensures State(cooked[..]) == S.Call(debounce, old(State(cooked[..])), Keys(raw, cols), now, changed)
    {
      var updatedLast := false;
      if countersNeedUpdate {
        var elapsed := ElapsedTime(now, last);
        last := now;
        updatedLast := true;
        if elapsed > 0 {
          UpdateCountersAndTransfer(raw, cooked, elapsed);
        }
      }
      if changed || matrixNeedUpdate {
        if !updatedLast {
          last := now;
        }
        TransferMatrixValues(raw, cooked);
      }
    }
  }

  // ---------- one key at a time ----------

  ghost function UpdateOne(now: S.State, raw: seq<bool>, elapsed: nat, p: nat): S.State
    requires S.Shaped(now, |raw|) && p < |raw|
  {
    var c := now.counters[p];
    S.State(
      now.counters[p := S.RunDown(c, elapsed)],
      now.cooked[p := if S.Expired(c, elapsed) && !c.pressed then raw[p] else now.cooked[p]],
      now.last,
      now.countersNeedUpdate || c.time > elapsed,
      now.matrixNeedUpdate || (S.Expired(c, elapsed) && c.pressed))
  }

  /** The first p keys have been updated. */
  ghost predicate Updated(st: S.State, raw: seq<bool>, elapsed: nat, p: nat, now: S.State) {
    var n := |raw|;
    && S.Shaped(st, n) && S.Shaped(now, n) && now.last == st.last
    && (forall i :: 0 <= i < p && i < n ==>
          && now.counters[i] == S.RunDown(st.counters[i], elapsed)
          && now.cooked[i]
               == if S.Expired(st.counters[i], elapsed) && !st.counters[i].pressed then raw[i] else st.cooked[i])
    && (forall i :: p <= i < n ==> now.counters[i] == st.counters[i] && now.cooked[i] == st.cooked[i])
    && now.countersNeedUpdate == (exists i :: 0 <= i < n && i < p && st.counters[i].time > elapsed)
    && now.matrixNeedUpdate ==
         (exists i :: 0 <= i < n && i < p && S.Expired(st.counters[i], elapsed) && st.counters[i].pressed)
  }

  lemma UpdatedMore(st: S.State, raw: seq<bool>, elapsed: nat, p: nat, now: S.State, next: S.State)
    requires Updated(st, raw, elapsed, p, now) && p < |raw| && next == UpdateOne(now, raw, elapsed, p)
    ensures Updated(st, raw, elapsed, p + 1, next)
  {
  }

  lemma UpdatedAll(st: S.State, raw: seq<bool>, elapsed: nat, now: S.State)
    requires Updated(st, raw, elapsed, |raw|, now)
    ensures now == S.Update(st, raw, elapsed)
  {
  }

  ghost function TransferOne(debounce: nat, now: S.State, raw: seq<bool>, p: nat): S.State
    requires S.Shaped(now, |raw|) && p < |raw|
  {
    now.(counters := now.counters[p := S.TransferCounter(debounce, now.counters[p], now.cooked[p], raw[p])],
         cooked := now.cooked[p := S.TransferKey(now.counters[p], now.cooked[p], raw[p])],
         countersNeedUpdate := now.countersNeedUpdate || (raw[p] != now.cooked[p] && now.counters[p].time == 0))
  }

  /** The first p keys have been transferred. */
  ghost predicate Moved(debounce: nat, st: S.State, raw: seq<bool>, p: nat, now: S.State) {
    var n := |raw|;
    && S.Shaped(st, n) && S.Shaped(now, n) && now.last == st.last && now.matrixNeedUpdate == st.matrixNeedUpdate
    && (forall i :: 0 <= i < p && i < n ==>
          && now.counters[i] == S.TransferCounter(debounce, st.counters[i], st.cooked[i], raw[i])
          && now.cooked[i] == S.TransferKey(st.counters[i], st.cooked[i], raw[i]))
    && (forall i :: p <= i < n ==> now.counters[i] == st.counters[i] && now.cooked[i] == st.cooked[i])
    && now.countersNeedUpdate == (st.countersNeedUpdate
         || exists i :: 0 <= i < n && i < p && raw[i] != st.cooked[i] && st.counters[i].time == 0)
  }

  lemma MovedMore(debounce: nat, st: S.State, raw: seq<bool>, p: nat, now: S.State, next: S.State)
    requires Moved(debounce, st, raw, p, now) && p < |raw| && next == TransferOne(debounce, now, raw, p)
    ensures Moved(debounce, st, raw, p + 1, next)
  {
  }

  lemma MovedAll(debounce: nat, st: S.State, raw: seq<bool>, now: S.State)
    requires Moved(debounce, st, raw, |raw|, now)
    ensures now == S.Transfer(debounce, st, raw)
  {
  }
}
