/** The static variables of quantum/debounce/sym_defer_pk.c and the loops over rows and columns
    that update them, on bit masks. */
module SymDeferMatrix {
  import opened Debounce
  import opened MatrixBits
  import S = SymDefer

  class Debouncer {
    const debounce: nat
    const numRows: nat
    const cols: nat
    const counters: array<nat>
    var last: Clock
    var countersNeedUpdate: bool

    ghost predicate Valid()
      reads this
    {
      0 < debounce <= 255 && 0 < cols <= 8 && counters.Length == KeyCount(numRows, cols)
    }

    ghost predicate Fits(raw: seq<Row>, cooked: array<Row>)
      reads this
    {
      Valid() && |raw| == numRows && cooked.Length == numRows && cooked as object != counters
    }

    ghost function State(cooked: seq<Row>): S.State
      requires Valid() && |cooked| == numRows
      reads this, counters
    {
      S.State(counters[..], Keys(cooked, cols), last, countersNeedUpdate)
    }

    /** debounce_init */
    constructor (debounce: nat, numRows: nat, cols: nat)
      requires 0 < debounce <= 255 && 0 < cols <= 8
      ensures Valid() && fresh(counters)
      ensures this.debounce == debounce && this.numRows == numRows && this.cols == cols
      ensures forall m: seq<Row> :: |m| == numRows && (forall r :: 0 <= r < numRows ==> m[r] == 0) ==>
                State(m) == S.Init(KeyCount(numRows, cols))
    {
      this.debounce, this.numRows, this.cols := debounce, numRows, cols;
      counters := new nat[KeyCount(numRows, cols)](_ => 0);
      last, countersNeedUpdate := 0, false;
      new;
      forall m: seq<Row> | |m| == numRows && (forall r :: 0 <= r < numRows ==> m[r] == 0)
        ensures State(m) == S.Init(KeyCount(numRows, cols))
      {
        NoKeys(m, cols);
        assert counters[..] == seq(KeyCount(numRows, cols), _ => 0);
      }
    }

    method UpdateKey(raw: seq<Row>, cooked: array<Row>, row: nat, col: nat, p: nat, elapsed: nat)
      requires Fits(raw, cooked) && row < numRows && col < cols && p == KeyCount(row, cols) + col
      requires p < counters.Length
      modifies this`countersNeedUpdate, counters, cooked
      ensures p < |Keys(raw, cols)| == |Keys(old(cooked[..]), cols)|
      ensures State(cooked[..]) == UpdateOne(old(State(cooked[..])), Keys(raw, cols), elapsed, p)
    {
      ghost var before := cooked[..];
      KeysAt(raw, cols, row, col);
      KeysAt(before, cols, row, col);
      if counters[p] != 0 {
        if counters[p] <= elapsed {
          counters[p] := 0;
          var merged := CopyColumn(cooked[row], raw[row], col);
          cooked[row] := merged;
          KeysUpdate(before, cols, row, col, merged);
          assert cooked[..] == before[row := merged];
        } else {
          counters[p] := counters[p] - elapsed;
          countersNeedUpdate := true;
          assert cooked[..] == before;
        }
      } else {
        assert cooked[..] == before;
      }
    }

    method UpdateNext(raw: seq<Row>, cooked: array<Row>, row: nat, col: nat, p: nat, elapsed: nat, ghost st: S.State)
      requires Fits(raw, cooked) && row < numRows && col < cols && p == KeyCount(row, cols) + col
      requires p < counters.Length && Updated(st, Keys(raw, cols), elapsed, p, State(cooked[..]))
      modifies this`countersNeedUpdate, counters, cooked
      ensures Updated(st, Keys(raw, cols), elapsed, p + 1, State(cooked[..]))
    {
      ghost var now := State(cooked[..]);
      UpdateKey(raw, cooked, row, col, p, elapsed);
      UpdatedMore(st, Keys(raw, cols), elapsed, p, now);
    }

    method UpdateRow(raw: seq<Row>, cooked: array<Row>, row: nat, start: nat, elapsed: nat, ghost st: S.State)
      requires Fits(raw, cooked) && row < numRows && start == KeyCount(row, cols)
      requires Updated(st, Keys(raw, cols), elapsed, start, State(cooked[..]))
      modifies this`countersNeedUpdate, counters, cooked
      ensures Updated(st, Keys(raw, cols), elapsed, start + cols, State(cooked[..]))
    {
      KeyCountGrows(row, numRows, cols);
      var p := start;
      for col := 0 to cols
        invariant p == start + col && Updated(st, Keys(raw, cols), elapsed, p, State(cooked[..]))
      {
        UpdateNext(raw, cooked, row, col, p, elapsed, st);
        p := p + 1;
      }
    }

    method UpdateCountersAndTransfer(raw: seq<Row>, cooked: array<Row>, elapsed: nat)
      requires Fits(raw, cooked)
      modifies this`countersNeedUpdate, counters, cooked
      ensures State(cooked[..]) == S.Update(old(State(cooked[..])), Keys(raw, cols), elapsed)
    {
      ghost var st := State(cooked[..]);
      countersNeedUpdate := false;
      UpdatedNone(st, Keys(raw, cols), elapsed);
      assert State(cooked[..]) == st.(needUpdate := false);
      var p := 0;
      for row := 0 to numRows
        invariant p == KeyCount(row, cols)
        invariant Updated(st, Keys(raw, cols), elapsed, p, State(cooked[..]))
      {
        UpdateRow(raw, cooked, row, p, elapsed, st);
        p := p + cols;
      }
      UpdatedAll(st, Keys(raw, cols), elapsed, State(cooked[..]));
    }

    method StartKey(delta: Row, ghost raw: seq<Row>, ghost rows: seq<Row>, row: nat, col: nat, p: nat)
      requires Valid() && |raw| == |rows| == numRows && row < numRows && col < cols
      requires Bit(delta, col) <==> Bit(raw[row], col) != Bit(rows[row], col)
      requires p == KeyCount(row, cols) + col
      modifies this`countersNeedUpdate, counters
      ensures p < |old(counters[..])|
      ensures State(rows) == StartOne(debounce, old(State(rows)), Keys(raw, cols), p)
    {
      KeysAt(raw, cols, row, col);
      KeysAt(rows, cols, row, col);
      var differs := TestColumn(delta, col);
      if differs {
        if counters[p] == 0 {
          counters[p] := debounce;
          countersNeedUpdate := true;
        }
      } else {
        counters[p] := 0;
      }
    }

    method StartCounters(raw: seq<Row>, cooked: array<Row>)
      requires Fits(raw, cooked)
      modifies this`countersNeedUpdate, counters
      ensures State(cooked[..]) == S.Start(debounce, old(State(cooked[..])), Keys(raw, cols))
    {
      ghost var rows := cooked[..];
      ghost var st, rawKeys := State(rows), Keys(raw, cols);
      var p := 0;
      for row := 0 to numRows
        invariant p == KeyCount(row, cols) && cooked[..] == rows
        invariant Started(debounce, st, rawKeys, p, State(rows))
      {
        var delta := DeltaRow(raw[row], cooked[row]);
        for col := 0 to cols
          invariant p == KeyCount(row, cols) + col && cooked[..] == rows
          invariant Started(debounce, st, rawKeys, p, State(rows))
        {
          ghost var now := State(rows);
          StartKey(delta, raw, rows, row, col, p);
          StartedMore(debounce, st, rawKeys, p, now, State(rows));
          p := p + 1;
        }
      }
      StartedAll(debounce, st, rawKeys, State(rows));
    }

    method Debounce(raw: seq<Row>, cooked: array<Row>, changed: bool, now: Clock)
      requires Fits(raw, cooked)
      modifies this, counters, cooked
      ensures Valid()
      ensures State(cooked[..]) == S.Call(debounce, old(State(cooked[..])), Keys(raw, cols), now, changed)
    {
      var updatedLast := false;
      if countersNeedUpdate {
        var elapsed := ElapsedTime(now, last);
        last := now;
        updatedLast := true;
        if elapsed > 0 {
          UpdateCountersAndTransfer(raw, cooked, elapsed);
        }
      }
      if changed {
        if !updatedLast {
          last := now;
        }
        StartCounters(raw, cooked);
      }
    }
  }

  /** The first p keys have been updated. */
  ghost predicate Updated(st: S.State, raw: seq<bool>, elapsed: nat, p: nat, now: S.State) {
    var n := |raw|;
    && S.Shaped(st, n) && S.Shaped(now, n) && now.last == st.last
    && (forall i :: 0 <= i < p && i < n ==>
          && now.counters[i] == CountDown(st.counters[i], elapsed)
          && now.cooked[i] == S.Transfer(st.counters[i], st.cooked[i], raw[i], elapsed))
    && (forall i :: p <= i < n ==> now.counters[i] == st.counters[i] && now.cooked[i] == st.cooked[i])
    && now.needUpdate == (exists i :: 0 <= i < n && i < p && st.counters[i] > elapsed)
  }

  lemma UpdatedNone(st: S.State, raw: seq<bool>, elapsed: nat)
    requires S.Shaped(st, |raw|)
    ensures Updated(st, raw, elapsed, 0, st.(needUpdate := false))
  {
  }

  /** The effect of the update on one key */
  function UpdateOne(now: S.State, raw: seq<bool>, elapsed: nat, p: nat): S.State
    requires S.Shaped(now, |raw|) && p < |raw|
  {
    S.State(
      now.counters[p := CountDown(now.counters[p], elapsed)],
      now.cooked[p := S.Transfer(now.counters[p], now.cooked[p], raw[p], elapsed)],
      now.last,
      now.needUpdate || now.counters[p] > elapsed)
  }

  lemma UpdatedMore(st: S.State, raw: seq<bool>, elapsed: nat, p: nat, now: S.State)
    requires Updated(st, raw, elapsed, p, now) && p < |raw|
    ensures Updated(st, raw, elapsed, p + 1, UpdateOne(now, raw, elapsed, p))
  {
  }

  lemma UpdatedAll(st: S.State, raw: seq<bool>, elapsed: nat, now: S.State)
    requires Updated(st, raw, elapsed, |raw|, now)
    ensures now == S.Update(st, raw, elapsed)
  {
  }

  /** The first p counters have been started or stopped. */
  ghost predicate Started(debounce: nat, st: S.State, raw: seq<bool>, p: nat, now: S.State) {
    var n := |raw|;
    && S.Shaped(st, n) && S.Shaped(now, n) && now.last == st.last && now.cooked == st.cooked
    && (forall i :: 0 <= i < p && i < n ==>
          now.counters[i] == S.StartCounter(debounce, st.counters[i], st.cooked[i], raw[i]))
    && (forall i :: p <= i < n ==> now.counters[i] == st.counters[i])
    && now.needUpdate == (st.needUpdate
         || exists i :: 0 <= i < n && i < p && raw[i] != st.cooked[i] && st.counters[i] == 0)
  }

  ghost function StartOne(debounce: nat, now: S.State, raw: seq<bool>, p: nat): S.State
    requires S.Shaped(now, |raw|) && p < |raw|
  {
    now.(counters := now.counters[p := S.StartCounter(debounce, now.counters[p], now.cooked[p], raw[p])],
         needUpdate := now.needUpdate || (raw[p] != now.cooked[p] && now.counters[p] == 0))
  }

  lemma StartedMore(debounce: nat, st: S.State, raw: seq<bool>, p: nat, now: S.State, next: S.State)
    requires Started(debounce, st, raw, p, now) && p < |raw|
    requires next == StartOne(debounce, now, raw, p)
    ensures Started(debounce, st, raw, p + 1, next)
  {
  }

  lemma StartedAll(debounce: nat, st: S.State, raw: seq<bool>, now: S.State)
    requires Started(debounce, st, raw, |raw|, now)
    ensures now == S.Start(debounce, st, raw)
  {
  }
}
