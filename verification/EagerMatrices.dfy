/** The static variables of quantum/debounce/sym_eager_pk.c and sym_eager_pr.c, updated in
    place. */
module EagerMatrices {
  import opened Debounce
  import opened MatrixBits
  import S = SymEager

  function CounterAfter(debounce: nat, c: nat, differs: bool): nat {
    if differs && c == 0 then debounce else c
  }

  /** What both variants share: one counter per key, or one per row. */
  class Counters {
    const debounce: nat
    const counters: array<nat>
    var last: Clock
    var countersNeedUpdate: bool
    var matrixNeedUpdate: bool

    ghost function State<V>(cooked: seq<V>): S.State<V>
      reads this, counters
    {
      S.State(counters[..], cooked, last, countersNeedUpdate, matrixNeedUpdate)
    }

    constructor (debounce: nat, size: nat)
      ensures fresh(counters) && counters.Length == size && this.debounce == debounce
      ensures counters[..] == seq(size, _ => 0)
      ensures last == 0 && !countersNeedUpdate && !matrixNeedUpdate
    {
      this.debounce := debounce;
      counters := new nat[size](_ => 0);
      last, countersNeedUpdate, matrixNeedUpdate := 0, false, false;
      new;
      assert counters[..] == seq(size, _ => 0);
    }

    method UpdateDebounceCounters(elapsed: nat)
      modifies this`countersNeedUpdate, this`matrixNeedUpdate, counters
      ensures State<Row>([]) == S.Update(old(State<Row>([])), elapsed)
    {
      ghost var was := counters[..];
      countersNeedUpdate := false;
      matrixNeedUpdate := false;
      for p := 0 to counters.Length
        invariant |was| == counters.Length
        invariant forall i :: 0 <= i < p ==> counters[i] == CountDown(was[i], elapsed)
        invariant forall i :: p <= i < counters.Length ==> counters[i] == was[i]
        invariant countersNeedUpdate == exists i :: 0 <= i < p && was[i] > elapsed
        invariant matrixNeedUpdate == exists i :: 0 <= i < p && 0 < was[i] <= elapsed
      {
        if counters[p] != 0 {
          if counters[p] <= elapsed {
            counters[p] := 0;
            matrixNeedUpdate := true;
          } else {
            counters[p] := counters[p] - elapsed;
            countersNeedUpdate := true;
          }
        }
      }
    }
  }

  // ---------- one counter per row ----------

  class RowDebouncer {
    const inner: Counters

    ghost predicate Fits(raw: seq<Row>, cooked: array<Row>)
      reads this
    {
      inner.counters.Length == |raw| == cooked.Length && cooked as object != inner.counters
    }

    constructor (debounce: nat, numRows: nat)
      ensures fresh(inner) && fresh(inner.counters) && inner.debounce == debounce && inner.counters.Length == numRows
      ensures forall up: seq<Row> :: |up| == numRows ==> inner.State(up) == S.Init(up)
    {
      inner := new Counters(debounce, numRows);
    }

    method TransferMatrixValues(raw: seq<Row>, cooked: array<Row>)
      requires Fits(raw, cooked)
      modifies inner`countersNeedUpdate, inner.counters, cooked
      ensures inner.State(cooked[..]) == S.Transfer(inner.debounce, old(inner.State(cooked[..])), raw)
    {
      ghost var st := inner.State(cooked[..]);
      for row := 0 to cooked.Length
        invariant forall i :: 0 <= i < row ==> cooked[i] == if st.counters[i] == 0 then raw[i] else st.cooked[i]
        invariant forall i :: 0 <= i < row ==>
                    inner.counters[i] == CounterAfter(inner.debounce, st.counters[i], raw[i] != st.cooked[i])
        invariant forall i :: row <= i < |raw| ==> cooked[i] == st.cooked[i] && inner.counters[i] == st.counters[i]
        invariant inner.countersNeedUpdate == (st.countersNeedUpdate
                    || exists i :: 0 <= i < row && raw[i] != st.cooked[i] && st.counters[i] == 0)
      {
        var existing, rawRow := cooked[row], raw[row];
        if existing != rawRow {
          if inner.counters[row] == 0 {
            inner.counters[row] := inner.debounce;
            cooked[row] := rawRow;
            inner.countersNeedUpdate := true;
          }
        }
      }
      assert inner.counters[..] == S.Transfer(inner.debounce, st, raw).counters;
      assert cooked[..] == S.Transfer(inner.debounce, st, raw).cooked;
    }

    method Debounce(raw: seq<Row>, cooked: array<Row>, changed: bool, now: Clock)
      requires Fits(raw, cooked)
      modifies inner, inner.counters, cooked
      ensures inner.State(cooked[..]) == S.Call(inner.debounce, old(inner.State(cooked[..])), raw, now, changed)
    {
      var updatedLast := false;
      if inner.countersNeedUpdate {
        var elapsed := ElapsedTime(now, inner.last);
        inner.last := now;
        updatedLast := true;
        if elapsed > 0 {
          inner.UpdateDebounceCounters(elapsed);
        }
      }
      if changed || inner.matrixNeedUpdate {
        if !updatedLast {
          inner.last := now;
        }
        TransferMatrixValues(raw, cooked);
      }
    }
  }

  // ---------- one counter per key ----------

  class KeyDebouncer {
    const inner: Counters
    const cols: nat

    ghost predicate Fits(raw: seq<Row>, cooked: array<Row>)
      reads this
    {
      && 0 < cols <= 8
      && inner.counters.Length == KeyCount(|raw|, cols)
      && cooked.Length == |raw| && cooked as object != inner.counters
    }

    ghost function State(cooked: seq<Row>): S.State<bool>
      requires cols <= 8
      reads this, inner, inner.counters
    {
      inner.State(Keys(cooked, cols))
    }

    constructor (debounce: nat, numRows: nat, cols: nat)
      requires 0 < cols <= 8
      ensures fresh(inner) && fresh(inner.counters) && inner.debounce == debounce && this.cols == cols
      ensures inner.counters.Length == KeyCount(numRows, cols)
      ensures forall m: seq<Row> :: |m| == numRows ==> State(m) == S.Init(Keys(m, cols))
    {
      this.cols := cols;
      inner := new Counters(debounce, KeyCount(numRows, cols));
    }

    method TransferKey(delta: Row, existing: Row, row: nat, col: nat, p: nat, ghost raw: seq<Row>, ghost rows: seq<Row>)
      returns (next: Row)
      requires 0 < cols <= 8 && |raw| == |rows| && row < |rows| && col < cols
      requires inner.counters.Length == KeyCount(|raw|, cols) && p == KeyCount(row, cols) + col
      requires rows[row] == existing && (Bit(delta, col) <==> Bit(raw[row], col) != Bit(existing, col))
      modifies inner`countersNeedUpdate, inner.counters
      ensures p < |Keys(raw, cols)|
      ensures State(rows[row := next]) == TransferOne(inner.debounce, old(State(rows)), Keys(raw, cols), p)
      ensures forall d :: 0 <= d < 8 && d != col ==> Bit(next, d) == Bit(existing, d)
    {
      KeysAt(raw, cols, row, col);
      KeysAt(rows, cols, row, col);
      next := existing;
      assert rows[row := existing] == rows;
      var differs := TestColumn(delta, col);
      if differs && inner.counters[p] == 0 {
        inner.counters[p] := inner.debounce;
        inner.countersNeedUpdate := true;
        next := FlipColumn(existing, col);
        KeysUpdate(rows, cols, row, col, next);
      }
    }

    method TransferNext(delta: Row, existing: Row, row: nat, col: nat, p: nat,
                        ghost st: S.State<bool>, ghost raw: seq<Row>, ghost rows: seq<Row>)
      returns (next: Row)
      requires 0 < cols <= 8 && |raw| == |rows| && row < |rows| && col < cols
      requires inner.counters.Length == KeyCount(|raw|, cols) && p == KeyCount(row, cols) + col
      requires forall d :: col <= d < cols ==>
                 Bit(existing, d) == Bit(rows[row], d) && (Bit(delta, d) <==> Bit(raw[row], d) != Bit(rows[row], d))
      requires Moved(inner.debounce, st, Keys(raw, cols), p, State(rows[row := existing]))
      modifies inner`countersNeedUpdate, inner.counters
      ensures Moved(inner.debounce, st, Keys(raw, cols), p + 1, State(rows[row := next]))
      ensures forall d :: col < d < cols ==> Bit(next, d) == Bit(rows[row], d)
    {
      ghost var now, upTo := State(rows[row := existing]), rows[row := existing];
      next := TransferKey(delta, existing, row, col, p, raw, upTo);
      assert upTo[row := next] == rows[row := next];
      MovedMore(inner.debounce, st, Keys(raw, cols), p, now, State(rows[row := next]));
    }

    method TransferColumns(delta: Row, row: nat, start: nat, ghost st: S.State<bool>,
                           ghost raw: seq<Row>, rows: seq<Row>)
      returns (existing: Row)
      requires 0 < cols <= 8 && |raw| == |rows| && row < |rows| && start == KeyCount(row, cols)
      requires inner.counters.Length == KeyCount(|raw|, cols)
      requires forall d :: 0 <= d < cols ==> (Bit(delta, d) <==> Bit(raw[row], d) != Bit(rows[row], d))
      requires Moved(inner.debounce, st, Keys(raw, cols), start, State(rows))
      modifies inner`countersNeedUpdate, inner.counters
      ensures Moved(inner.debounce, st, Keys(raw, cols), start + cols, State(rows[row := existing]))
    {
      existing := rows[row];
      assert rows[row := existing] == rows;
      for col := 0 to cols
        invariant Moved(inner.debounce, st, Keys(raw, cols), start + col, State(rows[row := existing]))
        invariant forall d :: col <= d < cols ==> Bit(existing, d) == Bit(rows[row], d)
      {
        existing := TransferNext(delta, existing, row, col, start + col, st, raw, rows);
      }
    }

    method TransferRow(row: nat, start: nat, ghost st: S.State<bool>, raw: seq<Row>, cooked: array<Row>)
      requires Fits(raw, cooked) && row < |raw| && start == KeyCount(row, cols)
      requires Moved(inner.debounce, st, Keys(raw, cols), start, State(cooked[..]))
      modifies inner`countersNeedUpdate, inner.counters, cooked
      ensures Moved(inner.debounce, st, Keys(raw, cols), start + cols, State(cooked[..]))
    {
      ghost var rows := cooked[..];
      var delta := DeltaRow(raw[row], cooked[row]);
      var existing := TransferColumns(delta, row, start, st, raw, cooked[..]);
      cooked[row] := existing;
      assert cooked[..] == rows[row := existing];
    }

    method TransferMatrixValues(raw: seq<Row>, cooked: array<Row>)
      requires Fits(raw, cooked)
      modifies inner`countersNeedUpdate, inner.counters, cooked
      ensures State(cooked[..]) == S.Transfer(inner.debounce, old(State(cooked[..])), Keys(raw, cols))
    {
      ghost var st := State(cooked[..]);
      var p := 0;
      for row := 0 to |raw|
        invariant p == KeyCount(row, cols)
        invariant Moved(inner.debounce, st, Keys(raw, cols), p, State(cooked[..]))
      {
        TransferRow(row, p, st, raw, cooked);
        p := p + cols;
      }
      MovedAll(inner.debounce, st, Keys(raw, cols), State(cooked[..]));
    }

    method Debounce(raw: seq<Row>, cooked: array<Row>, changed: bool, now: Clock)
      requires Fits(raw, cooked)
      modifies inner, inner.counters, cooked
      ensures State(cooked[..]) == S.Call(inner.debounce, old(State(cooked[..])), Keys(raw, cols), now, changed)
    {
      var updatedLast := false;
      if inner.countersNeedUpdate {
        var elapsed := ElapsedTime(now, inner.last);
        inner.last := now;
        updatedLast := true;
        if elapsed > 0 {
          inner.UpdateDebounceCounters(elapsed);
        }
      }
      if changed || inner.matrixNeedUpdate {
        if !updatedLast {
          inner.last := now;
        }
        TransferMatrixValues(raw, cooked);
      }
    }
  }

  ghost function TransferOne(debounce: nat, now: S.State<bool>, raw: seq<bool>, p: nat): S.State<bool>
    requires S.Shaped(now, |raw|) && p < |raw|
  {
    now.(counters := now.counters[p := CounterAfter(debounce, now.counters[p], raw[p] != now.cooked[p])],
         cooked := now.cooked[p := if now.counters[p] == 0 then raw[p] else now.cooked[p]],
         countersNeedUpdate := now.countersNeedUpdate || (raw[p] != now.cooked[p] && now.counters[p] == 0))
  }

  /** The first p keys have been transferred. */
  ghost predicate Moved(debounce: nat, st: S.State<bool>, raw: seq<bool>, p: nat, now: S.State<bool>) {
    var n := |raw|;
    && S.Shaped(st, n) && S.Shaped(now, n) && now.last == st.last && now.matrixNeedUpdate == st.matrixNeedUpdate
    && (forall i :: 0 <= i < p && i < n ==>
          && now.counters[i] == CounterAfter(debounce, st.counters[i], raw[i] != st.cooked[i])
          && now.cooked[i] == if st.counters[i] == 0 then raw[i] else st.cooked[i])
    && (forall i :: p <= i < n ==> now.counters[i] == st.counters[i] && now.cooked[i] == st.cooked[i])
    && now.countersNeedUpdate == (st.countersNeedUpdate
         || exists i :: 0 <= i < n && i < p && raw[i] != st.cooked[i] && st.counters[i] == 0)
  }

  lemma MovedMore(debounce: nat, st: S.State<bool>, raw: seq<bool>, p: nat, now: S.State<bool>, next: S.State<bool>)
    requires Moved(debounce, st, raw, p, now) && p < |raw| && next == TransferOne(debounce, now, raw, p)
    ensures Moved(debounce, st, raw, p + 1, next)
  {
  }

  lemma MovedAll(debounce: nat, st: S.State<bool>, raw: seq<bool>, now: S.State<bool>)
    requires Moved(debounce, st, raw, |raw|, now)
    ensures now == S.Transfer(debounce, st, raw)
  {
  }
}
