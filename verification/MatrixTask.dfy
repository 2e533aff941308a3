/** The matrix loop of keyboard_task (quantum/keyboard.c). */
module MatrixTask {
  import opened KeyboardEvents
  import opened MatrixBits
  import opened TapRecords

  class Scanner {
    const rows: nat
    const cols: nat
    const matrixPrev: array<Row>
    /** The arguments of all calls of action_exec */
    ghost var events: seq<Event>

    ghost predicate Valid()
      reads this, matrixPrev
    {
      matrixPrev.Length == rows && 0 < cols <= 8
    }

    ghost function Prev(): seq<bool>
      reads this, matrixPrev
      requires Valid()
    {
      Keys(matrixPrev[..], cols)
    }

    constructor (rows: nat, cols: nat)
      requires 0 < cols <= 8
      ensures Valid() && fresh(matrixPrev) && events == [] && this.rows == rows && this.cols == cols
      ensures Prev() == seq(KeyCount(rows, cols), i => false)
    {
      this.rows, this.cols := rows, cols;
      matrixPrev := new Row[rows](i => 0);
      events := [];
      new;
      NoKeys(matrixPrev[..], cols);
    }

    /** The first changed column of a row, or none */
    method ChangedColumn(r: nat, row: Row) returns (c: nat)
      requires Valid() && r < rows
      ensures c <= cols && (c < cols ==> Bit(row, c) != Bit(matrixPrev[r], c))
      ensures forall d :: 0 <= d < c ==> Bit(row, d) == Bit(matrixPrev[r], d)
    {
      var change := DeltaRow(row, matrixPrev[r]);
      if change == 0 {
        forall d: nat | d < 8 { ZeroBit(d); }
        return cols;
      }
      c := 0;
      while c < cols
        invariant 0 <= c <= cols
        invariant forall d :: 0 <= d < c ==> Bit(row, d) == Bit(matrixPrev[r], d)
      {
        var on := TestColumn(change, c);
        if on { return; }
        c := c + 1;
      }
    }

    /** A changed key: its event, and its bit taken over */
    method ProcessKey(r: nat, c: nat, row: Row, timer: Time)
      requires Valid() && r < rows && c < cols && Bit(row, c) != Bit(matrixPrev[r], c)
      modifies this`events, matrixPrev
      ensures Valid() && events == old(events) + [Event(Key(r, c), Bit(row, c), Odd(timer))]
      ensures KeyCount(r, cols) + c < |old(Prev())|
      ensures Prev() == old(Prev())[KeyCount(r, cols) + c := Bit(row, c)]
    {
      var pressed := TestColumn(row, c);
      events := events + [Event(Key(r, c), pressed, Odd(timer))];
      var word := FlipColumn(matrixPrev[r], c);
      KeysUpdate(matrixPrev[..], cols, r, c, word);
      ghost var was := matrixPrev[..];
      matrixPrev[r] := word;
      assert matrixPrev[..] == was[r := word];
    }

    /** The matrix part of keyboard_task: exactly one call of action_exec */
    method Task(matrix: seq<Row>, timer: Time)
      requires Valid() && |matrix| == rows
      modifies this`events, matrixPrev
      ensures Valid()
      ensures |Keys(matrix, cols)| == |old(Prev())|
      ensures events == old(events) + [EventOf(old(Prev()), Call(Keys(matrix, cols), timer), cols)]
      ensures events[|events| - 1].time % 2 == 1 && 0 <= events[|events| - 1].time - timer <= 1
      ensures Prev() == Known(old(Prev()), Call(Keys(matrix, cols), timer))
    {
      ghost var prev, now := Prev(), Keys(matrix, cols);
      var r := 0;
      while r < rows
        invariant 0 <= r <= rows && KeyCount(r, cols) <= |now| && Valid() && Prev() == prev && events == old(events)
        invariant SameUpTo(prev, now, KeyCount(r, cols))
      {
        KeyCountGrows(r, rows, cols);
        var c := ChangedColumn(r, matrix[r]);
        RowSame(matrixPrev[..], matrix, cols, r, c);
        if c < cols {
          KeysAt(matrixPrev[..], cols, r, c);
          KeysAt(matrix, cols, r, c);
          KeyOfPlace(r, c, cols);
          FirstDiffAt(prev, now, KeyCount(r, cols) + c);
          EventTime(prev, Call(now, timer), cols);
          ProcessKey(r, c, matrix[r], timer);
          return;
        }
        r := r + 1;
      }
      EventTime(prev, Call(now, timer), cols);
      events := events + [Tick(timer)];
      FirstDiffAt(prev, now, |now|);
    }
  }

  lemma EventTime(prev: seq<bool>, c: Call, cols: nat)
    requires |prev| == |c.keys| && cols > 0
    ensures EventOf(prev, c, cols).time % 2 == 1 && 0 <= EventOf(prev, c, cols).time - c.timer <= 1
  {
  }

  predicate SameUpTo(prev: seq<bool>, now: seq<bool>, j: nat)
    requires j <= |prev| == |now|
  {
    forall k :: 0 <= k < j ==> prev[k] == now[k]
  }

  /** Equal columns of a row are equal places in the scan order. */
  lemma {:induction false} RowSame(a: seq<Row>, b: seq<Row>, cols: nat, r: nat, c: nat)
    requires cols <= 8 && |a| == |b| && r < |a| && c <= cols
    requires forall d :: 0 <= d < c ==> Bit(b[r], d) == Bit(a[r], d)
    requires KeyCount(r, cols) <= KeyCount(|a|, cols) && SameUpTo(Keys(a, cols), Keys(b, cols), KeyCount(r, cols))
    ensures KeyCount(r, cols) + c <= KeyCount(|a|, cols)
    ensures SameUpTo(Keys(a, cols), Keys(b, cols), KeyCount(r, cols) + c)
  {
    KeyCountGrows(r, |a|, cols);
    if c > 0 {
      RowSame(a, b, cols, r, c - 1);
      KeysAt(a, cols, r, c - 1);
      KeysAt(b, cols, r, c - 1);
    }
  }

  lemma FirstDiffAt(prev: seq<bool>, now: seq<bool>, j: nat)
    requires j <= |prev| == |now| && (j < |prev| ==> prev[j] != now[j])
    requires SameUpTo(prev, now, j)
    ensures FirstDiff(prev, now, 0) == j
  {
  }
}
