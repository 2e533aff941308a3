/** Key matrices: one word per row, one bit per column, as matrix_row_t in the firmware (the
    board has eight columns). The model reads a matrix as one flat sequence of keys, row after
    row, which is the order in which the scan loops visit it. */
module MatrixBits {

  type Row = bv8

  /** The bit of a column. */
  predicate Bit(w: Row, c: nat) {
    if c == 0 then w & 1 != 0 else Bit(w >> 1, c - 1)
  }

  /** ROW_SHIFTER << col */
  function Mask(c: nat): Row
    requires c < 8
  {
    1 << c
  }

  lemma ShiftedMask(w: Row, c: nat)
    requires 0 < c < 8
    ensures (w & Mask(c) != 0) <==> ((w >> 1) & Mask(c - 1) != 0)
  {
  }

  /** Masking a column reads its bit. */
  lemma {:induction false} BitIsMasked(w: Row, c: nat)
    requires c < 8
    ensures Bit(w, c) <==> w & Mask(c) != 0
  {
    if c > 0 {
      BitIsMasked(w >> 1, c - 1);
      ShiftedMask(w, c);
    }
  }

  predicate IsMask(m: Row) {
    m in {1, 2, 4, 8, 16, 32, 64, 128}
  }

  lemma MaskValues(c: nat, d: nat)
    requires c < 8 && d < 8
    ensures IsMask(Mask(c)) && IsMask(Mask(d)) && (Mask(c) == Mask(d) <==> c == d)
  {
  }

  /** Under a mask, r is x in one column and w in the others. */
  predicate Merges(w: Row, x: Row, r: Row, m: Row, k: Row) {
    r & k != 0 <==> if k == m then x & m != 0 else w & k != 0
  }

  /** Under a mask, r is w with one column flipped. */
  predicate Flips(w: Row, r: Row, m: Row, k: Row) {
    r & k != 0 <==> if k == m then w & m == 0 else w & k != 0
  }

  lemma MergeMask(w: Row, x: Row, r: Row, m: Row, k: Row)
    requires IsMask(m) && IsMask(k) && r == (w & !m) | (x & m)
    ensures Merges(w, x, r, m, k)
  {
  }

  lemma FlipMask(w: Row, r: Row, m: Row, k: Row)
    requires IsMask(m) && IsMask(k) && r == w ^ m
    ensures Flips(w, r, m, k)
  {
  }

  lemma DeltaMask(w: Row, x: Row, r: Row, m: Row)
    requires IsMask(m) && r == w ^ x
    ensures r & m != 0 <==> ((w & m != 0) != (x & m != 0))
  {
  }

  /** From masks to bits: what holds of the words under a mask holds of their bits. */
  lemma BitsFromMasks(w: Row, x: Row, r: Row, c: nat, d: nat)
    requires c < 8 && d < 8
    ensures r & Mask(d) != 0 <==> Bit(r, d)
    ensures w & Mask(d) != 0 <==> Bit(w, d)
    ensures x & Mask(c) != 0 <==> Bit(x, c)
    ensures w & Mask(c) != 0 <==> Bit(w, c)
    ensures Mask(c) == Mask(d) <==> c == d
    ensures IsMask(Mask(c)) && IsMask(Mask(d))
  {
    BitIsMasked(r, d);
    BitIsMasked(w, d);
    BitIsMasked(x, c);
    BitIsMasked(w, c);
    MaskValues(c, d);
  }

  lemma MergedMasks(w: Row, x: Row, r: Row, c: nat)
    requires c < 8 && r == (w & !Mask(c)) | (x & Mask(c))
    ensures forall d :: 0 <= d < 8 ==> Merges(w, x, r, Mask(c), Mask(d))
  {
    forall d | 0 <= d < 8
      ensures Merges(w, x, r, Mask(c), Mask(d))
    {
      MaskValues(c, d);
      MergeMask(w, x, r, Mask(c), Mask(d));
    }
  }

  lemma FlippedMasks(w: Row, r: Row, c: nat)
    requires c < 8 && r == w ^ Mask(c)
    ensures forall d :: 0 <= d < 8 ==> Flips(w, r, Mask(c), Mask(d))
  {
    forall d | 0 <= d < 8
      ensures Flips(w, r, Mask(c), Mask(d))
    {
      MaskValues(c, d);
      FlipMask(w, r, Mask(c), Mask(d));
    }
  }

  lemma MergedBits(w: Row, x: Row, r: Row, c: nat)
    requires c < 8 && forall d :: 0 <= d < 8 ==> Merges(w, x, r, Mask(c), Mask(d))
    ensures forall d :: 0 <= d < 8 ==> Bit(r, d) == if d == c then Bit(x, c) else Bit(w, d)
  {
    forall d | 0 <= d < 8
      ensures Bit(r, d) == if d == c then Bit(x, c) else Bit(w, d)
    {
      assert Merges(w, x, r, Mask(c), Mask(d));
      BitsFromMasks(w, x, r, c, d);
    }
  }

  lemma FlippedBits(w: Row, r: Row, c: nat)
    requires c < 8 && forall d :: 0 <= d < 8 ==> Flips(w, r, Mask(c), Mask(d))
    ensures forall d :: 0 <= d < 8 ==> Bit(r, d) == if d == c then !Bit(w, c) else Bit(w, d)
  {
    forall d | 0 <= d < 8
      ensures Bit(r, d) == if d == c then !Bit(w, c) else Bit(w, d)
    {
      assert Flips(w, r, Mask(c), Mask(d));
      BitsFromMasks(w, w, r, c, d);
    }
  }

  lemma DeltaBit(w: Row, x: Row, r: Row, d: nat)
    requires d < 8 && r == w ^ x
    ensures Bit(r, d) <==> Bit(w, d) != Bit(x, d)
  {
    BitsFromMasks(w, x, r, d, d);
    DeltaMask(w, x, r, Mask(d));
  }

  // ---------- the bit operations of the loops ----------

  method TestColumn(w: Row, col: nat) returns (b: bool)
    requires col < 8
    ensures b == Bit(w, col)
  {
    BitIsMasked(w, col);
    b := w & Mask(col) != 0;
  }

  /** Only one column is copied from x. */
  method CopyColumn(w: Row, x: Row, col: nat) returns (r: Row)
    requires col < 8
    ensures forall d :: 0 <= d < 8 ==> Bit(r, d) == if d == col then Bit(x, col) else Bit(w, d)
  {
    r := (w & !Mask(col)) | (x & Mask(col));
    MergedMasks(w, x, r, col);
    MergedBits(w, x, r, col);
  }

  /** Only one column is flipped. */
  method FlipColumn(w: Row, col: nat) returns (r: Row)
    requires col < 8
    ensures forall d :: 0 <= d < 8 ==> Bit(r, d) == if d == col then !Bit(w, col) else Bit(w, d)
  {
    r := w ^ Mask(col);
    FlippedMasks(w, r, col);
    FlippedBits(w, r, col);
  }

  /** The difference word has a bit exactly where two rows differ. */
  method DeltaRow(w: Row, x: Row) returns (delta: Row)
    ensures forall d :: 0 <= d < 8 ==> (Bit(delta, d) <==> Bit(w, d) != Bit(x, d))
  {
    delta := w ^ x;
    forall d | 0 <= d < 8
      ensures Bit(delta, d) <==> Bit(w, d) != Bit(x, d)
    {
      DeltaBit(w, x, delta, d);
    }
  }

  // ---------- the flat view ----------

  /** The keys of the first columns of one row. */
  function RowKeys(w: Row, cols: nat): (keys: seq<bool>)
    requires cols <= 8
    ensures |keys| == cols
    ensures forall c :: 0 <= c < cols ==> keys[c] == Bit(w, c)
  {
    seq(cols, c requires 0 <= c < cols => Bit(w, c))
  }

  /** How many keys the first rows have: rows times cols. */
  function KeyCount(rows: nat, cols: nat): nat {
    if rows == 0 then 0 else KeyCount(rows - 1, cols) + cols
  }

  /** The keys of the first rows */
  function RowsKeys(m: seq<Row>, cols: nat, rows: nat): (keys: seq<bool>)
    requires cols <= 8 && rows <= |m|
    ensures |keys| == KeyCount(rows, cols)
  {
    if rows == 0 then [] else RowsKeys(m, cols, rows - 1) + RowKeys(m[rows - 1], cols)
  }

  function Keys(m: seq<Row>, cols: nat): (keys: seq<bool>)
    requires cols <= 8
    ensures |keys| == KeyCount(|m|, cols)
  {
    RowsKeys(m, cols, |m|)
  }

  lemma {:induction false} KeyCountGrows(r: nat, rows: nat, cols: nat)
    requires r < rows
    ensures KeyCount(r, cols) + cols <= KeyCount(rows, cols)
  {
    if r + 1 < rows {
      KeyCountGrows(r, rows - 1, cols);
    }
  }

  lemma {:induction false} RowsKeysAt(m: seq<Row>, cols: nat, rows: nat, r: nat, c: nat)
    requires cols <= 8 && r < rows <= |m| && c < cols
    ensures KeyCount(r, cols) + c < KeyCount(rows, cols)
    ensures RowsKeys(m, cols, rows)[KeyCount(r, cols) + c] == Bit(m[r], c)
  {
    KeyCountGrows(r, rows, cols);
    if r < rows - 1 { RowsKeysAt(m, cols, rows - 1, r, c); }
  }

  /** The key of a row and column stands at its place in the scan. */
  lemma KeysAt(m: seq<Row>, cols: nat, r: nat, c: nat)
    requires cols <= 8 && r < |m| && c < cols
    ensures KeyCount(r, cols) + c < KeyCount(|m|, cols)
    ensures Keys(m, cols)[KeyCount(r, cols) + c] == Bit(m[r], c)
  {
    RowsKeysAt(m, cols, |m|, r, c);
  }

  lemma RowUpdate(v: Row, w: Row, cols: nat, c: nat)
    requires cols <= 8 && c < cols
    requires forall d :: 0 <= d < cols && d != c ==> Bit(w, d) == Bit(v, d)
    ensures RowKeys(w, cols) == RowKeys(v, cols)[c := Bit(w, c)]
  {
  }

  lemma UpdateTail(a: seq<bool>, b: seq<bool>, c: nat, x: bool)
    requires c < |b|
    ensures (a + b)[|a| + c := x] == a + b[c := x]
  {
  }

  lemma UpdateHead(a: seq<bool>, b: seq<bool>, c: nat, x: bool)
    requires c < |a|
    ensures (a + b)[c := x] == a[c := x] + b
  {
  }

  lemma {:induction false} RowsKeysKept(m: seq<Row>, cols: nat, rows: nat, r: nat, w: Row)
    requires cols <= 8 && rows <= r < |m|
    ensures RowsKeys(m[r := w], cols, rows) == RowsKeys(m, cols, rows)
  {
    if rows > 0 { RowsKeysKept(m, cols, rows - 1, r, w); }
  }

  lemma {:induction false} RowsKeysUpdate(m: seq<Row>, cols: nat, rows: nat, r: nat, c: nat, w: Row)
    requires cols <= 8 && r < rows <= |m| && c < cols
    requires forall d :: 0 <= d < cols && d != c ==> Bit(w, d) == Bit(m[r], d)
    ensures KeyCount(r, cols) + c < KeyCount(rows, cols)
    ensures RowsKeys(m[r := w], cols, rows) == RowsKeys(m, cols, rows)[KeyCount(r, cols) + c := Bit(w, c)]
  {
    var a, b := RowsKeys(m, cols, rows - 1), RowKeys(m[rows - 1], cols);
    if r < rows - 1 {
      RowsKeysUpdate(m, cols, rows - 1, r, c, w);
      UpdateHead(a, b, KeyCount(r, cols) + c, Bit(w, c));
    } else {
      RowsKeysKept(m, cols, rows - 1, r, w);
      RowUpdate(m[r], w, cols, c);
      UpdateTail(a, b, c, Bit(w, c));
    }
  }

  /** Changing one column of one row changes one key. */
  lemma KeysUpdate(m: seq<Row>, cols: nat, r: nat, c: nat, w: Row)
    requires cols <= 8 && r < |m| && c < cols
    requires forall d :: 0 <= d < cols && d != c ==> Bit(w, d) == Bit(m[r], d)
    ensures KeyCount(r, cols) + c < KeyCount(|m|, cols)
    ensures Keys(m[r := w], cols) == Keys(m, cols)[KeyCount(r, cols) + c := Bit(w, c)]
  {
    RowsKeysUpdate(m, cols, |m|, r, c, w);
  }

  lemma {:induction false} ZeroBit(c: nat)
    ensures !Bit(0, c)
  {
    if c > 0 {
      ZeroBit(c - 1);
    }
  }

  lemma {:induction false} NoRowsKeys(m: seq<Row>, cols: nat, rows: nat)
    requires cols <= 8 && rows <= |m| && forall r :: 0 <= r < |m| ==> m[r] == 0
    ensures forall i :: 0 <= i < KeyCount(rows, cols) ==> !RowsKeys(m, cols, rows)[i]
  {
    if rows > 0 {
      var row := RowKeys(m[rows - 1], cols);
      forall c | 0 <= c < cols
        ensures !row[c]
      {
        ZeroBit(c);
      }
      NoRowsKeys(m, cols, rows - 1);
    }
  }

  lemma NoKeys(m: seq<Row>, cols: nat)
    requires cols <= 8 && forall r :: 0 <= r < |m| ==> m[r] == 0
    ensures forall i :: 0 <= i < KeyCount(|m|, cols) ==> !Keys(m, cols)[i]
  {
    NoRowsKeys(m, cols, |m|);
  }
}
