/** The source layer cache of quantum/action_layer.c: for every key the layer of its last press, one
    bit of the layer number per byte column, eight keys to a byte. It refines a plain map. */
module LayerCache {
  import opened Binary
  import opened MatrixBits
  import opened TapRecords

  const MAX_LAYER_BITS := 5

  lemma ShiftBelow32(n: nat)
    requires n < 32
    ensures Shift(n, 5) == 0
  {
    assert Shift(n, 5) == Shift(n / 2 / 2, 3) == Shift(n / 2 / 2 / 2 / 2, 1);
  }

  /** One step of putting a number together from its digits */
  lemma NextDigit(n: nat, b: nat, p: nat, low: nat)
    requires low + p * Shift(n, b) == n
    ensures low + (if Digit(n, b) then p else 0) + (2 * p) * Shift(n, b + 1) == n
  {
    var s := Shift(n, b);
    ShiftNext(n, b);
    assert s == 2 * (s / 2) + s % 2;
    assert p * s == 2 * p * (s / 2) + p * (s % 2);
  }

  function Spread(c: bool): Row {
    if c then 0xFF else 0
  }

  /** Exclusive or with the masked difference copies one column of the spread bit. */
  lemma SelectIsMerge(x: Row, y: Row, r: Row, m: Row)
    requires r == x ^ ((y ^ x) & m)
    ensures r == (x & !m) | (y & m)
  {
  }

  lemma SpreadBit(c: bool, d: nat)
    requires d < 8
    ensures Bit(Spread(c), d) == c
  {
    BitIsMasked(Spread(c), d);
    MaskValues(d, d);
  }

  /** Stores one bit without a branch: all ones or all zeros, masked in by exclusive or. */
  method StoreBit(x: Row, c: bool, col: nat) returns (r: Row)
    requires col < 8
    ensures forall d :: 0 <= d < 8 ==> Bit(r, d) == if d == col then c else Bit(x, d)
  {
    var y, m := Spread(c), Mask(col);
    r := x ^ ((y ^ x) & m);
    SelectIsMerge(x, y, r, m);
    MergedMasks(x, y, r, col);
    MergedBits(x, y, r, col);
    SpreadBit(c, col);
  }

  // ---------- numbering the keys ----------

  predicate InMatrix(key: Key, rows: nat, cols: nat) {
    key.row < rows && key.col < cols
  }

  function Number(key: Key, cols: nat): nat {
    key.col + key.row * cols
  }

  lemma {:induction false} RowsBelow(r: nat, rows: nat, cols: nat)
    requires r < rows
    ensures r * cols + cols <= rows * cols
  {
    assert rows * cols == (rows - 1) * cols + cols;
    if r < rows - 1 { RowsBelow(r, rows - 1, cols); }
  }

  /** The keys have different numbers below rows times cols. */
  lemma NumbersDiffer(a: Key, b: Key, rows: nat, cols: nat)
    requires InMatrix(a, rows, cols) && InMatrix(b, rows, cols)
    ensures Number(a, cols) < rows * cols
    ensures Number(a, cols) == Number(b, cols) <==> a == b
  {
    RowsBelow(a.row, rows, cols);
    if a.row < b.row { RowsBelow(a.row, b.row, cols); }
    if b.row < a.row { RowsBelow(b.row, a.row, cols); }
  }

  class Cache {
    const rows: nat
    const cols: nat
    const bits: array2<Row>
    /** The map the cache stands for */
    ghost var layers: map<Key, nat>

    ghost predicate Shaped() {
      rows * cols <= 2048 && bits.Length0 == (rows * cols + 7) / 8 && bits.Length1 == MAX_LAYER_BITS
    }

    /** Bit b of the layer stored for a key */
    predicate Stored(key: Key, b: nat)
      reads bits
      requires Shaped() && InMatrix(key, rows, cols) && b < MAX_LAYER_BITS
    {
      NumbersDiffer(key, key, rows, cols);
      Bit(bits[Number(key, cols) / 8, b], Number(key, cols) % 8)
    }

    predicate Holds(key: Key, n: nat)
      reads bits
      requires Shaped() && InMatrix(key, rows, cols)
    {
      forall b :: 0 <= b < MAX_LAYER_BITS ==> Stored(key, b) == Digit(n, b)
    }

    ghost function At(key: Key): nat
      reads this
    {
      if key in layers then layers[key] else 0
    }

    ghost predicate Valid()
      reads this, bits
    {
      Shaped() && forall key :: InMatrix(key, rows, cols) ==> At(key) < 32 && Holds(key, At(key))
    }

    constructor (rows: nat, cols: nat)
      requires rows * cols <= 2048
      ensures Valid() && fresh(bits) && layers == map[] && this.rows == rows && this.cols == cols
    {
      this.rows := rows;
      this.cols := cols;
      bits := new Row[(rows * cols + 7) / 8, MAX_LAYER_BITS]((i, j) => 0);
      layers := map[];
      new;
      forall key, b | InMatrix(key, rows, cols) && 0 <= b < MAX_LAYER_BITS
        ensures Stored(key, b) == Digit(0, b)
      {
        NumbersDiffer(key, key, rows, cols);
        ZeroBit(Number(key, cols) % 8);
        ShiftZero(b);
      }
    }

    /** update_source_layers_cache */
    method Update(key: Key, layer: nat)
      requires Valid() && InMatrix(key, rows, cols) && layer < 32
      modifies this, bits
      ensures Valid() && layers == old(layers)[key := layer]
    {
      NumbersDiffer(key, key, rows, cols);
      var number := Number(key, cols);
      var row := number / 8;
      var col := number % 8;
      var b := 0;
      while b < MAX_LAYER_BITS
        invariant 0 <= b <= MAX_LAYER_BITS
        invariant layers == old(layers)
        invariant forall c :: 0 <= c < b ==> Stored(key, c) == Digit(layer, c)
        invariant forall k, c | InMatrix(k, rows, cols) && k != key && 0 <= c < MAX_LAYER_BITS ::
          Stored(k, c) == old(Stored(k, c))
      {
        var word := StoreBit(bits[row, b], Digit(layer, b), col);
        ghost var before := bits[row, b];
        bits[row, b] := word;
        forall k | InMatrix(k, rows, cols) && k != key
          ensures Stored(k, b) == old(Stored(k, b))
        {
          NumbersDiffer(k, key, rows, cols);
        }
        b := b + 1;
      }
      layers := layers[key := layer];
    }

    /** read_source_layers_cache */
    method Read(key: Key) returns (layer: nat)
      requires Valid() && InMatrix(key, rows, cols)
      ensures layer == At(key)
    {
      NumbersDiffer(key, key, rows, cols);
      var number := Number(key, cols);
      var row := number / 8;
      var col := number % 8;
      layer := 0;
      var b: nat, p: nat := 0, 1;
      while b < MAX_LAYER_BITS
        invariant 0 <= b <= MAX_LAYER_BITS
        invariant layer + p * Shift(At(key), b) == At(key)
      {
        var on := TestColumn(bits[row, b], col);
        assert on == Stored(key, b);
        NextDigit(At(key), b, p, layer);
        layer := layer + if on then p else 0;
        b, p := b + 1, 2 * p;
      }
      ShiftBelow32(At(key));
    }
  }
}
