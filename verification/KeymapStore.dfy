/** The EEPROM layout of quantum/via.h and quantum/dynamic_keymap.c, for any number of layers, rows
    and columns, and what the keyed and the bulk operations write and read. */
module KeymapStore {
  import opened EepromWrites

  datatype Config = Config(
    magicAddr: nat, optionsSize: nat, customSize: nat,
    layers: nat, rows: nat, cols: nat, maxAddr: nat)

  type Keycode = x: int | 0 <= x < 0x1_0000
  /** Keycodes by layer, row and column */
  type Flash = (nat, nat, nat) -> Keycode

  /** n blocks of a size, n * size (BlocksMultiply) */
  function Blocks(n: nat, size: nat): nat {
    if n == 0 then 0 else Blocks(n - 1, size) + size
  }

  lemma {:induction false} BlocksMultiply(n: nat, size: nat)
    ensures Blocks(n, size) == n * size
  {
    if n > 0 {
      BlocksMultiply(n - 1, size);
      assert n * size == (n - 1) * size + size;
    }
  }

  lemma {:induction false} BlockInside(i: nat, n: nat, size: nat)
    requires i < n
    ensures Blocks(i, size) + size <= Blocks(n, size)
  {
    if i < n - 1 { BlockInside(i, n - 1, size); }
  }

  function RowSize(c: Config): nat { c.cols * 2 }
  function LayerSize(c: Config): nat { Blocks(c.rows, RowSize(c)) }
  function KeymapSize(c: Config): nat { Blocks(c.layers, LayerSize(c)) }

  function OptionsAddr(c: Config): nat { c.magicAddr + 3 }
  function KeymapAddr(c: Config): nat { OptionsAddr(c) + c.optionsSize + c.customSize }
  function MacroAddr(c: Config): nat { KeymapAddr(c) + KeymapSize(c) }
  function MacroSize(c: Config): int { c.maxAddr - MacroAddr(c) + 1 }

  /** The compile-time checks, and one to four bytes of layout options */
  predicate Fits(c: Config) {
    c.maxAddr <= 65535 && c.maxAddr - MacroAddr(c) >= 100 && 1 <= c.optionsSize <= 4
  }

  predicate Stored(c: Config, m: Memory) {
    Fits(c) && |m| == c.maxAddr + 1
  }

  predicate IsKey(c: Config, layer: nat, row: nat, col: nat) {
    layer < c.layers && row < c.rows && col < c.cols
  }

  /** dynamic_keymap_key_to_eeprom_address */
  function KeyAddr(c: Config, layer: nat, row: nat, col: nat): nat {
    KeymapAddr(c) + Blocks(layer, LayerSize(c)) + Blocks(row, RowSize(c)) + col * 2
  }

  lemma LayersFormula(n: nat, rows: nat, cols: nat)
    ensures Blocks(n, Blocks(rows, cols * 2)) == n * rows * cols * 2
  {
    BlocksMultiply(rows, cols * 2);
    BlocksMultiply(n, rows * (cols * 2));
    MulAssociate(n, rows, cols);
  }

  lemma RowsFormula(row: nat, cols: nat)
    ensures Blocks(row, cols * 2) == row * cols * 2
  {
  }

  /** The addresses are the expressions of the source: the magic, the layout options, custom data, the keymap, and the
      macros up to the last byte. */
  lemma AddressFormula(c: Config, layer: nat, row: nat, col: nat)
    ensures OptionsAddr(c) == c.magicAddr + 3
    ensures var base := c.magicAddr + 3 + c.optionsSize + c.customSize;
      && KeyAddr(c, layer, row, col) == base + layer * c.rows * c.cols * 2 + row * c.cols * 2 + col * 2
      && MacroAddr(c) == base + c.layers * c.rows * c.cols * 2
      && MacroAddr(c) + MacroSize(c) == c.maxAddr + 1
  {
    LayersFormula(layer, c.rows, c.cols);
    LayersFormula(c.layers, c.rows, c.cols);
    RowsFormula(row, c.cols);
  }

  lemma MulAssociate(a: nat, b: nat, d: nat)
    ensures a * (b * (d * 2)) == a * b * d * 2
  {
  }

  /** A key's row lies inside its layer, and its layer inside the keymap. */
  lemma RowInside(c: Config, layer: nat, row: nat)
    requires layer < c.layers && row < c.rows
    ensures KeyAddr(c, layer, row, 0) + RowSize(c) <= KeyAddr(c, layer, 0, 0) + LayerSize(c)
    ensures KeyAddr(c, layer, 0, 0) + LayerSize(c) <= MacroAddr(c)
  {
    BlockInside(row, c.rows, RowSize(c));
    BlockInside(layer, c.layers, LayerSize(c));
  }

  /** Every key has two bytes of its own in the keymap region. */
  lemma AddressesDiffer(c: Config, l1: nat, r1: nat, k1: nat, l2: nat, r2: nat, k2: nat)
    requires IsKey(c, l1, r1, k1) && IsKey(c, l2, r2, k2)
    ensures KeymapAddr(c) <= KeyAddr(c, l1, r1, k1) && KeyAddr(c, l1, r1, k1) + 2 <= MacroAddr(c)
    ensures (l1, r1, k1) != (l2, r2, k2) ==>
      var a, b := KeyAddr(c, l1, r1, k1), KeyAddr(c, l2, r2, k2); a + 2 <= b || b + 2 <= a
  {
    RowInside(c, l1, r1);
    RowInside(c, l2, r2);
    if l1 < l2 { BlockInside(l1, l2, LayerSize(c)); }
    if l2 < l1 { BlockInside(l2, l1, LayerSize(c)); }
    if r1 < r2 { BlockInside(r1, r2, RowSize(c)); }
    if r2 < r1 { BlockInside(r2, r1, RowSize(c)); }
  }

  // ---------- one key ----------

  function Word(m: Memory, a: nat): Keycode
    requires a + 1 < |m|
  {
    var high: int, low: int := m[a], m[a + 1];
    high * 256 + low
  }

  function WordWrites(a: nat, k: Keycode): seq<Write> {
    [Write(a, k / 256), Write(a + 1, k % 256)]
  }

  function KeycodeAt(c: Config, m: Memory, layer: nat, row: nat, col: nat): Keycode
    requires Stored(c, m) && IsKey(c, layer, row, col)
  {
    AddressesDiffer(c, layer, row, col, layer, row, col);
    Word(m, KeyAddr(c, layer, row, col))
  }

  /** dynamic_keymap_set_keycode */
  function KeyWrites(c: Config, layer: nat, row: nat, col: nat, k: Keycode): seq<Write> {
    WordWrites(KeyAddr(c, layer, row, col), k)
  }

  lemma ApplyWord(m: Memory, a: nat, k: Keycode)
    requires a + 1 < |m|
    ensures Within(WordWrites(a, k), a, a + 2)
    ensures Apply(m, WordWrites(a, k)) == m[a := k / 256][a + 1 := k % 256]
  {
    var ws := WordWrites(a, k);
    assert ws[..1][..0] == [];
    assert Apply(m, ws[..1]) == m[a := k / 256];
  }

  lemma ReadAfterWord(m: Memory, a: nat, k: Keycode, b: nat)
    requires a + 1 < |m| && b + 1 < |m| && (a == b || a + 2 <= b || b + 2 <= a)
    ensures Within(WordWrites(a, k), 0, |m|)
    ensures Word(Apply(m, WordWrites(a, k)), b) == if a == b then k else Word(m, b)
  {
    ApplyWord(m, a, k);
  }

  /** Setting a key changes the reading of that key only, and no byte outside its two. */
  lemma SetKeyChangesOne(c: Config, m: Memory, layer: nat, row: nat, col: nat, k: Keycode)
    requires Stored(c, m) && IsKey(c, layer, row, col)
    ensures var a := KeyAddr(c, layer, row, col); Within(KeyWrites(c, layer, row, col, k), a, a + 2) && a + 2 <= |m|
    ensures var n := Apply(m, KeyWrites(c, layer, row, col, k));
      && (forall l: nat, r: nat, j: nat :: IsKey(c, l, r, j) ==>
            KeycodeAt(c, n, l, r, j) == if (l, r, j) == (layer, row, col) then k else KeycodeAt(c, m, l, r, j))
      && (forall i :: 0 <= i < |m| && (i < KeymapAddr(c) || MacroAddr(c) <= i) ==> n[i] == m[i])
  {
    AddressesDiffer(c, layer, row, col, layer, row, col);
    ApplyWord(m, KeyAddr(c, layer, row, col), k);
    var n := Apply(m, KeyWrites(c, layer, row, col, k));
    forall l: nat, r: nat, j: nat | IsKey(c, l, r, j)
      ensures KeycodeAt(c, n, l, r, j) == if (l, r, j) == (layer, row, col) then k else KeycodeAt(c, m, l, r, j)
    {
      AddressesDiffer(c, layer, row, col, l, r, j);
      AddressesDiffer(c, l, r, j, layer, row, col);
      ReadAfterWord(m, KeyAddr(c, layer, row, col), k, KeyAddr(c, l, r, j));
    }
  }

  // ---------- resetting all keys ----------

  function RowWrites(c: Config, f: Flash, layer: nat, row: nat, n: nat): seq<Write> {
    if n == 0 then [] else RowWrites(c, f, layer, row, n - 1) + KeyWrites(c, layer, row, n - 1, f(layer, row, n - 1))
  }

  function LayerWrites(c: Config, f: Flash, layer: nat, n: nat): seq<Write> {
    if n == 0 then [] else LayerWrites(c, f, layer, n - 1) + RowWrites(c, f, layer, n - 1, c.cols)
  }

  /** dynamic_keymap_reset, up to a layer */
  function KeymapWrites(c: Config, f: Flash, n: nat): seq<Write> {
    if n == 0 then [] else KeymapWrites(c, f, n - 1) + LayerWrites(c, f, n - 1, c.rows)
  }

  lemma {:induction false} RowWithin(c: Config, f: Flash, layer: nat, row: nat, n: nat)
    ensures Within(RowWrites(c, f, layer, row, n), KeyAddr(c, layer, row, 0), KeyAddr(c, layer, row, n))
  {
    if n > 0 { RowWithin(c, f, layer, row, n - 1); }
  }

  lemma {:induction false} LayerWithin(c: Config, f: Flash, layer: nat, n: nat)
    ensures Within(LayerWrites(c, f, layer, n), KeyAddr(c, layer, 0, 0), KeyAddr(c, layer, n, 0))
  {
    if n > 0 {
      LayerWithin(c, f, layer, n - 1);
      RowWithin(c, f, layer, n - 1, c.cols);
    }
  }

  lemma {:induction false} KeymapWithin(c: Config, f: Flash, n: nat)
    ensures Within(KeymapWrites(c, f, n), KeymapAddr(c), KeyAddr(c, n, 0, 0))
  {
    if n > 0 {
      KeymapWithin(c, f, n - 1);
      LayerWithin(c, f, n - 1, c.rows);
    }
  }

  /** The words of part of a row read as f says. */
  ghost predicate RowReads(c: Config, m: Memory, f: Flash, layer: nat, row: nat, n: nat)
    requires KeyAddr(c, layer, row, n) <= |m|
  {
    forall k: nat :: k < n ==> Word(m, KeyAddr(c, layer, row, k)) == f(layer, row, k)
  }

  ghost predicate LayerReads(c: Config, m: Memory, f: Flash, layer: nat, n: nat)
    requires KeyAddr(c, layer, n, 0) <= |m|
  {
    forall r: nat :: r < n ==>
      (BlockInside(r, n, RowSize(c)); RowReads(c, m, f, layer, r, c.cols))
  }

  ghost predicate KeymapReads(c: Config, m: Memory, f: Flash, n: nat)
    requires KeyAddr(c, n, 0, 0) <= |m|
  {
    forall l: nat :: l < n ==>
      (BlockInside(l, n, LayerSize(c)); LayerReads(c, m, f, l, c.rows))
  }

  /** One more word behind the ones stored in a row */
  lemma WordBehind(c: Config, m: Memory, f: Flash, layer: nat, row: nat, n: nat)
    requires 0 < n && KeyAddr(c, layer, row, n) <= |m| && RowReads(c, m, f, layer, row, n - 1)
    ensures Within(KeyWrites(c, layer, row, n - 1, f(layer, row, n - 1)), 0, |m|)
    ensures RowReads(c, Apply(m, KeyWrites(c, layer, row, n - 1, f(layer, row, n - 1))), f, layer, row, n)
  {
    var a, w := KeyAddr(c, layer, row, n - 1), f(layer, row, n - 1);
    ApplyWord(m, a, w);
    var r := Apply(m, KeyWrites(c, layer, row, n - 1, w));
    forall k: nat | k < n
      ensures Word(r, KeyAddr(c, layer, row, k)) == f(layer, row, k)
    {
      var b := KeyAddr(c, layer, row, k);
      assert k < n - 1 ==> b + 2 <= a && Word(m, b) == f(layer, row, k);
    }
  }

  lemma {:induction false} RowStored(c: Config, m: Memory, f: Flash, layer: nat, row: nat, n: nat)
    requires KeyAddr(c, layer, row, n) <= |m|
    ensures Within(RowWrites(c, f, layer, row, n), 0, |m|)
    ensures RowReads(c, Apply(m, RowWrites(c, f, layer, row, n)), f, layer, row, n)
  {
    RowWithin(c, f, layer, row, n);
    if n > 0 {
      RowStored(c, m, f, layer, row, n - 1);
      var before := RowWrites(c, f, layer, row, n - 1);
      WordBehind(c, Apply(m, before), f, layer, row, n);
      ApplyAppend(m, before, KeyWrites(c, layer, row, n - 1, f(layer, row, n - 1)));
    }
  }

  /** Writes behind a row, or behind the rows of a layer, keep what they read. */
  lemma RowKept(c: Config, m: Memory, f: Flash, layer: nat, row: nat, ws: seq<Write>, low: nat)
    requires KeyAddr(c, layer, row, c.cols) <= low <= |m| && Within(ws, low, |m|)
    requires RowReads(c, m, f, layer, row, c.cols)
    ensures RowReads(c, Apply(m, ws), f, layer, row, c.cols)
  {
  }

  lemma LayerKept(c: Config, m: Memory, f: Flash, layer: nat, n: nat, ws: seq<Write>, low: nat)
    requires KeyAddr(c, layer, n, 0) <= low <= |m| && Within(ws, low, |m|)
    requires LayerReads(c, m, f, layer, n)
    ensures LayerReads(c, Apply(m, ws), f, layer, n)
  {
    forall r: nat | r < n
      ensures KeyAddr(c, layer, r, c.cols) <= |m| && RowReads(c, Apply(m, ws), f, layer, r, c.cols)
    {
      BlockInside(r, n, RowSize(c));
      RowKept(c, m, f, layer, r, ws, low);
    }
  }

  lemma AddRow(c: Config, m: Memory, f: Flash, layer: nat, n: nat)
    requires 0 < n && KeyAddr(c, layer, n, 0) <= |m|
    requires LayerReads(c, m, f, layer, n - 1) && RowReads(c, m, f, layer, n - 1, c.cols)
    ensures LayerReads(c, m, f, layer, n)
  {
  }

  /** A row ends where the next begins. */
  lemma RowEnd(c: Config, layer: nat, n: nat)
    requires 0 < n
    ensures KeyAddr(c, layer, n - 1, c.cols) == KeyAddr(c, layer, n, 0)
    ensures KeyAddr(c, layer, n - 1, 0) <= KeyAddr(c, layer, n, 0)
  {
  }

  /** One more row on top of the stored ones */
  lemma RowOnTop(c: Config, m: Memory, f: Flash, layer: nat, n: nat)
    requires 0 < n && KeyAddr(c, layer, n, 0) <= |m| && LayerReads(c, m, f, layer, n - 1)
    ensures Within(RowWrites(c, f, layer, n - 1, c.cols), 0, |m|)
    ensures LayerReads(c, Apply(m, RowWrites(c, f, layer, n - 1, c.cols)), f, layer, n)
  {
    RowEnd(c, layer, n);
    RowWithin(c, f, layer, n - 1, c.cols);
    LayerKept(c, m, f, layer, n - 1, RowWrites(c, f, layer, n - 1, c.cols), KeyAddr(c, layer, n - 1, 0));
    RowStored(c, m, f, layer, n - 1, c.cols);
    AddRow(c, Apply(m, RowWrites(c, f, layer, n - 1, c.cols)), f, layer, n);
  }

  lemma {:induction false} LayerStored(c: Config, m: Memory, f: Flash, layer: nat, n: nat)
    requires KeyAddr(c, layer, n, 0) <= |m|
    ensures Within(LayerWrites(c, f, layer, n), 0, |m|)
    ensures LayerReads(c, Apply(m, LayerWrites(c, f, layer, n)), f, layer, n)
  {
    LayerWithin(c, f, layer, n);
    if n > 0 {
      LayerStored(c, m, f, layer, n - 1);
      var before := LayerWrites(c, f, layer, n - 1);
      RowOnTop(c, Apply(m, before), f, layer, n);
      ApplyAppend(m, before, RowWrites(c, f, layer, n - 1, c.cols));
    }
  }

  lemma {:induction false} KeymapStored(c: Config, m: Memory, f: Flash, n: nat)
    requires KeyAddr(c, n, 0, 0) <= |m|
    ensures Within(KeymapWrites(c, f, n), 0, |m|)
    ensures KeymapReads(c, Apply(m, KeymapWrites(c, f, n)), f, n)
  {
    KeymapWithin(c, f, n);
    if n > 0 {
      KeymapWithin(c, f, n - 1);
      KeymapStored(c, m, f, n - 1);
      var before, last := KeymapWrites(c, f, n - 1), LayerWrites(c, f, n - 1, c.rows);
      LayerStored(c, Apply(m, before), f, n - 1, c.rows);
      LayerWithin(c, f, n - 1, c.rows);
      ApplyAppend(m, before, last);
      KeymapKept(c, Apply(m, before), f, n - 1, last);
      AddLayer(c, Apply(m, before + last), f, n);
    }
  }

  lemma KeymapKept(c: Config, m: Memory, f: Flash, n: nat, ws: seq<Write>)
    requires KeyAddr(c, n, 0, 0) <= |m| && Within(ws, KeyAddr(c, n, 0, 0), |m|)
    requires KeymapReads(c, m, f, n)
    ensures KeymapReads(c, Apply(m, ws), f, n)
  {
    forall l: nat | l < n
      ensures KeyAddr(c, l, c.rows, 0) <= |m| && LayerReads(c, Apply(m, ws), f, l, c.rows)
    {
      BlockInside(l, n, LayerSize(c));
      LayerKept(c, m, f, l, c.rows, ws, KeyAddr(c, n, 0, 0));
    }
  }

  lemma AddLayer(c: Config, m: Memory, f: Flash, n: nat)
    requires 0 < n && KeyAddr(c, n, 0, 0) <= |m|
    requires KeymapReads(c, m, f, n - 1) && LayerReads(c, m, f, n - 1, c.rows)
    ensures KeymapReads(c, m, f, n)
  {
  }

  /** Every key reads as f says. */
  ghost predicate Reads(c: Config, m: Memory, f: Flash)
    requires Stored(c, m)
  {
    forall l: nat, r: nat, k: nat :: IsKey(c, l, r, k) ==> KeycodeAt(c, m, l, r, k) == f(l, r, k)
  }

  lemma KeysRead(c: Config, m: Memory, f: Flash)
    requires Stored(c, m)
    ensures KeymapReads(c, m, f, c.layers) <==> Reads(c, m, f)
  {
    if KeymapReads(c, m, f, c.layers) {
      forall l: nat, r: nat, k: nat | IsKey(c, l, r, k)
        ensures KeycodeAt(c, m, l, r, k) == f(l, r, k)
      {
        RowInside(c, l, r);
        BlockInside(r, c.rows, RowSize(c));
        BlockInside(l, c.layers, LayerSize(c));
        assert LayerReads(c, m, f, l, c.rows);
        assert RowReads(c, m, f, l, r, c.cols);
      }
    }
    if Reads(c, m, f) {
      forall l: nat, r: nat | l < c.layers && r < c.rows
        ensures KeyAddr(c, l, r, c.cols) <= |m| && RowReads(c, m, f, l, r, c.cols)
      {
        RowInside(c, l, r);
        forall k: nat | k < c.cols
          ensures Word(m, KeyAddr(c, l, r, k)) == f(l, r, k)
        {
          assert KeycodeAt(c, m, l, r, k) == f(l, r, k);
        }
      }
    }
  }

  /** After a reset every key reads its flash value, and nothing outside the keymap has changed. */
  lemma ResetReads(c: Config, m: Memory, f: Flash)
    requires Stored(c, m)
    ensures Within(KeymapWrites(c, f, c.layers), KeymapAddr(c), MacroAddr(c))
    ensures Reads(c, Apply(m, KeymapWrites(c, f, c.layers)), f)
    ensures forall i :: 0 <= i < |m| && (i < KeymapAddr(c) || MacroAddr(c) <= i) ==>
      Apply(m, KeymapWrites(c, f, c.layers))[i] == m[i]
  {
    KeymapWithin(c, f, c.layers);
    KeymapStored(c, m, f, c.layers);
    KeysRead(c, Apply(m, KeymapWrites(c, f, c.layers)), f);
    forall i | 0 <= i < |m| && (i < KeymapAddr(c) || MacroAddr(c) <= i) {
      ApplyOutside(m, KeymapWrites(c, f, c.layers), KeymapAddr(c), MacroAddr(c), i);
    }
  }
}
