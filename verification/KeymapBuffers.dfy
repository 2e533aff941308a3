/** The bulk view of the stored keymap and macros (quantum/dynamic_keymap.c): reading and writing a
    buffer at an offset, clipped to the region, and the byte order that makes both views one. */
module KeymapBuffers {
  import opened Binary
  import opened EepromWrites
  import opened KeymapStore

  /** dynamic_keymap_get_buffer and dynamic_keymap_macro_get_buffer: zeros past the region */
  function GetBuffer(m: Memory, base: nat, region: nat, offset: nat, size: nat): (data: seq<Byte>)
    requires base + region <= |m|
    ensures |data| == size
  {
    if size == 0 then []
    else
      GetBuffer(m, base, region, offset, size - 1) +
      [if offset + size - 1 < region then m[base + offset + size - 1] else 0]
  }

  /** dynamic_keymap_set_buffer and dynamic_keymap_macro_set_buffer, for the first n bytes: nothing is
      written past the region. */
  function PartWrites(base: nat, region: nat, offset: nat, data: seq<Byte>, n: nat): (ws: seq<Write>)
    requires n <= |data|
    ensures Within(ws, base, base + region)
  {
    if n == 0 then []
    else
      var ws := PartWrites(base, region, offset, data, n - 1);
      if offset + n - 1 < region then ws + [Write(base + offset + n - 1, data[n - 1])] else ws
  }

  function SetWrites(base: nat, region: nat, offset: nat, data: seq<Byte>): (ws: seq<Write>)
    ensures Within(ws, base, base + region)
  {
    PartWrites(base, region, offset, data, |data|)
  }

  lemma {:induction false} GetBufferAt(m: Memory, base: nat, region: nat, offset: nat, size: nat, i: nat)
    requires base + region <= |m| && i < size
    ensures GetBuffer(m, base, region, offset, size)[i]
            == if offset + i < region then m[base + offset + i] else 0
  {
    if i < size - 1 { GetBufferAt(m, base, region, offset, size - 1, i); }
  }

  lemma {:induction false} PartAt(m: Memory, base: nat, region: nat, offset: nat, data: seq<Byte>, n: nat, a: nat)
    requires base + region <= |m| && a < |m| && n <= |data|
    ensures Apply(m, PartWrites(base, region, offset, data, n))[a]
            == if base + offset <= a < base + offset + n && a < base + region then data[a - base - offset] else m[a]
  {
    if n > 0 {
      PartAt(m, base, region, offset, data, n - 1, a);
      var ws := PartWrites(base, region, offset, data, n - 1);
      if offset + n - 1 < region {
        assert (ws + [Write(base + offset + n - 1, data[n - 1])])[..|ws|] == ws;
      }
    }
  }

  /** A bulk write changes exactly the bytes of the region it covers. */
  lemma SetBufferAt(m: Memory, base: nat, region: nat, offset: nat, data: seq<Byte>, a: nat)
    requires base + region <= |m| && a < |m|
    ensures Apply(m, SetWrites(base, region, offset, data))[a]
            == if base + offset <= a < base + offset + |data| && a < base + region then data[a - base - offset]
               else m[a]
  {
    PartAt(m, base, region, offset, data, |data|, a);
  }

  /** Reading back a bulk write: what fits the region, and zeros. */
  lemma SetThenGet(m: Memory, n: Memory, base: nat, region: nat, offset: nat, data: seq<Byte>, i: nat)
    requires base + region <= |m| && i < |data| && n == Apply(m, SetWrites(base, region, offset, data))
    ensures GetBuffer(n, base, region, offset, |data|)[i] == if offset + i < region then data[i] else 0
  {
    if offset + i < region {
      SetBufferAt(m, base, region, offset, data, base + offset + i);
    }
    GetAfter(n, base, region, offset, data, i);
  }

  lemma GetAfter(n: Memory, base: nat, region: nat, offset: nat, data: seq<Byte>, i: nat)
    requires base + region <= |n| && i < |data|
    requires offset + i < region ==> n[base + offset + i] == data[i]
    ensures GetBuffer(n, base, region, offset, |data|)[i] == if offset + i < region then data[i] else 0
  {
    GetBufferAt(n, base, region, offset, |data|, i);
  }

  /** Writing back what was read changes nothing. */
  lemma GetThenSet(m: Memory, base: nat, region: nat, offset: nat, size: nat)
    requires base + region <= |m|
    ensures Apply(m, SetWrites(base, region, offset, GetBuffer(m, base, region, offset, size))) == m
  {
    var data := GetBuffer(m, base, region, offset, size);
    forall a | 0 <= a < |m|
      ensures Apply(m, SetWrites(base, region, offset, data))[a] == m[a]
    {
      SetBufferAt(m, base, region, offset, data, a);
      if base + offset <= a < base + offset + size && a < base + region {
        GetBufferAt(m, base, region, offset, size, a - base - offset);
      }
    }
  }

  // ---------- the byte order ----------

  /** Big-endian words, by column, row and layer */
  function RowBytes(f: Flash, layer: nat, row: nat, n: nat): (s: seq<Byte>)
    ensures |s| == 2 * n
  {
    if n == 0 then []
    else RowBytes(f, layer, row, n - 1) + [f(layer, row, n - 1) / 256, f(layer, row, n - 1) % 256]
  }

  function LayerBytes(f: Flash, layer: nat, n: nat, cols: nat): (s: seq<Byte>)
    ensures |s| == Blocks(n, cols * 2)
  {
    if n == 0 then [] else LayerBytes(f, layer, n - 1, cols) + RowBytes(f, layer, n - 1, cols)
  }

  function KeymapBytes(f: Flash, n: nat, rows: nat, cols: nat): (s: seq<Byte>)
    ensures |s| == Blocks(n, Blocks(rows, cols * 2))
  {
    if n == 0 then [] else KeymapBytes(f, n - 1, rows, cols) + LayerBytes(f, n - 1, rows, cols)
  }

  /** These bytes stand at an address. */
  predicate BytesAt(m: Memory, a: nat, s: seq<Byte>) {
    a + |s| <= |m| && m[a..a + |s|] == s
  }

  lemma BytesSplit(m: Memory, a: nat, s: seq<Byte>, t: seq<Byte>)
    ensures BytesAt(m, a, s + t) <==> BytesAt(m, a, s) && BytesAt(m, a + |s|, t)
  {
    if a + |s| + |t| <= |m| {
      var u := m[a..a + |s| + |t|];
      assert u[..|s|] == m[a..a + |s|] && u[|s|..] == m[a + |s|..a + |s| + |t|];
      assert u == u[..|s|] + u[|s|..];
    }
  }

  lemma WordBytes(m: Memory, a: nat, k: Keycode)
    requires a + 1 < |m|
    ensures BytesAt(m, a, [k / 256, k % 256]) <==> Word(m, a) == k
  {
    assert m[a..a + 2] == [m[a], m[a + 1]];
  }

  lemma RowReadsSplit(c: Config, m: Memory, f: Flash, layer: nat, row: nat, n: nat)
    requires 0 < n && KeyAddr(c, layer, row, n) <= |m|
    ensures RowReads(c, m, f, layer, row, n)
            <==> RowReads(c, m, f, layer, row, n - 1) && Word(m, KeyAddr(c, layer, row, n - 1)) == f(layer, row, n - 1)
  {
  }

  lemma {:induction false} RowAsBytes(c: Config, m: Memory, f: Flash, layer: nat, row: nat, n: nat)
    requires KeyAddr(c, layer, row, n) <= |m|
    ensures BytesAt(m, KeyAddr(c, layer, row, 0), RowBytes(f, layer, row, n)) <==> RowReads(c, m, f, layer, row, n)
  {
    if n > 0 {
      var last := f(layer, row, n - 1);
      RowAsBytes(c, m, f, layer, row, n - 1);
      RowReadsSplit(c, m, f, layer, row, n);
      WordBytes(m, KeyAddr(c, layer, row, n - 1), last);
      BytesSplit(m, KeyAddr(c, layer, row, 0), RowBytes(f, layer, row, n - 1), [last / 256, last % 256]);
    }
  }

  lemma LayerReadsSplit(c: Config, m: Memory, f: Flash, layer: nat, n: nat)
    requires 0 < n && KeyAddr(c, layer, n, 0) <= |m|
    ensures LayerReads(c, m, f, layer, n)
        <==> LayerReads(c, m, f, layer, n - 1) && RowReads(c, m, f, layer, n - 1, c.cols)
  {
    if LayerReads(c, m, f, layer, n) {
      forall r: nat | r < n - 1
        ensures KeyAddr(c, layer, r, c.cols) <= |m| && RowReads(c, m, f, layer, r, c.cols)
      {
        BlockInside(r, n, RowSize(c));
      }
    }
  }

  lemma RowsEnd(c: Config, f: Flash, layer: nat, n: nat)
    requires 0 < n
    ensures KeyAddr(c, layer, n - 1, c.cols) == KeyAddr(c, layer, n, 0)
    ensures KeyAddr(c, layer, 0, 0) + |LayerBytes(f, layer, n - 1, c.cols)| == KeyAddr(c, layer, n - 1, 0)
  {
  }

  lemma LayerBytesSplit(c: Config, m: Memory, f: Flash, layer: nat, n: nat)
    requires 0 < n && KeyAddr(c, layer, n, 0) <= |m|
    ensures BytesAt(m, KeyAddr(c, layer, 0, 0), LayerBytes(f, layer, n, c.cols))
        <==> BytesAt(m, KeyAddr(c, layer, 0, 0), LayerBytes(f, layer, n - 1, c.cols))
             && BytesAt(m, KeyAddr(c, layer, n - 1, 0), RowBytes(f, layer, n - 1, c.cols))
  {
    RowsEnd(c, f, layer, n);
    BytesSplit(m, KeyAddr(c, layer, 0, 0), LayerBytes(f, layer, n - 1, c.cols), RowBytes(f, layer, n - 1, c.cols));
  }

  lemma {:induction false} LayerAsBytes(c: Config, m: Memory, f: Flash, layer: nat, n: nat)
    requires KeyAddr(c, layer, n, 0) <= |m|
    ensures BytesAt(m, KeyAddr(c, layer, 0, 0), LayerBytes(f, layer, n, c.cols)) <==> LayerReads(c, m, f, layer, n)
  {
    if n > 0 {
      RowsEnd(c, f, layer, n);
      LayerAsBytes(c, m, f, layer, n - 1);
      RowAsBytes(c, m, f, layer, n - 1, c.cols);
      LayerReadsSplit(c, m, f, layer, n);
      LayerBytesSplit(c, m, f, layer, n);
    }
  }

  lemma KeymapReadsSplit(c: Config, m: Memory, f: Flash, n: nat)
    requires 0 < n && KeyAddr(c, n, 0, 0) <= |m|
    ensures KeymapReads(c, m, f, n) <==> KeymapReads(c, m, f, n - 1) && LayerReads(c, m, f, n - 1, c.rows)
  {
    if KeymapReads(c, m, f, n) {
      forall l: nat | l < n - 1
        ensures KeyAddr(c, l, c.rows, 0) <= |m| && LayerReads(c, m, f, l, c.rows)
      {
        BlockInside(l, n, LayerSize(c));
      }
    }
  }

  /** A layer ends where the next begins. */
  lemma LayerEnd(c: Config, f: Flash, n: nat)
    requires 0 < n
    ensures KeyAddr(c, n - 1, c.rows, 0) == KeyAddr(c, n, 0, 0)
    ensures KeymapAddr(c) + |KeymapBytes(f, n - 1, c.rows, c.cols)| == KeyAddr(c, n - 1, 0, 0)
  {
  }

  lemma {:induction false} KeymapAsBytes(c: Config, m: Memory, f: Flash, n: nat)
    requires KeyAddr(c, n, 0, 0) <= |m|
    ensures BytesAt(m, KeymapAddr(c), KeymapBytes(f, n, c.rows, c.cols)) <==> KeymapReads(c, m, f, n)
  {
    if n > 0 {
      LayerEnd(c, f, n);
      KeymapAsBytes(c, m, f, n - 1);
      LayerAsBytes(c, m, f, n - 1, c.rows);
      KeymapReadsSplit(c, m, f, n);
      var prev, last := KeymapBytes(f, n - 1, c.rows, c.cols), LayerBytes(f, n - 1, c.rows, c.cols);
      BytesSplit(m, KeymapAddr(c), prev, last);
    }
  }

  lemma WholeBuffer(m: Memory, base: nat, region: nat)
    requires base + region <= |m|
    ensures GetBuffer(m, base, region, 0, region) == m[base..base + region]
  {
    forall i | 0 <= i < region
      ensures GetBuffer(m, base, region, 0, region)[i] == m[base..base + region][i]
    {
      GetBufferAt(m, base, region, 0, region, i);
    }
  }

  /** The whole buffer is the big-endian serialisation of a keymap exactly when every key reads as
      the keymap says. */
  lemma BulkIsKeyed(c: Config, m: Memory, f: Flash)
    requires Stored(c, m)
    ensures GetBuffer(m, KeymapAddr(c), KeymapSize(c), 0, KeymapSize(c)) == KeymapBytes(f, c.layers, c.rows, c.cols)
            <==> Reads(c, m, f)
  {
    WholeBuffer(m, KeymapAddr(c), KeymapSize(c));
    KeymapAsBytes(c, m, f, c.layers);
    KeysRead(c, m, f);
  }

  /** Uploading a serialised keymap sets every key, and keeps every byte outside the keymap. */
  lemma UploadSetsKeys(c: Config, m: Memory, f: Flash)
    requires Stored(c, m)
    ensures var ws := SetWrites(KeymapAddr(c), KeymapSize(c), 0, KeymapBytes(f, c.layers, c.rows, c.cols));
      && Reads(c, Apply(m, ws), f)
      && (forall a :: 0 <= a < |m| && (a < KeymapAddr(c) || MacroAddr(c) <= a) ==> Apply(m, ws)[a] == m[a])
  {
    var base, size, bytes := KeymapAddr(c), KeymapSize(c), KeymapBytes(f, c.layers, c.rows, c.cols);
    var n := Apply(m, SetWrites(base, size, 0, bytes));
    forall a | 0 <= a < |m| && (a < base || base + size <= a)
      ensures n[a] == m[a]
    {
      SetBufferAt(m, base, size, 0, bytes, a);
    }
    forall i | 0 <= i < size
      ensures GetBuffer(n, base, size, 0, size)[i] == bytes[i]
    {
      SetThenGet(m, n, base, size, 0, bytes, i);
    }
    BulkIsKeyed(c, n, f);
  }
}
