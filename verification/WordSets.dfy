/** Machine words as sets of bit numbers: the eight modifier bits, and the 32 layers of layer_state_t. */
module WordSets {
  import opened MatrixBits

  // ---------- modifier bytes ----------

  function ModSet(w: bv8): set<nat> {
    set i: nat | i < 8 && Bit(w, i)
  }

  lemma NoMods()
    ensures ModSet(0) == {}
  {
    forall i: nat | i < 8
      ensures !Bit(0, i)
    {
      ZeroBit(i);
    }
  }

  lemma OrUnder(w: bv8, x: bv8, r: bv8, m: bv8)
    requires r == w | x
    ensures r & m != 0 <==> w & m != 0 || x & m != 0
  {
  }

  lemma AndNotUnder(w: bv8, x: bv8, r: bv8, m: bv8)
    requires IsMask(m) && r == w & !x
    ensures r & m != 0 <==> w & m != 0 && x & m == 0
  {
  }

  lemma OrBit(w: bv8, x: bv8, r: bv8, i: nat)
    requires r == w | x && i < 8
    ensures Bit(r, i) <==> Bit(w, i) || Bit(x, i)
  {
    BitsFromMasks(w, x, r, i, i);
    OrUnder(w, x, r, Mask(i));
  }

  lemma AndNotBit(w: bv8, x: bv8, r: bv8, i: nat)
    requires r == w & !x && i < 8
    ensures Bit(r, i) <==> Bit(w, i) && !Bit(x, i)
  {
    BitsFromMasks(w, x, r, i, i);
    AndNotUnder(w, x, r, Mask(i));
  }

  method AddBits(w: bv8, x: bv8) returns (r: bv8)
    ensures ModSet(r) == ModSet(w) + ModSet(x)
  {
    r := w | x;
    forall i: nat | i < 8
      ensures Bit(r, i) <==> Bit(w, i) || Bit(x, i)
    {
      OrBit(w, x, r, i);
    }
  }

  method DropBits(w: bv8, x: bv8) returns (r: bv8)
    ensures ModSet(r) == ModSet(w) - ModSet(x)
  {
    r := w & !x;
    forall i: nat | i < 8
      ensures Bit(r, i) <==> Bit(w, i) && !Bit(x, i)
    {
      AndNotBit(w, x, r, i);
    }
  }

  /** One bit alone */
  lemma MaskSet(c: nat)
    requires c < 8
    ensures ModSet(Mask(c)) == {c}
  {
    forall i: nat | i < 8
      ensures Bit(Mask(c), i) <==> i == c
    {
      BitIsMasked(Mask(c), i);
      MaskValues(c, i);
      MasksMeet(Mask(c), Mask(i));
    }
  }

  lemma MasksMeet(m: bv8, k: bv8)
    requires IsMask(m) && IsMask(k)
    ensures m & k != 0 <==> m == k
  {
  }

  // ---------- layer words ----------

  /** The word with one layer on */
  function LayerMask(l: nat): bv32 {
    if l == 0 then 1 else LayerMask(l - 1) << 1
  }

  /** layer_state & ((layer_state_t)1 << layer) */
  predicate HasLayer(w: bv32, l: nat) {
    w & LayerMask(l) != 0
  }

  function LayersOf(w: bv32): set<nat> {
    set l: nat | l < 32 && HasLayer(w, l)
  }

  lemma ShiftNext(l: nat)
    requires l < 31
    ensures (1 as bv32) << (l + 1) == ((1 as bv32) << l) << 1
  {
  }

  lemma {:induction false} MaskIsShift(l: nat)
    requires l < 32
    ensures LayerMask(l) == (1 as bv32) << l
  {
    if l > 0 {
      MaskIsShift(l - 1);
      ShiftNext(l - 1);
    }
  }

  /** (layer_state_t)1 << layer */
  method ShiftedOne(l: nat) returns (m: bv32)
    requires l < 32
    ensures m == LayerMask(l)
  {
    MaskIsShift(l);
    m := 1 << l;
  }

  /** The top bit is clear below layer 31. */
  lemma {:induction false} MaskBelow(l: nat)
    requires l < 32
    ensures LayerMask(l) != 0 && (l < 31 ==> LayerMask(l) & 0x8000_0000 == 0)
  {
    MaskIsShift(l);
    OneBelow(l);
  }

  lemma OneBelow(l: nat)
    requires l < 32
    ensures (1 as bv32) << l != 0 && (l < 31 ==> ((1 as bv32) << l) & 0x8000_0000 == 0)
  {
  }

  lemma DoubledApart(m: bv32, k: bv32)
    requires m & k == 0 && m & 0x8000_0000 == 0 && k & 0x8000_0000 == 0
    ensures (m << 1) & (k << 1) == 0
  {
  }

  lemma OddApart(k: bv32)
    ensures 1 & (k << 1) == 0 && (k << 1) & 1 == 0
  {
  }

  lemma {:induction false} MasksApart(l: nat, n: nat)
    requires l < 32 && n < 32 && l != n
    ensures LayerMask(l) & LayerMask(n) == 0
  {
    if l == 0 {
      OddApart(LayerMask(n - 1));
    } else if n == 0 {
      OddApart(LayerMask(l - 1));
    } else {
      MasksApart(l - 1, n - 1);
      MaskBelow(l - 1);
      MaskBelow(n - 1);
      DoubledApart(LayerMask(l - 1), LayerMask(n - 1));
    }
  }

  lemma OtherMask(w: bv32, m: bv32, k: bv32)
    requires m & k == 0
    ensures (w | m) & k == w & k && (w & !m) & k == w & k
  {
  }

  /** What adding, and taking away, a layer says under a mask */
  predicate Adds(w: bv32, r: bv32, own: bool, k: bv32) {
    r & k != 0 <==> own || w & k != 0
  }

  predicate Drops(w: bv32, r: bv32, own: bool, k: bv32) {
    r & k != 0 <==> !own && w & k != 0
  }

  lemma AddsOwn(w: bv32, r: bv32, k: bv32)
    requires r == w | k && k != 0
    ensures Adds(w, r, true, k)
  {
  }

  lemma AddsOther(w: bv32, r: bv32, m: bv32, k: bv32)
    requires r == w | m && m & k == 0
    ensures Adds(w, r, false, k)
  {
    OtherMask(w, m, k);
  }

  lemma DropsOwn(w: bv32, r: bv32, k: bv32)
    requires r == w & !k
    ensures Drops(w, r, true, k)
  {
  }

  lemma DropsOther(w: bv32, r: bv32, m: bv32, k: bv32)
    requires r == w & !m && m & k == 0
    ensures Drops(w, r, false, k)
  {
  }

  /** Single bits, no two the same */
  predicate Apart(masks: seq<bv32>) {
    && (forall i :: 0 <= i < |masks| ==> masks[i] != 0)
    && (forall i, j :: 0 <= i < |masks| && 0 <= j < |masks| && i != j ==> masks[i] & masks[j] == 0)
  }

  function LayerMasks(): (masks: seq<bv32>)
    ensures |masks| == 32 && forall l :: 0 <= l < 32 ==> masks[l] == LayerMask(l)
  {
    seq(32, l requires 0 <= l < 32 => LayerMask(l))
  }

  lemma LayersApart(masks: seq<bv32>)
    requires |masks| == 32 && forall l :: 0 <= l < 32 ==> masks[l] == LayerMask(l)
    ensures Apart(masks)
  {
    forall i | 0 <= i < 32
      ensures masks[i] != 0
    {
      MaskBelow(i);
    }
    forall i, j | 0 <= i < 32 && 0 <= j < 32 && i != j
      ensures masks[i] & masks[j] == 0
    {
      MasksApart(i, j);
    }
  }

  /** w | m, for one of the masks */
  method SetMask(w: bv32, m: bv32, ghost masks: seq<bv32>, ghost l: nat) returns (r: bv32)
    requires Apart(masks) && l < |masks| && masks[l] == m
    ensures forall n :: 0 <= n < |masks| ==> Adds(w, r, n == l, masks[n])
  {
    r := w | m;
    AddsOwn(w, r, m);
    forall n | 0 <= n < |masks| && n != l
      ensures Adds(w, r, n == l, masks[n])
    {
      AddsOther(w, r, m, masks[n]);
    }
  }

  /** w & ~m, for one of the masks */
  method ClearMask(w: bv32, m: bv32, ghost masks: seq<bv32>, ghost l: nat) returns (r: bv32)
    requires Apart(masks) && l < |masks| && masks[l] == m
    ensures forall n :: 0 <= n < |masks| ==> Drops(w, r, n == l, masks[n])
  {
    r := w & !m;
    DropsOwn(w, r, m);
    forall n | 0 <= n < |masks| && n != l
      ensures Drops(w, r, n == l, masks[n])
    {
      DropsOther(w, r, m, masks[n]);
    }
  }

  lemma AddedLayers(w: bv32, r: bv32, l: nat)
    requires l < 32 && forall n :: 0 <= n < 32 ==> Adds(w, r, n == l, LayerMask(n))
    ensures LayersOf(r) == LayersOf(w) + {l}
  {
    forall n: nat | n < 32
      ensures HasLayer(r, n) <==> n == l || HasLayer(w, n)
    {
      assert Adds(w, r, n == l, LayerMask(n));
    }
  }

  lemma DroppedLayers(w: bv32, r: bv32, l: nat)
    requires l < 32 && forall n :: 0 <= n < 32 ==> Drops(w, r, n == l, LayerMask(n))
    ensures LayersOf(r) == LayersOf(w) - {l}
  {
    forall n: nat | n < 32
      ensures HasLayer(r, n) <==> n != l && HasLayer(w, n)
    {
      assert Drops(w, r, n == l, LayerMask(n));
    }
  }

  /** layer_state | ((layer_state_t)1 << layer) */
  method AddLayer(w: bv32, l: nat) returns (r: bv32)
    requires l < 32
    ensures LayersOf(r) == LayersOf(w) + {l}
  {
    ghost var masks := LayerMasks();
    LayersApart(masks);
    var m := ShiftedOne(l);
    r := SetMask(w, m, masks, l);
    AddedLayers(w, r, l);
  }

  /** layer_state & ~((layer_state_t)1 << layer) */
  method DropLayer(w: bv32, l: nat) returns (r: bv32)
    requires l < 32
    ensures LayersOf(r) == LayersOf(w) - {l}
  {
    ghost var masks := LayerMasks();
    LayersApart(masks);
    var m := ShiftedOne(l);
    r := ClearMask(w, m, masks, l);
    DroppedLayers(w, r, l);
  }

  predicate Tests(w: bv32, on: bool, k: bv32) {
    on <==> w & k != 0
  }

  method TestMask(w: bv32, m: bv32) returns (on: bool)
    ensures Tests(w, on, m)
  {
    on := w & m != 0;
  }

  lemma TestedLayer(w: bv32, on: bool, l: nat)
    requires l < 32 && Tests(w, on, LayerMask(l))
    ensures on <==> l in LayersOf(w)
  {
  }

  /** layers & ((layer_state_t)1 << layer) */
  method TestLayer(w: bv32, l: nat) returns (on: bool)
    requires l < 32
    ensures on <==> l in LayersOf(w)
  {
    var m := ShiftedOne(l);
    on := TestMask(w, m);
    TestedLayer(w, on, l);
  }

  predicate Joins(w: bv32, x: bv32, r: bv32, k: bv32) {
    r & k != 0 <==> w & k != 0 || x & k != 0
  }

  lemma JoinsUnder(w: bv32, x: bv32, r: bv32, k: bv32)
    requires r == w | x
    ensures Joins(w, x, r, k)
  {
  }

  method OrWords(w: bv32, x: bv32, ghost masks: seq<bv32>) returns (r: bv32)
    ensures forall n :: 0 <= n < |masks| ==> Joins(w, x, r, masks[n])
  {
    r := w | x;
    forall n | 0 <= n < |masks|
      ensures Joins(w, x, r, masks[n])
    {
      JoinsUnder(w, x, r, masks[n]);
    }
  }

  lemma JoinedLayers(w: bv32, x: bv32, r: bv32)
    requires forall n :: 0 <= n < 32 ==> Joins(w, x, r, LayerMask(n))
    ensures LayersOf(r) == LayersOf(w) + LayersOf(x)
  {
    forall n: nat | n < 32
      ensures HasLayer(r, n) <==> HasLayer(w, n) || HasLayer(x, n)
    {
      assert Joins(w, x, r, LayerMask(n));
    }
  }

  /** layer_state | default_layer_state */
  method JoinLayers(w: bv32, x: bv32) returns (r: bv32)
    ensures LayersOf(r) == LayersOf(w) + LayersOf(x)
  {
    ghost var masks := LayerMasks();
    r := OrWords(w, x, masks);
    JoinedLayers(w, x, r);
  }

  lemma NoLayers()
    ensures LayersOf(0) == {}
  {
  }

}
