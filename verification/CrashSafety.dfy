/** Interrupted initialisations (quantum/via.c): after any number of them, a valid magic number means
    that the layout options, the keymap and the macros are as they were or entirely the defaults. */
module CrashSafety {
  import opened EepromWrites
  import opened KeymapStore
  import opened ViaInit

  /** What the storage is reset to */
  datatype Defaults = Defaults(options: nat, flash: Flash)

  /** dynamic_keymap_macro_reset, for the first n bytes */
  function ZeroWrites(addr: nat, n: nat): (ws: seq<Write>)
    ensures Within(ws, addr, addr + n) && |ws| == n
  {
    if n == 0 then [] else ZeroWrites(addr, n - 1) + [Write(addr + n - 1, 0)]
  }

  function KeymapAndMacroWrites(c: Config, d: Defaults): seq<Write>
    requires Fits(c)
  {
    KeymapWrites(c, d.flash, c.layers) + ZeroWrites(MacroAddr(c), MacroSize(c))
  }

  function RegionWrites(c: Config, d: Defaults): seq<Write>
    requires Fits(c)
  {
    OptionsWrites(OptionsAddr(c), c.optionsSize, d.options) + KeymapAndMacroWrites(c, d)
  }

  /** eeconfig_init_via */
  function InitWrites(c: Config, magic: Magic, d: Defaults): seq<Write>
    requires Fits(c)
  {
    MagicWrites(c, ERASED) + RegionWrites(c, d) + MagicWrites(c, magic)
  }

  predicate InRegion(c: Config, a: nat) {
    OptionsAddr(c) <= a < OptionsAddr(c) + c.optionsSize || KeymapAddr(c) <= a <= c.maxAddr
  }

  ghost predicate Untouched(c: Config, m: Memory, m0: Memory)
    requires Stored(c, m) && Stored(c, m0)
  {
    forall a: nat :: InRegion(c, a) ==> m[a] == m0[a]
  }

  ghost predicate MacrosEmpty(c: Config, m: Memory)
    requires Stored(c, m)
  {
    forall a :: MacroAddr(c) <= a <= c.maxAddr ==> m[a] == 0
  }

  ghost predicate Default(c: Config, m: Memory, d: Defaults)
    requires Stored(c, m)
  {
    && Options(m, OptionsAddr(c), c.optionsSize) == d.options % Power(c.optionsSize)
    && Reads(c, m, d.flash)
    && MacrosEmpty(c, m)
  }

  lemma RegionWithin(c: Config, d: Defaults)
    requires Fits(c)
    ensures Within(RegionWrites(c, d), OptionsAddr(c), c.maxAddr + 1)
  {
    KeymapWithin(c, d.flash, c.layers);
  }

  lemma InitWithin(c: Config, magic: Magic, d: Defaults)
    requires Fits(c)
    ensures Within(InitWrites(c, magic, d), 0, c.maxAddr + 1)
  {
    RegionWithin(c, d);
  }

  /** The storage after the first k writes of eeconfig_init_via */
  function Interrupted(c: Config, magic: Magic, d: Defaults, m: Memory, k: nat): (r: Memory)
    requires Stored(c, m) && k <= |InitWrites(c, magic, d)|
    ensures Stored(c, r)
  {
    InitWithin(c, magic, d);
    Apply(m, InitWrites(c, magic, d)[..k])
  }

  /** A boot: via_init initialises again unless the magic is valid, and may itself be interrupted. */
  function Boot(c: Config, magic: Magic, d: Defaults, m: Memory, k: nat): (r: Memory)
    requires Stored(c, m)
    ensures Stored(c, r)
  {
    if Valid(c, magic, m) then m
    else
      var n := |InitWrites(c, magic, d)|;
      Interrupted(c, magic, d, m, if k <= n then k else n)
  }

  function Boots(c: Config, magic: Magic, d: Defaults, m: Memory, cuts: seq<nat>): (r: Memory)
    requires Stored(c, m)
    ensures Stored(c, r)
  {
    if cuts == [] then m
    else Boot(c, magic, d, Boots(c, magic, d, m, cuts[..|cuts| - 1]), cuts[|cuts| - 1])
  }

  // ---------- the three phases of the initialisation ----------

  lemma {:induction false} ZeroStored(m: Memory, addr: nat, n: nat, a: nat)
    requires addr + n <= |m| && addr <= a < addr + n
    ensures Apply(m, ZeroWrites(addr, n))[a] == 0
  {
    var ws := ZeroWrites(addr, n - 1);
    assert ZeroWrites(addr, n)[..n - 1] == ws;
    if a < addr + n - 1 { ZeroStored(m, addr, n - 1, a); }
  }

  lemma DefaultKept(c: Config, m: Memory, n: Memory, d: Defaults)
    requires Stored(c, m) && Stored(c, n) && Untouched(c, n, m) && Default(c, m, d)
    ensures Default(c, n, d)
  {
    OptionsKept(m, n, OptionsAddr(c), c.optionsSize);
    forall l: nat, r: nat, k: nat | IsKey(c, l, r, k)
      ensures KeycodeAt(c, n, l, r, k) == d.flash(l, r, k)
    {
      AddressesDiffer(c, l, r, k, l, r, k);
      assert KeycodeAt(c, m, l, r, k) == d.flash(l, r, k);
      var a := KeyAddr(c, l, r, k);
      assert InRegion(c, a) && InRegion(c, a + 1);
    }
    forall a | MacroAddr(c) <= a <= c.maxAddr
      ensures n[a] == 0
    {
      assert InRegion(c, a) && m[a] == 0;
    }
  }

  /** Writes to the magic leave the regions alone. */
  lemma MagicUntouched(c: Config, m: Memory, ws: seq<Write>)
    requires Stored(c, m) && Within(ws, c.magicAddr, c.magicAddr + 3)
    ensures Untouched(c, Apply(m, ws), m)
  {
    forall a: nat | InRegion(c, a) {
      ApplyOutside(m, ws, c.magicAddr, c.magicAddr + 3, a);
    }
  }

  lemma MagicWritten(c: Config, m: Memory, magic: Magic)
    requires Stored(c, m)
    ensures Within(MagicWrites(c, magic), c.magicAddr, c.magicAddr + 3)
    ensures MagicIn(c, Apply(m, MagicWrites(c, magic))) == magic
  {
    var w0, w1, w2 := Write(c.magicAddr, magic.b0), Write(c.magicAddr + 1, magic.b1), Write(c.magicAddr + 2, magic.b2);
    ApplyAppend(m, [w0], [w1]);
    ApplyAppend(m, [w0] + [w1], [w2]);
    ApplyOne(m, w0);
    ApplyOne(Apply(m, [w0]), w1);
    ApplyOne(Apply(m, [w0] + [w1]), w2);
    assert MagicWrites(c, magic) == [w0] + [w1] + [w2];
  }

  lemma {:induction false} MagicKept(c: Config, m: Memory, ws: seq<Write>)
    requires Stored(c, m) && Within(ws, OptionsAddr(c), c.maxAddr + 1)
    ensures MagicIn(c, Apply(m, ws)) == MagicIn(c, m)
  {
    ApplyOutside(m, ws, OptionsAddr(c), c.maxAddr + 1, c.magicAddr);
    ApplyOutside(m, ws, OptionsAddr(c), c.maxAddr + 1, c.magicAddr + 1);
    ApplyOutside(m, ws, OptionsAddr(c), c.maxAddr + 1, c.magicAddr + 2);
  }

  lemma OptionsThenRest(c: Config, m: Memory, m1: Memory, d: Defaults, rest: seq<Write>)
    requires Stored(c, m) && m1 == Apply(m, OptionsWrites(OptionsAddr(c), c.optionsSize, d.options))
    requires Within(rest, KeymapAddr(c), c.maxAddr + 1)
    ensures Options(Apply(m1, rest), OptionsAddr(c), c.optionsSize) == d.options % Power(c.optionsSize)
  {
    OptionsRoundTrip(m, OptionsAddr(c), c.optionsSize, d.options);
    forall a: nat | a < KeymapAddr(c) {
      ApplyOutside(m1, rest, KeymapAddr(c), c.maxAddr + 1, a);
    }
    OptionsKept(m1, Apply(m1, rest), OptionsAddr(c), c.optionsSize);
  }

  lemma ZerosAfter(c: Config, m2: Memory, f: Flash)
    requires Stored(c, m2) && Reads(c, m2, f)
    ensures var m3 := Apply(m2, ZeroWrites(MacroAddr(c), MacroSize(c))); Reads(c, m3, f) && MacrosEmpty(c, m3)
  {
    var zw := ZeroWrites(MacroAddr(c), MacroSize(c));
    var m3 := Apply(m2, zw);
    forall a | MacroAddr(c) <= a <= c.maxAddr
      ensures m3[a] == 0
    {
      ZeroStored(m2, MacroAddr(c), MacroSize(c), a);
    }
    forall l: nat, r: nat, k: nat | IsKey(c, l, r, k)
      ensures KeycodeAt(c, m3, l, r, k) == f(l, r, k)
    {
      AddressesDiffer(c, l, r, k, l, r, k);
      assert KeycodeAt(c, m2, l, r, k) == f(l, r, k);
      ApplyOutside(m2, zw, MacroAddr(c), c.maxAddr + 1, KeyAddr(c, l, r, k));
      ApplyOutside(m2, zw, MacroAddr(c), c.maxAddr + 1, KeyAddr(c, l, r, k) + 1);
    }
  }

  lemma KeymapThenZeros(c: Config, m1: Memory, d: Defaults)
    requires Stored(c, m1)
    ensures Within(KeymapAndMacroWrites(c, d), KeymapAddr(c), c.maxAddr + 1)
    ensures var m3 := Apply(m1, KeymapAndMacroWrites(c, d)); Reads(c, m3, d.flash) && MacrosEmpty(c, m3)
  {
    ResetReads(c, m1, d.flash);
    ApplyAppend(m1, KeymapWrites(c, d.flash, c.layers), ZeroWrites(MacroAddr(c), MacroSize(c)));
    ZerosAfter(c, Apply(m1, KeymapWrites(c, d.flash, c.layers)), d.flash);
  }

  /** The region writes put all three regions to their defaults. */
  lemma RegionsDefault(c: Config, m: Memory, d: Defaults)
    requires Stored(c, m) && Within(RegionWrites(c, d), 0, |m|)
    ensures Default(c, Apply(m, RegionWrites(c, d)), d)
  {
    var ow := OptionsWrites(OptionsAddr(c), c.optionsSize, d.options);
    var m1 := Apply(m, ow);
    KeymapThenZeros(c, m1, d);
    ApplyAppend(m, ow, KeymapAndMacroWrites(c, d));
    OptionsThenRest(c, m, m1, d, KeymapAndMacroWrites(c, d));
  }

  lemma PhaseOne(c: Config, magic: Magic, d: Defaults, m: Memory, k: nat)
    requires Stored(c, m) && k <= 3
    ensures k <= |InitWrites(c, magic, d)|
    ensures var r := Interrupted(c, magic, d, m, k);
      Untouched(c, r, m) && (MagicIn(c, m) == ERASED ==> MagicIn(c, r) == ERASED)
  {
    var ew := MagicWrites(c, ERASED);
    assert InitWrites(c, magic, d)[..k] == ew[..k];
    MagicUntouched(c, m, ew[..k]);
    if MagicIn(c, m) == ERASED { EraseAgain(c, m, k); }
  }

  lemma PhaseTwo(c: Config, magic: Magic, d: Defaults, m: Memory, k: nat)
    requires Stored(c, m) && 3 <= k <= 3 + |RegionWrites(c, d)|
    ensures MagicIn(c, Interrupted(c, magic, d, m, k)) == ERASED
  {
    var ew, part := MagicWrites(c, ERASED), RegionWrites(c, d)[..k - 3];
    RegionWithin(c, d);
    assert InitWrites(c, magic, d)[..k] == ew + part;
    MagicWritten(c, m, ERASED);
    ApplyAppend(m, ew, part);
    MagicKept(c, Apply(m, ew), part);
  }

  lemma PhaseThree(c: Config, magic: Magic, d: Defaults, m: Memory, k: nat)
    requires Stored(c, m) && 3 + |RegionWrites(c, d)| <= k <= |InitWrites(c, magic, d)|
    ensures var r := Interrupted(c, magic, d, m, k);
      Default(c, r, d) && (k == |InitWrites(c, magic, d)| ==> Valid(c, magic, r))
  {
    var ew, rw := MagicWrites(c, ERASED), RegionWrites(c, d);
    var last := MagicWrites(c, magic)[..k - 3 - |rw|];
    RegionWithin(c, d);
    TakeThrough(ew + rw, MagicWrites(c, magic), k);
    ApplyAppend(m, ew, rw);
    ApplyAppend(m, ew + rw, last);
    var m2 := Apply(m, ew + rw);
    RegionsDefault(c, Apply(m, ew), d);
    MagicUntouched(c, m2, last);
    DefaultKept(c, m2, Apply(m2, last), d);
    if k == |InitWrites(c, magic, d)| {
      assert last == MagicWrites(c, magic);
      MagicWritten(c, m2, magic);
    }
  }

  /** Before the regions are written they are untouched; while they are written the magic is erased;
      after that they hold the defaults. */
  lemma Phases(c: Config, magic: Magic, d: Defaults, m: Memory, k: nat)
    requires Stored(c, m) && k <= |InitWrites(c, magic, d)|
    ensures var r := Interrupted(c, magic, d, m, k); var body := |RegionWrites(c, d)|;
      && (k <= 3 ==> Untouched(c, r, m) && (MagicIn(c, m) == ERASED ==> MagicIn(c, r) == ERASED))
      && (3 <= k <= 3 + body ==> MagicIn(c, r) == ERASED)
      && (3 + body <= k ==> Default(c, r, d))
      && (k == |InitWrites(c, magic, d)| ==> Valid(c, magic, r))
  {
    if k <= 3 { PhaseOne(c, magic, d, m, k); }
    if 3 <= k <= 3 + |RegionWrites(c, d)| { PhaseTwo(c, magic, d, m, k); }
    if 3 + |RegionWrites(c, d)| <= k { PhaseThree(c, magic, d, m, k); }
  }

  lemma {:induction false} EraseAgain(c: Config, m: Memory, k: nat)
    requires Stored(c, m) && k <= 3 && MagicIn(c, m) == ERASED
    ensures Within(MagicWrites(c, ERASED)[..k], 0, |m|)
    ensures Apply(m, MagicWrites(c, ERASED)[..k]) == m
  {
    var ws := MagicWrites(c, ERASED)[..k];
    if k > 0 {
      EraseAgain(c, m, k - 1);
      assert ws[..k - 1] == MagicWrites(c, ERASED)[..k - 1];
    }
  }

  // ---------- any number of interruptions ----------

  /** What every interruption preserves */
  ghost predicate Consistent(c: Config, d: Defaults, m0: Memory, m: Memory)
    requires Stored(c, m0) && Stored(c, m)
  {
    Untouched(c, m, m0) || Default(c, m, d) || MagicIn(c, m) == ERASED
  }

  lemma InterruptedConsistent(c: Config, magic: Magic, d: Defaults, m0: Memory, m: Memory, k: nat)
    requires Stored(c, m0) && Stored(c, m) && k <= |InitWrites(c, magic, d)| && Consistent(c, d, m0, m)
    ensures Consistent(c, d, m0, Interrupted(c, magic, d, m, k))
  {
    var r := Interrupted(c, magic, d, m, k);
    Phases(c, magic, d, m, k);
    if k <= 3 {
      if Untouched(c, m, m0) {
        assert Untouched(c, r, m0);
      } else if Default(c, m, d) {
        DefaultKept(c, m, r, d);
      }
    }
  }

  lemma {:induction false} BootsConsistent(c: Config, magic: Magic, d: Defaults, m0: Memory, m: Memory, cuts: seq<nat>)
    requires Stored(c, m0) && Stored(c, m) && Consistent(c, d, m0, m)
    ensures Consistent(c, d, m0, Boots(c, magic, d, m, cuts))
  {
    if cuts != [] {
      BootsConsistent(c, magic, d, m0, m, cuts[..|cuts| - 1]);
      var before := Boots(c, magic, d, m, cuts[..|cuts| - 1]);
      if !Valid(c, magic, before) {
        var k, n := cuts[|cuts| - 1], |InitWrites(c, magic, d)|;
        InterruptedConsistent(c, magic, d, m0, before, if k <= n then k else n);
      }
    }
  }

  /** An initialisation interrupted anywhere, then any number of boots interrupted anywhere: a valid
      magic means untouched regions or all defaults. */
  lemma ValidMeansConsistent(c: Config, magic: Magic, d: Defaults, m0: Memory, k: nat, cuts: seq<nat>)
    requires Stored(c, m0) && k <= |InitWrites(c, magic, d)| && magic != ERASED
    ensures var m := Boots(c, magic, d, Interrupted(c, magic, d, m0, k), cuts);
      Valid(c, magic, m) ==> Untouched(c, m, m0) || Default(c, m, d)
  {
    InterruptedConsistent(c, magic, d, m0, m0, k);
    BootsConsistent(c, magic, d, m0, Interrupted(c, magic, d, m0, k), cuts);
  }

  /** A boot that is not interrupted ends with a valid magic, and with the defaults if it had to
      initialise. */
  lemma BootCompletes(c: Config, magic: Magic, d: Defaults, m: Memory, k: nat)
    requires Stored(c, m) && k >= |InitWrites(c, magic, d)|
    ensures var r := Boot(c, magic, d, m, k);
      Valid(c, magic, r) && (r == m || Default(c, r, d))
  {
    Phases(c, magic, d, m, |InitWrites(c, magic, d)|);
  }

  // ---------- the condition on the magic number ----------

  ghost predicate Safe(c: Config, magic: Magic, d: Defaults)
    requires Fits(c)
  {
    forall m0: Memory, k: nat :: Stored(c, m0) && k <= |InitWrites(c, magic, d)| ==>
      SafeFrom(c, magic, d, m0, k)
  }

  ghost predicate SafeFrom(c: Config, magic: Magic, d: Defaults, m0: Memory, k: nat)
    requires Stored(c, m0) && k <= |InitWrites(c, magic, d)|
  {
    forall cuts: seq<nat> ::
      var m := Boots(c, magic, d, Interrupted(c, magic, d, m0, k), cuts);
      Valid(c, magic, m) ==> Untouched(c, m, m0) || Default(c, m, d)
  }

  /** Initialisation is crash-safe exactly when the magic differs from what clearing it leaves. */
  lemma SafeExactly(c: Config, magic: Magic, d: Defaults)
    requires Fits(c)
    ensures Safe(c, magic, d) <==> magic != ERASED
  {
    if magic == ERASED {
      ErasedMagicUnsafe(c, d);
    } else {
      forall m0: Memory, k: nat | Stored(c, m0) && k <= |InitWrites(c, magic, d)|
        ensures SafeFrom(c, magic, d, m0, k)
      {
        forall cuts: seq<nat> {
          ValidMeansConsistent(c, magic, d, m0, k, cuts);
        }
      }
    }
  }

  /** Cut after the first macro byte, a magic of all ones vouches for macros that are half cleared. */
  lemma ErasedMagicUnsafe(c: Config, d: Defaults)
    requires Fits(c)
    ensures !Safe(c, ERASED, d)
  {
    var m0: Memory := seq(c.maxAddr + 1, i => 1);
    var first := MagicWrites(c, ERASED) + OptionsWrites(OptionsAddr(c), c.optionsSize, d.options)
                 + KeymapWrites(c, d.flash, c.layers);
    var one := [Write(MacroAddr(c), 0)];
    var k := |first| + 1;
    FirstZero(c, d, first);
    var m := Interrupted(c, ERASED, d, m0, k);
    Phases(c, ERASED, d, m0, k);
    ApplyAppend(m0, first, one);
    ApplyOne(Apply(m0, first), Write(MacroAddr(c), 0));
    ApplyOutside(m0, first, 0, MacroAddr(c), MacroAddr(c) + 1);
    assert m[MacroAddr(c)] == 0 && m[MacroAddr(c) + 1] == 1;
    assert InRegion(c, MacroAddr(c)) && m0[MacroAddr(c)] == 1;
    assert Boots(c, ERASED, d, m, []) == m;
    assert !SafeFrom(c, ERASED, d, m0, k);
  }

  lemma FirstZero(c: Config, d: Defaults, first: seq<Write>)
    requires Fits(c)
    requires first == MagicWrites(c, ERASED) + OptionsWrites(OptionsAddr(c), c.optionsSize, d.options)
                      + KeymapWrites(c, d.flash, c.layers)
    ensures Within(first, 0, MacroAddr(c)) && |first| < |InitWrites(c, ERASED, d)|
    ensures InitWrites(c, ERASED, d)[..|first| + 1] == first + [Write(MacroAddr(c), 0)]
    ensures |first| + 1 <= 3 + |RegionWrites(c, d)|
  {
    KeymapWithin(c, d.flash, c.layers);
    var zw, mw := ZeroWrites(MacroAddr(c), MacroSize(c)), MagicWrites(c, ERASED);
    ZeroPrefix(MacroAddr(c), MacroSize(c), 1);
    assert zw[0] == zw[..1][0] == Write(MacroAddr(c), 0);
    Regroup(mw, OptionsWrites(OptionsAddr(c), c.optionsSize, d.options), KeymapWrites(c, d.flash, c.layers), zw, mw);
    TakeThrough(first, zw + mw, |first| + 1);
    assert (zw + mw)[..1] == [zw[0]];
  }

  lemma Regroup(a: seq<Write>, b: seq<Write>, x: seq<Write>, y: seq<Write>, z: seq<Write>)
    ensures a + (b + (x + y)) + z == (a + b + x) + (y + z)
  {
  }

  lemma TakeThrough(a: seq<Write>, b: seq<Write>, k: nat)
    requires |a| <= k <= |a| + |b|
    ensures (a + b)[..k] == a + b[..k - |a|]
  {
  }

  lemma {:induction false} ZeroPrefix(addr: nat, n: nat, k: nat)
    requires k <= n
    ensures ZeroWrites(addr, n)[..k] == ZeroWrites(addr, k)
  {
    if k < n { ZeroPrefix(addr, n - 1, k); }
  }
}
