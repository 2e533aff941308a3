/** Initialisation of the VIA storage (quantum/via.c) and what interruptions can leave behind: the
    magic number is cleared first and written last. */
module ViaInit {
  import opened Binary
  import opened EepromWrites
  import opened KeymapStore

  datatype Magic = Magic(b0: Byte, b1: Byte, b2: Byte)

  /** What clearing the magic leaves in it */
  const ERASED := Magic(0xFF, 0xFF, 0xFF)

  // ---------- the magic number ----------

  function Nibbles(high: char, low: char): Byte {
    (high as int % 16) * 16 + low as int % 16
  }

  /** The magic of a build date such as 2019-11-05-11:29:54 */
  function MagicOf(date: string): Magic
    requires |date| >= 10
  {
    Magic(Nibbles(date[2], date[3]), Nibbles(date[5], date[6]), Nibbles(date[8], date[9]))
  }

  /** The year's last two digits, the month and the day, as binary-coded decimals */
  lemma MagicOfBuildDate()
    ensures MagicOf("2019-11-05-23:47:58") == Magic(0x19, 0x11, 0x05)
    ensures MagicOf("2038-02-16-00:00:00") == Magic(0x38, 0x02, 0x16)
  {
  }

  /** Two decimal digits in BCD are never 0xFF. */
  lemma DateMagic(date: string)
    requires |date| >= 10 && '0' <= date[2] <= '9'
    ensures MagicOf(date).b0 != 0xFF && MagicOf(date) != ERASED
  {
  }

  function MagicIn(c: Config, m: Memory): Magic
    requires Stored(c, m)
  {
    Magic(m[c.magicAddr], m[c.magicAddr + 1], m[c.magicAddr + 2])
  }

  /** via_eeprom_is_valid */
  predicate Valid(c: Config, magic: Magic, m: Memory)
    requires Stored(c, m)
  {
    MagicIn(c, m) == magic
  }

  /** via_eeprom_set_valid */
  function MagicWrites(c: Config, magic: Magic): seq<Write> {
    [Write(c.magicAddr, magic.b0), Write(c.magicAddr + 1, magic.b1), Write(c.magicAddr + 2, magic.b2)]
  }

  // ---------- layout options ----------

  function Power(n: nat): (p: nat)
    ensures p > 0
  {
    if n == 0 then 1 else Power(n - 1) * 256
  }

  /** via_set_layout_options, from the last byte towards the first */
  function OptionsWrites(addr: nat, size: nat, value: nat): (ws: seq<Write>)
    ensures Within(ws, addr, addr + size)
  {
    if size == 0 then [] else [Write(addr + size - 1, value % 256)] + OptionsWrites(addr, size - 1, value / 256)
  }

  /** via_get_layout_options, the most significant byte first */
  function Options(m: Memory, addr: nat, size: nat): (value: nat)
    requires addr + size <= |m|
  {
    if size == 0 then 0
    else
      var last: int := m[addr + size - 1];
      Options(m, addr, size - 1) * 256 + last
  }

  lemma {:induction false} OptionsKept(m: Memory, n: Memory, addr: nat, size: nat)
    requires addr + size <= |m| == |n| && forall a :: addr <= a < addr + size ==> m[a] == n[a]
    ensures Options(m, addr, size) == Options(n, addr, size)
  {
    if size > 0 { OptionsKept(m, n, addr, size - 1); }
  }

  lemma ModPower(value: nat, p: nat)
    requires p > 0
    ensures ((value / 256) % p) * 256 + value % 256 == value % (p * 256)
  {
    var q, r := value / 256, value % 256;
    var d, e := q / p, q % p;
    assert q == d * p + e;
    assert value == q * 256 + r;
    assert value == d * (p * 256) + (e * 256 + r) by {
      assert q * 256 == (d * p) * 256 + e * 256;
      assert (d * p) * 256 == d * (p * 256);
    }
    assert e * 256 + r < p * 256;
    Remainder(value, d, p * 256, e * 256 + r);
  }

  lemma {:induction false} MultiplesApart(d: nat, e: nat, p: nat)
    requires d > e
    ensures d * p >= e * p + p
  {
    assert d * p == (d - 1) * p + p;
    if d - 1 > e { MultiplesApart(d - 1, e, p); }
  }

  lemma Remainder(value: nat, d: nat, p: nat, r: nat)
    requires p > 0 && r < p && value == d * p + r
    ensures value % p == r
  {
    var e := value / p;
    assert value == e * p + value % p;
    if d > e {
      MultiplesApart(d, e, p);
      assert false;
    }
    if e > d {
      MultiplesApart(e, d, p);
      assert false;
    }
  }

  /** Reading back the layout options: what fits their bytes. */
  lemma {:induction false} OptionsRoundTrip(m: Memory, addr: nat, size: nat, value: nat)
    requires addr + size <= |m|
    ensures Options(Apply(m, OptionsWrites(addr, size, value)), addr, size) == value % Power(size)
    decreases size
  {
    if size > 0 {
      var first, rest := [Write(addr + size - 1, value % 256)], OptionsWrites(addr, size - 1, value / 256);
      ApplyAppend(m, first, rest);
      var m1 := Apply(m, first);
      var m2 := Apply(m1, rest);
      OptionsRoundTrip(m1, addr, size - 1, value / 256);
      ApplyOutside(m1, rest, addr, addr + size - 1, addr + size - 1);
      assert first[..0] == [];
      ModPower(value, Power(size - 1));
    }
  }
}
