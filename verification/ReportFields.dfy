/** Bit fields of HID reports: parse_value of keyboards/keyboard_quantizer/report_parser.c. Numbers are
    little endian two's complement, as section 5.8 of the USB HID 1.11 class definition lays them out. */
module ReportFields {
  import opened Binary
  import opened MatrixBits

  /** The items of a report member that matter for a value */
  datatype Member = Member(reportSize: nat, reportCount: nat, usageMinimum: int, usageMaximum: int, logicalMinimum: int)

  function Pow(n: nat): (p: nat)
    ensures p > 0
  {
    if n == 0 then 1 else 2 * Pow(n - 1)
  }

  lemma {:induction false} PowGrows(m: nat, n: nat)
    requires m <= n
    ensures Pow(m) <= Pow(n)
  {
    if m < n { PowGrows(m, n - 1); }
  }

  /** Conversion to int16_t */
  function Int16(x: int): int {
    (x + 32768) % 65536 - 32768
  }

  function TotalBits(m: Member): nat {
    KeyCount(m.reportCount, m.reportSize)
  }

  // ---------- reading ----------

  /** Bit i of a report, the least significant bit of the first byte first */
  predicate BitAt(data: seq<Row>, i: nat)
    requires i / 8 < |data|
  {
    Bit(data[i / 8], i % 8)
  }

  function Bits(data: seq<Row>, start: nat, n: nat): (bits: seq<bool>)
    requires start + n <= 8 * |data|
    ensures |bits| == n
  {
    if n == 0 then [] else Bits(data, start, n - 1) + [BitAt(data, start + n - 1)]
  }

  /** The number with these binary digits, least significant first */
  function Value(bits: seq<bool>): (v: nat) {
    if bits == [] then 0 else (if bits[0] then 1 else 0) + 2 * Value(bits[1..])
  }

  lemma {:induction false} ValueBelow(bits: seq<bool>)
    ensures Value(bits) < Pow(|bits|)
  {
    if bits != [] { ValueBelow(bits[1..]); }
  }

  /** One more digit at the top */
  lemma {:induction false} ValueAppend(bits: seq<bool>, b: bool)
    ensures Value(bits + [b]) == Value(bits) + if b then Pow(|bits|) else 0
  {
    if bits == [] {
      assert [b][1..] == [];
    } else {
      assert (bits + [b])[1..] == bits[1..] + [b];
      ValueAppend(bits[1..], b);
    }
  }

  /** v & ((1 << k) - 1) */
  function LowBits(v: nat, k: nat): nat {
    if k == 0 then 0 else v % 2 + 2 * LowBits(v / 2, k - 1)
  }

  lemma {:induction false} ValueDigit(bits: seq<bool>, k: nat)
    requires k < |bits|
    ensures Digit(Value(bits), k) == bits[k]
  {
    Half(bits[0], Value(bits[1..]), Value(bits));
    if k > 0 { ValueDigit(bits[1..], k - 1); }
  }

  lemma Half(b: bool, w: nat, v: nat)
    requires v == (if b then 1 else 0) + 2 * w
    ensures v / 2 == w && (v % 2 == 1 <==> b)
  {
  }

  lemma {:induction false} ValueLowBits(bits: seq<bool>, k: nat)
    requires k <= |bits|
    ensures LowBits(Value(bits), k) == Value(bits[..k])
  {
    if k > 0 {
      Half(bits[0], Value(bits[1..]), Value(bits));
      ValueLowBits(bits[1..], k - 1);
      assert bits[..k][1..] == bits[1..][..k - 1];
    }
  }

  /** The value of a member. Its first reportSize bits carry the sign; with one bit per item there is
      none, and items of more than 16 bits keep the low 16. */
  function Parsed(m: Member, bits: seq<bool>): int
    requires |bits| == TotalBits(m) && 0 < m.reportSize
    requires m.reportCount > 0 ==> m.reportSize <= TotalBits(m)
  {
    if m.reportSize == 1 then Int16(Value(bits))
    else
      var value :=
        if m.reportCount > 0 && m.reportSize <= 16 && bits[m.reportSize - 1]
        then Value(bits[..m.reportSize]) - Pow(m.reportSize)
        else Int16(Value(bits));
      if m.usageMaximum != 0 then Int16(value + m.usageMinimum - m.logicalMinimum) else value
  }

  lemma FirstItem(m: Member)
    ensures m.reportCount > 0 ==> m.reportSize <= TotalBits(m)
  {
  }

  lemma BitsMore(data: seq<Row>, start: nat, n: nat)
    requires start + n < 8 * |data|
    ensures Value(Bits(data, start, n + 1))
            == Value(Bits(data, start, n)) + if BitAt(data, start + n) then Pow(n) else 0
  {
    ValueAppend(Bits(data, start, n), BitAt(data, start + n));
  }

  lemma NextBit(data: seq<Row>, start: nat, n: nat, b: nat, local: nat, on: bool, bits: nat)
    requires start + n < 8 * |data| && start + n == 8 * b + local && local < 8 && on == Bit(data[b], local)
    requires bits == Value(Bits(data, start, n))
    ensures bits + (if on then Pow(n) else 0) == Value(Bits(data, start, n + 1))
  {
    ByteOf(b, local);
    BitsMore(data, start, n);
  }

  /** The inner loop of parse_value: the bits of one item, with a byte index and a bit index */
  method ReadItem(size: nat, data: seq<Row>, start: nat, done: nat, bits0: nat, b0: nat, local0: nat)
    returns (bits: nat, b: nat, local: nat)
    requires start + done + size <= 8 * |data| && start + done == 8 * b0 + local0 && local0 < 8
    requires bits0 == Value(Bits(data, start, done))
    ensures start + done + size == 8 * b + local && local < 8
    ensures bits == Value(Bits(data, start, done + size))
  {
    bits, b, local := bits0, b0, local0;
    for dst := 0 to size
      invariant start + done + dst == 8 * b + local && local < 8
      invariant bits == Value(Bits(data, start, done + dst))
    {
      var on := TestColumn(data[b], local);
      NextBit(data, start, done + dst, b, local, on, bits);
      bits := bits + if on then Pow(done + dst) else 0;
      local := local + 1;
      if local == 8 {
        local := 0;
        b := b + 1;
      }
    }
  }

  /** The outer loop of parse_value: all items of the member */
  method ReadBits(m: Member, data: seq<Row>, bitIdx: nat) returns (bits: nat, next: nat)
    requires bitIdx + TotalBits(m) <= 8 * |data|
    ensures next == bitIdx + TotalBits(m) && bits == Value(Bits(data, bitIdx, TotalBits(m)))
  {
    bits, next := 0, bitIdx;
    var b: nat, local: nat := bitIdx / 8, bitIdx % 8;
    assert bitIdx == 8 * b + local;
    ghost var done: nat := 0;
    for idx := 0 to m.reportCount
      invariant done == KeyCount(idx, m.reportSize) <= TotalBits(m)
      invariant next == bitIdx + done == 8 * b + local && local < 8
      invariant bits == Value(Bits(data, bitIdx, done))
    {
      KeyCountGrows(idx, m.reportCount, m.reportSize);
      bits, b, local := ReadItem(m.reportSize, data, bitIdx, next - bitIdx, bits, b, local);
      next := next + m.reportSize;
      done := done + m.reportSize;
    }
  }

  lemma ByteOf(b: nat, local: nat)
    requires local < 8
    ensures (8 * b + local) / 8 == b && (8 * b + local) % 8 == local
  {
  }

  /** parse_value, for members whose bits an int can be shifted by. For an item of more than 16 bits the sign
      mask lies above the 16 bits of the result. */
  method ParseValue(m: Member, data: seq<Row>, bitIdx: nat) returns (result: int, next: nat)
    requires 0 < m.reportSize <= 31 && TotalBits(m) <= 32 && bitIdx + TotalBits(m) <= 8 * |data|
    ensures next == bitIdx + TotalBits(m)
    ensures m.reportCount > 0 ==> m.reportSize <= TotalBits(m)
    ensures result == Parsed(m, Bits(data, bitIdx, TotalBits(m)))
  {
    var bits;
    bits, next := ReadBits(m, data, bitIdx);
    result := Int16(bits);
    if m.reportSize != 1 {
      if m.reportSize <= 16 && Digit(bits, m.reportSize - 1) {
        result := LowBits(bits, m.reportSize) - Pow(m.reportSize);
      }
      if m.usageMaximum != 0 {
        result := Int16(result + m.usageMinimum - m.logicalMinimum);
      }
    }
    FirstItem(m);
    if m.reportCount > 0 {
      ValueDigit(Bits(data, bitIdx, TotalBits(m)), m.reportSize - 1);
      ValueLowBits(Bits(data, bitIdx, TotalBits(m)), m.reportSize);
    } else {
      ShiftZero(m.reportSize - 1);
    }
  }

  lemma {:induction false} BitsIndex(data: seq<Row>, start: nat, n: nat, j: nat)
    requires start + n <= 8 * |data| && j < n
    ensures Bits(data, start, n)[j] == BitAt(data, start + j)
  {
    if j < n - 1 { BitsIndex(data, start, n - 1, j); }
  }

  /** The eight bits of a byte stand together, the lowest first. */
  lemma BitsOfByte(data: seq<Row>, k: nat, j: nat)
    requires k < |data| && j < 8
    ensures Bits(data, 8 * k, 8)[j] == Bit(data[k], j)
  {
    BitsIndex(data, 8 * k, 8, j);
    ByteOf(k, j);
  }

  /** Items wider than the 16 bits of the result keep their low 16 bits. */
  lemma WideItem(m: Member, bits: seq<bool>)
    requires |bits| == TotalBits(m) && 16 < m.reportSize && m.usageMaximum == 0
    requires m.reportCount > 0 ==> m.reportSize <= TotalBits(m)
    ensures -32768 <= Parsed(m, bits) < 32768 && (Parsed(m, bits) - Value(bits)) % 65536 == 0
  {
  }

  // ---------- packing ----------

  /** A field of a report: a signed number of some width, or a group of buttons */
  datatype Field = Axis(width: nat, value: int) | Buttons(down: seq<bool>)

  predicate Packable(f: Field) {
    match f
    case Axis(width, value) => 2 <= width <= 16 && 0 <= value + Pow(width - 1) < Pow(width)
    case Buttons(down) => 0 < |down| <= 16
  }

  /** The binary digits of a number, least significant first */
  function Digits(v: nat, n: nat): (bits: seq<bool>)
    ensures |bits| == n
  {
    if n == 0 then [] else [v % 2 == 1] + Digits(v / 2, n - 1)
  }

  /** Two's complement */
  function Unsigned(f: Field): nat
    requires Packable(f) && f.Axis?
  {
    if f.value < 0 then f.value + Pow(f.width) else f.value
  }

  function FieldWidth(f: Field): nat {
    if f.Axis? then f.width else |f.down|
  }

  function FieldBits(f: Field): (bits: seq<bool>)
    requires Packable(f)
    ensures |bits| == FieldWidth(f)
  {
    if f.Axis? then Digits(Unsigned(f), f.width) else f.down
  }

  /** What parse_value is to return for a field: buttons come as the number whose digits they are. */
  function FieldValue(f: Field): int {
    if f.Axis? then f.value else Int16(Value(f.down))
  }

  function Pack(fields: seq<Field>): seq<bool>
    requires AllPackable(fields)
  {
    if fields == [] then [] else FieldBits(fields[0]) + Pack(fields[1..])
  }

  /** The member the descriptor has for a field: one item without a usage range for a number, one bit for
      each button, with any range of usages */
  function FieldMember(f: Field, usageMinimum: int, usageMaximum: int, logicalMinimum: int): Member
    requires f.Axis? ==> usageMaximum == 0
  {
    match f
    case Axis(width, _) => Member(width, 1, usageMinimum, usageMaximum, logicalMinimum)
    case Buttons(down) => Member(1, |down|, usageMinimum, usageMaximum, logicalMinimum)
  }

  lemma {:induction false} ValueOfDigits(v: nat, n: nat)
    requires v < Pow(n)
    ensures Value(Digits(v, n)) == v
  {
    if n > 0 {
      ValueOfDigits(v / 2, n - 1);
      assert Digits(v, n)[1..] == Digits(v / 2, n - 1);
    }
  }

  /** The sign bit is the top bit. */
  lemma {:induction false} TopDigit(bits: seq<bool>)
    requires bits != []
    ensures bits[|bits| - 1] <==> Value(bits) >= Pow(|bits| - 1)
  {
    ValueBelow(bits[..|bits| - 1]);
    assert bits == bits[..|bits| - 1] + [bits[|bits| - 1]];
    ValueAppend(bits[..|bits| - 1], bits[|bits| - 1]);
  }

  lemma PowSmall(n: nat)
    requires n <= 16
    ensures Pow(n) <= 65536
  {
    assert Pow(4) == 16;
    assert Pow(8) == 256;
    assert Pow(12) == 4096;
    PowGrows(n, 16);
  }

  lemma TwosComplement(f: Field)
    requires Packable(f) && f.Axis?
    ensures Unsigned(f) < Pow(f.width) <= 65536
    ensures Unsigned(f) >= Pow(f.width - 1) <==> f.value < 0
    ensures f.value >= 0 ==> Int16(Unsigned(f)) == f.value
  {
    PowSmall(f.width);
    assert Pow(f.width) == 2 * Pow(f.width - 1);
  }

  /** Reading the bits of a field gives back its value. */
  lemma FieldParsed(f: Field, usageMinimum: int, usageMaximum: int, logicalMinimum: int)
    requires Packable(f) && (f.Axis? ==> usageMaximum == 0)
    ensures var m := FieldMember(f, usageMinimum, usageMaximum, logicalMinimum);
      && TotalBits(m) == FieldWidth(f) && 0 < m.reportSize <= TotalBits(m)
      && Parsed(m, FieldBits(f)) == FieldValue(f)
  {
    var bits := FieldBits(f);
    if f.Axis? {
      OneItem(f.width);
      TwosComplement(f);
      ValueOfDigits(Unsigned(f), f.width);
      TopDigit(bits);
      assert bits[..f.width] == bits;
    } else {
      OneBitItems(|f.down|);
    }
  }

  /** With a range of usages a number selects one of them: it is counted from the logical minimum on. */
  lemma SelectorParsed(f: Field, usageMinimum: int, usageMaximum: int, logicalMinimum: int)
    requires Packable(f) && f.Axis? && usageMaximum != 0
    ensures var m := Member(f.width, 1, usageMinimum, usageMaximum, logicalMinimum);
      && TotalBits(m) == f.width && Parsed(m, FieldBits(f)) == Int16(usageMinimum + (f.value - logicalMinimum))
  {
    FieldParsed(f, usageMinimum, 0, logicalMinimum);
    OneItem(f.width);
  }

  /** Each button is a bit of the value, as the 16 bits the firmware holds it in. */
  lemma ButtonsRead(f: Field, k: nat)
    requires Packable(f) && f.Buttons? && k < |f.down|
    ensures Digit(FieldValue(f) % 65536, k) == f.down[k]
  {
    ValueBelow(f.down);
    PowSmall(|f.down|);
    Unsigned16(Value(f.down));
    ValueDigit(f.down, k);
  }

  lemma Unsigned16(v: nat)
    requires v < 65536
    ensures Int16(v) % 65536 == v
  {
  }

  lemma OneItem(width: nat)
    ensures KeyCount(1, width) == width
  {
    assert KeyCount(0, width) == 0;
  }

  lemma {:induction false} OneBitItems(n: nat)
    ensures KeyCount(n, 1) == n
  {
    if n > 0 { OneBitItems(n - 1); }
  }

  /** Members that the parser reads one after the other */
  predicate Parsable(ms: seq<Member>) {
    ms == [] || (0 < ms[0].reportSize && Parsable(ms[1..]))
  }

  function Width(ms: seq<Member>): nat {
    if ms == [] then 0 else TotalBits(ms[0]) + Width(ms[1..])
  }

  /** The values of a sequence of members, each starting where the one before ended, and the bit index
      behind the last */
  function ParseAll(ms: seq<Member>, data: seq<Row>, bitIdx: nat): (r: (seq<int>, nat))
    requires Parsable(ms) && bitIdx + Width(ms) <= 8 * |data|
    ensures |r.0| == |ms|
  {
    if ms == [] then ([], bitIdx)
    else
      FirstItem(ms[0]);
      var first := Parsed(ms[0], Bits(data, bitIdx, TotalBits(ms[0])));
      var rest := ParseAll(ms[1..], data, bitIdx + TotalBits(ms[0]));
      ([first] + rest.0, rest.1)
  }

  function Members(fields: seq<Field>): (ms: seq<Member>)
    requires AllPackable(fields)
    ensures Parsable(ms)
  {
    if fields == [] then [] else
      var rest := Members(fields[1..]);
      var ms := [FieldMember(fields[0], 0, 0, 0)] + rest;
      assert ms[1..] == rest;
      ms
  }

  function Values(fields: seq<Field>): seq<int> {
    if fields == [] then [] else [FieldValue(fields[0])] + Values(fields[1..])
  }

  lemma {:induction false} BitsSplit(data: seq<Row>, start: nat, n: nat, k: nat)
    requires k <= n && start + n <= 8 * |data|
    ensures Bits(data, start, n)[..k] == Bits(data, start, k)
    ensures Bits(data, start, n)[k..] == Bits(data, start + k, n - k)
  {
    if k < n { BitsSplit(data, start, n - 1, k); }
  }

  /** The same on the bits of a report, without offsets */
  function ParseBits(ms: seq<Member>, bits: seq<bool>): seq<int>
    requires Parsable(ms) && |bits| == Width(ms)
  {
    if ms == [] then []
    else
      FirstItem(ms[0]);
      [Parsed(ms[0], bits[..TotalBits(ms[0])])] + ParseBits(ms[1..], bits[TotalBits(ms[0])..])
  }

  predicate AllPackable(fields: seq<Field>) {
    fields == [] || (Packable(fields[0]) && AllPackable(fields[1..]))
  }

  /** These bits stand at an offset of the report. */
  predicate BitsAt(data: seq<Row>, start: nat, bits: seq<bool>) {
    start + |bits| <= 8 * |data| && Bits(data, start, |bits|) == bits
  }

  lemma BitsApart(data: seq<Row>, start: nat, bits: seq<bool>, n: nat)
    requires BitsAt(data, start, bits) && n <= |bits|
    ensures Bits(data, start, n) == bits[..n] && BitsAt(data, start + n, bits[n..])
  {
    BitsSplit(data, start, |bits|, n);
  }

  lemma ParseFirst(ms: seq<Member>, data: seq<Row>, start: nat, first: seq<bool>)
    requires ms != [] && Parsable(ms) && start + Width(ms) <= 8 * |data|
    requires first == Bits(data, start, TotalBits(ms[0]))
    ensures ms[0].reportCount > 0 ==> ms[0].reportSize <= TotalBits(ms[0])
    ensures var rest := ParseAll(ms[1..], data, start + TotalBits(ms[0]));
      ParseAll(ms, data, start) == ([Parsed(ms[0], first)] + rest.0, rest.1)
  {
    FirstItem(ms[0]);
  }

  lemma ParseBitsFirst(ms: seq<Member>, bits: seq<bool>)
    requires ms != [] && Parsable(ms) && |bits| == Width(ms)
    ensures ms[0].reportCount > 0 ==> ms[0].reportSize <= TotalBits(ms[0])
    ensures var n := TotalBits(ms[0]);
      ParseBits(ms, bits) == [Parsed(ms[0], bits[..n])] + ParseBits(ms[1..], bits[n..])
  {
    FirstItem(ms[0]);
  }

  /** Offset by offset, or bit by bit, the values are the same. */
  lemma {:induction false} ParseAllAs(ms: seq<Member>, data: seq<Row>, start: nat, bits: seq<bool>)
    requires Parsable(ms) && start + Width(ms) <= 8 * |data|
    requires |bits| == Width(ms) && BitsAt(data, start, bits)
    ensures ParseAll(ms, data, start).0 == ParseBits(ms, bits)
    ensures ParseAll(ms, data, start).1 == start + |bits|
  {
    if ms != [] {
      var n := TotalBits(ms[0]);
      BitsApart(data, start, bits, n);
      ParseAllAs(ms[1..], data, start + n, bits[n..]);
      ParseFirst(ms, data, start, bits[..n]);
      ParseBitsFirst(ms, bits);
    }
  }

  lemma {:induction false} ParseBitsOfPack(fields: seq<Field>)
    requires AllPackable(fields)
    ensures |Pack(fields)| == Width(Members(fields))
    ensures ParseBits(Members(fields), Pack(fields)) == Values(fields)
  {
    if fields != [] {
      var f, bits := FieldBits(fields[0]), Pack(fields);
      FieldParsed(fields[0], 0, 0, 0);
      ParseBitsOfPack(fields[1..]);
      assert Members(fields)[1..] == Members(fields[1..]);
      assert bits[..|f|] == f && bits[|f|..] == Pack(fields[1..]);
    }
  }

  lemma ParseAllGives(ms: seq<Member>, data: seq<Row>, start: nat, bits: seq<bool>, values: seq<int>)
    requires Parsable(ms) && |bits| == Width(ms) && BitsAt(data, start, bits) && ParseBits(ms, bits) == values
    ensures ParseAll(ms, data, start).0 == values && ParseAll(ms, data, start).1 == start + |bits|
  {
    ParseAllAs(ms, data, start, bits);
  }

  /** Fields packed at consecutive bit offsets are read back one after the other, and the bit index
      moves by exactly their widths. */
  lemma ParseInvertsPack(fields: seq<Field>, data: seq<Row>, start: nat)
    requires AllPackable(fields) && BitsAt(data, start, Pack(fields))
    ensures Width(Members(fields)) == |Pack(fields)|
    ensures ParseAll(Members(fields), data, start).0 == Values(fields)
    ensures ParseAll(Members(fields), data, start).1 == start + |Pack(fields)|
  {
    ParseBitsOfPack(fields);
    ParseAllGives(Members(fields), data, start, Pack(fields), Values(fields));
  }
}
