/** What a mouse report becomes: mouse_report_parser of keyboards/keyboard_quantizer/report_parser.c. The words
    button and undefined are read as the sets of their bits. */
module MouseReports {
  import opened Binary
  import opened MatrixBits
  import opened ReportFields

  datatype Target = Button | X | Y | Wheel | Pan | SideButton | Undefined

  /** The cases of the switch; a usage is its page shifted left by 16 plus its number. */
  function TargetOf(usage: nat): Target {
    if 0x00090000 <= usage <= 0x00090001 then Button
    else if usage == 0x00010030 then X
    else if usage == 0x00010031 then Y
    else if usage == 0x00010038 then Wheel
    else if usage == 0x000C0238 then Pan
    else if usage == 0xFF000000 then SideButton
    else Undefined
  }

  datatype Mouse = Mouse(button: set<nat>, x: int, y: int, v: int, h: int, undefined: set<nat>)

  const NO_MOUSE := Mouse({}, 0, 0, 0, 0, {})

  /** The low 16 bits of value << shift */
  function Shifted(value: int, shift: nat): set<nat> {
    set b: nat | b < 16 && ShiftedBit(value, shift, b)
  }

  predicate ShiftedBit(value: int, shift: nat, b: nat) {
    shift <= b && Digit(value % 65536, b - shift)
  }

  function Store(r: Mouse, target: Target, value: int, bitIdx: nat): Mouse {
    match target
    case Button => r.(button := r.button + Shifted(value, bitIdx % 8))
    case X => r.(x := value)
    case Y => r.(y := value)
    case Wheel => r.(v := value)
    case Pan => r.(h := value)
    case SideButton => r.(button := r.button + Shifted(value, (bitIdx + 2) % 16))
    case Undefined => r.(undefined := r.undefined + Shifted(value, bitIdx % 16))
  }

  /** Where member i begins */
  function StartOf(ms: seq<Member>, i: nat): nat
    requires i <= |ms|
  {
    if i == 0 then 0 else StartOf(ms, i - 1) + TotalBits(ms[i - 1])
  }

  /** The first n members with their usages, stored one after the other */
  function Stored(usages: seq<nat>, ms: seq<Member>, values: seq<int>, n: nat): Mouse
    requires n <= |ms| == |values| == |usages|
  {
    if n == 0 then NO_MOUSE
    else Store(Stored(usages, ms, values, n - 1), TargetOf(usages[n - 1]), values[n - 1], StartOf(ms, n - 1))
  }

  predicate Readable(ms: seq<Member>, data: seq<Row>) {
    && Parsable(ms) && Width(ms) <= 8 * |data|
    && forall i :: 0 <= i < |ms| ==> ms[i].reportSize <= 31 && TotalBits(ms[i]) <= 32
  }

  /** The values from member i on are those that remain to be read. */
  predicate Ahead(ms: seq<Member>, data: seq<Row>, values: seq<int>, i: nat, bitIdx: nat)
    requires i <= |ms| == |values|
  {
    && Parsable(ms[i..]) && bitIdx + Width(ms[i..]) <= 8 * |data|
    && values[i..] == ParseAll(ms[i..], data, bitIdx).0
  }

  lemma AheadNext(ms: seq<Member>, data: seq<Row>, values: seq<int>, i: nat, bitIdx: nat)
    requires i < |ms| == |values| && Ahead(ms, data, values, i, bitIdx)
    ensures 0 < ms[i].reportSize && bitIdx + TotalBits(ms[i]) <= 8 * |data|
    ensures ms[i].reportCount > 0 ==> ms[i].reportSize <= TotalBits(ms[i])
    ensures values[i] == Parsed(ms[i], Bits(data, bitIdx, TotalBits(ms[i])))
    ensures Ahead(ms, data, values, i + 1, bitIdx + TotalBits(ms[i]))
  {
    assert ms[i..][0] == ms[i] && ms[i..][1..] == ms[i + 1..];
    ParseFirst(ms[i..], data, bitIdx, Bits(data, bitIdx, TotalBits(ms[i])));
    assert values[i] == values[i..][0];
    assert values[i + 1..] == values[i..][1..];
  }

  method NextValue(ms: seq<Member>, data: seq<Row>, ghost values: seq<int>, i: nat, bitIdx: nat)
    returns (value: int, next: nat)
    requires i < |ms| == |values| && Readable(ms, data) && Ahead(ms, data, values, i, bitIdx)
    ensures value == values[i] && next == bitIdx + TotalBits(ms[i])
    ensures Ahead(ms, data, values, i + 1, next)
  {
    AheadNext(ms, data, values, i, bitIdx);
    value, next := ParseValue(ms[i], data, bitIdx);
  }

  /** mouse_report_parser: one member after the other, each read where the one before ended */
  method MouseReportParser(usages: seq<nat>, ms: seq<Member>, data: seq<Row>) returns (r: Mouse)
    requires |usages| == |ms| && Readable(ms, data)
    ensures r == Stored(usages, ms, ParseAll(ms, data, 0).0, |ms|)
  {
    r := NO_MOUSE;
    ghost var values := ParseAll(ms, data, 0).0;
    var bitIdx, i := 0, 0;
    assert ms[0..] == ms && values[0..] == values;
    while i < |ms|
      invariant i <= |ms| && bitIdx == StartOf(ms, i) && r == Stored(usages, ms, values, i)
      invariant Ahead(ms, data, values, i, bitIdx)
    {
      var value, next := NextValue(ms, data, values, i, bitIdx);
      r := Store(r, TargetOf(usages[i]), value, bitIdx);
      bitIdx, i := next, i + 1;
    }
  }

  // ---------- what the result means ----------

  predicate IsAxis(t: Target) {
    t.X? || t.Y? || t.Wheel? || t.Pan?
  }

  function AxisOf(r: Mouse, t: Target): int
    requires IsAxis(t)
  {
    if t.X? then r.x else if t.Y? then r.y else if t.Wheel? then r.v else r.h
  }

  /** Before n, index i is the last with this target, or there is none and i is n. */
  predicate LastWith(usages: seq<nat>, n: nat, t: Target, i: nat)
    requires n <= |usages|
  {
    i <= n && (i < n ==> TargetOf(usages[i]) == t)
    && forall k :: 0 <= k < n && (i == n || i < k) ==> TargetOf(usages[k]) != t
  }

  lemma {:induction false} AxisIsLast(usages: seq<nat>, ms: seq<Member>, values: seq<int>, n: nat, t: Target, i: nat)
    requires n <= |ms| == |values| == |usages| && IsAxis(t) && LastWith(usages, n, t, i)
    ensures AxisOf(Stored(usages, ms, values, n), t) == if i < n then values[i] else 0
  {
    if n > 0 && i != n - 1 {
      AxisIsLast(usages, ms, values, n - 1, t, if i == n then n - 1 else i);
    }
  }

  /** Member i switches bit b of the button word on. */
  predicate Presses(usages: seq<nat>, ms: seq<Member>, values: seq<int>, i: nat, b: nat)
    requires i < |ms| == |values| == |usages|
  {
    || (TargetOf(usages[i]) == Button && b in Shifted(values[i], StartOf(ms, i) % 8))
    || (TargetOf(usages[i]) == SideButton && b in Shifted(values[i], (StartOf(ms, i) + 2) % 16))
  }

  lemma {:induction false} ButtonsAreAll(usages: seq<nat>, ms: seq<Member>, values: seq<int>, n: nat, b: nat)
    requires n <= |ms| == |values| == |usages|
    ensures b in Stored(usages, ms, values, n).button
        <==> exists i :: 0 <= i < n && Presses(usages, ms, values, i, b)
  {
    if n > 0 {
      ButtonsAreAll(usages, ms, values, n - 1, b);
      if b in Stored(usages, ms, values, n).button && b !in Stored(usages, ms, values, n - 1).button {
        assert Presses(usages, ms, values, n - 1, b);
      }
    }
  }

  lemma {:induction false} NoDigitAbove(bits: seq<bool>, k: nat)
    requires |bits| <= k
    ensures !Digit(Value(bits), k)
  {
    if bits == [] {
      ShiftZero(k);
    } else {
      NoDigitAbove(bits[1..], k - 1);
    }
  }

  /** A group of buttons, shifted */
  lemma ShiftedButtons(f: Field, shift: nat, b: nat)
    requires Packable(f) && f.Buttons?
    ensures b in Shifted(FieldValue(f), shift) <==> ShiftedDown(f.down, shift, b)
  {
    if shift <= b {
      if b - shift < |f.down| {
        ButtonsRead(f, b - shift);
      } else {
        ValueBelow(f.down);
        PowSmall(|f.down|);
        Unsigned16(Value(f.down));
        NoDigitAbove(f.down, b - shift);
      }
    }
  }

  lemma {:induction false} ValuesAt(fields: seq<Field>, i: nat)
    requires i < |fields|
    ensures |Values(fields)| == |fields| && Values(fields)[i] == FieldValue(fields[i])
  {
    if |fields| > 1 { ValuesAt(fields[1..], if i > 0 then i - 1 else 0); }
  }

  // ---------- reports of packed fields ----------

  lemma {:induction false} MembersAt(fields: seq<Field>, i: nat)
    requires AllPackable(fields) && i < |fields|
    ensures |Members(fields)| == |fields| && Members(fields)[i] == FieldMember(fields[i], 0, 0, 0)
    ensures Packable(fields[i]) && TotalBits(Members(fields)[i]) == FieldWidth(fields[i])
  {
    FieldParsed(fields[0], 0, 0, 0);
    if i > 0 { MembersAt(fields[1..], i - 1); } else if |fields| > 1 { MembersAt(fields[1..], 0); }
  }

  /** The bit at which a field begins */
  function Offset(fields: seq<Field>, i: nat): nat
    requires i <= |fields|
  {
    if i == 0 then 0 else Offset(fields, i - 1) + FieldWidth(fields[i - 1])
  }

  lemma {:induction false} StartIsOffset(fields: seq<Field>, i: nat)
    requires AllPackable(fields) && i <= |fields|
    ensures |Members(fields)| == |fields| && StartOf(Members(fields), i) == Offset(fields, i)
  {
    if i > 0 {
      MembersAt(fields, i - 1);
      StartIsOffset(fields, i - 1);
    } else if fields != [] {
      MembersAt(fields, 0);
    }
  }

  /** The mouse of a report into which these fields are packed */
  function MouseOf(usages: seq<nat>, fields: seq<Field>, data: seq<Row>): Mouse
    requires |usages| == |fields| && AllPackable(fields) && BitsAt(data, 0, Pack(fields))
  {
    StartIsOffset(fields, 0);
    ParseInvertsPack(fields, data, 0);
    Stored(usages, Members(fields), ParseAll(Members(fields), data, 0).0, |fields|)
  }

  /** An axis is the last field with its usage, and zero without one. */
  lemma AxisRead(usages: seq<nat>, fields: seq<Field>, data: seq<Row>, t: Target, i: nat)
    requires |usages| == |fields| && AllPackable(fields) && BitsAt(data, 0, Pack(fields))
    requires IsAxis(t) && LastWith(usages, |fields|, t, i)
    ensures AxisOf(MouseOf(usages, fields, data), t) == if i < |fields| then FieldValue(fields[i]) else 0
  {
    StartIsOffset(fields, 0);
    ParseInvertsPack(fields, data, 0);
    AxisIsLast(usages, Members(fields), ParseAll(Members(fields), data, 0).0, |fields|, t, i);
    if i < |fields| { ValuesAt(fields, i); }
  }

  predicate DownAt(down: seq<bool>, b: nat) {
    b < |down| && down[b]
  }

  predicate ShiftedDown(down: seq<bool>, shift: nat, b: nat) {
    shift <= b < 16 && DownAt(down, b - shift)
  }

  /** A button of the group that field i is, counting from the byte in which the group begins */
  predicate Down(usages: seq<nat>, fields: seq<Field>, i: nat, b: nat)
    requires i < |fields| == |usages| && fields[i].Buttons?
  {
    var shift := if TargetOf(usages[i]) == Button then Offset(fields, i) % 8 else (Offset(fields, i) + 2) % 16;
    ShiftedDown(fields[i].down, shift, b)
  }

  predicate IsButton(t: Target) {
    t.Button? || t.SideButton?
  }

  lemma PressesDown(usages: seq<nat>, fields: seq<Field>, data: seq<Row>, i: nat, b: nat)
    requires |usages| == |fields| && AllPackable(fields) && BitsAt(data, 0, Pack(fields)) && i < |fields|
    requires IsButton(TargetOf(usages[i])) ==> fields[i].Buttons?
    ensures |Members(fields)| == |Values(fields)| == |fields|
    ensures Presses(usages, Members(fields), Values(fields), i, b)
        <==> IsButton(TargetOf(usages[i])) && Down(usages, fields, i, b)
  {
    StartIsOffset(fields, i);
    ValuesAt(fields, i);
    MembersAt(fields, i);
    if IsButton(TargetOf(usages[i])) {
      var start := Offset(fields, i);
      ShiftedButtons(fields[i], if TargetOf(usages[i]) == Button then start % 8 else (start + 2) % 16, b);
    }
  }

  /** A bit of the button word is on if and only if a button of some group is down at it, counting from the byte
      in which the group begins. */
  lemma WordRead(usages: seq<nat>, fields: seq<Field>, data: seq<Row>, b: nat)
    requires |usages| == |fields| && AllPackable(fields) && BitsAt(data, 0, Pack(fields))
    requires forall i :: 0 <= i < |fields| && IsButton(TargetOf(usages[i])) ==> fields[i].Buttons?
    ensures b in MouseOf(usages, fields, data).button
        <==> exists i :: 0 <= i < |fields| && IsButton(TargetOf(usages[i])) && Down(usages, fields, i, b)
  {
    StartIsOffset(fields, 0);
    ParseInvertsPack(fields, data, 0);
    var values := ParseAll(Members(fields), data, 0).0;
    ButtonsAreAll(usages, Members(fields), values, |fields|, b);
    forall i | 0 <= i < |fields|
      ensures Presses(usages, Members(fields), values, i, b)
          <==> IsButton(TargetOf(usages[i])) && Down(usages, fields, i, b)
    {
      PressesDown(usages, fields, data, i, b);
    }
  }

  lemma {:induction false} FirstDown(down: seq<bool>, k: nat) returns (m: nat)
    requires DownAt(down, k)
    ensures DownAt(down, m) && forall b: nat :: DownAt(down, b) ==> m <= b
    decreases |down|
  {
    if down[0] {
      m := 0;
    } else {
      var n := FirstDown(down[1..], k - 1);
      m := n + 1;
      forall b: nat | DownAt(down, b)
        ensures m <= b
      {
        assert DownAt(down[1..], b - 1);
      }
    }
  }

  lemma ShiftMatters(down: seq<bool>, shift: nat)
    requires |down| <= 16
    ensures (forall b: nat :: ShiftedDown(down, shift, b) <==> DownAt(down, b))
        <==> shift == 0 || forall b: nat :: !DownAt(down, b)
  {
    if k: nat :| DownAt(down, k) {
      var m := FirstDown(down, k);
      if shift > 0 {
        assert !ShiftedDown(down, shift, m);
      } else {
        assert forall b: nat :: ShiftedDown(down, shift, b) <==> DownAt(down, b);
      }
    }
  }

  /** Field i is the only group of buttons. */
  predicate OnlyGroup(usages: seq<nat>, fields: seq<Field>, i: nat) {
    && i < |fields| == |usages| && TargetOf(usages[i]) == Button && fields[i].Buttons?
    && forall j :: 0 <= j < |fields| && j != i ==> !IsButton(TargetOf(usages[j]))
  }

  lemma OneGroup(usages: seq<nat>, fields: seq<Field>, data: seq<Row>, i: nat, b: nat)
    requires |usages| == |fields| && AllPackable(fields) && BitsAt(data, 0, Pack(fields))
    requires OnlyGroup(usages, fields, i)
    ensures b in MouseOf(usages, fields, data).button <==> ShiftedDown(fields[i].down, Offset(fields, i) % 8, b)
  {
    WordRead(usages, fields, data, b);
    assert Down(usages, fields, i, b) <==> ShiftedDown(fields[i].down, Offset(fields, i) % 8, b);
  }

  /** With one group of buttons, button k is bit k if and only if the group begins at a byte or nothing is down. */
  lemma InPlaceExactly(usages: seq<nat>, fields: seq<Field>, data: seq<Row>, i: nat)
    requires |usages| == |fields| && AllPackable(fields) && BitsAt(data, 0, Pack(fields))
    requires OnlyGroup(usages, fields, i)
    ensures (forall b: nat :: b in MouseOf(usages, fields, data).button <==> DownAt(fields[i].down, b))
        <==> Offset(fields, i) % 8 == 0 || forall b: nat :: !DownAt(fields[i].down, b)
  {
    var shift := Offset(fields, i) % 8;
    MembersAt(fields, i);
    ShiftMatters(fields[i].down, shift);
    WordShifted(usages, fields, data, i, shift, MouseOf(usages, fields, data).button);
  }

  lemma WordShifted(usages: seq<nat>, fields: seq<Field>, data: seq<Row>, i: nat, shift: nat, word: set<nat>)
    requires |usages| == |fields| && AllPackable(fields) && BitsAt(data, 0, Pack(fields))
    requires OnlyGroup(usages, fields, i)
    requires shift == Offset(fields, i) % 8 && word == MouseOf(usages, fields, data).button
    ensures forall b: nat :: b in word <==> ShiftedDown(fields[i].down, shift, b)
  {
    forall b: nat
      ensures b in word <==> ShiftedDown(fields[i].down, shift, b)
    {
      OneGroup(usages, fields, data, i, b);
    }
  }

  // ---------- by the usages themselves ----------

  /** Field i is the last with this usage. */
  predicate LastUsage(usages: seq<nat>, usage: nat, i: nat) {
    i < |usages| && usages[i] == usage && forall k :: i < k < |usages| ==> usages[k] != usage
  }

  /** Generic desktop X, Y and wheel, and AC pan of the consumer page */
  lemma AxesByUsage(usages: seq<nat>, fields: seq<Field>, data: seq<Row>, i: nat)
    requires |usages| == |fields| && AllPackable(fields) && BitsAt(data, 0, Pack(fields)) && i < |fields|
    ensures LastUsage(usages, 0x10030, i) ==> MouseOf(usages, fields, data).x == FieldValue(fields[i])
    ensures LastUsage(usages, 0x10031, i) ==> MouseOf(usages, fields, data).y == FieldValue(fields[i])
    ensures LastUsage(usages, 0x10038, i) ==> MouseOf(usages, fields, data).v == FieldValue(fields[i])
    ensures LastUsage(usages, 0xC0238, i) ==> MouseOf(usages, fields, data).h == FieldValue(fields[i])
  {
    if LastUsage(usages, 0x10030, i) { AxisRead(usages, fields, data, X, i); }
    if LastUsage(usages, 0x10031, i) { AxisRead(usages, fields, data, Y, i); }
    if LastUsage(usages, 0x10038, i) { AxisRead(usages, fields, data, Wheel, i); }
    if LastUsage(usages, 0xC0238, i) { AxisRead(usages, fields, data, Pan, i); }
  }

  /** Bit b of the button word is on through field i: a group with button usage 0 or 1, or the vendor's side buttons. */
  predicate PressedBy(usages: seq<nat>, fields: seq<Field>, i: nat, b: nat)
    requires i < |fields| == |usages|
  {
    fields[i].Buttons? && (
      || (usages[i] in [0x90000, 0x90001] && ShiftedDown(fields[i].down, Offset(fields, i) % 8, b))
      || (usages[i] == 0xFF000000 && ShiftedDown(fields[i].down, (Offset(fields, i) + 2) % 16, b)))
  }

  lemma ByUsage(usages: seq<nat>, fields: seq<Field>, i: nat, b: nat)
    requires i < |fields| == |usages|
    requires usages[i] in [0x90000, 0x90001, 0xFF000000] ==> fields[i].Buttons?
    ensures IsButton(TargetOf(usages[i])) ==> fields[i].Buttons?
    ensures PressedBy(usages, fields, i, b) <==> IsButton(TargetOf(usages[i])) && Down(usages, fields, i, b)
  {
  }

  lemma ButtonsByUsage(usages: seq<nat>, fields: seq<Field>, data: seq<Row>, b: nat)
    requires |usages| == |fields| && AllPackable(fields) && BitsAt(data, 0, Pack(fields))
    requires forall i :: 0 <= i < |fields| && usages[i] in [0x90000, 0x90001, 0xFF000000] ==> fields[i].Buttons?
    ensures b in MouseOf(usages, fields, data).button
        <==> exists i :: 0 <= i < |fields| && PressedBy(usages, fields, i, b)
  {
    forall i | 0 <= i < |fields|
      ensures IsButton(TargetOf(usages[i])) ==> fields[i].Buttons?
      ensures PressedBy(usages, fields, i, b) <==> IsButton(TargetOf(usages[i])) && Down(usages, fields, i, b)
    {
      ByUsage(usages, fields, i, b);
    }
    WordRead(usages, fields, data, b);
  }

  /** Neither a button nor one of the four axes */
  predicate IsOther(usage: nat) {
    usage !in [0x90000, 0x90001, 0x10030, 0x10031, 0x10038, 0xC0238, 0xFF000000]
  }

  /** All other fields are gathered in the word undefined, shifted by where they begin within 16 bits. */
  predicate Gathered(usages: seq<nat>, ms: seq<Member>, values: seq<int>, i: nat, b: nat)
    requires i < |ms| == |values| == |usages|
  {
    IsOther(usages[i]) && b in Shifted(values[i], StartOf(ms, i) % 16)
  }

  lemma StoreUndefined(r: Mouse, usage: nat, value: int, bitIdx: nat)
    ensures Store(r, TargetOf(usage), value, bitIdx).undefined
            == r.undefined + if IsOther(usage) then Shifted(value, bitIdx % 16) else {}
  {
  }

  lemma {:induction false} UndefinedIsAll(usages: seq<nat>, ms: seq<Member>, values: seq<int>, n: nat, b: nat)
    requires n <= |ms| == |values| == |usages|
    ensures b in Stored(usages, ms, values, n).undefined
        <==> exists i :: 0 <= i < n && Gathered(usages, ms, values, i, b)
  {
    if n > 0 {
      UndefinedIsAll(usages, ms, values, n - 1, b);
      UndefinedNext(usages, ms, values, n, b);
      if b in Stored(usages, ms, values, n).undefined && b !in Stored(usages, ms, values, n - 1).undefined {
        assert Gathered(usages, ms, values, n - 1, b);
      }
    }
  }

  lemma UndefinedNext(usages: seq<nat>, ms: seq<Member>, values: seq<int>, n: nat, b: nat)
    requires 0 < n <= |ms| == |values| == |usages|
    ensures b in Stored(usages, ms, values, n).undefined
        <==> b in Stored(usages, ms, values, n - 1).undefined
             || Gathered(usages, ms, values, n - 1, b)
  {
    StoreUndefined(Stored(usages, ms, values, n - 1), usages[n - 1], values[n - 1], StartOf(ms, n - 1));
  }
}
