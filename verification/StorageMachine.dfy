/** The EEPROM operations of quantum/via.c and quantum/dynamic_keymap.c, byte by byte. Each is proved
    to issue exactly the writes of its specification, in order. */
module StorageMachine {
  import opened Binary
  import opened CrashSafety
  import opened EepromWrites
  import opened KeymapBuffers
  import opened KeymapStore
  import opened MacroText
  import opened ViaInit
  import SendString

  class Storage {
    const c: Config
    const magic: Magic
    const defaults: Defaults
    const macroCount: nat
    const bytes: array<Byte>
    /** What the EEPROM held at power-on, and every write since then */
    ghost const powerOn: Memory
    ghost var trace: seq<Write>

    ghost predicate Valid()
      reads this, bytes
    {
      Stored(c, powerOn) && Within(trace, 0, |powerOn|) && bytes[..] == Apply(powerOn, trace)
    }

    constructor (c: Config, magic: Magic, defaults: Defaults, macroCount: nat, contents: Memory)
      requires Stored(c, contents)
      ensures Valid() && fresh(bytes) && bytes[..] == contents && trace == []
      ensures this.c == c && this.magic == magic && this.defaults == defaults && this.macroCount == macroCount
    {
      this.c, this.magic, this.defaults, this.macroCount := c, magic, defaults, macroCount;
      bytes := new Byte[|contents|](i requires 0 <= i < |contents| => contents[i]);
      powerOn, trace := contents, [];
    }

    /** eeprom_update_byte: writes only where the byte changes. */
    method UpdateByte(addr: nat, value: Byte)
      requires Valid() && addr < bytes.Length
      modifies this`trace, bytes
      ensures Valid() && trace == old(trace) + [Write(addr, value)]
    {
      if bytes[addr] != value {
        bytes[addr] := value;
      }
      trace := trace + [Write(addr, value)];
      ApplyAppend(powerOn, old(trace), [Write(addr, value)]);
      ApplyOne(old(bytes[..]), Write(addr, value));
    }

    /** The writes since some state, applied to that state */
    lemma Wrote(before: seq<Write>, ws: seq<Write>)
      requires Valid() && Within(before, 0, |powerOn|) && trace == before + ws
      ensures Within(ws, 0, |powerOn|) && bytes[..] == Apply(Apply(powerOn, before), ws)
    {
      assert forall i :: 0 <= i < |ws| ==> ws[i] == (before + ws)[|before| + i];
      ApplyAppend(powerOn, before, ws);
    }

    // ---------- via.c ----------

    method EepromIsValid() returns (valid: bool)
      requires Valid()
      ensures valid == ViaInit.Valid(c, magic, bytes[..])
    {
      valid := bytes[c.magicAddr] == magic.b0 && bytes[c.magicAddr + 1] == magic.b1
        && bytes[c.magicAddr + 2] == magic.b2;
    }

    method EepromSetValid(valid: bool)
      requires Valid()
      modifies this`trace, bytes
      ensures Valid() && trace == old(trace) + MagicWrites(c, if valid then magic else ERASED)
      ensures MagicIn(c, bytes[..]) == if valid then magic else ERASED
    {
      UpdateByte(c.magicAddr, if valid then magic.b0 else 0xFF);
      UpdateByte(c.magicAddr + 1, if valid then magic.b1 else 0xFF);
      UpdateByte(c.magicAddr + 2, if valid then magic.b2 else 0xFF);
      ThreeWrites(old(trace), c, if valid then magic else ERASED);
      Wrote(old(trace), MagicWrites(c, if valid then magic else ERASED));
      MagicWritten(c, old(bytes[..]), if valid then magic else ERASED);
    }

    static lemma ThreeWrites(t: seq<Write>, c: Config, magic: Magic)
      ensures t + [Write(c.magicAddr, magic.b0)] + [Write(c.magicAddr + 1, magic.b1)]
              + [Write(c.magicAddr + 2, magic.b2)]
              == t + MagicWrites(c, magic)
    {
    }

    method SetLayoutOptions(options: nat)
      requires Valid()
      modifies this`trace, bytes
      ensures Valid() && trace == old(trace) + OptionsWrites(OptionsAddr(c), c.optionsSize, options)
      ensures Options(bytes[..], OptionsAddr(c), c.optionsSize) == options % Power(c.optionsSize)
    {
      WriteOptions(options);
      Wrote(old(trace), OptionsWrites(OptionsAddr(c), c.optionsSize, options));
      OptionsRoundTrip(old(bytes[..]), OptionsAddr(c), c.optionsSize, options);
    }

    method WriteOptions(options: nat)
      requires Valid()
      modifies this`trace, bytes
      ensures Valid() && trace == old(trace) + OptionsWrites(OptionsAddr(c), c.optionsSize, options)
    {
      var value, target := options, OptionsAddr(c) + c.optionsSize;
      ghost var done: seq<Write> := [];
      while target > OptionsAddr(c)
        invariant OptionsAddr(c) <= target <= OptionsAddr(c) + c.optionsSize && Valid()
        invariant trace == old(trace) + done
        invariant OptionsWrites(OptionsAddr(c), c.optionsSize, options)
                  == done + OptionsWrites(OptionsAddr(c), target - OptionsAddr(c), value)
      {
        NextOption(OptionsAddr(c), target - OptionsAddr(c), value, done);
        target := target - 1;
        UpdateByte(target, value % 256);
        Associate(old(trace), done, [Write(target, value % 256)]);
        done := done + [Write(target, value % 256)];
        value := value / 256;
      }
    }

    static lemma NextOption(addr: nat, size: nat, value: nat, done: seq<Write>)
      requires size > 0
      ensures done + OptionsWrites(addr, size, value)
              == done + [Write(addr + size - 1, value % 256)] + OptionsWrites(addr, size - 1, value / 256)
    {
    }

    method GetLayoutOptions() returns (value: nat)
      requires Valid()
      ensures value == Options(bytes[..], OptionsAddr(c), c.optionsSize)
    {
      value := 0;
      for i := 0 to c.optionsSize
        invariant value == Options(bytes[..], OptionsAddr(c), i)
      {
        var b: int := bytes[OptionsAddr(c) + i];
        value := value * 256 + b;
      }
    }

    // ---------- dynamic_keymap.c: keys ----------

    method GetKeycode(layer: nat, row: nat, col: nat) returns (k: Keycode)
      requires Valid() && IsKey(c, layer, row, col)
      ensures k == KeycodeAt(c, bytes[..], layer, row, col)
    {
      AddressesDiffer(c, layer, row, col, layer, row, col);
      var address := KeyAddr(c, layer, row, col);
      var high: int, low: int := bytes[address], bytes[address + 1];
      k := high * 256 + low;
    }

    method SetKeycode(layer: nat, row: nat, col: nat, k: Keycode)
      requires Valid() && IsKey(c, layer, row, col)
      modifies this`trace, bytes
      ensures Valid() && trace == old(trace) + KeyWrites(c, layer, row, col, k)
      ensures forall l: nat, r: nat, j: nat :: IsKey(c, l, r, j) ==>
        KeycodeAt(c, bytes[..], l, r, j)
          == if (l, r, j) == (layer, row, col) then k else KeycodeAt(c, old(bytes[..]), l, r, j)
    {
      AddressesDiffer(c, layer, row, col, layer, row, col);
      var address := KeyAddr(c, layer, row, col);
      UpdateByte(address, k / 256);
      UpdateByte(address + 1, k % 256);
      Wrote(old(trace), KeyWrites(c, layer, row, col, k));
      SetKeyChangesOne(c, old(bytes[..]), layer, row, col, k);
    }

    method ResetRow(layer: nat, row: nat)
      requires Valid() && layer < c.layers && row < c.rows
      modifies this`trace, bytes
      ensures Valid() && trace == old(trace) + RowWrites(c, defaults.flash, layer, row, c.cols)
    {
      for col := 0 to c.cols
        invariant Valid() && trace == old(trace) + RowWrites(c, defaults.flash, layer, row, col)
      {
        SetKeycode(layer, row, col, defaults.flash(layer, row, col));
        Associate(old(trace), RowWrites(c, defaults.flash, layer, row, col),
                  KeyWrites(c, layer, row, col, defaults.flash(layer, row, col)));
      }
    }

    method ResetLayer(layer: nat)
      requires Valid() && layer < c.layers
      modifies this`trace, bytes
      ensures Valid() && trace == old(trace) + LayerWrites(c, defaults.flash, layer, c.rows)
    {
      for row := 0 to c.rows
        invariant Valid() && trace == old(trace) + LayerWrites(c, defaults.flash, layer, row)
      {
        ResetRow(layer, row);
        Associate(old(trace), LayerWrites(c, defaults.flash, layer, row),
                  RowWrites(c, defaults.flash, layer, row, c.cols));
      }
    }

    method ResetLayers()
      requires Valid()
      modifies this`trace, bytes
      ensures Valid() && trace == old(trace) + KeymapWrites(c, defaults.flash, c.layers)
    {
      for layer := 0 to c.layers
        invariant Valid() && trace == old(trace) + KeymapWrites(c, defaults.flash, layer)
      {
        ResetLayer(layer);
        Associate(old(trace), KeymapWrites(c, defaults.flash, layer),
                  LayerWrites(c, defaults.flash, layer, c.rows));
      }
    }

    /** dynamic_keymap_reset */
    method ResetKeymap()
      requires Valid()
      modifies this`trace, bytes
      ensures Valid() && trace == old(trace) + KeymapWrites(c, defaults.flash, c.layers)
      ensures Reads(c, bytes[..], defaults.flash)
    {
      ResetLayers();
      Wrote(old(trace), KeymapWrites(c, defaults.flash, c.layers));
      ResetReads(c, old(bytes[..]), defaults.flash);
    }

    // ---------- dynamic_keymap.c: buffers ----------

    /** dynamic_keymap_get_buffer and dynamic_keymap_macro_get_buffer */
    method ReadBuffer(base: nat, region: nat, offset: nat, size: nat) returns (data: array<Byte>)
      requires Valid() && base + region <= bytes.Length
      ensures fresh(data) && data[..] == GetBuffer(bytes[..], base, region, offset, size)
    {
      data := new Byte[size];
      for i := 0 to size
        invariant data[..i] == GetBuffer(bytes[..], base, region, offset, i)
      {
        data[i] := if offset + i < region then bytes[base + offset + i] else 0;
        assert data[..i + 1] == data[..i] + [data[i]];
      }
      assert data[..] == data[..size];
    }

    /** dynamic_keymap_set_buffer and dynamic_keymap_macro_set_buffer */
    method WriteBuffer(base: nat, region: nat, offset: nat, data: seq<Byte>)
      requires Valid() && base + region <= bytes.Length
      modifies this`trace, bytes
      ensures Valid() && trace == old(trace) + SetWrites(base, region, offset, data)
      ensures bytes[..] == Apply(old(bytes[..]), SetWrites(base, region, offset, data))
    {
      for i := 0 to |data|
        invariant Valid() && trace == old(trace) + PartWrites(base, region, offset, data, i)
      {
        if offset + i < region {
          UpdateByte(base + offset + i, data[i]);
          Associate(old(trace), PartWrites(base, region, offset, data, i), [Write(base + offset + i, data[i])]);
        }
      }
      Wrote(old(trace), SetWrites(base, region, offset, data));
    }

    // ---------- dynamic_keymap.c: macros ----------

    static lemma ZeroNext(t: seq<Write>, addr: nat, n: nat)
      ensures t + ZeroWrites(addr, n) + [Write(addr + n, 0)] == t + ZeroWrites(addr, n + 1)
    {
    }

    /** A zero, after those already written from addr on */
    method ZeroByte(addr: nat, p: nat, ghost t: seq<Write>)
      requires Valid() && addr <= p < bytes.Length && trace == t + ZeroWrites(addr, p - addr)
      modifies this`trace, bytes
      ensures Valid() && trace == t + ZeroWrites(addr, p + 1 - addr)
    {
      UpdateByte(p, 0);
      ZeroNext(t, addr, p - addr);
    }

    method MacroReset()
      requires Valid()
      modifies this`trace, bytes
      ensures Valid() && trace == old(trace) + ZeroWrites(MacroAddr(c), MacroSize(c))
    {
      var p, end := MacroAddr(c), MacroAddr(c) + MacroSize(c);
      while p != end
        invariant MacroAddr(c) <= p <= end && Valid()
        invariant trace == old(trace) + ZeroWrites(MacroAddr(c), p - MacroAddr(c))
        decreases end - p
      {
        ZeroByte(MacroAddr(c), p, old(trace));
        p := p + 1;
      }
    }

    ghost function Region(): (r: seq<Byte>)
      reads this, bytes
      requires Valid()
      ensures |r| == MacroSize(c)
    {
      bytes[MacroAddr(c)..]
    }

    /** dynamic_keymap_macro_send. Reading behind the region ends it with inside false. */
    method MacroSend(id: nat) returns (ops: seq<SendString.Op>, inside: bool)
      requires Valid()
      ensures SendString.Outcome(ops, inside) == MacroText.MacroSend(Region(), macroCount, id)
    {
      ops, inside := [], true;
      if id >= macroCount { return; }
      var base, end := MacroAddr(c), MacroAddr(c) + MacroSize(c);
      if bytes[end - 1] != 0 { return; }
      var p, n := base, id;
      while n > 0
        invariant base <= p <= end
        invariant SkipNulls(Region(), 0, id) == SkipNulls(Region(), p - base, n)
        decreases end - p
      {
        if p == end { return; }
        if bytes[p] == 0 { n := n - 1; }
        p := p + 1;
      }
      ops, inside := SendBytes(p);
    }

    method SendBytes(start: nat) returns (ops: seq<SendString.Op>, inside: bool)
      requires Valid() && MacroAddr(c) <= start <= bytes.Length
      ensures SendString.Outcome(ops, inside) == SendFrom(Region(), start - MacroAddr(c))
    {
      ops := [];
      var p := start;
      ghost var base, r := MacroAddr(c), Region();
      var data := new Byte[4](i => 0);
      while true
        invariant base <= p <= bytes.Length && data.Length == 4 && data[3] == 0 && fresh(data)
        invariant SendFrom(r, start - base) == Then(SendString.Outcome(ops, true), SendFrom(r, p - base))
        invariant Valid() && Region() == r
        decreases bytes.Length - p
      {
        var more;
        ghost var code, key, was := 0, 0, p;
        p, more, inside, code, key := NextFrame(p, data);
        if !more { return; }
        var sent := SendFrame(data, code, key);
        ThenAssociates(ops, sent, SendFrom(r, p - base));
        ops := ops + sent;
      }
    }

    /** Fills the buffer with the next one- or three-character string, unless the macro ends. */
    method NextFrame(start: nat, data: array<Byte>)
      returns (p: nat, more: bool, inside: bool, ghost code: Byte, ghost key: Byte)
      requires Valid() && MacroAddr(c) <= start <= bytes.Length && data.Length == 4 && data[3] == 0 && data != bytes
      modifies data
      ensures Valid() && Region() == old(Region())
      ensures !more ==> SendFrom(Region(), start - MacroAddr(c)) == SendString.Outcome([], inside)
      ensures more ==> start < p <= bytes.Length && data[3] == 0 && FrameIn(data[..], code, key)
      ensures more ==>
        SendFrom(Region(), start - MacroAddr(c)) == Then(FrameOutcome(code, key), SendFrom(Region(), p - MacroAddr(c)))
    {
      p, more, inside, code, key := start, false, false, 0, 0;
      if p == bytes.Length { return; }
      data[0] := bytes[p];
      p := p + 1;
      data[1] := 0;
      inside := true;
      if data[0] == 0 { return; }
      code, key := data[0], data[2];
      if data[0] == SendString.TAP || data[0] == SendString.DOWN || data[0] == SendString.UP {
        data[1] := data[0];
        data[0] := SendString.PREFIX;
        inside := p < bytes.Length;
        if !inside { return; }
        data[2] := bytes[p];
        key := data[2];
        p := p + 1;
        if data[2] == 0 { return; }
      }
      more := true;
    }

    /** What stands in the buffer: a frame, or one character with what an earlier frame left behind */
    static ghost predicate FrameIn(data: seq<Byte>, code: Byte, key: Byte) {
      code != 0 && if IsKeyCode(code) then key != 0 && data == Frame(code, key) else data == [code, 0, key, 0]
    }

    static ghost function FrameOutcome(code: Byte, key: Byte): SendString.Outcome {
      if IsKeyCode(code) then SendString.Ops(Frame(code, key), 0) else SendString.Ops([code, 0], 0)
    }

    /** send_string on the buffer */
    static method SendFrame(data: array<Byte>, ghost code: Byte, ghost key: Byte) returns (sent: seq<SendString.Op>)
      requires FrameIn(data[..], code, key)
      ensures SendString.Outcome(sent, true) == FrameOutcome(code, key)
    {
      var whole;
      sent, whole := SendString.Send(data[..]);
      if IsKeyCode(code) {
        FrameOps(code, key, 65, 0);
      } else {
        FrameOps(SendString.TAP, 1, code, key);
      }
    }

    static lemma ThenAssociates(ops: seq<SendString.Op>, sent: seq<SendString.Op>, rest: SendString.Outcome)
      ensures Then(SendString.Outcome(ops, true), Then(SendString.Outcome(sent, true), rest))
              == Then(SendString.Outcome(ops + sent, true), rest)
    {
      assert ops + (sent + rest.ops) == (ops + sent) + rest.ops;
    }

    // ---------- initialisation ----------

    method EeconfigInitVia()
      requires Valid()
      modifies this`trace, bytes
      ensures Valid() && trace == old(trace) + InitWrites(c, magic, defaults)
      ensures ViaInit.Valid(c, magic, bytes[..]) && Default(c, bytes[..], defaults)
    {
      WriteAll();
      ghost var ws := InitWrites(c, magic, defaults);
      Wrote(old(trace), ws);
      assert ws[..|ws|] == ws;
      Phases(c, magic, defaults, old(bytes[..]), |ws|);
    }

    method WriteAll()
      requires Valid()
      modifies this`trace, bytes
      ensures Valid() && trace == old(trace) + InitWrites(c, magic, defaults)
    {
      ghost var ew, mw := MagicWrites(c, ERASED), MagicWrites(c, magic);
      ghost var ow := OptionsWrites(OptionsAddr(c), c.optionsSize, defaults.options);
      ghost var kw, zw := KeymapWrites(c, defaults.flash, c.layers), ZeroWrites(MacroAddr(c), MacroSize(c));
      EepromSetValid(false);
      SetLayoutOptions(defaults.options);
      ResetKeymap();
      MacroReset();
      EepromSetValid(true);
      Regrouped(old(trace), ew, ow, kw, zw, mw);
    }

    static lemma Regrouped(t: seq<Write>, ew: seq<Write>, ow: seq<Write>,
        kw: seq<Write>, zw: seq<Write>, mw: seq<Write>)
      ensures t + ew + ow + kw + zw + mw == t + (ew + (ow + (kw + zw)) + mw)
    {
      Associate(ow, kw, zw);
      Associate(ew, ow + kw, zw);
      Associate(ew, ow, kw);
    }

    method Init()
      requires Valid()
      modifies this`trace, bytes
      ensures Valid() && ViaInit.Valid(c, magic, bytes[..])
      ensures old(ViaInit.Valid(c, magic, bytes[..])) ==> trace == old(trace) && bytes[..] == old(bytes[..])
      ensures !old(ViaInit.Valid(c, magic, bytes[..])) ==> trace == old(trace) + InitWrites(c, magic, defaults)
    {
      var valid := EepromIsValid();
      if !valid {
        EeconfigInitVia();
      }
    }
  }
}
