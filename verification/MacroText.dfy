/** Null-separated macro strings in the EEPROM, and how dynamic_keymap_macro_send plays one of them
    (quantum/dynamic_keymap.c). */
module MacroText {
  import opened Binary
  import opened SendString

  predicate IsKeyCode(b: Byte) {
    b == TAP || b == DOWN || b == UP
  }

  /** The one- or three-character string handed to send_string */
  function Frame(code: Byte, key: Byte): seq<Byte> {
    [PREFIX, code, key, 0]
  }

  function Then(first: Outcome, rest: Outcome): Outcome {
    if first.inside then Outcome(first.ops + rest.ops, rest.inside) else first
  }

  /** The sending loop from a position of the region: frame by frame through send_string */
  function SendFrom(r: seq<Byte>, p: nat): Outcome
    decreases |r| - p
  {
    if p >= |r| then Outcome([], false)
    else if r[p] == 0 then Outcome([], true)
    else if IsKeyCode(r[p]) then
      if p + 1 >= |r| then Outcome([], false)
      else if r[p + 1] == 0 then Outcome([], true)
      else Then(Ops(Frame(r[p], r[p + 1]), 0), SendFrom(r, p + 2))
    else Then(Ops([r[p], 0], 0), SendFrom(r, p + 1))
  }

  /** Skipping the first id nulls: the position behind them, or nothing at the end of the region */
  datatype Skip = At(p: nat) | TooFew

  function SkipNulls(r: seq<Byte>, p: nat, id: nat): Skip
    decreases |r| - p
  {
    if id == 0 then At(p)
    else if p >= |r| then TooFew
    else SkipNulls(r, p + 1, if r[p] == 0 then id - 1 else id)
  }

  /** dynamic_keymap_macro_send on the macro region */
  function MacroSend(r: seq<Byte>, count: nat, id: nat): Outcome
    requires |r| > 0
  {
    if id >= count || r[|r| - 1] != 0 then Outcome([], true)
    else
      match SkipNulls(r, 0, id)
      case At(p) => SendFrom(r, p)
      case TooFew => Outcome([], true)
  }

  // ---------- what a macro string means ----------

  /** The operations of a macro string, read directly. A key code without a key ends it. */
  function Interpret(s: seq<Byte>): seq<Op> {
    if s == [] then []
    else if IsKeyCode(s[0]) then if |s| == 1 then [] else [KeyOp(s[0], s[1])] + Interpret(s[2..])
    else [Char(s[0])] + Interpret(s[1..])
  }

  /** The end of the string at a position: its null, or the end of the region */
  function StringEnd(r: seq<Byte>, p: nat): (q: nat)
    requires p <= |r|
    ensures p <= q <= |r|
    ensures q < |r| ==> r[q] == 0
    ensures forall i :: p <= i < q ==> r[i] != 0
    decreases |r| - p
  {
    if p < |r| && r[p] != 0 then StringEnd(r, p + 1) else p
  }

  function Nulls(r: seq<Byte>): nat {
    if r == [] then 0 else Nulls(r[1..]) + if r[0] == 0 then 1 else 0
  }

  lemma FrameOps(code: Byte, key: Byte, c: Byte, stale: Byte)
    requires IsKeyCode(code) && key != 0 && !IsKeyCode(c) && c != 0
    ensures Ops(Frame(code, key), 0) == Outcome([KeyOp(code, key)], true)
    ensures Ops([c, 0], 0) == Outcome([Char(c)], true)
    ensures Ops([c, 0, stale, 0], 0) == Outcome([Char(c)], true)
  {
  }

  /** Cutting a string into frames keeps its meaning, and reading stays inside the region exactly
      when the string has its null there. */
  lemma {:induction false} SendMeans(r: seq<Byte>, p: nat)
    requires p <= |r|
    ensures StringEnd(r, p) < |r| ==> SendFrom(r, p) == Outcome(Interpret(r[p..StringEnd(r, p)]), true)
    ensures StringEnd(r, p) == |r| ==> !SendFrom(r, p).inside
    decreases |r| - p
  {
    var q := StringEnd(r, p);
    if p < |r| && r[p] != 0 {
      var s := r[p..q];
      if IsKeyCode(r[p]) {
        if p + 1 < |r| && r[p + 1] != 0 {
          SendMeans(r, p + 2);
          FrameOps(r[p], r[p + 1], 65, 0);
          assert s[2..] == r[p + 2..q];
        }
      } else {
        SendMeans(r, p + 1);
        FrameOps(TAP, 1, r[p], 0);
        assert s[1..] == r[p + 1..q];
      }
    }
  }

  lemma {:induction false} SkipCounts(r: seq<Byte>, p: nat, id: nat)
    requires p <= |r|
    ensures SkipNulls(r, p, id).At? <==> Nulls(r[p..]) >= id
    ensures SkipNulls(r, p, id).At? ==> p <= SkipNulls(r, p, id).p <= |r|
    ensures SkipNulls(r, p, id).At? ==> Nulls(r[SkipNulls(r, p, id).p..]) == Nulls(r[p..]) - id
    decreases |r| - p
  {
    if id > 0 && p < |r| {
      assert r[p..][1..] == r[p + 1..];
      SkipCounts(r, p + 1, if r[p] == 0 then id - 1 else id);
    }
  }

  lemma {:induction false} LastNull(r: seq<Byte>, p: nat)
    requires p <= |r| && |r| > 0 && r[|r| - 1] == 0
    ensures StringEnd(r, p) < |r| <==> p < |r|
    ensures Nulls(r[p..]) == 0 <==> p == |r|
    decreases |r| - p
  {
    if p < |r| {
      assert r[p..][1..] == r[p + 1..];
      LastNull(r, p + 1);
    }
  }

  /** Playing a macro reads past the region exactly when the region ends in a null and holds exactly
      id nulls: then the macro would start behind its last byte. */
  lemma StaysInsideExactly(r: seq<Byte>, count: nat, id: nat)
    requires |r| > 0
    ensures !MacroSend(r, count, id).inside <==> id < count && r[|r| - 1] == 0 && Nulls(r) == id
  {
    if id < count && r[|r| - 1] == 0 {
      SkipCounts(r, 0, id);
      assert r[0..] == r;
      LastNull(r, 0);
      match SkipNulls(r, 0, id)
      case At(p) =>
        LastNull(r, p);
        SendMeans(r, p);
      case TooFew =>
    }
  }

  // ---------- storing strings ----------

  function Encode(strings: seq<seq<Byte>>): seq<Byte> {
    if strings == [] then [] else strings[0] + [0] + Encode(strings[1..])
  }

  function Zeros(n: nat): seq<Byte> {
    seq(n, i => 0)
  }

  /** Two bytes are enough to be read past: "A" and its null, and macro 1 of which nothing is stored. */
  lemma ReadsPast()
    ensures !MacroSend([65, 0], 16, 1).inside
  {
    assert SkipNulls([65, 0], 2, 0) == At(2);
    assert SkipNulls([65, 0], 1, 1) == At(2);
  }

  predicate NullFree(s: seq<Byte>) {
    forall i :: 0 <= i < |s| ==> s[i] != 0
  }

  lemma {:induction false} StringEndAt(r: seq<Byte>, p: nat, q: nat)
    requires p <= q < |r| && r[q] == 0 && forall i :: p <= i < q ==> r[i] != 0
    ensures StringEnd(r, p) == q
    decreases q - p
  {
  }

  lemma {:induction false} SkipString(r: seq<Byte>, p: nat, q: nat, id: nat)
    requires p <= q < |r| && r[q] == 0 && id > 0 && forall i :: p <= i < q ==> r[i] != 0
    ensures SkipNulls(r, p, id) == SkipNulls(r, q + 1, id - 1)
    decreases q - p
  {
    if p < q { SkipString(r, p + 1, q, id); }
  }

  /** These strings stand at a position of the region. */
  predicate EncodedAt(r: seq<Byte>, p: nat, strings: seq<seq<Byte>>) {
    p + |Encode(strings)| <= |r| && r[p..p + |Encode(strings)|] == Encode(strings)
  }

  lemma FirstEncoded(r: seq<Byte>, p: nat, s: seq<Byte>, rest: seq<Byte>)
    requires p + |s| + 1 + |rest| <= |r| && r[p..p + |s| + 1 + |rest|] == s + [0] + rest
    ensures r[p..p + |s|] == s && r[p + |s|] == 0 && r[p + |s| + 1..p + |s| + 1 + |rest|] == rest
  {
    var e := r[p..p + |s| + 1 + |rest|];
    assert e[..|s|] == s && e[|s|] == 0 && e[|s| + 1..] == rest;
  }

  /** The first string ends at its null, and the others stand behind it. */
  lemma StringsSplit(r: seq<Byte>, p: nat, strings: seq<seq<Byte>>)
    requires strings != [] && NullFree(strings[0]) && EncodedAt(r, p, strings)
    ensures var q := p + |strings[0]|;
      && q < |r| && r[q] == 0 && r[p..q] == strings[0] && (forall i :: p <= i < q ==> r[i] != 0)
      && EncodedAt(r, q + 1, strings[1..])
  {
    var s := strings[0];
    FirstEncoded(r, p, s, Encode(strings[1..]));
    forall i | p <= i < p + |s|
      ensures r[i] != 0
    {
      assert r[i] == r[p..p + |s|][i - p];
    }
  }

  /** The id-th string stands behind id nulls. */
  lemma {:induction false} SkipsToString(r: seq<Byte>, p: nat, strings: seq<seq<Byte>>, id: nat)
    requires forall i :: 0 <= i < |strings| ==> NullFree(strings[i])
    requires EncodedAt(r, p, strings) && id < |strings|
    ensures SkipNulls(r, p, id).At?
    ensures var b := SkipNulls(r, p, id).p; b <= |r| && StringEnd(r, b) < |r| && r[b..StringEnd(r, b)] == strings[id]
    decreases |strings|
  {
    var q := p + |strings[0]|;
    StringsSplit(r, p, strings);
    if id == 0 {
      StringEndAt(r, p, q);
    } else {
      SkipString(r, p, q, id);
      SkipsToString(r, q + 1, strings[1..], id - 1);
    }
  }

  lemma {:induction false} EncodeEnds(strings: seq<seq<Byte>>)
    requires strings != []
    ensures |Encode(strings)| > 0 && Encode(strings)[|Encode(strings)| - 1] == 0
  {
    if |strings| > 1 { EncodeEnds(strings[1..]); }
  }

  /** Stored strings play back: with null-free strings, each with its null, and zeros behind them,
      macro id performs the operations of string id and reads nothing past the region. */
  lemma MacrosRoundTrip(strings: seq<seq<Byte>>, fill: nat, count: nat, id: nat)
    requires forall i :: 0 <= i < |strings| ==> NullFree(strings[i])
    requires id < |strings| && id < count
    ensures |Encode(strings) + Zeros(fill)| > 0
    ensures MacroSend(Encode(strings) + Zeros(fill), count, id) == Outcome(Interpret(strings[id]), true)
  {
    var r := Encode(strings) + Zeros(fill);
    EncodeEnds(strings);
    SkipsToString(r, 0, strings, id);
    SendMeans(r, SkipNulls(r, 0, id).p);
  }
}
