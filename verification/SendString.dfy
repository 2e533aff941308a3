/** The byte language of send_string (quantum/send_string.c): characters, and behind a prefix byte
    taps, presses, releases and delays. */
module SendString {
  import opened Binary

  const PREFIX: Byte := 1
  const TAP: Byte := 1
  const DOWN: Byte := 2
  const UP: Byte := 3
  const DELAY: Byte := 4
  const BAR: Byte := 124

  /** What is done with the keyboard */
  datatype Op = Char(c: Byte) | Tap(key: Byte) | Down(key: Byte) | Up(key: Byte) | Delay(ms: nat)

  /** A reader that follows a pointer either stops at a terminator or runs off the end of its bytes,
      after some operations. */
  datatype Outcome = Outcome(ops: seq<Op>, inside: bool)

  function Prepend(op: Op, rest: Outcome): Outcome {
    Outcome([op] + rest.ops, rest.inside)
  }

  predicate IsDigit(b: Byte) {
    48 <= b <= 57
  }

  function KeyOp(code: Byte, key: Byte): Op
    requires code in {TAP, DOWN, UP}
  {
    if code == TAP then Tap(key) else if code == DOWN then Down(key) else Up(key)
  }

  /** The end of the digits from a position on */
  function DigitsEnd(s: seq<Byte>, p: nat): (q: nat)
    requires p <= |s|
    ensures p <= q <= |s|
    decreases |s| - p
  {
    if p < |s| && IsDigit(s[p]) then DigitsEnd(s, p + 1) else p
  }

  /** ms, after reading on to a position */
  function Number(digits: seq<Byte>): nat
    requires forall i :: 0 <= i < |digits| ==> IsDigit(digits[i])
  {
    if digits == [] then 0
    else
      assert IsDigit(digits[|digits| - 1]);
      var last: int := digits[|digits| - 1];
      Number(digits[..|digits| - 1]) * 10 + (last - 48)
  }

  lemma {:induction false} DigitsAll(s: seq<Byte>, p: nat)
    requires p <= |s|
    ensures forall i :: p <= i < DigitsEnd(s, p) ==> IsDigit(s[i])
    decreases |s| - p
  {
    if p < |s| && IsDigit(s[p]) { DigitsAll(s, p + 1); }
  }

  function DelayAt(s: seq<Byte>, p: nat): Op
    requires p <= |s|
  {
    DigitsAll(s, p);
    Delay(Number(s[p..DigitsEnd(s, p)]))
  }

  /** send_string, from a position */
  function Ops(s: seq<Byte>, p: nat): Outcome
    decreases |s| - p
  {
    if p >= |s| then Outcome([], false)
    else if s[p] == 0 then Outcome([], true)
    else if s[p] != PREFIX then Prepend(Char(s[p]), Ops(s, p + 1))
    else if p + 1 >= |s| then Outcome([], false)
    else if s[p + 1] in {TAP, DOWN, UP} then
      if p + 2 >= |s| then Outcome([], false) else Prepend(KeyOp(s[p + 1], s[p + 2]), Ops(s, p + 3))
    else if s[p + 1] == DELAY then
      if DigitsEnd(s, p + 2) >= |s| then Outcome([], false)
      else Prepend(DelayAt(s, p + 2), Ops(s, DigitsEnd(s, p + 2) + 1))
    else Ops(s, p + 2)
  }

  /** send_string: follows the pointer until it reads a terminator, or would leave the bytes. */
  method Send(s: seq<Byte>) returns (ops: seq<Op>, inside: bool)
    ensures Outcome(ops, inside) == Ops(s, 0)
  {
    ops := [];
    var p := 0;
    while p < |s| && s[p] != 0
      invariant Ops(s, 0) == Outcome(ops + Ops(s, p).ops, Ops(s, p).inside)
      decreases |s| - p
    {
      ghost var was := ops;
      if s[p] == PREFIX {
        p := p + 1;
        if p >= |s| { return ops, false; }
        var code := s[p];
        if code in {TAP, DOWN, UP} {
          p := p + 1;
          if p >= |s| { return ops, false; }
          ops := ops + [KeyOp(code, s[p])];
        } else if code == DELAY {
          var start := p + 1;
          var ms;
          ms, p := ReadNumber(s, start);
          if p >= |s| { return ops, false; }
          DigitsAll(s, start);
          ops := ops + [Delay(ms)];
        }
      } else {
        ops := ops + [Char(s[p])];
      }
      p := p + 1;
      Associate(was, ops[|was|..], Ops(s, p).ops);
      assert ops == was + ops[|was|..];
    }
    inside := p < |s|;
  }

  method ReadNumber(s: seq<Byte>, start: nat) returns (ms: nat, q: nat)
    requires start <= |s|
    ensures q == DigitsEnd(s, start) && Delay(ms) == DelayAt(s, start)
  {
    DigitsAll(s, start);
    ms, q := 0, start;
    while q < |s| && IsDigit(s[q])
      invariant start <= q <= |s| && DigitsEnd(s, q) == DigitsEnd(s, start)
      invariant forall i :: start <= i < q ==> IsDigit(s[i])
      invariant ms == Number(s[start..q])
    {
      var b: int := s[q];
      ms := ms * 10 + (b - 48);
      assert s[start..q + 1][..q - start] == s[start..q];
      q := q + 1;
    }
  }

  lemma Associate(a: seq<Op>, b: seq<Op>, c: seq<Op>)
    ensures (a + b) + c == a + (b + c)
  {
  }

  // ---------- writing operations down ----------

  /** The decimal digits of a number, as the SS_DELAY macro spells it */
  function Spell(n: nat): (digits: seq<Byte>)
    ensures |digits| > 0 && forall i :: 0 <= i < |digits| ==> IsDigit(digits[i])
  {
    if n < 10 then [48 + n] else Spell(n / 10) + [48 + n % 10]
  }

  /** SS_TAP, SS_DOWN, SS_UP, SS_DELAY, and plain characters */
  function Text(op: Op): seq<Byte> {
    match op
    case Char(c) => [c]
    case Tap(key) => [PREFIX, TAP, key]
    case Down(key) => [PREFIX, DOWN, key]
    case Up(key) => [PREFIX, UP, key]
    case Delay(ms) => [PREFIX, DELAY] + Spell(ms) + [BAR]
  }

  function Texts(ops: seq<Op>): seq<Byte> {
    if ops == [] then [] else Text(ops[0]) + Texts(ops[1..])
  }

  predicate Writable(op: Op) {
    op.Char? ==> op.c != 0 && op.c != PREFIX
  }

  lemma {:induction false} SpelledNumber(n: nat)
    ensures Number(Spell(n)) == n
  {
    if n >= 10 {
      SpelledNumber(n / 10);
      assert Spell(n)[..|Spell(n)| - 1] == Spell(n / 10);
    } else {
      assert Spell(n)[..0] == [];
    }
  }

  /** Digits end at the first byte that is none. */
  lemma {:induction false} DigitsEndAt(s: seq<Byte>, p: nat, q: nat)
    requires p <= q < |s| && !IsDigit(s[q]) && forall i :: p <= i < q ==> IsDigit(s[i])
    ensures DigitsEnd(s, p) == q
    decreases q - p
  {
    if p < q { DigitsEndAt(s, p + 1, q); }
  }

  lemma OneOp(s: seq<Byte>, p: nat, op: Op)
    requires Writable(op) && p + |Text(op)| <= |s| && s[p..p + |Text(op)|] == Text(op)
    ensures Ops(s, p) == Prepend(op, Ops(s, p + |Text(op)|))
  {
    var t := Text(op);
    assert forall i :: 0 <= i < |t| ==> s[p + i] == t[i];
    match op
    case Char(_) => assert s[p] == t[0];
    case Tap(_) => assert s[p] == t[0] && s[p + 1] == t[1] && s[p + 2] == t[2];
    case Down(_) => assert s[p] == t[0] && s[p + 1] == t[1] && s[p + 2] == t[2];
    case Up(_) => assert s[p] == t[0] && s[p + 1] == t[1] && s[p + 2] == t[2];
    case Delay(ms) =>
      assert s[p] == t[0] && s[p + 1] == t[1];
      var q := p + |t| - 1;
      assert s[q] == t[|t| - 1] == BAR;
      assert t[2..|t| - 1] == Spell(ms);
      assert s[p + 2..q] == s[p..p + |t|][2..|t| - 1];
      forall i | p + 2 <= i < q
        ensures IsDigit(s[i])
      {
        assert s[i] == s[p + 2..q][i - p - 2];
      }
      DigitsEndAt(s, p + 2, q);
      SpelledNumber(ms);
  }

  /** A text that stands in the bytes, with a terminator behind it */
  ghost predicate WrittenAt(s: seq<Byte>, p: nat, t: seq<Byte>) {
    p + |t| < |s| && s[p..p + |t|] == t && s[p + |t|] == 0
  }

  lemma WrittenSplit(s: seq<Byte>, p: nat, t: seq<Byte>, rest: seq<Byte>)
    requires WrittenAt(s, p, t + rest)
    ensures p + |t| <= |s| && s[p..p + |t|] == t && WrittenAt(s, p + |t|, rest)
  {
    assert s[p..p + |t|] == s[p..p + |t + rest|][..|t|];
    assert s[p + |t|..p + |t| + |rest|] == s[p..p + |t + rest|][|t|..];
  }

  predicate AllWritable(ops: seq<Op>) {
    forall i :: 0 <= i < |ops| ==> Writable(ops[i])
  }

  lemma PrependFirst(all: Outcome, rest: Outcome, ops: seq<Op>)
    requires ops != [] && all == Prepend(ops[0], rest) && rest == Outcome(ops[1..], true)
    ensures all == Outcome(ops, true)
  {
  }

  lemma FirstOp(s: seq<Byte>, p: nat, op: Op, rest: seq<Byte>)
    requires Writable(op) && WrittenAt(s, p, Text(op) + rest)
    ensures Ops(s, p) == Prepend(op, Ops(s, p + |Text(op)|)) && WrittenAt(s, p + |Text(op)|, rest)
  {
    WrittenSplit(s, p, Text(op), rest);
    OneOp(s, p, op);
  }

  lemma {:induction false} TextsAt(s: seq<Byte>, p: nat, ops: seq<Op>)
    requires AllWritable(ops) && WrittenAt(s, p, Texts(ops))
    ensures Ops(s, p) == Outcome(ops, true)
    decreases |ops|
  {
    if ops == [] {
    } else {
      assert Writable(ops[0]) && AllWritable(ops[1..]);
      var q := p + |Text(ops[0])|;
      FirstOp(s, p, ops[0], Texts(ops[1..]));
      TextsAt(s, q, ops[1..]);
      PrependFirst(Ops(s, p), Ops(s, q), ops);
    }
  }

  /** send_string does exactly the operations that were written down. */
  lemma TextRoundTrip(ops: seq<Op>)
    requires AllWritable(ops)
    ensures Ops(Texts(ops) + [0], 0) == Outcome(ops, true)
  {
    TextsAt(Texts(ops) + [0], 0, ops);
  }
}
