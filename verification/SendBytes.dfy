/** The bytes of the send_string language (quantum/send_string_keycodes.h), by their values. */
module SendBytes {
  import opened Binary
  import opened SendString

  /** The bytes of the language: behind a 1 stands 1 for a tap, 2 for a press, 3 for a release, and 4 for a delay in
      decimal digits up to a bar. */
  lemma LanguageBytes(key: Byte, c: Byte, tens: nat, ones: nat)
    requires c > 1 && tens < 10 && ones < 10
    ensures Ops([1, 1, key, 0], 0) == Outcome([Tap(key)], true)
    ensures Ops([1, 2, key, 0], 0) == Outcome([Down(key)], true)
    ensures Ops([1, 3, key, 0], 0) == Outcome([Up(key)], true)
    ensures Ops([1, 4, 48 + tens, 48 + ones, 124, 0], 0) == Outcome([Delay(10 * tens + ones)], true)
    ensures Ops([1, 4, 124, c, 0], 0) == Outcome([Delay(0), Char(c)], true)
    ensures Ops([c, 0], 0) == Outcome([Char(c)], true)
  {
    NoDigits(c);
    OneKey(1, key);
    OneKey(2, key);
    OneKey(3, key);
    OneDelay(tens, ones);
    assert Ops([c, 0], 1) == Outcome([], true);
  }

  /** Behind a 1 any other byte is skipped, a terminator too. */
  lemma OtherPrefixes(other: Byte, c: Byte)
    requires c > 1 && !(1 <= other <= 4)
    ensures Ops([1, other, c, 0], 0) == Outcome([Char(c)], true)
  {
    assert Ops([1, other, c, 0], 3) == Outcome([], true);
    assert Ops([1, other, c, 0], 2) == Outcome([Char(c)], true);
  }

  /** Without a terminator the reader runs off the end, whatever it reads. */
  lemma {:induction false} RunsOff(s: seq<Byte>, p: nat)
    requires 0 !in s
    ensures !Ops(s, p).inside
    decreases |s| - p
  {
    if p < |s| {
      if s[p] != PREFIX {
        RunsOff(s, p + 1);
      } else if p + 1 < |s| {
        if s[p + 1] in {TAP, DOWN, UP} {
          RunsOff(s, p + 3);
        } else if s[p + 1] == DELAY {
          if DigitsEnd(s, p + 2) < |s| { RunsOff(s, DigitsEnd(s, p + 2) + 1); }
        } else {
          RunsOff(s, p + 2);
        }
      }
    }
  }

  lemma NoDigits(c: Byte)
    requires c > 1
    ensures Ops([PREFIX, DELAY, BAR, c, 0], 0) == Outcome([Delay(0), Char(c)], true)
  {
    var s: seq<Byte> := [PREFIX, DELAY, BAR, c, 0];
    assert DigitsEnd(s, 2) == 2 && s[2..2] == [];
    assert Ops(s, 4) == Outcome([], true);
    assert Ops(s, 3) == Outcome([Char(c)], true);
  }

  lemma OneKey(code: Byte, key: Byte)
    requires code in {TAP, DOWN, UP}
    ensures Ops([PREFIX, code, key, 0], 0) == Outcome([KeyOp(code, key)], true)
  {
    assert Ops([PREFIX, code, key, 0], 3) == Outcome([], true);
  }

  lemma OneDelay(tens: nat, ones: nat)
    requires tens < 10 && ones < 10
    ensures Ops([PREFIX, DELAY, 48 + tens, 48 + ones, BAR, 0], 0) == Outcome([Delay(10 * tens + ones)], true)
  {
    var s: seq<Byte> := [PREFIX, DELAY, 48 + tens, 48 + ones, BAR, 0];
    assert DigitsEnd(s, 3) == DigitsEnd(s, 4) == 4;
    assert DigitsEnd(s, 2) == 4;
    var digits := s[2..4];
    assert digits == [48 + tens, 48 + ones];
    assert digits[..1] == [48 + tens] && digits[..1][..0] == [];
    assert Number(digits[..1]) == tens;
    assert Ops(s, 5) == Outcome([], true);
  }

  /** A delay whose digits run up to the end of the bytes is not performed. */
  lemma CutDelay(tens: nat, ones: nat)
    requires tens < 10 && ones < 10
    ensures Ops([1, 4, 48 + tens, 48 + ones], 0) == Outcome([], false)
  {
    var s: seq<Byte> := [1, 4, 48 + tens, 48 + ones];
    assert DigitsEnd(s, 3) == DigitsEnd(s, 4) == 4;
    assert DigitsEnd(s, 2) == 4;
  }
}
