/** Bytes as numbers, and the binary digits of a number. */
module Binary {
  type Byte = x: int | 0 <= x < 256

  /** n >> k */
  function Shift(n: nat, k: nat): nat {
    if k == 0 then n else Shift(n / 2, k - 1)
  }

  /** n & (1 << k) */
  predicate Digit(n: nat, k: nat) {
    Shift(n, k) % 2 == 1
  }

  lemma {:induction false} ShiftNext(n: nat, k: nat)
    ensures Shift(n, k + 1) == Shift(n, k) / 2
  {
    if k > 0 { ShiftNext(n / 2, k - 1); }
  }

  lemma {:induction false} ShiftZero(k: nat)
    ensures Shift(0, k) == 0
  {
    if k > 0 { ShiftZero(k - 1); }
  }
}
