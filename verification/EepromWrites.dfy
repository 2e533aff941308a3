/** The EEPROM as a sequence of bytes, and lists of byte writes to it. Each eeprom_update_byte is
    taken to be atomic, so an interrupted operation leaves a prefix of its writes behind. */
module EepromWrites {
  import opened Binary

  type Memory = seq<Byte>

  datatype Write = Write(addr: nat, value: Byte)

  /** All writes stay within a range of addresses. */
  predicate Within(ws: seq<Write>, low: nat, high: nat) {
    forall i :: 0 <= i < |ws| ==> low <= ws[i].addr < high
  }

  function Apply(m: Memory, ws: seq<Write>): (r: Memory)
    requires Within(ws, 0, |m|)
    ensures |r| == |m|
  {
    if ws == [] then m
    else Apply(m, ws[..|ws| - 1])[ws[|ws| - 1].addr := ws[|ws| - 1].value]
  }

  lemma Associate(a: seq<Write>, b: seq<Write>, c: seq<Write>)
    ensures (a + b) + c == a + (b + c)
  {
  }

  lemma ApplyOne(m: Memory, w: Write)
    requires w.addr < |m|
    ensures Apply(m, [w]) == m[w.addr := w.value]
  {
    assert [w][..0] == [];
  }

  lemma {:induction false} ApplyAppend(m: Memory, ws: seq<Write>, vs: seq<Write>)
    requires Within(ws, 0, |m|) && Within(vs, 0, |m|)
    ensures Within(ws + vs, 0, |m|)
    ensures Apply(m, ws + vs) == Apply(Apply(m, ws), vs)
  {
    if vs == [] {
      assert ws + vs == ws;
    } else {
      ApplyAppend(m, ws, vs[..|vs| - 1]);
      assert (ws + vs)[..|ws + vs| - 1] == ws + vs[..|vs| - 1];
    }
  }

  /** What lies outside the range of the writes keeps its value. */
  lemma {:induction false} ApplyOutside(m: Memory, ws: seq<Write>, low: nat, high: nat, a: nat)
    requires Within(ws, low, high) && high <= |m| && a < |m| && (a < low || high <= a)
    ensures Apply(m, ws)[a] == m[a]
  {
    if ws != [] {
      ApplyOutside(m, ws[..|ws| - 1], low, high, a);
    }
  }
}
