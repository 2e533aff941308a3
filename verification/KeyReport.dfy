/** The six key bytes of the keyboard report (tmk_core/common/report.c, without NKRO_ENABLE and
    USB_6KRO_ENABLE): the set of key codes they hold, and what happens when they are all taken. */
module KeyReport {

  type Code = bv16

  const REPORT_KEYS := 6

  /** The codes in a report; 0 is an empty byte. */
  function Codes(keys: seq<Code>): set<Code> {
    set k | k in keys && k != 0
  }

  lemma FitNothing(codes: set<Code>)
    ensures Fit(codes, {}) == codes
  {
    assert codes + {} == codes;
  }

  lemma UnionCard(a: set<Code>, b: set<Code>)
    ensures |a + b| <= |a| + |b|
    ensures a <= b ==> |a| <= |b|
  {
    if a <= b {
      assert b == a + (b - a);
      assert |a + (b - a)| == |a| + |b - a|;
    }
  }

  /** No code stands twice. */
  predicate Single(keys: seq<Code>) {
    forall i, j :: 0 <= i < j < |keys| && keys[i] != 0 ==> keys[i] != keys[j]
  }

  /** New codes join the report as long as six hold them all. */
  function Fit(codes: set<Code>, more: set<Code>): (r: set<Code>)
    ensures codes <= r <= codes + more
  {
    if |codes + more| <= REPORT_KEYS then codes + more else codes
  }

  function Taken(keys: seq<Code>): (n: nat)
    ensures n <= |keys|
  {
    if keys == [] then 0 else Taken(keys[..|keys| - 1]) + if keys[|keys| - 1] != 0 then 1 else 0
  }

  /** As many codes as bytes that are not empty */
  lemma {:induction false} CodesCount(keys: seq<Code>)
    requires Single(keys)
    ensures |Codes(keys)| == Taken(keys)
  {
    if keys == [] {
      assert Codes(keys) == {};
    } else {
      var init, last := keys[..|keys| - 1], keys[|keys| - 1];
      assert keys == init + [last];
      CodesCount(init);
      if last == 0 {
        assert Codes(keys) == Codes(init);
      } else {
        assert last !in init;
        assert Codes(keys) == Codes(init) + {last};
      }
    }
  }

  lemma {:induction false} TakenAll(keys: seq<Code>)
    ensures Taken(keys) == |keys| <==> forall i :: 0 <= i < |keys| ==> keys[i] != 0
  {
    if keys != [] { TakenAll(keys[..|keys| - 1]); }
  }

  /** The report is full exactly when no byte is empty. */
  lemma FullExactly(keys: seq<Code>)
    requires Single(keys)
    ensures |Codes(keys)| <= |keys|
    ensures |Codes(keys)| == |keys| <==> forall i :: 0 <= i < |keys| ==> keys[i] != 0
  {
    CodesCount(keys);
    TakenAll(keys);
  }

  /** is_key_pressed */
  method IsKeyPressed(keys: array<Code>, code: Code) returns (found: bool)
    requires code != 0
    ensures found <==> code in Codes(keys[..])
  {
    for i := 0 to keys.Length
      invariant forall k :: 0 <= k < i ==> keys[k] != code
    {
      if keys[i] == code {
        assert keys[..][i] == code;
        return true;
      }
    }
    return false;
  }

  lemma StoreCode(keys: seq<Code>, empty: nat, code: Code)
    requires Single(keys) && empty < |keys| && keys[empty] == 0 && code !in keys && code != 0
    ensures Single(keys[empty := code]) && Codes(keys[empty := code]) == Codes(keys) + {code}
  {
    var next := keys[empty := code];
    forall k | k in keys && k != 0
      ensures k in next
    {
      var i :| 0 <= i < |keys| && keys[i] == k;
      assert next[i] == k;
    }
    assert next[empty] == code;
  }

  /** add_key_byte: the first empty byte takes a code that is not in the report. */
  method AddKeyByte(keys: array<Code>, code: Code)
    requires keys.Length == REPORT_KEYS && Single(keys[..]) && code != 0
    modifies keys
    ensures Single(keys[..]) && Codes(keys[..]) == Fit(old(Codes(keys[..])), {code})
  {
    ghost var before := keys[..];
    FullExactly(before);
    var i, empty := 0, -1;
    while i < REPORT_KEYS
      invariant 0 <= i <= REPORT_KEYS && -1 <= empty < i
      invariant keys[..] == before && forall k :: 0 <= k < i ==> keys[k] != code
      invariant empty == -1 ==> forall k :: 0 <= k < i ==> keys[k] != 0
      invariant empty != -1 ==> keys[empty] == 0
    {
      if keys[i] == code {
        break;
      }
      if empty == -1 && keys[i] == 0 {
        empty := i;
      }
      i := i + 1;
    }
    if i == REPORT_KEYS {
      assert code !in before;
      assert |Codes(before) + {code}| == |Codes(before)| + 1;
      if empty != -1 {
        StoreCode(before, empty, code);
        keys[empty] := code;
        assert keys[..] == before[empty := code];
      }
    } else {
      assert before[i] == code;
      assert Codes(before) + {code} == Codes(before);
    }
  }

  /** del_key_byte */
  method DelKeyByte(keys: array<Code>, code: Code)
    requires Single(keys[..]) && code != 0
    modifies keys
    ensures Single(keys[..]) && Codes(keys[..]) == old(Codes(keys[..])) - {code}
  {
    ghost var before := keys[..];
    for i := 0 to keys.Length
      invariant forall k :: 0 <= k < i ==> keys[k] == if before[k] == code then 0 else before[k]
      invariant forall k :: i <= k < keys.Length ==> keys[k] == before[k]
    {
      if keys[i] == code {
        keys[i] := 0;
      }
    }
    CodeGone(before, keys[..], code);
  }

  lemma CodeGone(before: seq<Code>, after: seq<Code>, code: Code)
    requires Single(before) && |after| == |before| && code != 0
    requires forall k :: 0 <= k < |before| ==> after[k] == if before[k] == code then 0 else before[k]
    ensures Single(after) && Codes(after) == Codes(before) - {code}
  {
    forall k | k in before && k != code
      ensures k in after
    {
      var i :| 0 <= i < |before| && before[i] == k;
      assert after[i] == k;
    }
  }
}
