/** Singly linked lists in an array of next pointers. */
module LinkedLists {

  const NULL := -1

  function Head(list: seq<nat>, i: nat): int {
    if i < |list| then list[i] else NULL
  }

  predicate LinkedAt(next: seq<int>, list: seq<nat>, i: nat)
    requires i < |list|
  {
    list[i] < |next| && next[list[i]] == Head(list, i + 1)
  }

  /** Following next from start visits exactly the list, then ends. */
  predicate Linked(next: seq<int>, start: int, list: seq<nat>) {
    start == Head(list, 0) && forall i :: 0 <= i < |list| ==> LinkedAt(next, list, i)
  }

  predicate NoDuplicates(list: seq<nat>) {
    forall i, j :: 0 <= i < j < |list| ==> list[i] != list[j]
  }

  lemma LinkedFrame(next: seq<int>, next': seq<int>, start: int, list: seq<nat>)
    requires Linked(next, start, list) && |next'| == |next|
    requires forall i :: 0 <= i < |next| && i in list ==> next'[i] == next[i]
    ensures Linked(next', start, list)
  {
    forall i | 0 <= i < |list|
      ensures LinkedAt(next', list, i)
    {
      assert LinkedAt(next, list, i);
      assert list[i] in list;
    }
  }

  /** One step along the list. */
  lemma LinkedNext(next: seq<int>, start: int, list: seq<nat>, i: nat)
    requires Linked(next, start, list) && i < |list|
    ensures list[i] < |next| && next[list[i]] == Head(list, i + 1)
  {
    assert LinkedAt(next, list, i);
  }

  /** A new last node: the old last one, or the start, now points to it. */
  lemma LinkedAppend(next: seq<int>, start: int, list: seq<nat>, m: nat, next': seq<int>, start': int)
    requires Linked(next, start, list) && NoDuplicates(list) && m < |next| && m !in list
    requires if list == [] then start' == m && next' == next[m := NULL]
             else start' == start && list[|list| - 1] < |next| && next' == next[m := NULL][list[|list| - 1] := m]
    ensures Linked(next', start', list + [m])
  {
    var longer := list + [m];
    forall i | 0 <= i < |longer|
      ensures LinkedAt(next', longer, i)
    {
      if i < |list| {
        assert LinkedAt(next, list, i);
      }
      if i < |list| - 1 {
        assert list[i] in list && list[i] != list[|list| - 1];
      }
    }
  }

  /** The last node of one list points to the start of the other. */
  lemma LinkedJoin(next: seq<int>, start: int, list: seq<nat>, start2: int, list2: seq<nat>)
    requires Linked(next, start, list) && Linked(next, start2, list2)
    requires list != [] && NoDuplicates(list) && list[|list| - 1] !in list2
    ensures list[|list| - 1] < |next|
    ensures Linked(next[list[|list| - 1] := start2], start, list + list2)
  {
    var joined := list + list2;
    assert LinkedAt(next, list, |list| - 1);
    var next' := next[list[|list| - 1] := start2];
    forall i | 0 <= i < |joined|
      ensures LinkedAt(next', joined, i)
    {
      assert if i < |list| then LinkedAt(next, list, i) else LinkedAt(next, list2, i - |list|);
      if i < |list| - 1 {
        assert list[i] != list[|list| - 1];
      } else if i >= |list| {
        assert list2[i - |list|] in list2;
      }
    }
  }

  /** A node is taken out after its predecessor. */
  lemma LinkedRemove(next: seq<int>, start: int, list: seq<nat>, j: nat)
    requires Linked(next, start, list) && NoDuplicates(list) && j + 1 < |list|
    ensures list[j] < |next| && list[j + 1] < |next|
    ensures Linked(next[list[j] := next[list[j + 1]]][list[j + 1] := NULL], start, list[..j + 1] + list[j + 2..])
  {
    var rest := list[..j + 1] + list[j + 2..];
    assert LinkedAt(next, list, j) && LinkedAt(next, list, j + 1);
    var next' := next[list[j] := next[list[j + 1]]][list[j + 1] := NULL];
    forall i | 0 <= i < |rest|
      ensures LinkedAt(next', rest, i)
    {
      var k := if i <= j then i else i + 1;
      assert LinkedAt(next, list, k) && LinkedAt(next, list, j) && LinkedAt(next, list, j + 1);
      assert rest[i] == list[k] && k != j + 1;
      assert list[k] != list[j + 1];
      if k != j {
        assert list[k] != list[j];
      }
    }
  }

  // ---------- several lists over the same nodes ----------

  predicate AllLinked(next: seq<int>, starts: seq<int>, lists: seq<seq<nat>>) {
    |starts| == |lists| && forall c :: 0 <= c < |lists| ==> Linked(next, starts[c], lists[c])
  }

  /** List c has no duplicates and shares nothing with another list. */
  predicate Separate(lists: seq<seq<nat>>, c: nat)
    requires c < |lists|
  {
    && NoDuplicates(lists[c])
    && forall e, x :: 0 <= e < |lists| && e != c && x in lists[c] ==> x !in lists[e]
  }

  predicate Nowhere(lists: seq<seq<nat>>, x: nat) {
    forall e :: 0 <= e < |lists| ==> x !in lists[e]
  }

  predicate Appended(next: seq<int>, starts: seq<int>, list: seq<nat>, c: nat, m: nat,
      next': seq<int>, starts': seq<int>) {
    && c < |starts| && m < |next|
    && if list == [] then starts' == starts[c := m] && next' == next[m := NULL]
       else starts' == starts && list[|list| - 1] < |next| && next' == next[m := NULL][list[|list| - 1] := m]
  }

  /** Only nodes of list c, or in no list, have changed. */
  lemma OthersLinked(next: seq<int>, next': seq<int>, starts: seq<int>, starts': seq<int>, lists: seq<seq<nat>>, c: nat)
    requires AllLinked(next, starts, lists) && c < |lists| && |next'| == |next| && |starts'| == |starts|
    requires forall e :: 0 <= e < |lists| && e != c ==> starts'[e] == starts[e]
    requires forall i, e :: 0 <= i < |next| && next'[i] != next[i] && 0 <= e < |lists| && e != c ==> i !in lists[e]
    ensures forall e :: 0 <= e < |lists| && e != c ==> Linked(next', starts'[e], lists[e])
  {
    forall e | 0 <= e < |lists| && e != c
      ensures Linked(next', starts'[e], lists[e])
    {
      LinkedFrame(next, next', starts[e], lists[e]);
    }
  }

  lemma AppendChanges(next: seq<int>, starts: seq<int>, lists: seq<seq<nat>>, c: nat, m: nat,
      next': seq<int>, starts': seq<int>)
    requires c < |lists| && Separate(lists, c) && Nowhere(lists, m) && |starts| == |lists|
    requires Appended(next, starts, lists[c], c, m, next', starts')
    ensures |next'| == |next| && |starts'| == |starts|
    ensures forall e :: 0 <= e < |lists| && e != c ==> starts'[e] == starts[e]
    ensures forall i, e :: 0 <= i < |next| && next'[i] != next[i] && 0 <= e < |lists| && e != c ==> i !in lists[e]
  {
    var list := lists[c];
    assert list != [] ==> list[|list| - 1] in list;
    forall i | 0 <= i < |next| && next'[i] != next[i]
      ensures forall e :: 0 <= e < |lists| && e != c ==> i !in lists[e]
    {
      assert i == m || i in list;
    }
  }

  lemma Assemble(next: seq<int>, starts: seq<int>, lists: seq<seq<nat>>, c: nat, list: seq<nat>)
    requires |starts| == |lists| && c < |lists| && Linked(next, starts[c], list)
    requires forall e :: 0 <= e < |lists| && e != c ==> Linked(next, starts[e], lists[e])
    ensures AllLinked(next, starts, lists[c := list])
  {
  }

  lemma ListAppended(next: seq<int>, starts: seq<int>, lists: seq<seq<nat>>, c: nat, m: nat,
      next': seq<int>, starts': seq<int>)
    requires |starts| == |lists| && c < |lists| && Linked(next, starts[c], lists[c])
    requires NoDuplicates(lists[c]) && m !in lists[c]
    requires Appended(next, starts, lists[c], c, m, next', starts')
    ensures |starts'| == |lists| && Linked(next', starts'[c], lists[c] + [m])
  {
    LinkedAppend(next, starts[c], lists[c], m, next', starts'[c]);
  }

  lemma AllAppend(next: seq<int>, starts: seq<int>, lists: seq<seq<nat>>, c: nat, m: nat,
      next': seq<int>, starts': seq<int>)
    requires AllLinked(next, starts, lists) && c < |lists| && Separate(lists, c) && Nowhere(lists, m)
    requires Appended(next, starts, lists[c], c, m, next', starts')
    ensures AllLinked(next', starts', lists[c := lists[c] + [m]])
  {
    ListAppended(next, starts, lists, c, m, next', starts');
    AppendChanges(next, starts, lists, c, m, next', starts');
    OthersLinked(next, next', starts, starts', lists, c);
    Assemble(next', starts', lists, c, lists[c] + [m]);
  }

  /** List c is appended to list b. */
  lemma AllJoin(next: seq<int>, starts: seq<int>, lists: seq<seq<nat>>, b: nat, c: nat)
    requires AllLinked(next, starts, lists) && b < |lists| && c < |lists| && b != c
    requires Separate(lists, b) && lists[b] != []
    ensures lists[b][|lists[b]| - 1] < |next|
    ensures AllLinked(next[lists[b][|lists[b]| - 1] := starts[c]], starts[c := NULL],
                      lists[b := lists[b] + lists[c]][c := []])
  {
    var list := lists[b];
    var last := list[|list| - 1];
    assert Linked(next, starts[b], list) && last in list;
    LinkedNext(next, starts[b], list, |list| - 1);
    var next' := next[last := starts[c]];
    LinkedJoin(next, starts[b], list, starts[c], lists[c]);
    forall e | 0 <= e < |lists| && e != b && e != c
      ensures Linked(next', starts[e], lists[e])
    {
      LinkedFrame(next, next', starts[e], lists[e]);
    }
  }

  /** The element after the j-th of list c is taken out. */
  lemma AllRemove(next: seq<int>, starts: seq<int>, lists: seq<seq<nat>>, c: nat, j: nat)
    requires AllLinked(next, starts, lists) && c < |lists| && Separate(lists, c) && j + 1 < |lists[c]|
    ensures lists[c][j] < |next| && lists[c][j + 1] < |next|
    ensures AllLinked(next[lists[c][j] := next[lists[c][j + 1]]][lists[c][j + 1] := NULL], starts,
                      lists[c := lists[c][..j + 1] + lists[c][j + 2..]])
  {
    var list := lists[c];
    assert Linked(next, starts[c], list) && list[j] in list && list[j + 1] in list;
    LinkedNext(next, starts[c], list, j);
    LinkedNext(next, starts[c], list, j + 1);
    var next' := next[list[j] := next[list[j + 1]]][list[j + 1] := NULL];
    LinkedRemove(next, starts[c], list, j);
    forall e | 0 <= e < |lists| && e != c
      ensures Linked(next', starts[e], lists[e])
    {
      LinkedFrame(next, next', starts[e], lists[e]);
    }
  }

  /** All nodes of list c are reset, and its start. */
  lemma AllClear(next: seq<int>, starts: seq<int>, lists: seq<seq<nat>>, c: nat, next': seq<int>)
    requires AllLinked(next, starts, lists) && c < |lists| && Separate(lists, c) && |next'| == |next|
    requires forall i :: 0 <= i < |next| && i !in lists[c] ==> next'[i] == next[i]
    ensures AllLinked(next', starts[c := NULL], lists[c := []])
  {
    forall e | 0 <= e < |lists| && e != c
      ensures Linked(next', starts[e], lists[e])
    {
      forall i | 0 <= i < |next| && i in lists[e]
        ensures next'[i] == next[i]
      {
        assert i !in lists[c];
      }
      LinkedFrame(next, next', starts[e], lists[e]);
    }
  }
}
