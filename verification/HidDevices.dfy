/** Which entries of the device table a deletion frees. */
module HidDevices {
  import opened HidLegal
  import opened HidPools
  import opened HidShape

  /** An entry of this interface before which, from d on, no entry of the interface is empty */
  predicate Reached(p: Pools, iface: nat, d: nat, e: nat)
    requires Sized(p) && e < DEVICE_COUNT
  {
    d <= e && p.interfaces[e] == iface && forall k :: d <= k <= e && p.interfaces[k] == iface ==> p.owned[k] != []
  }

  /** An entry in use does not end the search. */
  lemma ReachedPast(p: Pools, q: Pools, iface: nat, d: nat, e: nat)
    requires Sized(p) && Sized(q) && d < DEVICE_COUNT && e < DEVICE_COUNT && e != d && p.owned[d] != []
    requires q.owned == p.owned[d := []] && q.interfaces == p.interfaces[d := 0]
    ensures Reached(p, iface, d, e) <==> Reached(q, iface, d + 1, e)
  {
    if Reached(q, iface, d + 1, e) {
      forall k | d <= k <= e && p.interfaces[k] == iface
        ensures p.owned[k] != []
      {
        assert k > d ==> q.interfaces[k] == iface;
      }
    }
    if Reached(p, iface, d, e) {
      forall k | d + 1 <= k <= e && q.interfaces[k] == iface
        ensures q.owned[k] != []
      {
        assert p.interfaces[k] == iface;
      }
    }
  }

  predicate Freed(p: Pools, r: Pools, e: nat, gone: bool)
    requires Sized(p) && Sized(r) && e < DEVICE_COUNT
  {
    r.owned[e] == (if gone then [] else p.owned[e]) && r.interfaces[e] == (if gone then 0 else p.interfaces[e])
  }

  /** The search frees exactly the entries it reaches. */
  lemma {:induction false} DeletesReached(p: Pools, iface: nat, d: nat, e: nat)
    requires Sized(p) && ListsInRange(p.owned, COLLECTION_COUNT) && d <= DEVICE_COUNT && e < DEVICE_COUNT
    ensures Freed(p, DeleteDevice(p, iface, d), e, Reached(p, iface, d, e))
    decreases DEVICE_COUNT - d
  {
    if d < DEVICE_COUNT {
      if p.interfaces[d] != iface {
        DeletesReached(p, iface, d + 1, e);
        assert Reached(p, iface, d, e) <==> Reached(p, iface, d + 1, e);
      } else if p.owned[d] == [] {
        assert !Reached(p, iface, d, e);
      } else {
        var q := ClearDevice(p, d);
        DeleteKeepsOthers(p, p.owned[d]);
        DeletesReached(q, iface, d + 1, e);
        if e != d {
          ReachedPast(p, q, iface, d, e);
        } else {
          assert Reached(p, iface, d, d);
        }
      }
    }
  }

  ghost predicate Kept(p: Pools, iface: nat, x: nat, e: nat)
    requires Sized(p)
  {
    e < DEVICE_COUNT && !Reached(p, iface, 0, e) && x in p.owned[e]
  }

  /** The collections still in use are those of the entries that were not reached. */
  lemma FreesExactly(p: Pools, iface: nat, x: nat)
    requires Shaped(p, NoCollection) && ListsInRange(p.owned, COLLECTION_COUNT)
    ensures x in UsedCollections(DeleteDevice(p, iface, 0).parts) <==> exists e: nat :: Kept(p, iface, x, e)
  {
    var r := DeleteDevice(p, iface, 0);
    DeleteDeviceShaped(p, iface, 0);
    if x in UsedCollections(r.parts) {
      assert x in UsedCollections(r.parts) - {};
      assert InSome(r.owned, x);
      var e :| 0 <= e < |r.owned| && x in r.owned[e];
      DeletesReached(p, iface, 0, e);
      assert Kept(p, iface, x, e);
    }
    if e: nat :| Kept(p, iface, x, e) {
      DeletesReached(p, iface, 0, e);
      PartSeparate(r.owned, UsedCollections(r.parts) - {}, e);
    }
  }

  predicate HoldsNothing(p: Pools, iface: nat)
    requires Sized(p)
  {
    forall e :: 0 <= e < DEVICE_COUNT && p.interfaces[e] == iface ==> p.owned[e] == []
  }

  /** No empty entry of the interface stands before one in use. */
  predicate NoGap(p: Pools, iface: nat)
    requires Sized(p)
  {
    forall k, e :: 0 <= k < e < DEVICE_COUNT && p.interfaces[k] == p.interfaces[e] == iface && p.owned[k] == []
      ==> p.owned[e] == []
  }

  lemma NotReached(p: Pools, iface: nat, e: nat, j: nat)
    requires Sized(p) && j <= e < DEVICE_COUNT && p.interfaces[j] == iface && p.owned[j] == []
    ensures !Reached(p, iface, 0, e)
  {
  }

  lemma GapBefore(p: Pools, iface: nat, e: nat)
    requires Sized(p) && NoGap(p, iface) && e < DEVICE_COUNT && !Reached(p, iface, 0, e)
    ensures p.interfaces[e] == iface ==> p.owned[e] == []
  {
  }

  /** Everything of an interface is freed if and only if its entries have no gap. */
  lemma DeletesAllExactly(p: Pools, iface: nat)
    requires Sized(p) && ListsInRange(p.owned, COLLECTION_COUNT)
    ensures HoldsNothing(DeleteDevice(p, iface, 0), iface) <==> NoGap(p, iface)
  {
    var r := DeleteDevice(p, iface, 0);
    if NoGap(p, iface) {
      forall e | 0 <= e < DEVICE_COUNT && r.interfaces[e] == iface
        ensures r.owned[e] == []
      {
        DeletesReached(p, iface, 0, e);
        if !Reached(p, iface, 0, e) { GapBefore(p, iface, e); }
      }
    } else {
      var k, e :| 0 <= k < e < DEVICE_COUNT && p.interfaces[k] == p.interfaces[e] == iface && p.owned[k] == []
        && p.owned[e] != [];
      DeletesReached(p, iface, 0, e);
      NotReached(p, iface, e, k);
      assert r.interfaces[e] == iface && r.owned[e] != [];
    }
  }

  // ---------- how such a gap arises ----------

  /** From slot k on nothing is in use. */
  predicate FreeFrom(p: Pools, k: nat)
    requires Sized(p)
  {
    && (forall i :: k <= i < COLLECTION_COUNT ==> p.parts[i] == [])
    && (forall i :: k <= i < MEMBER_COUNT ==> p.members[i].reportSize == 0)
  }

  lemma {:induction false} DeletionsKeepFree(p: Pools, list: seq<nat>, k: nat)
    requires Sized(p) && InRange(list, COLLECTION_COUNT) && FreeFrom(p, k)
    ensures FreeFrom(DeleteCollections(p, list), k)
    decreases |list|
  {
    if list != [] {
      DeletionsKeepFree(DeleteCollection(p, list[0]), list[1..], k);
    }
  }

  lemma {:induction false} DeleteKeepsFree(p: Pools, iface: nat, d: nat, k: nat)
    requires Sized(p) && ListsInRange(p.owned, COLLECTION_COUNT) && d <= DEVICE_COUNT && FreeFrom(p, k)
    ensures FreeFrom(DeleteDevice(p, iface, d), k)
    decreases DEVICE_COUNT - d
  {
    if d < DEVICE_COUNT {
      if p.interfaces[d] != iface {
        DeleteKeepsFree(p, iface, d + 1, k);
      } else if p.owned[d] != [] {
        DeletionsKeepFree(p, p.owned[d], k);
        DeleteKeepsOthers(p, p.owned[d]);
        DeleteKeepsFree(ClearDevice(p, d), iface, d + 1, k);
      }
    }
  }

  lemma InputOne(s: Parse, k: nat)
    requires Ready(s) && s.level == 1 && s.count == 0 && s.template.reportSize == 8 && FreeFrom(s.pools, k)
    requires k < COLLECTION_COUNT && s.current.collection <= k && s.pools.parts[s.current.collection] == []
    ensures var r := DoInput(s);
      && FreeFrom(r.pools, k + 1) && r.pools.interfaces == s.pools.interfaces && r.pools.owned == s.pools.owned
      && r.pools.parts[s.current.collection] != []
  {
    var p, c, u := s.pools, s.current.collection, s.table[0];
    assert s.table[..1] == [u];
    var m := FirstFreeMember(p.members, 0);
    assert p.members[k].reportSize == 0;
    var t := s.template.(reportCount := s.template.reportCount / 1);
    var q := p.(members := p.members[m := t.(usage := u)], parts := p.parts[c := p.parts[c] + [m]]);
    assert [u][1..] == [];
    assert AddMembers(p, c, t, [u]) == q;
  }

  /** The four items take a collection slot and a member slot. */
  lemma OneSteps(s: Parse, k: nat)
    requires Ready(s) && s.level == 0 && s.count == 0 && s.template == EMPTY_MEMBER && FreeFrom(s.pools, k)
    requires s.pools.owned[s.device] == [] && k < COLLECTION_COUNT
    ensures var r := Steps(s, ONE_REPORT).pools;
      && Sized(r) && FreeFrom(r, k + 1) && r.interfaces == s.pools.interfaces
      && |r.owned[s.device]| == 1 && r.owned == s.pools.owned[s.device := r.owned[s.device]]
  {
    assert ONE_REPORT[1..][1..] == ONE_REPORT[2..] && ONE_REPORT[2..][1..] == ONE_REPORT[3..];
    assert ONE_REPORT[3..][1..] == [];
    var s1 := Step(s, StartCollection);
    assert s.pools.parts[k] == [];
    StepReady(s, StartCollection);
    var s2 := Step(s1, ReportSize(8));
    StepReady(s1, ReportSize(8));
    var s3 := Step(s2, Input);
    InputOne(s2, k);
    StepReady(s2, Input);
    var s4 := Step(s3, EndCollection);
    StepReady(s3, EndCollection);
    assert Steps(s3, ONE_REPORT[3..]) == Steps(s4, []);
    assert Steps(s2, ONE_REPORT[2..]) == s4;
    assert Steps(s1, ONE_REPORT[1..]) == s4;
  }

  /** One report in the first empty entry */
  lemma ParseOne(p: Pools, k: nat, iface: nat)
    requires Sized(p) && ListsInRange(p.owned, COLLECTION_COUNT) && FreeFrom(p, k) && k < COLLECTION_COUNT
    requires FirstEmpty(DeleteDevice(p, iface, 0).owned, 0) < DEVICE_COUNT
    ensures Accepts(p, iface, ONE_REPORT)
    ensures var q := DeleteDevice(p, iface, 0);
      var d := FirstEmpty(q.owned, 0);
      var r := ParseDescriptor(p, iface, ONE_REPORT).pools;
      && Sized(r) && ListsInRange(r.owned, COLLECTION_COUNT) && FreeFrom(r, k + 1)
      && r.interfaces == q.interfaces[d := iface]
      && r.owned[d] != [] && r.owned == q.owned[d := r.owned[d]]
  {
    var q := DeleteDevice(p, iface, 0);
    var d := FirstEmpty(q.owned, 0);
    DeleteKeepsFree(p, iface, 0, k);
    assert k in EmptyLists(q.parts);
    OneIsLegal(|EmptyLists(q.parts)|);
    LegalIsAccepted(p, iface, ONE_REPORT);
    BeginReady(q, iface, d);
    OneSteps(Begin(q, iface, d), k);
  }

  /** An empty descriptor only names the first empty entry. */
  lemma ParseNothing(p: Pools, k: nat, iface: nat)
    requires Sized(p) && ListsInRange(p.owned, COLLECTION_COUNT) && FreeFrom(p, k)
    requires FirstEmpty(DeleteDevice(p, iface, 0).owned, 0) < DEVICE_COUNT
    ensures Accepts(p, iface, [])
    ensures var q := DeleteDevice(p, iface, 0);
      var d := FirstEmpty(q.owned, 0);
      var r := ParseDescriptor(p, iface, []).pools;
      && Sized(r) && ListsInRange(r.owned, COLLECTION_COUNT) && FreeFrom(r, k)
      && r.interfaces == q.interfaces[d := iface] && r.owned == q.owned
  {
    var q := DeleteDevice(p, iface, 0);
    DeleteKeepsFree(p, iface, 0, k);
    WithoutInputsAccepted(p, iface, []);
    BeginReady(q, iface, FirstEmpty(q.owned, 0));
  }

  /** The first three entries of the table: interface, and whether in use */
  predicate Shows(p: Pools, k: nat, interfaces: seq<nat>, used: seq<bool>)
    requires |interfaces| == |used| == 3
  {
    && Sized(p) && ListsInRange(p.owned, COLLECTION_COUNT) && FreeFrom(p, k)
    && Entry(p, 0, interfaces[0], used[0]) && Entry(p, 1, interfaces[1], used[1]) && Entry(p, 2, interfaces[2], used[2])
  }

  predicate Entry(p: Pools, e: nat, iface: nat, used: bool)
    requires Sized(p) && e < DEVICE_COUNT
  {
    p.interfaces[e] == iface && (p.owned[e] != [] <==> used)
  }

  /** Before every entry of the interface, or at it, stands an empty one. */
  predicate Blocked(interfaces: seq<nat>, used: seq<bool>, iface: nat)
    requires |interfaces| == |used| == 3
  {
    var empty0, empty1 := interfaces[0] == iface && !used[0], interfaces[1] == iface && !used[1];
    && (interfaces[0] == iface ==> !used[0])
    && (interfaces[1] == iface ==> !used[1] || empty0)
    && (interfaces[2] == iface ==> !used[2] || empty0 || empty1)
  }

  lemma BlockedAt(p: Pools, k: nat, iface: nat, interfaces: seq<nat>, used: seq<bool>, e: nat)
    requires |interfaces| == |used| == 3 && Shows(p, k, interfaces, used) && Blocked(interfaces, used, iface) && e < 3
    ensures !Reached(p, iface, 0, e)
  {
  }

  lemma Untouched(p: Pools, k: nat, iface: nat, interfaces: seq<nat>, used: seq<bool>)
    requires |interfaces| == |used| == 3 && Shows(p, k, interfaces, used) && Blocked(interfaces, used, iface)
    ensures Shows(DeleteDevice(p, iface, 0), k, interfaces, used)
  {
    DeleteKeepsFree(p, iface, 0, k);
    DeletesReached(p, iface, 0, 0);
    DeletesReached(p, iface, 0, 1);
    DeletesReached(p, iface, 0, 2);
    BlockedAt(p, k, iface, interfaces, used, 0);
    BlockedAt(p, k, iface, interfaces, used, 1);
    BlockedAt(p, k, iface, interfaces, used, 2);
  }

  predicate Alone(interfaces: seq<nat>, iface: nat, d: nat)
    requires |interfaces| == 3
  {
    && (interfaces[0] == iface <==> d == 0) && (interfaces[1] == iface <==> d == 1)
    && (interfaces[2] == iface <==> d == 2)
  }

  lemma AloneReached(p: Pools, k: nat, iface: nat, interfaces: seq<nat>, used: seq<bool>, d: nat, e: nat)
    requires |interfaces| == |used| == 3 && Shows(p, k, interfaces, used) && d < 3 && used[d] && e < 3
    requires Alone(interfaces, iface, d)
    ensures Reached(p, iface, 0, e) <==> e == d
  {
  }

  lemma OneFreedAt(p: Pools, k: nat, iface: nat, interfaces: seq<nat>, used: seq<bool>, d: nat, e: nat)
    requires |interfaces| == |used| == 3 && Shows(p, k, interfaces, used) && d < 3 && used[d] && e < 3
    requires Alone(interfaces, iface, d)
    ensures Entry(DeleteDevice(p, iface, 0), e, interfaces[d := 0][e], used[d := false][e])
  {
    DeletesReached(p, iface, 0, e);
    AloneReached(p, k, iface, interfaces, used, d, e);
    assert Entry(p, e, interfaces[e], used[e]);
  }

  /** An entry that alone has this interface is emptied. */
  lemma OneFreed(p: Pools, k: nat, iface: nat, interfaces: seq<nat>, used: seq<bool>, d: nat)
    requires |interfaces| == |used| == 3 && Shows(p, k, interfaces, used) && d < 3 && used[d]
    requires Alone(interfaces, iface, d)
    ensures Shows(DeleteDevice(p, iface, 0), k, interfaces[d := 0], used[d := false])
  {
    DeleteKeepsFree(p, iface, 0, k);
    OneFreedAt(p, k, iface, interfaces, used, d, 0);
    OneFreedAt(p, k, iface, interfaces, used, d, 1);
    OneFreedAt(p, k, iface, interfaces, used, d, 2);
  }

  lemma Fills(p: Pools, k: nat, iface: nat, interfaces: seq<nat>, used: seq<bool>, d: nat)
    requires Sized(p) && ListsInRange(p.owned, COLLECTION_COUNT) && FreeFrom(p, k) && k < COLLECTION_COUNT
    requires |interfaces| == |used| == 3 && Shows(DeleteDevice(p, iface, 0), k, interfaces, used)
    requires d < 3 && !used[d] && forall e :: 0 <= e < d ==> used[e]
    ensures Accepts(p, iface, ONE_REPORT)
    ensures Shows(ParseDescriptor(p, iface, ONE_REPORT).pools, k + 1, interfaces[d := iface], used[d := true])
  {
    var q := DeleteDevice(p, iface, 0);
    assert q.owned[d] == [];
    assert FirstEmpty(q.owned, 0) == d;
    ParseOne(p, k, iface);
  }

  lemma {:induction false} OneMore(p: Pools, calls: seq<Call>, c: Call)
    requires AllAccepted(p, calls) && Accepts(ParseAll(p, calls), c.iface, c.items)
    ensures AllAccepted(p, calls + [c])
    ensures ParseAll(p, calls + [c]) == ParseDescriptor(ParseAll(p, calls), c.iface, c.items).pools
    decreases |calls|
  {
    if calls == [] {
      assert [c][1..] == [];
    } else {
      assert (calls + [c])[1..] == calls[1..] + [c];
      OneMore(ParseDescriptor(p, calls[0].iface, calls[0].items).pools, calls[1..], c);
    }
  }

  /** A report goes into entry d, nothing being freed for it. */
  lemma ReportAdded(calls: seq<Call>, k: nat, iface: nat, interfaces: seq<nat>, used: seq<bool>, d: nat)
    requires AllAccepted(Init(), calls) && |interfaces| == |used| == 3 && k < COLLECTION_COUNT
    requires Shows(ParseAll(Init(), calls), k, interfaces, used) && Blocked(interfaces, used, iface)
    requires d < 3 && !used[d] && forall e :: 0 <= e < d ==> used[e]
    ensures AllAccepted(Init(), calls + [Call(iface, ONE_REPORT)])
    ensures Shows(ParseAll(Init(), calls + [Call(iface, ONE_REPORT)]), k + 1, interfaces[d := iface], used[d := true])
  {
    var p := ParseAll(Init(), calls);
    Untouched(p, k, iface, interfaces, used);
    Fills(p, k, iface, interfaces, used, d);
    OneMore(Init(), calls, Call(iface, ONE_REPORT));
  }

  /** Interface 1 becomes silent in entry 0. */
  lemma Silenced(calls: seq<Call>)
    requires AllAccepted(Init(), calls) && Shows(ParseAll(Init(), calls), 3, [1, 2, 0], [true, true, true])
    ensures AllAccepted(Init(), calls + [Call(1, [])])
    ensures Shows(ParseAll(Init(), calls + [Call(1, [])]), 3, [1, 2, 0], [false, true, true])
  {
    var p := ParseAll(Init(), calls);
    OneFreed(p, 3, 1, [1, 2, 0], [true, true, true], 0);
    var q := DeleteDevice(p, 1, 0);
    assert q.owned[0] == [];
    assert FirstEmpty(q.owned, 0) == 0;
    ParseNothing(p, 3, 1);
    OneMore(Init(), calls, Call(1, []));
  }

  /** Interface 2 moves from entry 1 to entry 0. */
  lemma Moved(calls: seq<Call>)
    requires AllAccepted(Init(), calls) && Shows(ParseAll(Init(), calls), 3, [1, 2, 0], [false, true, true])
    ensures AllAccepted(Init(), calls + [Call(2, ONE_REPORT)])
    ensures Shows(ParseAll(Init(), calls + [Call(2, ONE_REPORT)]), 4, [2, 0, 0], [true, false, true])
  {
    var p := ParseAll(Init(), calls);
    OneFreed(p, 3, 2, [1, 2, 0], [false, true, true], 1);
    assert [1, 2, 0][1 := 0] == [1, 0, 0] && [false, true, true][1 := false] == [false, false, true];
    Fills(p, 3, 2, [1, 0, 0], [false, false, true], 0);
    OneMore(Init(), calls, Call(2, ONE_REPORT));
  }

  /** A parse for interface 0 then frees nothing: the interface has two entries in use. */
  lemma TwoEntries(calls: seq<Call>)
    requires AllAccepted(Init(), calls) && Shows(ParseAll(Init(), calls), 4, [2, 0, 0], [true, false, true])
    ensures !NoGap(ParseAll(Init(), calls), 0)
    ensures AllAccepted(Init(), calls + [Call(0, ONE_REPORT)])
    ensures var r := ParseAll(Init(), calls + [Call(0, ONE_REPORT)]);
      Sized(r) && r.interfaces[1] == r.interfaces[2] == 0 && r.owned[1] != [] && r.owned[2] != []
  {
    var p := ParseAll(Init(), calls);
    assert p.interfaces[1] == p.interfaces[2] == 0 && p.owned[1] == [] && p.owned[2] != [];
    ReportAdded(calls, 4, 0, [2, 0, 0], [true, false, true], 1);
  }

  const REPORTS: seq<Call> := [] + [Call(1, ONE_REPORT)] + [Call(2, ONE_REPORT)] + [Call(0, ONE_REPORT)]
  const SILENCING: seq<Call> := REPORTS + [Call(1, [])]
  const MOVES: seq<Call> := SILENCING + [Call(2, ONE_REPORT)]

  lemma FirstReport()
    ensures AllAccepted(Init(), [] + [Call(1, ONE_REPORT)])
    ensures Shows(ParseAll(Init(), [] + [Call(1, ONE_REPORT)]), 1, [1, 0, 0], [true, false, false])
  {
    ReportAdded([], 0, 1, [0, 0, 0], [false, false, false], 0);
    assert [0, 0, 0][0 := 1] == [1, 0, 0] && [false, false, false][0 := true] == [true, false, false];
  }

  lemma TwoMoreReports(calls: seq<Call>)
    requires AllAccepted(Init(), calls) && Shows(ParseAll(Init(), calls), 1, [1, 0, 0], [true, false, false])
    ensures AllAccepted(Init(), calls + [Call(2, ONE_REPORT)] + [Call(0, ONE_REPORT)])
    ensures Shows(ParseAll(Init(), calls + [Call(2, ONE_REPORT)] + [Call(0, ONE_REPORT)]),
                  3, [1, 2, 0], [true, true, true])
  {
    ReportAdded(calls, 1, 2, [1, 0, 0], [true, false, false], 1);
    assert [1, 0, 0][1 := 2] == [1, 2, 0] && [true, false, false][1 := true] == [true, true, false];
    ReportAdded(calls + [Call(2, ONE_REPORT)], 2, 0, [1, 2, 0], [true, true, false], 2);
    assert [1, 2, 0][2 := 0] == [1, 2, 0] && [true, true, false][2 := true] == [true, true, true];
  }

  lemma MovesShow()
    ensures AllAccepted(Init(), SILENCING) && Shows(ParseAll(Init(), SILENCING), 3, [1, 2, 0], [false, true, true])
    ensures AllAccepted(Init(), MOVES) && Shows(ParseAll(Init(), MOVES), 4, [2, 0, 0], [true, false, true])
  {
    FirstReport();
    TwoMoreReports([] + [Call(1, ONE_REPORT)]);
    Silenced(REPORTS);
    Moved(SILENCING);
  }

  /** A run of six parses after which interface 0 has two entries in use, because the last one found a gap. */
  lemma GapArises()
    ensures AllAccepted(Init(), MOVES) && AllAccepted(Init(), MOVES + [Call(0, ONE_REPORT)])
    ensures var p := ParseAll(Init(), MOVES); Sized(p) && !NoGap(p, 0)
    ensures var r := ParseAll(Init(), MOVES + [Call(0, ONE_REPORT)]);
      Sized(r) && r.interfaces[1] == r.interfaces[2] == 0 && r.owned[1] != [] && r.owned[2] != []
  {
    MovesShow();
    TwoEntries(MOVES);
  }
}
