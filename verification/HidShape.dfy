/** The pools stay well-shaped: no slot is in two lists or twice in one, and the slots in use
    are exactly those in some list. */
module HidShape {
  import opened HidPools
  import opened LinkedLists

  function Elements(list: seq<nat>): set<nat> {
    set m | m in list
  }

  predicate Within(list: seq<nat>, used: set<nat>) {
    forall x :: x in list ==> x in used
  }

  ghost predicate InSome(lists: seq<seq<nat>>, x: nat) {
    exists c :: 0 <= c < |lists| && x in lists[c]
  }

  /** The lists share nothing and together hold exactly the used slots. */
  ghost predicate Partition(lists: seq<seq<nat>>, used: set<nat>) {
    && (forall c :: 0 <= c < |lists| ==> Separate(lists, c))
    && (forall c {:trigger Separate(lists, c)} :: 0 <= c < |lists| ==> Within(lists[c], used))
    && (forall m {:trigger InSome(lists, m)} :: m in used ==> InSome(lists, m))
  }

  lemma MakePartition(lists: seq<seq<nat>>, used: set<nat>)
    requires forall c :: 0 <= c < |lists| ==> Separate(lists, c) && Within(lists[c], used)
    requires forall m :: m in used ==> InSome(lists, m)
    ensures Partition(lists, used)
  {
  }

  /** What a partition says of one list. */
  lemma PartSeparate(lists: seq<seq<nat>>, used: set<nat>, c: nat)
    requires Partition(lists, used) && c < |lists|
    ensures Separate(lists, c) && Within(lists[c], used)
  {
  }

  lemma InUse(lists: seq<seq<nat>>, used: set<nat>, c: nat, i: nat)
    requires Partition(lists, used) && c < |lists| && i < |lists[c]|
    ensures lists[c][i] in used
  {
    assert Separate(lists, c) && lists[c][i] in lists[c];
  }

  lemma Unshared(lists: seq<seq<nat>>, used: set<nat>, c: nat, i: nat, d: nat, j: nat)
    requires Partition(lists, used) && c < |lists| && i < |lists[c]| && d < |lists| && j < |lists[d]|
    requires c != d || i != j
    ensures lists[c][i] != lists[d][j]
  {
    assert Separate(lists, c) && lists[c][i] in lists[c] && lists[d][j] in lists[d];
  }

  lemma PartNowhere(lists: seq<seq<nat>>, used: set<nat>, x: nat)
    requires Partition(lists, used) && x !in used
    ensures Nowhere(lists, x)
  {
    forall e | 0 <= e < |lists|
      ensures x !in lists[e]
    {
      assert Separate(lists, e);
    }
  }

  lemma PartitionAppend(lists: seq<seq<nat>>, used: set<nat>, c: nat, m: nat)
    requires Partition(lists, used) && c < |lists| && m !in used
    ensures Partition(lists[c := lists[c] + [m]], used + {m})
  {
    var new_ := lists[c := lists[c] + [m]];
    PartNowhere(lists, used, m);
    forall e | 0 <= e < |new_|
      ensures Separate(new_, e) && Within(new_[e], used + {m})
    {
      assert Separate(lists, e) && Separate(lists, c);
    }
    forall x | x in used + {m}
      ensures InSome(new_, x)
    {
      if x == m {
        assert new_[c][|lists[c]|] == m;
      } else {
        assert InSome(lists, x);
        var d :| 0 <= d < |lists| && x in lists[d];
        assert x in new_[d];
      }
    }
    MakePartition(new_, used + {m});
  }

  lemma PartitionClear(lists: seq<seq<nat>>, used: set<nat>, c: nat)
    requires Partition(lists, used) && c < |lists|
    ensures Partition(lists[c := []], used - Elements(lists[c]))
  {
    var new_, rest := lists[c := []], used - Elements(lists[c]);
    forall e | 0 <= e < |new_|
      ensures Separate(new_, e) && Within(new_[e], rest)
    {
      assert Separate(lists, e);
    }
    forall x | x in rest
      ensures InSome(new_, x)
    {
      assert InSome(lists, x);
      var d :| 0 <= d < |lists| && x in lists[d];
      assert x in new_[d];
    }
    MakePartition(new_, rest);
  }

  lemma JoinNoDuplicates(a: seq<nat>, b: seq<nat>)
    requires NoDuplicates(a) && NoDuplicates(b) && forall x :: x in a ==> x !in b
    ensures NoDuplicates(a + b)
  {
    forall i, j | 0 <= i < j < |a + b|
      ensures (a + b)[i] != (a + b)[j]
    {
      if i < |a| <= j {
        assert a[i] in a && b[j - |a|] in b;
      }
    }
  }

  /** One list is appended to another and emptied. */
  lemma PartitionMove(lists: seq<seq<nat>>, used: set<nat>, b: nat, c: nat)
    requires Partition(lists, used) && b < |lists| && c < |lists| && b != c
    ensures Partition(lists[b := lists[b] + lists[c]][c := []], used)
  {
    var new_ := lists[b := lists[b] + lists[c]][c := []];
    assert Separate(lists, b) && Separate(lists, c);
    JoinNoDuplicates(lists[b], lists[c]);
    forall e | 0 <= e < |new_|
      ensures Separate(new_, e) && Within(new_[e], used)
    {
      assert Separate(lists, e);
    }
    forall x | x in used
      ensures InSome(new_, x)
    {
      assert InSome(lists, x);
      var d :| 0 <= d < |lists| && x in lists[d];
      assert x in new_[if d == c then b else d];
    }
    MakePartition(new_, used);
  }

  lemma RemoveElement(list: seq<nat>, k: nat)
    requires NoDuplicates(list) && k < |list|
    ensures var rest := list[..k] + list[k + 1..];
      NoDuplicates(rest) && forall x :: x in rest <==> x in list && x != list[k]
  {
  }

  /** One element is taken out of a list. */
  lemma PartitionRemove(lists: seq<seq<nat>>, used: set<nat>, c: nat, k: nat)
    requires Partition(lists, used) && c < |lists| && k < |lists[c]|
    ensures Partition(lists[c := lists[c][..k] + lists[c][k + 1..]], used - {lists[c][k]})
  {
    var new_, rest := lists[c := lists[c][..k] + lists[c][k + 1..]], used - {lists[c][k]};
    assert Separate(lists, c) && lists[c][k] in lists[c];
    RemoveElement(lists[c], k);
    forall e | 0 <= e < |new_|
      ensures Separate(new_, e) && Within(new_[e], rest)
    {
      assert Separate(lists, e);
    }
    forall x | x in rest
      ensures InSome(new_, x)
    {
      assert InSome(lists, x);
      var d :| 0 <= d < |lists| && x in lists[d];
      assert x in new_[d];
    }
    MakePartition(new_, rest);
  }

  // ---------- the invariant ----------

  function UsedMembers(members: seq<Member>): set<nat> {
    set m: nat | m < |members| && members[m].reportSize != 0
  }

  function UsedCollections(parts: seq<seq<nat>>): set<nat> {
    set c: nat | c < |parts| && parts[c] != []
  }

  function Filling(current: Current): set<nat> {
    if current.In? then {current.collection} else {}
  }

  ghost predicate Shaped(p: Pools, current: Current) {
    && Sized(p)
    && Partition(p.parts, UsedMembers(p.members))
    && Partition(p.owned, UsedCollections(p.parts) - Filling(current))
  }

  lemma WithinRange(list: seq<nat>, used: set<nat>, n: nat)
    requires Within(list, used) && forall x :: x in used ==> x < n
    ensures InRange(list, n)
  {
    forall i | 0 <= i < |list|
      ensures list[i] < n
    {
      assert list[i] in list;
    }
  }

  lemma ShapedInRange(p: Pools, current: Current)
    requires Shaped(p, current)
    ensures ListsInRange(p.owned, COLLECTION_COUNT) && ListsInRange(p.parts, MEMBER_COUNT)
  {
    forall d | 0 <= d < |p.owned|
      ensures InRange(p.owned[d], COLLECTION_COUNT)
    {
      assert Separate(p.owned, d);
      WithinRange(p.owned[d], UsedCollections(p.parts), COLLECTION_COUNT);
    }
    forall d | 0 <= d < |p.parts|
      ensures InRange(p.parts[d], MEMBER_COUNT)
    {
      assert Separate(p.parts, d);
      WithinRange(p.parts[d], UsedMembers(p.members), MEMBER_COUNT);
    }
  }

  // ---------- deletion ----------

  lemma DeleteCollectionShaped(p: Pools, c: nat)
    requires Sized(p) && Partition(p.parts, UsedMembers(p.members)) && c < COLLECTION_COUNT
    ensures var r := DeleteCollection(p, c);
      && Partition(r.parts, UsedMembers(r.members))
      && UsedCollections(r.parts) == UsedCollections(p.parts) - {c}
  {
    PartitionClear(p.parts, UsedMembers(p.members), c);
    assert UsedMembers(DeleteCollection(p, c).members) == UsedMembers(p.members) - Elements(p.parts[c]);
  }

  lemma {:induction false} DeleteCollectionsShaped(p: Pools, list: seq<nat>)
    requires Sized(p) && Partition(p.parts, UsedMembers(p.members)) && InRange(list, COLLECTION_COUNT)
    ensures var r := DeleteCollections(p, list);
      && Partition(r.parts, UsedMembers(r.members))
      && UsedCollections(r.parts) == UsedCollections(p.parts) - Elements(list)
      && r.owned == p.owned
    decreases |list|
  {
    if list != [] {
      DeleteCollectionShaped(p, list[0]);
      DeleteCollectionsShaped(DeleteCollection(p, list[0]), list[1..]);
      assert Elements(list) == {list[0]} + Elements(list[1..]);
    }
  }

  lemma ClearDeviceShaped(p: Pools, d: nat)
    requires Shaped(p, NoCollection) && d < DEVICE_COUNT && InRange(p.owned[d], COLLECTION_COUNT)
    ensures Shaped(ClearDevice(p, d), NoCollection)
  {
    DeleteCollectionsShaped(p, p.owned[d]);
    PartitionClear(p.owned, UsedCollections(p.parts) - {}, d);
    var r := ClearDevice(p, d);
    assert UsedCollections(r.parts) - {} == UsedCollections(p.parts) - {} - Elements(p.owned[d]);
  }

  lemma {:induction false} DeleteDeviceShaped(p: Pools, iface: nat, d: nat)
    requires Shaped(p, NoCollection) && ListsInRange(p.owned, COLLECTION_COUNT) && d <= DEVICE_COUNT
    ensures Shaped(DeleteDevice(p, iface, d), NoCollection)
    decreases DEVICE_COUNT - d
  {
    if d < DEVICE_COUNT {
      if p.interfaces[d] != iface {
        DeleteDeviceShaped(p, iface, d + 1);
      } else if p.owned[d] != [] {
        ClearDeviceShaped(p, d);
        ShapedInRange(ClearDevice(p, d), NoCollection);
        DeleteDeviceShaped(ClearDevice(p, d), iface, d + 1);
      }
    }
  }

  // ---------- the item loop ----------

  lemma {:induction false} AddMembersShaped(p: Pools, c: nat, template: Member, usages: seq<nat>)
    requires Shaped(p, In(c)) && c < COLLECTION_COUNT && template.reportSize > 0
    ensures Shaped(AddMembers(p, c, template, usages), In(c))
    decreases |usages|
  {
    var m := FirstFreeMember(p.members, 0);
    if usages != [] && m < MEMBER_COUNT {
      var q := p.(members := p.members[m := template.(usage := usages[0])], parts := p.parts[c := p.parts[c] + [m]]);
      PartitionAppend(p.parts, UsedMembers(p.members), c, m);
      assert UsedMembers(q.members) == UsedMembers(p.members) + {m};
      assert UsedCollections(q.parts) - {c} == UsedCollections(p.parts) - {c};
      AddMembersShaped(q, c, template, usages[1..]);
    }
  }

  /** Without a size the slot taken stays free, and is taken for every usage. */
  lemma {:induction false} ZeroSizeTakesOneSlot(p: Pools, c: nat, template: Member, usages: seq<nat>)
    requires Sized(p) && c < COLLECTION_COUNT && template.reportSize == 0
    requires FirstFreeMember(p.members, 0) < MEMBER_COUNT
    ensures var m := FirstFreeMember(p.members, 0);
      var r := AddMembers(p, c, template, usages);
      r.parts[c] == p.parts[c] + seq(|usages|, _ => m) && r.members[m].reportSize == 0
    decreases |usages|
  {
    var m := FirstFreeMember(p.members, 0);
    if usages != [] {
      var q := p.(members := p.members[m := template.(usage := usages[0])], parts := p.parts[c := p.parts[c] + [m]]);
      var n := FirstFreeMember(q.members, 0);
      assert q.members[m].reportSize == 0;
      assert n <= m;
      assert q.members[n].reportSize == 0;
      ZeroSizeTakesOneSlot(q, c, template, usages[1..]);
    }
  }

  /** New members keep the shape if and only if they have a size, or no slot is free. */
  lemma AddMembersShapedExactly(p: Pools, c: nat, template: Member, usages: seq<nat>)
    requires Shaped(p, In(c)) && c < COLLECTION_COUNT && usages != []
    ensures Shaped(AddMembers(p, c, template, usages), In(c))
        <==> template.reportSize > 0 || FirstFreeMember(p.members, 0) == MEMBER_COUNT
  {
    var m := FirstFreeMember(p.members, 0);
    if template.reportSize > 0 {
      AddMembersShaped(p, c, template, usages);
    } else if m < MEMBER_COUNT {
      var r := AddMembers(p, c, template, usages);
      ZeroSizeTakesOneSlot(p, c, template, usages);
      if Shaped(r, In(c)) {
        InUse(r.parts, UsedMembers(r.members), c, |p.parts[c]|);
        assert false;
      }
    }
  }

  // ---------- members outside a collection ----------

  /** A slot that is not free is not touched. */
  lemma {:induction false} LooseKeeps(members: seq<Member>, template: Member, usages: seq<nat>, k: nat)
    requires k < |members| && members[k].reportSize != 0
    ensures AddLoose(members, template, usages)[k] == members[k]
    decreases |usages|
  {
    var m := FirstFreeMember(members, 0);
    if usages != [] && m < |members| {
      LooseKeeps(members[m := template.(usage := usages[0])], template, usages[1..], k);
    }
  }

  /** Without a size nothing is used up. */
  lemma {:induction false} LooseSizes(members: seq<Member>, template: Member, usages: seq<nat>)
    requires template.reportSize == 0
    ensures var r := AddLoose(members, template, usages);
      forall k :: 0 <= k < |members| ==> r[k].reportSize == members[k].reportSize
    decreases |usages|
  {
    var m := FirstFreeMember(members, 0);
    if usages != [] && m < |members| {
      LooseSizes(members[m := template.(usage := usages[0])], template, usages[1..]);
    }
  }

  lemma LooseShapedExactly(p: Pools, template: Member, usages: seq<nat>)
    requires Shaped(p, NoCollection) && usages != []
    ensures Shaped(p.(members := AddLoose(p.members, template, usages)), NoCollection)
        <==> template.reportSize == 0 || FirstFreeMember(p.members, 0) == MEMBER_COUNT
  {
    var m := FirstFreeMember(p.members, 0);
    var r := AddLoose(p.members, template, usages);
    if template.reportSize == 0 {
      LooseSizes(p.members, template, usages);
      assert UsedMembers(r) == UsedMembers(p.members);
    } else if m < MEMBER_COUNT {
      LooseKeeps(p.members[m := template.(usage := usages[0])], template, usages[1..], m);
      PartNowhere(p.parts, UsedMembers(p.members), m);
      assert m in UsedMembers(r) && !InSome(p.parts, m);
    }
  }

  /** An input keeps the shape if and only if it wastes no slot. */
  lemma InputShapedExactly(s: Parse)
    requires Ready(s) && Shaped(s.pools, s.current)
    ensures Shaped(DoInput(s).pools, s.current) <==> !Wastes(s, Input)
  {
    if s.current.In? {
      AddMembersShapedExactly(s.pools, s.current.collection, InputTemplate(s), InputUsages(s));
    } else {
      LooseShapedExactly(s.pools, InputTemplate(s), InputUsages(s));
    }
  }

  /** The shortest descriptors that break the shape: an input without a size in a collection, and one with a
      size outside */
  lemma ShortestWaste()
    ensures var s := Step(Begin(Init(), 0, 0), StartCollection);
      s.current.In? && Shaped(s.pools, s.current) && !Shaped(Step(s, Input).pools, Step(s, Input).current)
    ensures var s := Step(Begin(Init(), 0, 0), ReportSize(8));
      Shaped(s.pools, s.current) && !Shaped(Step(s, Input).pools, Step(s, Input).current)
  {
    var b := Begin(Init(), 0, 0);
    InitShaped();
    BeginReady(Init(), 0, 0);
    OpenShaped(b);
    InputShapedExactly(Open(b));
    InputShapedExactly(Step(b, ReportSize(8)));
  }

  lemma CloseShaped(s: Parse)
    requires Ready(s) && Shaped(s.pools, s.current)
    ensures Shaped(Close(s).pools, Close(s).current)
  {
    if s.level == 1 {
      var p, c := s.pools, s.current.collection;
      var used := UsedCollections(p.parts);
      if p.parts[c] != [] {
        PartitionAppend(p.owned, used - {c}, s.device, c);
        assert used - {c} + {c} == used - {};
      } else {
        assert used - {c} == used - {};
      }
    }
  }

  lemma OpenShaped(s: Parse)
    requires Ready(s) && Shaped(s.pools, s.current)
    ensures Shaped(Open(s).pools, Open(s).current)
  {
    if s.level == 0 {
      var c := FirstEmpty(s.pools.parts, 0);
      if c < COLLECTION_COUNT {
        assert UsedCollections(s.pools.parts) - {c} == UsedCollections(s.pools.parts) - {};
      }
    }
  }

  /** Whatever the item, it keeps the shape if and only if it wastes no slot. */
  lemma StepShapedExactly(s: Parse, item: Item)
    requires Ready(s) && Shaped(s.pools, s.current)
    ensures Shaped(Step(s, item).pools, Step(s, item).current) <==> !Wastes(s, item)
  {
    match item
    case StartCollection => OpenShaped(s);
    case EndCollection => CloseShaped(s);
    case Input => InputShapedExactly(s);
    case _ =>
  }

  /** The pools are well-shaped before the items and after each of them. */
  ghost predicate StaysShaped(s: Parse, items: seq<Item>)
    requires Ready(s)
    decreases |items|
  {
    && Shaped(s.pools, s.current)
    && (items == [] || (StepReady(s, items[0]); StaysShaped(Step(s, items[0]), items[1..])))
  }

  /** Any items at all, nested or not, with slots left or not: the pools stay well-shaped throughout if and
      only if no input wastes a slot. */
  lemma {:induction false} StaysShapedExactly(s: Parse, items: seq<Item>)
    requires Ready(s) && Shaped(s.pools, s.current)
    ensures StaysShaped(s, items) <==> Harmless(s, items)
    decreases |items|
  {
    if items != [] {
      StepReady(s, items[0]);
      StepShapedExactly(s, items[0]);
      if !Wastes(s, items[0]) {
        StaysShapedExactly(Step(s, items[0]), items[1..]);
      }
    }
  }

  lemma {:induction false} StepsShaped(s: Parse, items: seq<Item>)
    requires Ready(s) && Harmless(s, items) && Shaped(s.pools, s.current)
    ensures var r := Steps(s, items); Shaped(r.pools, r.current)
    decreases |items|
  {
    if items != [] {
      StepReady(s, items[0]);
      StepShapedExactly(s, items[0]);
      StepsShaped(Step(s, items[0]), items[1..]);
    }
  }

  /** At the end of the items the pools are well-shaped if and only if no collection with members is open. */
  lemma EndShapedExactly(s: Parse)
    requires Ready(s) && Shaped(s.pools, s.current)
    ensures Shaped(s.pools, NoCollection) <==> Closed(s)
  {
    if s.current.In? {
      var p, c := s.pools, s.current.collection;
      if p.parts[c] == [] {
        assert UsedCollections(p.parts) - {c} == UsedCollections(p.parts) - {};
      } else {
        PartNowhere(p.owned, UsedCollections(p.parts) - {c}, c);
        assert c in UsedCollections(p.parts) - {} && !InSome(p.owned, c);
      }
    }
  }

  // ---------- merging ----------

  lemma {:induction false} CompressShaped(p: Pools, d: nat, j: nat)
    requires Shaped(p, NoCollection) && d < DEVICE_COUNT && InRange(p.owned[d], COLLECTION_COUNT)
    ensures Shaped(Compress(p, d, j), NoCollection)
    decreases |p.owned[d]| - j
  {
    var list := p.owned[d];
    if j + 1 < |list| {
      var base, c := list[j], list[j + 1];
      if p.collections[c].id == 0 {
        var used := UsedCollections(p.parts);
        assert Separate(p.owned, d) && base in list && c in list;
        assert base != c && base in used && c in used;
        PartitionMove(p.parts, UsedMembers(p.members), base, c);
        PartitionRemove(p.owned, used - {}, d, j + 1);
        var parts := p.parts[base := p.parts[base] + p.parts[c]][c := []];
        assert UsedCollections(parts) - {} == used - {} - {c};
        CompressShaped(p.(parts := parts, collections := p.collections[c := EMPTY_COLLECTION],
                          owned := p.owned[d := list[..j + 1] + list[j + 2..]]), d, j);
      } else {
        CompressShaped(p, d, j + 1);
      }
    }
  }

  // ---------- whole runs ----------

  lemma ParseShaped(p: Pools, iface: nat, items: seq<Item>)
    requires Shaped(p, NoCollection) && Accepts(p, iface, items)
    ensures Shaped(ParseDescriptor(p, iface, items).pools, NoCollection)
  {
    var q := DeleteDevice(p, iface, 0);
    DeleteDeviceShaped(p, iface, 0);
    var d := FirstEmpty(q.owned, 0);
    if d < DEVICE_COUNT {
      var s := Begin(q, iface, d);
      BeginReady(q, iface, d);
      StepsShaped(s, items);
      var r := Steps(s, items);
      EndShapedExactly(r);
      CompressShaped(r.pools, d, 0);
    }
  }

  /** A descriptor is accepted if and only if the pools are well-shaped after every item and at the end. */
  lemma AcceptsExactly(p: Pools, iface: nat, items: seq<Item>, d: nat)
    requires Shaped(p, NoCollection) && ListsInRange(p.owned, COLLECTION_COUNT)
    requires d == FirstEmpty(DeleteDevice(p, iface, 0).owned, 0) && d < DEVICE_COUNT
    ensures var s := Begin(DeleteDevice(p, iface, 0), iface, d);
      Ready(s) && (Accepts(p, iface, items)
                   <==> StaysShaped(s, items) && Shaped(Steps(s, items).pools, NoCollection))
  {
    var q := DeleteDevice(p, iface, 0);
    var s := Begin(q, iface, d);
    DeleteDeviceShaped(p, iface, 0);
    BeginReady(q, iface, d);
    StaysShapedExactly(s, items);
    if Harmless(s, items) {
      StepsShaped(s, items);
      EndShapedExactly(Steps(s, items));
    }
  }

  datatype Call = Call(iface: nat, items: seq<Item>)

  /** Each descriptor is accepted when its turn comes. */
  predicate AllAccepted(p: Pools, calls: seq<Call>)
    decreases |calls|
  {
    calls == [] || (Accepts(p, calls[0].iface, calls[0].items)
                    && AllAccepted(ParseDescriptor(p, calls[0].iface, calls[0].items).pools, calls[1..]))
  }

  function ParseAll(p: Pools, calls: seq<Call>): Pools
    requires AllAccepted(p, calls)
    decreases |calls|
  {
    if calls == [] then p
    else ParseAll(ParseDescriptor(p, calls[0].iface, calls[0].items).pools, calls[1..])
  }

  /** After any sequence of parses, deletions and merges included, no slot is shared and the
      slots in use are exactly those reachable from the device table. */
  lemma {:induction false} RunShaped(p: Pools, calls: seq<Call>)
    requires Shaped(p, NoCollection) && AllAccepted(p, calls)
    ensures Shaped(ParseAll(p, calls), NoCollection)
    decreases |calls|
  {
    if calls != [] {
      ParseShaped(p, calls[0].iface, calls[0].items);
      RunShaped(ParseDescriptor(p, calls[0].iface, calls[0].items).pools, calls[1..]);
    }
  }

  lemma EmptyPartition(lists: seq<seq<nat>>, used: set<nat>)
    requires used == {} && forall c :: 0 <= c < |lists| ==> lists[c] == []
    ensures Partition(lists, used)
  {
    MakePartition(lists, used);
  }

  lemma InitShaped()
    ensures Shaped(Init(), NoCollection)
  {
    var p := Init();
    EmptyPartition(p.parts, UsedMembers(p.members));
    EmptyPartition(p.owned, UsedCollections(p.parts) - Filling(NoCollection));
  }
}
