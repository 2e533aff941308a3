/** The functions of report_descriptor_parser.c on the pointers of HidParser. */
module HidMachine {
  import opened HidPools
  import opened HidShape
  import opened LinkedLists
  import opened HidParser

  class Parser {
    const devices: array<DeviceNode>
    const collections: array<CollectionNode>
    const members: array<MemberNode>
    /** The pools that the nodes represent. */
    ghost var pools: Pools

    ghost predicate Apart()
      reads this
    {
      && devices as object != collections && collections as object != members
      && devices as object != members
    }

    ghost predicate Valid(current: Current)
      reads this, devices, collections, members
    {
      Apart() && Represents(devices[..], collections[..], members[..], pools, current)
    }

    /** Between the calls of a deletion: the collections may not match the device table. */
    ghost predicate Half()
      reads this, devices, collections, members
    {
      && Apart() && DataMatch(devices[..], collections[..], members[..], pools)
      && AllLinked(MemberLinks(members[..]), Starts(collections[..]), pools.parts)
      && Partition(pools.parts, UsedMembers(pools.members))
    }

    constructor ()
      ensures Valid(NoCollection) && fresh(devices) && fresh(collections) && fresh(members)
      ensures pools == Init()
    {
      devices := new DeviceNode[DEVICE_COUNT](_ => NO_DEVICE);
      collections := new CollectionNode[COLLECTION_COUNT](_ => NO_COLLECTION);
      members := new MemberNode[MEMBER_COUNT](_ => NO_MEMBER);
      pools := Init();
      InitShaped();
    }

    // ---------- free slots ----------

    method FindEmptyDevice() returns (d: nat)
      requires Valid(NoCollection)
      ensures d == FirstEmpty(pools.owned, 0)
    {
      d := 0;
      while d < devices.Length
        invariant d <= devices.Length && FirstEmpty(pools.owned, 0) == FirstEmpty(pools.owned, d)
      {
        assert devices[d].first == Firsts(devices[..])[d];
        if devices[d].first == NULL {
          return;
        }
        d := d + 1;
      }
    }

    method FindEmptyCollection() returns (c: nat)
      requires Valid(NoCollection)
      ensures c == FirstEmpty(pools.parts, 0)
    {
      c := 0;
      while c < collections.Length
        invariant c <= collections.Length && FirstEmpty(pools.parts, 0) == FirstEmpty(pools.parts, c)
      {
        assert collections[c].start == Starts(collections[..])[c];
        if collections[c].start == NULL {
          return;
        }
        c := c + 1;
      }
    }

    method FindEmptyMember() returns (m: nat)
      requires Half()
      ensures m == FirstFreeMember(pools.members, 0)
    {
      m := 0;
      while m < members.Length
        invariant m <= members.Length && FirstFreeMember(pools.members, 0) == FirstFreeMember(pools.members, m)
      {
        if members[m].data.reportSize == 0 {
          return;
        }
        m := m + 1;
      }
    }

    // ---------- deletion ----------

    /** The members of the list are zeroed while it is walked. */
    method ZeroList(start: int, ghost list: seq<nat>)
      requires Linked(MemberLinks(members[..]), start, list) && NoDuplicates(list)
      modifies members
      ensures forall m :: 0 <= m < members.Length ==> members[m] == if m in list then NO_MEMBER else old(members[m])
    {
      var next := start;
      ghost var i := 0;
      ghost var links := MemberLinks(members[..]);
      while next != NULL
        invariant i <= |list| && next == Head(list, i)
        invariant forall m :: 0 <= m < members.Length ==>
                    members[m] == if m in list[..i] then NO_MEMBER else old(members[m])
        decreases |list| - i
      {
        var del := next;
        LinkedNext(links, start, list, i);
        assert forall k :: 0 <= k < i ==> list[k] != list[i];
        next := members[del].next;
        assert next == links[del];
        members[del] := NO_MEMBER;
        i := i + 1;
        assert list[..i] == list[..i - 1] + [del];
      }
      assert list[..i] == list;
    }

    /** delete_hid_id_collection */
    method DeleteCollection(c: nat)
      requires Half() && c < COLLECTION_COUNT
      modifies this`pools, collections, members
      ensures Half() && pools == HidPools.DeleteCollection(old(pools), c)
      ensures collections[..] == old(collections[..])[c := NO_COLLECTION]
    {
      ghost var cs, ms := collections[..], members[..];
      ghost var list := pools.parts[c];
      PartSeparate(pools.parts, UsedMembers(pools.members), c);
      DeleteCollectionShaped(pools, c);
      assert Starts(cs)[c] == collections[c].start;
      ZeroList(collections[c].start, list);
      collections[c] := NO_COLLECTION;
      AllClear(MemberLinks(ms), Starts(cs), pools.parts, c, MemberLinks(members[..]));
      assert Starts(collections[..]) == Starts(cs)[c := NULL];
      pools := HidPools.DeleteCollection(pools, c);
    }

    /** One collection of the list is deleted; its successor was read before. */
    method DeleteNext(del: nat, ghost list: seq<nat>, ghost i: nat, ghost cs: seq<CollectionNode>) returns (next: int)
      requires Half() && i < |list| && list[i] == del && |cs| == COLLECTION_COUNT
      requires Linked(CollectionLinks(cs), Head(list, 0), list)
      requires NoDuplicates(list) && InRange(list, COLLECTION_COUNT)
      requires collections[..] == Cleared(cs, list[..i])
      modifies this`pools, collections, members
      ensures Half() && pools == HidPools.DeleteCollection(old(pools), del)
      ensures next == Head(list, i + 1) && collections[..] == Cleared(cs, list[..i + 1])
    {
      NotYetCleared(cs, list, i);
      assert collections[del] == collections[..][del];
      next := collections[del].next;
      DeleteCollection(del);
    }

    /** The collections of the list are deleted while it is walked. */
    method DeleteList(first: int, ghost list: seq<nat>)
      requires Half() && Linked(CollectionLinks(collections[..]), first, list)
      requires NoDuplicates(list) && InRange(list, COLLECTION_COUNT)
      modifies this`pools, collections, members
      ensures Half() && pools == DeleteCollections(old(pools), list)
      ensures collections[..] == Cleared(old(collections[..]), list)
    {
      var next := first;
      ghost var i, cs := 0, collections[..];
      assert list[0..] == list && Cleared(cs, list[..0]) == cs;
      while next != NULL
        invariant Half() && i <= |list| && next == Head(list, i)
        invariant DeleteCollections(pools, list[i..]) == DeleteCollections(old(pools), list)
        invariant collections[..] == Cleared(cs, list[..i])
        decreases |list| - i
      {
        DeleteUnrolled(pools, list, i);
        next := DeleteNext(next, list, i, cs);
        i := i + 1;
      }
      assert list[i..] == [] && list[..i] == list;
    }

    method ClearDevice(d: nat)
      requires Valid(NoCollection) && d < DEVICE_COUNT
      requires InRange(pools.owned[d], COLLECTION_COUNT)
      modifies this`pools, devices, collections, members
      ensures Valid(NoCollection) && pools == HidPools.ClearDevice(old(pools), d)
    {
      ghost var p, cs, ds := pools, collections[..], devices[..];
      ghost var list := p.owned[d];
      PartSeparate(p.owned, UsedCollections(p.parts) - {}, d);
      ClearDeviceShaped(p, d);
      DeleteCollectionsShaped(p, list);
      assert Firsts(ds)[d] == devices[d].first;
      DeleteList(devices[d].first, list);
      devices[d] := NO_DEVICE;
      AllClear(CollectionLinks(cs), Firsts(ds), p.owned, d, CollectionLinks(collections[..]));
      assert Firsts(devices[..]) == Firsts(ds)[d := NULL];
      DeleteKeepsOthers(p, list);
      pools := HidPools.ClearDevice(p, d);
      ClearedUnlinked(cs, collections[..], p, d);
    }

    /** delete_hid_device */
    method DeleteDevice(iface: nat)
      requires Valid(NoCollection) && ListsInRange(pools.owned, COLLECTION_COUNT)
      modifies this`pools, devices, collections, members
      ensures Valid(NoCollection) && pools == HidPools.DeleteDevice(old(pools), iface, 0)
      ensures ListsInRange(pools.owned, COLLECTION_COUNT)
    {
      var d := 0;
      while d < devices.Length
        invariant Valid(NoCollection) && d <= devices.Length && ListsInRange(pools.owned, COLLECTION_COUNT)
        invariant HidPools.DeleteDevice(pools, iface, d) == HidPools.DeleteDevice(old(pools), iface, 0)
      {
        if devices[d].iface == iface {
          assert devices[d].first == Firsts(devices[..])[d];
          if devices[d].first == NULL {
            return;
          }
          ClearDevice(d);
          ShapedInRange(pools, NoCollection);
        }
        d := d + 1;
      }
    }

    // ---------- the item loop ----------

    /** Another member is linked behind the current one, or at the start of the collection, if there is one. */
    method AddMember(current: Current, currentMember: int, x: Member, m: nat)
      requires Valid(current) && (current.In? ==> current.collection < COLLECTION_COUNT) && m < MEMBER_COUNT
      requires IsLast(currentMember, pools, current)
      requires pools.members[m].reportSize == 0 && (current.In? <==> x.reportSize > 0)
      modifies this`pools, collections, members
      ensures Valid(current) && IsLast(m, pools, current)
      ensures pools == if current.In? then WithMember(old(pools), current.collection, m, x)
                       else old(pools).(members := old(pools).members[m := x])
    {
      ghost var ds, cs, ms, p := devices[..], collections[..], members[..], pools;
      if current.In? { AddFacts(ds, cs, ms, p, current.collection, m, x); }
      members[m] := MemberNode(x, NULL);
      if currentMember != NULL {
        members[currentMember] := members[currentMember].(next := m);
      } else if current.In? && collections[current.collection].start == NULL {
        collections[current.collection] := collections[current.collection].(start := m);
      }
      if current.In? {
        LinkMember(ds, cs, ms, p, current.collection, m, x, collections[..], members[..]);
        pools := WithMember(p, current.collection, m, x);
      } else {
        LooseMember(ds, cs, ms, p, currentMember, m, x, members[..]);
        pools := p.(members := p.members[m := x]);
      }
    }

    /** The loop over the usages of one input item. */
    method AddMembers(current: Current, currentMember: int, template: Member, usages: seq<nat>) returns (last: int)
      requires Valid(current) && (current.In? ==> current.collection < COLLECTION_COUNT)
      requires FirstFreeMember(pools.members, 0) < MEMBER_COUNT ==> (current.In? <==> template.reportSize > 0)
      requires IsLast(currentMember, pools, current)
      modifies this`pools, collections, members
      ensures Valid(current) && pools == Filled(old(pools), current, template, usages)
      ensures IsLast(last, pools, current)
    {
      last := currentMember;
      var i := 0;
      assert usages[0..] == usages;
      while i < |usages|
        invariant Valid(current) && i <= |usages| && IsLast(last, pools, current)
        invariant Filled(pools, current, template, usages[i..]) == Filled(old(pools), current, template, usages)
        invariant i > 0 ==> (current.In? <==> template.reportSize > 0)
        invariant i == 0 ==> pools == old(pools)
      {
        assert usages[i..][0] == usages[i] && usages[i..][1..] == usages[i + 1..];
        var m := FindEmptyMember();
        if m == MEMBER_COUNT {
          return;
        }
        AddMember(current, last, template.(usage := usages[i]), m);
        last := m;
        i := i + 1;
      }
      assert usages[i..] == [];
    }

    /** A top-level collection with members is linked behind the last one of the device. */
    method FinishCollection(d: nat, c: nat)
      requires Valid(In(c)) && d < DEVICE_COUNT && c < COLLECTION_COUNT
      requires pools.parts[c] != []
      modifies this`pools, devices, collections
      ensures Valid(NoCollection) && pools == WithCollection(old(pools), d, c)
    {
      ghost var ds, cs, p := devices[..], collections[..], pools;
      ghost var list := p.owned[d];
      WithCollectionShaped(p, d, c);
      ShapedInRange(p, In(c));
      assert Linked(CollectionLinks(cs), Firsts(ds)[d], list);
      if devices[d].first == NULL {
        devices[d] := devices[d].(first := c);
      } else {
        var tail := devices[d].first;
        ghost var i: nat := 0;
        LinkAt(cs, list, 0);
        while collections[tail].next != NULL
          invariant i < |list| && tail == list[i] && tail < |cs| && collections[tail].next == Head(list, i + 1)
          invariant collections[..] == cs && devices[..] == ds
          decreases |list| - i
        {
          LinkAt(cs, list, i + 1);
          tail := collections[tail].next;
          i := i + 1;
        }
        assert i == |list| - 1;
        collections[tail] := collections[tail].(next := c);
      }
      assert CollectionLinked(ds, cs, list, d, c, devices[..], collections[..]);
      LinkCollection(ds, cs, members[..], p, d, c, devices[..], collections[..]);
      pools := WithCollection(p, d, c);
    }

    method SetHeader(c: nat, header: Collection, ghost current: Current, ghost current': Current)
      requires Valid(current) && c < COLLECTION_COUNT && Shaped(pools, current')
      requires current' == current || (current == NoCollection && current' == In(c) && pools.parts[c] == [])
      modifies this`pools, collections
      ensures Valid(current') && pools == old(pools).(collections := old(pools).collections[c := header])
    {
      ghost var cs := collections[..];
      collections[c] := collections[c].(data := header);
      pools := pools.(collections := pools.collections[c := header]);
      assert CollectionLinks(collections[..]) == CollectionLinks(cs) && Starts(collections[..]) == Starts(cs);
    }

    // ---------- merging ----------

    method LastMember(start: int, ghost list: seq<nat>) returns (tail: nat)
      requires list != [] && Linked(MemberLinks(members[..]), start, list)
      ensures tail == list[|list| - 1] && tail < members.Length
    {
      tail := start;
      ghost var i := 0;
      LinkedNext(MemberLinks(members[..]), start, list, 0);
      while members[tail].next != NULL
        invariant i < |list| && tail == list[i] && tail < members.Length && members[tail].next == Head(list, i + 1)
        decreases |list| - i
      {
        LinkedNext(MemberLinks(members[..]), start, list, i + 1);
        tail := members[tail].next;
        i := i + 1;
      }
    }

    method MergeNext(base: nat, c: nat, ghost d: nat, ghost j: nat)
      requires Valid(NoCollection) && d < DEVICE_COUNT && j + 1 < |pools.owned[d]|
      requires InRange(pools.owned[d], COLLECTION_COUNT)
      requires base == pools.owned[d][j] && c == pools.owned[d][j + 1]
      modifies this`pools, collections, members
      ensures Valid(NoCollection) && pools == Joined(old(pools), d, j)
    {
      ghost var ds, cs, ms, p := devices[..], collections[..], members[..], pools;
      JoinedShaped(p, d, j);
      assert Linked(MemberLinks(ms), Starts(cs)[base], p.parts[base]);
      var tail := LastMember(collections[base].start, p.parts[base]);
      MergeWrite(base, c, tail);
      MergeNodes(ds, cs, ms, p, d, j, collections[..], members[..], tail);
      pools := Joined(p, d, j);
    }

    method MergeWrite(base: nat, c: nat, tail: nat)
      requires Apart() && base < collections.Length && c < collections.Length && tail < members.Length
      requires base != c
      modifies collections, members
      ensures Merged(old(collections[..]), old(members[..]), base, c, tail, collections[..], members[..])
    {
      members[tail] := members[tail].(next := collections[c].start);
      collections[base] := collections[base].(next := collections[c].next);
      collections[c] := NO_COLLECTION;
    }

    /** One round of the merging loop. */
    method CompressNext(base: nat, collection: nat, ghost d: nat, ghost j: nat)
      returns (base': nat, collection': int, ghost j': nat)
      requires Valid(NoCollection) && d < DEVICE_COUNT && InRange(pools.owned[d], COLLECTION_COUNT)
      requires j + 1 < |pools.owned[d]| && base == pools.owned[d][j] && collection == pools.owned[d][j + 1]
      modifies this`pools, collections, members
      ensures Valid(NoCollection) && InRange(pools.owned[d], COLLECTION_COUNT)
      ensures j' < |pools.owned[d]| && base' == pools.owned[d][j'] && collection' == Head(pools.owned[d], j' + 1)
      ensures HidPools.Compress(pools, d, j') == HidPools.Compress(old(pools), d, j)
      ensures |pools.owned[d]| - j' < |old(pools).owned[d]| - j
    {
      ghost var list := pools.owned[d];
      assert Linked(CollectionLinks(collections[..]), Firsts(devices[..])[d], list);
      LinkAt(collections[..], list, j + 1);
      collection' := collections[collection].next;
      if collections[collection].data.id == 0 {
        MergeNext(base, collection, d, j);
        base', j' := base, j;
      } else {
        base', j' := collection, j + 1;
      }
    }

    /** The last part of parse_report_descriptor. */
    method Compress(d: nat)
      requires Valid(NoCollection) && d < DEVICE_COUNT && pools.owned[d] != []
      requires InRange(pools.owned[d], COLLECTION_COUNT)
      modifies this`pools, collections, members
      ensures Valid(NoCollection) && pools == HidPools.Compress(old(pools), d, 0)
    {
      assert Linked(CollectionLinks(collections[..]), Firsts(devices[..])[d], pools.owned[d]);
      var base: nat := devices[d].first;
      LinkAt(collections[..], pools.owned[d], 0);
      var collection := collections[base].next;
      ghost var j: nat := 0;
      while collection != NULL
        invariant Valid(NoCollection) && InRange(pools.owned[d], COLLECTION_COUNT)
        invariant j < |pools.owned[d]| && base == pools.owned[d][j] && collection == Head(pools.owned[d], j + 1)
        invariant HidPools.Compress(pools, d, j) == HidPools.Compress(old(pools), d, 0)
        decreases |pools.owned[d]| - j
      {
        base, collection, j := CompressNext(base, collection, d, j);
      }
    }

    // ---------- parse_report_descriptor ----------

    method ParseReportDescriptor(iface: nat, items: seq<Item>) returns (ok: bool)
      requires Valid(NoCollection) && Accepts(pools, iface, items)
      modifies this`pools, devices, collections, members
      ensures Valid(NoCollection)
      ensures HidPools.Result(pools, ok) == ParseDescriptor(old(pools), iface, items)
    {
      DeleteDevice(iface);
      var d := FindEmptyDevice();
      if d == DEVICE_COUNT {
        return false;
      }
      ghost var q := pools;
      BeginReady(q, iface, d);
      Claim(d, iface);
      ParseItems(d, items, Begin(q, iface, d));
      ok := CompressDevice(d);
    }

    method CompressDevice(d: nat) returns (ok: bool)
      requires Valid(NoCollection) && d < DEVICE_COUNT && InRange(pools.owned[d], COLLECTION_COUNT)
      modifies this`pools, collections, members
      ensures Valid(NoCollection) && ok == (old(pools).owned[d] != [])
      ensures pools == if ok then HidPools.Compress(old(pools), d, 0) else old(pools)
    {
      assert Firsts(devices[..])[d] == devices[d].first;
      if devices[d].first == NULL {
        return false;
      }
      Compress(d);
      return true;
    }

    method Claim(d: nat, iface: nat)
      requires Valid(NoCollection) && d < DEVICE_COUNT && pools.owned[d] == []
      modifies this`pools, devices
      ensures Valid(NoCollection)
      ensures pools == old(pools).(interfaces := old(pools).interfaces[d := iface])
    {
      ghost var ds := devices[..];
      assert Firsts(ds)[d] == devices[d].first;
      devices[d] := DeviceNode(iface, NULL);
      pools := pools.(interfaces := pools.interfaces[d := iface]);
      assert Firsts(devices[..]) == Firsts(ds);
    }

    /** The item loop, with the local variables of the function. */
    method ParseItems(d: nat, items: seq<Item>, ghost start: Parse)
      requires Valid(NoCollection) && d < DEVICE_COUNT && start == Begin(pools, pools.interfaces[d], d)
      requires Ready(start) && Harmless(start, items) && Closed(Steps(start, items))
      modifies this`pools, devices, collections, members
      ensures Valid(NoCollection) && pools == Steps(start, items).pools
    {
      var s := Locals(EMPTY_MEMBER, NoCollection, NULL, 0, NoUsages(), 0, 0, 0);
      var i := 0;
      assert items[0..] == items;
      assert pools.interfaces[d := pools.interfaces[d]] == pools.interfaces;
      while i < |items|
        invariant i <= |items| && s.Matches(pools, d) && Valid(s.current)
        invariant Ready(s.Abstract(pools, d)) && Harmless(s.Abstract(pools, d), items[i..])
        invariant Steps(s.Abstract(pools, d), items[i..]) == Steps(start, items)
      {
        assert items[i..][0] == items[i] && items[i..][1..] == items[i + 1..];
        StepReady(s.Abstract(pools, d), items[i]);
        s := DoItem(d, s, items[i]);
        i := i + 1;
      }
      assert items[i..] == [];
      EndShapedExactly(s.Abstract(pools, d));
    }

    method OpenItem(d: nat, s: Locals) returns (r: Locals)
      requires s.Matches(pools, d) && Valid(s.current) && Ready(s.Abstract(pools, d))
      modifies this`pools, collections
      ensures r.Matches(pools, d) && Valid(r.current)
      ensures r.Abstract(pools, d) == Open(old(s.Abstract(pools, d)))
    {
      r := s;
      if s.level == 0 {
        var c := FindEmptyCollection();
        if c == COLLECTION_COUNT {
          return;
        }
        OpenedShaped(pools, c, collections[c].data.(usage := s.topUsage, usagePage := s.topUsagePage));
        SetHeader(c, collections[c].data.(usage := s.topUsage, usagePage := s.topUsagePage), NoCollection, In(c));
        r := r.(current := In(c), currentMember := NULL);
      }
      r := r.(count := 0, level := r.level + 1);
    }

    method CloseItem(d: nat, s: Locals) returns (r: Locals)
      requires s.Matches(pools, d) && Valid(s.current) && Ready(s.Abstract(pools, d))
      modifies this`pools, devices, collections
      ensures r.Matches(pools, d) && Valid(r.current)
      ensures r.Abstract(pools, d) == Close(old(s.Abstract(pools, d)))
    {
      r := s;
      if s.level == 1 {
        var c := s.current.collection;
        assert Starts(collections[..])[c] == collections[c].start;
        if collections[c].start != NULL {
          FinishCollection(d, c);
        } else {
          CloseShaped(s.Abstract(pools, d));
        }
        r := r.(current := NoCollection, currentMember := NULL, count := 0);
      }
      r := r.(level := r.level - 1);
    }

    method InputItem(d: nat, s: Locals) returns (r: Locals)
      requires s.Matches(pools, d) && Valid(s.current) && !Wastes(s.Abstract(pools, d), Input)
      modifies this`pools, collections, members
      ensures r.Matches(pools, d) && Valid(r.current)
      ensures r.Abstract(pools, d) == DoInput(old(s.Abstract(pools, d)))
    {
      var n := if s.count > 0 then s.count else 1;
      var template := s.template.(reportCount := s.template.reportCount / n);
      var last := AddMembers(s.current, s.currentMember, template, s.table[..n]);
      r := s.(currentMember := last, template := ClearLocal(template), table := NoUsages(), count := 0);
    }

    method ReportIdItem(s: Locals, ghost d: nat, raw: nat)
      requires s.Matches(pools, d) && Valid(s.current) && s.current.In?
      modifies this`pools, collections
      ensures s.Matches(pools, d) && Valid(s.current)
      ensures s.Abstract(pools, d) == Step(old(s.Abstract(pools, d)), ReportId(raw))
    {
      var c := s.current.collection;
      SetHeader(c, collections[c].data.(id := raw % 256), s.current, s.current);
    }

    /** The switch. */
    method DoItem(d: nat, s: Locals, item: Item) returns (r: Locals)
      requires s.Matches(pools, d) && Valid(s.current) && Ready(s.Abstract(pools, d))
      requires !Wastes(s.Abstract(pools, d), item)
      modifies this`pools, devices, collections, members
      ensures r.Matches(pools, d) && Valid(r.current)
      ensures r.Abstract(pools, d) == Step(old(s.Abstract(pools, d)), item)
    {
      match item
      case StartCollection => r := OpenItem(d, s);
      case EndCollection => r := CloseItem(d, s);
      case Input => r := InputItem(d, s);
      case ReportId(raw) =>
        if s.current.In? {
          ReportIdItem(s, d, raw);
        }
        r := s;
      case _ => r := s.Global(item);
    }
  }

  /** The local variables of parse_report_descriptor. */
  datatype Locals = Locals(
    template: Member, current: Current, currentMember: int, level: int,
    table: seq<nat>, count: nat, topUsagePage: nat, topUsage: nat)
  {
    /** The items that only change local variables. */
    function Global(item: Item): (r: Locals)
      requires |table| == USAGE_COUNT
    {
      match item
      case UsagePage(raw) =>
        if level == 0 then this.(topUsagePage := raw) else this.(template := template.(usagePage := raw))
      case Usage(raw) =>
        if count >= USAGE_COUNT then this
        else if level == 0 then this.(topUsage := raw)
        else this.(table := table[count := raw], count := count + 1)
      case UsageMinimum(data) => this.(template := template.(usageMinimum := data))
      case UsageMaximum(data) => this.(template := template.(usageMaximum := data))
      case LogicalMinimum(data) => this.(template := template.(logicalMinimum := data))
      case LogicalMaximum(data) => this.(template := template.(logicalMaximum := data))
      case ReportSize(raw) => this.(template := template.(reportSize := raw % 256))
      case ReportCount(raw) => this.(template := template.(reportCount := raw % 256))
      case _ => this
    }

    ghost predicate Matches(pools: Pools, d: nat) {
      && d < DEVICE_COUNT && Fits(Abstract(pools, d))
      && IsLast(currentMember, pools, current)
    }

    ghost function Abstract(pools: Pools, d: nat): Parse {
      Parse(pools, d, template, current, level, table, count, topUsagePage, topUsage)
    }
  }

  lemma OpenedShaped(p: Pools, c: nat, header: Collection)
    requires Shaped(p, NoCollection) && c < COLLECTION_COUNT && p.parts[c] == []
    ensures Shaped(p, In(c)) && Shaped(p.(collections := p.collections[c := header]), In(c))
  {
    assert UsedCollections(p.parts) - {c} == UsedCollections(p.parts) - {};
  }

  function LastOf(list: seq<nat>): int {
    if list == [] then NULL else list[|list| - 1]
  }

  /** The current member is the last one of the current collection. Outside a collection it is none, or
      one that is not in use. */
  predicate IsLast(m: int, p: Pools, current: Current)
    requires Sized(p) && (current.In? ==> current.collection < COLLECTION_COUNT)
  {
    if current.In? then m == LastOf(p.parts[current.collection])
    else m == NULL || (0 <= m < MEMBER_COUNT && p.members[m].reportSize == 0)
  }

  /** New members for the current collection, or for none */
  function Filled(p: Pools, current: Current, template: Member, usages: seq<nat>): (r: Pools)
    requires Sized(p) && (current.In? ==> current.collection < COLLECTION_COUNT)
  {
    if current.In? then HidPools.AddMembers(p, current.collection, template, usages)
    else p.(members := AddLoose(p.members, template, usages))
  }

  lemma AddFacts(ds: seq<DeviceNode>, cs: seq<CollectionNode>, ms: seq<MemberNode>, p: Pools, c: nat, m: nat, x: Member)
    requires Represents(ds, cs, ms, p, In(c)) && c < COLLECTION_COUNT && m < MEMBER_COUNT
    requires p.members[m].reportSize == 0 && x.reportSize > 0
    ensures cs[c].start == Head(p.parts[c], 0) && InRange(p.parts[c], MEMBER_COUNT) && m !in p.parts[c]
    ensures p.parts[c] != [] ==> p.parts[c][|p.parts[c]| - 1] != m
  {
    ShapedInRange(p, In(c));
    WithMemberShaped(p, c, m, x);
    assert Starts(cs)[c] == cs[c].start;
    if p.parts[c] != [] {
      assert p.parts[c][|p.parts[c]| - 1] in p.parts[c];
    }
  }

  /** The collections of the list are zeroed. */
  function Cleared(cs: seq<CollectionNode>, list: seq<nat>): (r: seq<CollectionNode>)
    ensures |r| == |cs|
    ensures forall c :: 0 <= c < |r| ==> r[c] == if c in list then NO_COLLECTION else cs[c]
  {
    seq(|cs|, c requires 0 <= c < |cs| => if c in list then NO_COLLECTION else cs[c])
  }

  lemma ClearedOneMore(cs: seq<CollectionNode>, a: seq<nat>, c: nat)
    requires c < |cs|
    ensures Cleared(cs, a)[c := NO_COLLECTION] == Cleared(cs, a + [c])
  {
  }

  lemma NotYetCleared(cs: seq<CollectionNode>, list: seq<nat>, i: nat)
    requires Linked(CollectionLinks(cs), Head(list, 0), list) && NoDuplicates(list) && i < |list|
    ensures list[i] < |cs| && Cleared(cs, list[..i])[list[i]].next == Head(list, i + 1)
    ensures Cleared(cs, list[..i])[list[i] := NO_COLLECTION] == Cleared(cs, list[..i + 1])
  {
    LinkAt(cs, list, i);
    NotBefore(list, i);
    ClearedOneMore(cs, list[..i], list[i]);
    assert list[..i + 1] == list[..i] + [list[i]];
  }

  lemma LinkAt(cs: seq<CollectionNode>, list: seq<nat>, i: nat)
    requires Linked(CollectionLinks(cs), Head(list, 0), list) && i < |list|
    ensures list[i] < |cs| && cs[list[i]].next == Head(list, i + 1)
  {
    LinkedNext(CollectionLinks(cs), Head(list, 0), list, i);
  }

  lemma NotBefore(list: seq<nat>, i: nat)
    requires NoDuplicates(list) && i < |list|
    ensures list[i] !in list[..i]
  {
  }

  lemma DeleteUnrolled(p: Pools, list: seq<nat>, i: nat)
    requires Sized(p) && InRange(list, COLLECTION_COUNT) && i < |list|
    ensures DeleteCollections(p, list[i..]) == DeleteCollections(HidPools.DeleteCollection(p, list[i]), list[i + 1..])
  {
  }

  lemma ClearedUnlinked(cs: seq<CollectionNode>, cs': seq<CollectionNode>, p: Pools, d: nat)
    requires Shaped(p, NoCollection) && d < DEVICE_COUNT && InRange(p.owned[d], COLLECTION_COUNT)
    requires |cs| == COLLECTION_COUNT && Unlinked(cs, p, NoCollection) && cs' == Cleared(cs, p.owned[d])
    ensures Unlinked(cs', HidPools.ClearDevice(p, d), NoCollection)
  {
    DeleteCollectionsShaped(p, p.owned[d]);
    var q := HidPools.ClearDevice(p, d);
    forall c | 0 <= c < COLLECTION_COUNT && q.parts[c] == []
      ensures cs'[c].next == NULL
    {
      assert c !in UsedCollections(q.parts);
      assert c in p.owned[d] || c !in UsedCollections(p.parts);
    }
  }
}
