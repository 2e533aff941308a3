/** What the device table says after a parse, independently of slots: the reports of the
    descriptor, as a parser without pools reads them; and that every other device is untouched. */
module HidContents {
  import opened HidPools
  import opened HidShape

  /** One collection with its members, in order. */
  datatype Report = Report(header: Collection, members: seq<Member>)

  function ReportOf(p: Pools, c: nat): Report
    requires Sized(p) && c < COLLECTION_COUNT && InRange(p.parts[c], MEMBER_COUNT)
  {
    Report(p.collections[c],
           seq(|p.parts[c]|, i requires 0 <= i < |p.parts[c]| => p.members[p.parts[c][i]]))
  }

  function ReportsOf(p: Pools, list: seq<nat>): seq<Report>
    requires Sized(p) && InRange(list, COLLECTION_COUNT) && ListsInRange(p.parts, MEMBER_COUNT)
  {
    seq(|list|, i requires 0 <= i < |list| => ReportOf(p, list[i]))
  }

  /** The contents of one entry of the device table. */
  function Contents(p: Pools, d: nat): seq<Report>
    requires Sized(p) && d < DEVICE_COUNT
    requires ListsInRange(p.owned, COLLECTION_COUNT) && ListsInRange(p.parts, MEMBER_COUNT)
  {
    ReportsOf(p, p.owned[d])
  }

  // ---------- a parser without pools ----------

  /** The parser's variables, with reports in place of slots. Opening a collection does not clear
      the id its slot was left with, so the ids of the free slots are kept, in the order in which
      the slots are taken. own says whether the open collection has set an id itself. */
  datatype Pure = Pure(
    finished: seq<Report>, open: seq<Report>, own: bool, template: Member, level: int,
    table: seq<nat>, count: nat, topUsagePage: nat, topUsage: nat, room: nat, left: seq<nat>)

  predicate PureFits(s: Pure) {
    && |s.table| == USAGE_COUNT && s.count <= USAGE_COUNT
    && |s.open| == if s.level > 0 then 1 else 0
  }

  function NewMembers(template: Member, usages: seq<nat>): seq<Member> {
    seq(|usages|, i requires 0 <= i < |usages| => template.(usage := usages[i]))
  }

  function Fitting(usages: seq<nat>, room: nat): (r: seq<nat>)
    ensures |r| <= room && r <= usages
  {
    if |usages| <= room then usages else usages[..room]
  }

  /** Outside a collection an input adds nothing. */
  function PureInput(s: Pure): (r: Pure)
    requires PureFits(s)
    ensures PureFits(r)
  {
    var us := s.table[..if s.count == 0 then 1 else s.count];
    var t := s.template.(reportCount := s.template.reportCount / |us|);
    var fresh_ := if s.level > 0 then Fitting(us, s.room) else [];
    s.(open := if s.level > 0 then [s.open[0].(members := s.open[0].members + NewMembers(t, fresh_))] else [],
       room := s.room - |fresh_|, template := ClearLocal(t), table := NoUsages(), count := 0)
  }

  /** The next top-level collection, if a slot is left for it. With carry it has the id its slot was left
      with, as in the source; without, a collection has no id until it sets one. */
  function PureOpen(s: Pure, carry: bool): (r: Pure)
    requires PureFits(s) && s.level == 0
    ensures PureFits(r)
  {
    if s.left == [] then s
    else
      var header := Collection(if carry then s.left[0] else 0, s.topUsagePage, s.topUsage);
      s.(open := [Report(header, [])], own := false, count := 0, level := 1, left := s.left[1..])
  }

  /** A collection without members gives its slot back, with the id it has now. */
  function PureClose(s: Pure): (r: Pure)
    requires PureFits(s) && s.level == 1
    ensures PureFits(r)
  {
    var made := s.open[0].members != [];
    s.(finished := if made then s.finished + s.open else s.finished,
       left := if made then s.left else [s.open[0].header.id] + s.left,
       open := [], count := 0, level := 0)
  }

  function PureStep(s: Pure, item: Item, carry: bool): (r: Pure)
    requires PureFits(s)
    ensures PureFits(r)
  {
    match item
    case StartCollection => if s.level != 0 then s.(count := 0, level := s.level + 1) else PureOpen(s, carry)
    case EndCollection => if s.level != 1 then s.(level := s.level - 1) else PureClose(s)
    case ReportId(raw) =>
      if s.level > 0 then s.(open := [s.open[0].(header := s.open[0].header.(id := raw % 256))], own := true) else s
    case UsagePage(raw) =>
      if s.level == 0 then s.(topUsagePage := raw) else s.(template := s.template.(usagePage := raw))
    case Usage(raw) =>
      if s.count >= USAGE_COUNT then s
      else if s.level == 0 then s.(topUsage := raw)
      else s.(table := s.table[s.count := raw], count := s.count + 1)
    case UsageMinimum(data) => s.(template := s.template.(usageMinimum := data))
    case UsageMaximum(data) => s.(template := s.template.(usageMaximum := data))
    case LogicalMinimum(data) => s.(template := s.template.(logicalMinimum := data))
    case LogicalMaximum(data) => s.(template := s.template.(logicalMaximum := data))
    case ReportSize(raw) => s.(template := s.template.(reportSize := raw % 256))
    case ReportCount(raw) => s.(template := s.template.(reportCount := raw % 256))
    case Input => PureInput(s)
    case Ignored => s
  }

  function PureSteps(s: Pure, items: seq<Item>, carry: bool): (r: Pure)
    requires PureFits(s)
    decreases |items|
  {
    if items == [] then s else PureSteps(PureStep(s, items[0], carry), items[1..], carry)
  }

  /** Reports without an id, other than the first, are joined to the one before. */
  function Merge(reports: seq<Report>, j: nat): seq<Report>
    decreases |reports| - j
  {
    if j + 1 >= |reports| then reports
    else if reports[j + 1].header.id == 0 then
      var joined := reports[j].(members := reports[j].members + reports[j + 1].members);
      Merge(reports[..j] + [joined] + reports[j + 2..], j)
    else Merge(reports, j + 1)
  }

  // ---------- the pools follow the parser without pools ----------

  predicate IsFree(p: Pools, current: Current, c: nat)
    requires Sized(p) && c < COLLECTION_COUNT
  {
    p.parts[c] == [] && current != In(c)
  }

  /** The ids left in the free collection slots, from a slot on */
  function LeftIds(p: Pools, current: Current, c: nat): seq<nat>
    requires Sized(p) && c <= COLLECTION_COUNT
    decreases COLLECTION_COUNT - c
  {
    if c == COLLECTION_COUNT then []
    else if IsFree(p, current, c) then [p.collections[c].id] + LeftIds(p, current, c + 1)
    else LeftIds(p, current, c + 1)
  }

  lemma {:induction false} SameLeft(p: Pools, current: Current, q: Pools, next: Current, c: nat)
    requires Sized(p) && Sized(q) && c <= COLLECTION_COUNT
    requires forall k :: c <= k < COLLECTION_COUNT ==>
      && (IsFree(p, current, k) <==> IsFree(q, next, k))
      && (IsFree(p, current, k) ==> p.collections[k].id == q.collections[k].id)
    ensures LeftIds(p, current, c) == LeftIds(q, next, c)
    decreases COLLECTION_COUNT - c
  {
    if c < COLLECTION_COUNT { SameLeft(p, current, q, next, c + 1); }
  }

  /** Below this slot all are taken. */
  predicate AllTaken(p: Pools, c: nat)
    requires Sized(p) && c <= COLLECTION_COUNT
  {
    forall k :: 0 <= k < c ==> p.parts[k] != []
  }

  /** Being the first free slot: its id stands in front of the others. */
  lemma {:induction false} FirstLeft(p: Pools, c: nat, from: nat)
    requires Sized(p) && from <= c < COLLECTION_COUNT && AllTaken(p, c) && p.parts[c] == []
    ensures LeftIds(p, NoCollection, from) == [p.collections[c].id] + LeftIds(p, In(c), from)
    decreases c - from
  {
    if from < c {
      FirstLeft(p, c, from + 1);
    } else {
      SameLeft(p, NoCollection, p, In(c), c + 1);
    }
  }

  ghost predicate Follows(s: Parse, u: Pure) {
    && Ready(s) && Shaped(s.pools, s.current) && PureFits(u)
    && ListsInRange(s.pools.parts, MEMBER_COUNT)
    && u.finished == Contents(s.pools, s.device)
    && u.template == s.template && u.level == s.level && u.table == s.table && u.count == s.count
    && u.topUsagePage == s.topUsagePage && u.topUsage == s.topUsage
    && (s.level > 0 ==>
          u.open[0] == ReportOf(s.pools, s.current.collection) && AllTaken(s.pools, s.current.collection))
    && u.room == Room(s.pools.members)
    && u.left == LeftIds(s.pools, s.current, 0)
  }

  /** How many members are still free. */
  function Room(members: seq<Member>): (n: nat)
    ensures n <= |members|
  {
    if members == [] then 0
    else Room(members[..|members| - 1]) + if members[|members| - 1].reportSize == 0 then 1 else 0
  }

  lemma {:induction false} TakeRoom(members: seq<Member>, m: nat, x: Member)
    requires m < |members| && members[m].reportSize == 0 && x.reportSize != 0
    ensures Room(members) == Room(members[m := x]) + 1
  {
    var n := |members| - 1;
    if m == n {
      assert members[m := x][..n] == members[..n];
    } else {
      assert members[m := x][..n] == members[..n][m := x];
      TakeRoom(members[..n], m, x);
    }
  }

  lemma {:induction false} NoRoom(members: seq<Member>)
    requires forall m :: 0 <= m < |members| ==> members[m].reportSize != 0
    ensures Room(members) == 0
  {
    if members != [] {
      NoRoom(members[..|members| - 1]);
    }
  }

  /** Reports do not depend on slots outside their lists. */
  lemma SameReports(p: Pools, q: Pools, list: seq<nat>)
    requires Sized(p) && Sized(q) && InRange(list, COLLECTION_COUNT)
    requires ListsInRange(p.parts, MEMBER_COUNT) && ListsInRange(q.parts, MEMBER_COUNT)
    requires forall i :: 0 <= i < |list| ==>
      && q.collections[list[i]] == p.collections[list[i]] && q.parts[list[i]] == p.parts[list[i]]
      && forall k :: 0 <= k < |p.parts[list[i]]| ==> q.members[p.parts[list[i]][k]] == p.members[p.parts[list[i]][k]]
    ensures ReportsOf(q, list) == ReportsOf(p, list)
  {
    forall i | 0 <= i < |list|
      ensures ReportOf(q, list[i]) == ReportOf(p, list[i])
    {
    }
  }

  lemma FittingMore(template: Member, usages: seq<nat>, room: nat)
    requires usages != [] && room > 0
    ensures NewMembers(template, Fitting(usages, room))
         == [template.(usage := usages[0])] + NewMembers(template, Fitting(usages[1..], room - 1))
  {
  }

  ghost predicate Added(p: Pools, r: Pools, c: nat, template: Member, usages: seq<nat>, list: seq<nat>)
    requires Sized(p) && Sized(r) && c < COLLECTION_COUNT && InRange(list, COLLECTION_COUNT)
    requires ListsInRange(p.parts, MEMBER_COUNT)
  {
    var new_ := Fitting(usages, Room(p.members));
    && ListsInRange(r.parts, MEMBER_COUNT)
    && ReportOf(r, c) == ReportOf(p, c).(members := ReportOf(p, c).members + NewMembers(template, new_))
    && Room(r.members) == Room(p.members) - |new_|
    && ReportsOf(r, list) == ReportsOf(p, list)
  }

  lemma AddedNone(p: Pools, c: nat, template: Member, usages: seq<nat>, list: seq<nat>)
    requires Sized(p) && c < COLLECTION_COUNT && InRange(list, COLLECTION_COUNT)
    requires ListsInRange(p.parts, MEMBER_COUNT)
    requires usages == [] || Room(p.members) == 0
    ensures Added(p, p, c, template, usages, list)
  {
  }

  lemma AddedMore(p: Pools, q: Pools, r: Pools, c: nat, template: Member, usages: seq<nat>, list: seq<nat>)
    requires Sized(p) && Sized(q) && Sized(r) && c < COLLECTION_COUNT && InRange(list, COLLECTION_COUNT)
    requires ListsInRange(p.parts, MEMBER_COUNT) && ListsInRange(q.parts, MEMBER_COUNT)
    requires usages != [] && Room(p.members) > 0
    requires ReportOf(q, c) == ReportOf(p, c).(members := ReportOf(p, c).members + [template.(usage := usages[0])])
    requires Room(q.members) == Room(p.members) - 1 && ReportsOf(q, list) == ReportsOf(p, list)
    requires Added(q, r, c, template, usages[1..], list)
    ensures Added(p, r, c, template, usages, list)
  {
    FittingMore(template, usages, Room(p.members));
  }

  lemma {:induction false} AddFollows(p: Pools, c: nat, template: Member, usages: seq<nat>, list: seq<nat>)
    requires Shaped(p, In(c)) && c < COLLECTION_COUNT
    requires template.reportSize > 0 || FirstFreeMember(p.members, 0) == MEMBER_COUNT
    requires ListsInRange(p.parts, MEMBER_COUNT) && InRange(list, COLLECTION_COUNT) && c !in list
    ensures Added(p, AddMembers(p, c, template, usages), c, template, usages, list)
    decreases |usages|
  {
    var m := FirstFreeMember(p.members, 0);
    if m == MEMBER_COUNT {
      NoRoom(p.members);
    }
    if usages == [] || m == MEMBER_COUNT {
      AddedNone(p, c, template, usages, list);
    } else {
      var x := template.(usage := usages[0]);
      var q := p.(members := p.members[m := x], parts := p.parts[c := p.parts[c] + [m]]);
      AddOne(p, c, x, m, list);
      TakeRoom(p.members, m, x);
      PartitionAppend(p.parts, UsedMembers(p.members), c, m);
      assert UsedCollections(q.parts) - {c} == UsedCollections(p.parts) - {c};
      AddFollows(q, c, template, usages[1..], list);
      AddedMore(p, q, AddMembers(q, c, template, usages[1..]), c, template, usages, list);
    }
  }

  lemma AddOne(p: Pools, c: nat, member: Member, m: nat, list: seq<nat>)
    requires Shaped(p, In(c)) && c < COLLECTION_COUNT && member.reportSize > 0
    requires m < MEMBER_COUNT && p.members[m].reportSize == 0
    requires ListsInRange(p.parts, MEMBER_COUNT) && InRange(list, COLLECTION_COUNT) && c !in list
    ensures var q := p.(members := p.members[m := member], parts := p.parts[c := p.parts[c] + [m]]);
      && ListsInRange(q.parts, MEMBER_COUNT)
      && ReportOf(q, c) == ReportOf(p, c).(members := ReportOf(p, c).members + [member])
      && UsedMembers(q.members) == UsedMembers(p.members) + {m} && m !in UsedMembers(p.members)
      && ReportsOf(q, list) == ReportsOf(p, list)
  {
    var q := p.(members := p.members[m := member], parts := p.parts[c := p.parts[c] + [m]]);
    forall i, k | 0 <= i < |list| && 0 <= k < |p.parts[list[i]]|
      ensures p.parts[list[i]][k] != m
    {
      InUse(p.parts, UsedMembers(p.members), list[i], k);
    }
    forall k | 0 <= k < |p.parts[c]|
      ensures p.parts[c][k] != m
    {
      InUse(p.parts, UsedMembers(p.members), c, k);
    }
    assert forall i :: 0 <= i < |list| ==> list[i] in list;
    SameReports(p, q, list);
  }

  // ---------- the items, one by one ----------

  lemma NotOwned(p: Pools, c: nat, d: nat)
    requires Shaped(p, In(c)) && d < DEVICE_COUNT
    ensures c !in p.owned[d]
  {
    forall i | 0 <= i < |p.owned[d]|
      ensures p.owned[d][i] != c
    {
      InUse(p.owned, UsedCollections(p.parts) - {c}, d, i);
    }
  }

  lemma InputLeft(s: Parse)
    requires Ready(s)
    ensures LeftIds(DoInput(s).pools, s.current, 0) == LeftIds(s.pools, s.current, 0)
  {
    if s.current.In? {
      AddKeepsOthers(s.pools, s.current.collection, InputTemplate(s), InputUsages(s));
    }
    SameLeft(s.pools, s.current, DoInput(s).pools, s.current, 0);
  }

  /** An input in a collection fills it, and touches nothing in the given list. */
  lemma InputAdds(s: Parse, list: seq<nat>)
    requires Ready(s) && Shaped(s.pools, s.current) && s.level > 0 && !Wastes(s, Input)
    requires ListsInRange(s.pools.parts, MEMBER_COUNT) && InRange(list, COLLECTION_COUNT)
    requires s.current.collection !in list
    ensures var r := DoInput(s);
      && Ready(r) && Shaped(r.pools, r.current) && r.pools.owned == s.pools.owned
      && r.pools.interfaces == s.pools.interfaces
      && r.pools.parts[..s.current.collection] == s.pools.parts[..s.current.collection]
      && Added(s.pools, r.pools, s.current.collection, InputTemplate(s), InputUsages(s), list)
  {
    var c := s.current.collection;
    InputShapedExactly(s);
    AddFollows(s.pools, c, InputTemplate(s), InputUsages(s), list);
    AddKeepsOthers(s.pools, c, InputTemplate(s), InputUsages(s));
  }

  lemma {:induction false} SameRoom(members: seq<Member>, r: seq<Member>)
    requires |r| == |members| && forall k :: 0 <= k < |members| ==> r[k].reportSize == members[k].reportSize
    ensures Room(r) == Room(members)
  {
    if members != [] {
      SameRoom(members[..|members| - 1], r[..|members| - 1]);
    }
  }

  /** An input outside a collection, without a size or without room, changes nothing that is in use. */
  lemma LooseChangesNothing(s: Parse, list: seq<nat>)
    requires Ready(s) && Shaped(s.pools, s.current) && s.level <= 0 && !Wastes(s, Input)
    requires ListsInRange(s.pools.parts, MEMBER_COUNT) && InRange(list, COLLECTION_COUNT)
    ensures var q := DoInput(s).pools;
      && ListsInRange(q.parts, MEMBER_COUNT) && ReportsOf(q, list) == ReportsOf(s.pools, list)
      && Room(q.members) == Room(s.pools.members)
  {
    var p, q := s.pools, DoInput(s).pools;
    if FirstFreeMember(p.members, 0) < MEMBER_COUNT {
      LooseSizes(p.members, InputTemplate(s), InputUsages(s));
      SameRoom(p.members, q.members);
    }
    forall i, k | 0 <= i < |list| && 0 <= k < |p.parts[list[i]]|
      ensures q.members[p.parts[list[i]][k]] == p.members[p.parts[list[i]][k]]
    {
      InUse(p.parts, UsedMembers(p.members), list[i], k);
      LooseKeeps(p.members, InputTemplate(s), InputUsages(s), p.parts[list[i]][k]);
    }
    SameReports(p, q, list);
  }

  lemma InputFollows(s: Parse, u: Pure)
    requires Follows(s, u) && !Wastes(s, Input)
    ensures Follows(DoInput(s), PureInput(u))
  {
    InputLeft(s);
    if s.level > 0 {
      var c := s.current.collection;
      NotOwned(s.pools, c, s.device);
      InputAdds(s, s.pools.owned[s.device]);
      assert forall k :: 0 <= k < c ==> DoInput(s).pools.parts[k] == DoInput(s).pools.parts[..c][k];
    } else {
      LooseChangesNothing(s, s.pools.owned[s.device]);
      InputShapedExactly(s);
      StepReady(s, Input);
    }
  }

  /** No slot, no id */
  lemma {:induction false} NoneLeft(p: Pools, c: nat)
    requires Sized(p) && c <= COLLECTION_COUNT && AllTaken(p, COLLECTION_COUNT)
    ensures LeftIds(p, NoCollection, c) == []
    decreases COLLECTION_COUNT - c
  {
    if c < COLLECTION_COUNT { NoneLeft(p, c + 1); }
  }

  lemma OpenFollows(s: Parse, u: Pure)
    requires Follows(s, u)
    ensures Follows(Open(s), PureStep(u, StartCollection, true))
  {
    OpenShaped(s);
    if s.level == 0 && FirstEmpty(s.pools.parts, 0) == COLLECTION_COUNT {
      NoneLeft(s.pools, 0);
    } else if s.level == 0 {
      var c := FirstEmpty(s.pools.parts, 0);
      var p, q := s.pools, Open(s).pools;
      var list := p.owned[s.device];
      forall i | 0 <= i < |list|
        ensures list[i] != c
      {
        InUse(p.owned, UsedCollections(p.parts) - {}, s.device, i);
      }
      SameReports(p, q, list);
      FirstLeft(p, c, 0);
      SameLeft(p, In(c), q, In(c), 0);
      assert ReportOf(q, c) == Report(Collection(p.collections[c].id, s.topUsagePage, s.topUsage), []);
    }
  }

  lemma CloseFollows(s: Parse, u: Pure)
    requires Follows(s, u)
    ensures Follows(Close(s), PureStep(u, EndCollection, true))
  {
    CloseShaped(s);
    if s.level == 1 {
      var p, q, c := s.pools, Close(s).pools, s.current.collection;
      assert u.open == [ReportOf(p, c)];
      if p.parts[c] != [] {
        assert ReportOf(p, c).members != [] by { assert |ReportOf(p, c).members| == |p.parts[c]|; }
        assert ReportsOf(q, p.owned[s.device] + [c]) == ReportsOf(p, p.owned[s.device]) + [ReportOf(p, c)];
        SameLeft(p, In(c), q, NoCollection, 0);
      } else {
        assert |ReportOf(p, c).members| == 0;
        FirstLeft(q, c, 0);
      }
    }
  }

  lemma ReportIdFollows(s: Parse, u: Pure, raw: nat)
    requires Follows(s, u)
    ensures Follows(Step(s, ReportId(raw)), PureStep(u, ReportId(raw), true))
  {
    if s.level > 0 {
      var p, q, c := s.pools, Step(s, ReportId(raw)).pools, s.current.collection;
      NotOwned(p, c, s.device);
      assert forall i :: 0 <= i < |p.owned[s.device]| ==> p.owned[s.device][i] in p.owned[s.device];
      SameReports(p, q, p.owned[s.device]);
      SameLeft(p, In(c), q, In(c), 0);
    }
  }

  lemma StepFollows(s: Parse, u: Pure, item: Item)
    requires Follows(s, u) && !Wastes(s, item)
    ensures Follows(Step(s, item), PureStep(u, item, true))
  {
    match item
    case StartCollection => OpenFollows(s, u);
    case EndCollection => CloseFollows(s, u);
    case ReportId(raw) => ReportIdFollows(s, u, raw);
    case Input => InputFollows(s, u);
    case _ =>
  }

  lemma {:induction false} StepsFollow(s: Parse, u: Pure, items: seq<Item>)
    requires Follows(s, u) && Harmless(s, items)
    ensures Follows(Steps(s, items), PureSteps(u, items, true))
    decreases |items|
  {
    if items != [] {
      StepReady(s, items[0]);
      StepFollows(s, u, items[0]);
      StepsFollow(Step(s, items[0]), PureStep(u, items[0], true), items[1..]);
    }
  }

  // ---------- merging ----------

  lemma MergeOne(p: Pools, d: nat, j: nat)
    requires Shaped(p, NoCollection) && d < DEVICE_COUNT && j + 1 < |p.owned[d]|
    requires ListsInRange(p.owned, COLLECTION_COUNT) && ListsInRange(p.parts, MEMBER_COUNT)
    requires p.collections[p.owned[d][j + 1]].id == 0
    ensures var list := p.owned[d];
      var base, c := list[j], list[j + 1];
      var q := p.(parts := p.parts[base := p.parts[base] + p.parts[c]][c := []],
                  collections := p.collections[c := EMPTY_COLLECTION],
                  owned := p.owned[d := list[..j + 1] + list[j + 2..]]);
      var r := Contents(p, d);
      && Shaped(q, NoCollection)
      && ListsInRange(q.owned, COLLECTION_COUNT) && ListsInRange(q.parts, MEMBER_COUNT)
      && Contents(q, d) == r[..j] + [r[j].(members := r[j].members + r[j + 1].members)] + r[j + 2..]
      && (forall e :: 0 <= e < DEVICE_COUNT && e != d ==> Contents(q, e) == Contents(p, e))
  {
    var list := p.owned[d];
    var base, c := list[j], list[j + 1];
    var used := UsedCollections(p.parts);
    Unshared(p.owned, used - {}, d, j, d, j + 1);
    InUse(p.owned, used - {}, d, j);
    InUse(p.owned, used - {}, d, j + 1);
    var parts := p.parts[base := p.parts[base] + p.parts[c]][c := []];
    var q := p.(parts := parts, collections := p.collections[c := EMPTY_COLLECTION],
                owned := p.owned[d := list[..j + 1] + list[j + 2..]]);
    PartitionMove(p.parts, UsedMembers(p.members), base, c);
    PartitionRemove(p.owned, used - {}, d, j + 1);
    assert UsedCollections(parts) - {} == used - {} - {c};
    ShapedInRange(q, NoCollection);
    var r := Contents(p, d);
    assert ReportOf(q, base) == r[j].(members := r[j].members + r[j + 1].members);
    forall i | 0 <= i < |list| && i != j && i != j + 1
      ensures ReportOf(q, list[i]) == r[i]
    {
      Unshared(p.owned, used - {}, d, i, d, j);
      Unshared(p.owned, used - {}, d, i, d, j + 1);
    }
    forall e | 0 <= e < DEVICE_COUNT && e != d
      ensures Contents(q, e) == Contents(p, e)
    {
      forall i | 0 <= i < |p.owned[e]|
        ensures p.owned[e][i] != base && p.owned[e][i] != c
      {
        Unshared(p.owned, used - {}, e, i, d, j);
        Unshared(p.owned, used - {}, e, i, d, j + 1);
      }
      SameReports(p, q, p.owned[e]);
    }
  }

  lemma {:induction false} CompressFollows(p: Pools, d: nat, j: nat)
    requires Shaped(p, NoCollection) && d < DEVICE_COUNT
    requires ListsInRange(p.owned, COLLECTION_COUNT) && ListsInRange(p.parts, MEMBER_COUNT)
    ensures var r := Compress(p, d, j);
      && ListsInRange(r.owned, COLLECTION_COUNT) && ListsInRange(r.parts, MEMBER_COUNT)
      && Contents(r, d) == Merge(Contents(p, d), j)
      && (forall e :: 0 <= e < DEVICE_COUNT && e != d ==> Contents(r, e) == Contents(p, e))
    decreases |p.owned[d]| - j
  {
    var list := p.owned[d];
    if j + 1 < |list| {
      var base, c := list[j], list[j + 1];
      if p.collections[c].id == 0 {
        MergeOne(p, d, j);
        CompressFollows(p.(parts := p.parts[base := p.parts[base] + p.parts[c]][c := []],
                           collections := p.collections[c := EMPTY_COLLECTION],
                           owned := p.owned[d := list[..j + 1] + list[j + 2..]]), d, j);
      } else {
        CompressFollows(p, d, j + 1);
      }
    }
  }

  // ---------- the other devices ----------

  lemma StepKeeps(s: Parse, item: Item, e: nat)
    requires Ready(s) && Shaped(s.pools, s.current) && e < DEVICE_COUNT && e != s.device
    requires ListsInRange(s.pools.parts, MEMBER_COUNT) && !Wastes(s, item)
    ensures var q := Step(s, item).pools;
      && Ready(Step(s, item)) && Step(s, item).device == s.device
      && ListsInRange(q.parts, MEMBER_COUNT) && q.interfaces == s.pools.interfaces
      && Contents(q, e) == Contents(s.pools, e)
  {
    var p, q := s.pools, Step(s, item).pools;
    StepReady(s, item);
    StepShapedExactly(s, item);
    ShapedInRange(q, Step(s, item).current);
    assert forall i :: 0 <= i < |p.owned[e]| ==> p.owned[e][i] in p.owned[e];
    if item.Input? {
      if s.level > 0 {
        NotOwned(p, s.current.collection, e);
        InputAdds(s, p.owned[e]);
      } else {
        LooseChangesNothing(s, p.owned[e]);
      }
    } else if item.ReportId? && s.current.In? {
      NotOwned(p, s.current.collection, e);
      SameReports(p, q, p.owned[e]);
    } else if item.StartCollection? && s.level == 0 {
      forall i | 0 <= i < |p.owned[e]|
        ensures p.parts[p.owned[e][i]] != []
      {
        InUse(p.owned, UsedCollections(p.parts) - {}, e, i);
      }
      SameReports(p, q, p.owned[e]);
    }
  }

  lemma {:induction false} StepsKeep(s: Parse, items: seq<Item>, e: nat)
    requires Ready(s) && Shaped(s.pools, s.current) && e < DEVICE_COUNT && e != s.device
    requires ListsInRange(s.pools.parts, MEMBER_COUNT) && Harmless(s, items)
    ensures var q := Steps(s, items).pools;
      && ListsInRange(q.parts, MEMBER_COUNT) && q.interfaces == s.pools.interfaces
      && Contents(q, e) == Contents(s.pools, e)
    decreases |items|
  {
    if items != [] {
      StepReady(s, items[0]);
      StepShapedExactly(s, items[0]);
      StepKeeps(s, items[0], e);
      StepsKeep(Step(s, items[0]), items[1..], e);
    }
  }

  lemma ClearKeeps(p: Pools, d: nat, e: nat)
    requires Shaped(p, NoCollection) && d < DEVICE_COUNT && e < DEVICE_COUNT && e != d
    requires ListsInRange(p.owned, COLLECTION_COUNT) && ListsInRange(p.parts, MEMBER_COUNT)
    ensures var q := ClearDevice(p, d);
      && Shaped(q, NoCollection)
      && ListsInRange(q.owned, COLLECTION_COUNT) && ListsInRange(q.parts, MEMBER_COUNT)
      && Contents(q, e) == Contents(p, e) && q.interfaces[e] == p.interfaces[e]
  {
    ClearDeviceShaped(p, d);
    ShapedInRange(ClearDevice(p, d), NoCollection);
    forall i, k | 0 <= i < |p.owned[e]| && 0 <= k < |p.owned[d]|
      ensures p.owned[e][i] != p.owned[d][k]
    {
      Unshared(p.owned, UsedCollections(p.parts) - {}, e, i, d, k);
    }
    DeleteOthersKeep(p, p.owned[d], p.owned[e]);
  }

  lemma {:induction false} DeleteOthersKeep(p: Pools, gone: seq<nat>, list: seq<nat>)
    requires Sized(p) && Partition(p.parts, UsedMembers(p.members)) && ListsInRange(p.parts, MEMBER_COUNT)
    requires InRange(gone, COLLECTION_COUNT) && InRange(list, COLLECTION_COUNT)
    requires forall i, k :: 0 <= i < |list| && 0 <= k < |gone| ==> list[i] != gone[k]
    ensures var q := DeleteCollections(p, gone);
      ListsInRange(q.parts, MEMBER_COUNT) && ReportsOf(q, list) == ReportsOf(p, list)
    decreases |gone|
  {
    if gone != [] {
      var q := DeleteCollection(p, gone[0]);
      DeleteCollectionShaped(p, gone[0]);
      forall i, k | 0 <= i < |list| && 0 <= k < |p.parts[list[i]]|
        ensures p.parts[list[i]][k] !in p.parts[gone[0]]
      {
        PartSeparate(p.parts, UsedMembers(p.members), list[i]);
        assert p.parts[list[i]][k] in p.parts[list[i]] && list[i] != gone[0];
      }
      SameReports(p, q, list);
      DeleteOthersKeep(q, gone[1..], list);
    }
  }

  lemma {:induction false} DeleteDeviceKeeps(p: Pools, iface: nat, d: nat, e: nat)
    requires Shaped(p, NoCollection) && d <= DEVICE_COUNT && e < DEVICE_COUNT && p.interfaces[e] != iface
    requires ListsInRange(p.owned, COLLECTION_COUNT) && ListsInRange(p.parts, MEMBER_COUNT)
    ensures var q := DeleteDevice(p, iface, d);
      && ListsInRange(q.parts, MEMBER_COUNT)
      && Contents(q, e) == Contents(p, e) && q.interfaces[e] == p.interfaces[e]
    decreases DEVICE_COUNT - d
  {
    if d < DEVICE_COUNT {
      if p.interfaces[d] != iface {
        DeleteDeviceKeeps(p, iface, d + 1, e);
      } else if p.owned[d] != [] {
        ClearKeeps(p, d, e);
        DeleteDeviceKeeps(ClearDevice(p, d), iface, d + 1, e);
      }
    }
  }

  // ---------- a whole parse ----------

  function PureStart(room: nat, left: seq<nat>): (u: Pure)
    ensures PureFits(u) && u.level == 0
  {
    Pure([], [], false, EMPTY_MEMBER, 0, NoUsages(), 0, 0, 0, room, left)
  }

  /** The parser without pools at the start of a parse: the room and the ids the pools are left with,
      once the interface's old collections are deleted */
  function StartOf(p: Pools, iface: nat): (u: Pure)
    requires Sized(p) && ListsInRange(p.owned, COLLECTION_COUNT)
    ensures PureFits(u) && u.level == 0
  {
    var q := DeleteDevice(p, iface, 0);
    PureStart(Room(q.members), LeftIds(q, NoCollection, 0))
  }

  lemma BeginFollows(q: Pools, iface: nat, d: nat)
    requires Shaped(q, NoCollection) && d < DEVICE_COUNT && q.owned[d] == []
    requires ListsInRange(q.owned, COLLECTION_COUNT) && ListsInRange(q.parts, MEMBER_COUNT)
    ensures Follows(Begin(q, iface, d), PureStart(Room(q.members), LeftIds(q, NoCollection, 0)))
    ensures forall e :: 0 <= e < DEVICE_COUNT ==> Contents(Begin(q, iface, d).pools, e) == Contents(q, e)
  {
    BeginReady(q, iface, d);
    SameLeft(q, NoCollection, Begin(q, iface, d).pools, NoCollection, 0);
    forall e | 0 <= e < DEVICE_COUNT
      ensures Contents(Begin(q, iface, d).pools, e) == Contents(q, e)
    {
      SameReports(q, Begin(q, iface, d).pools, q.owned[e]);
    }
  }

  /** For every accepted descriptor, the entry that the parse fills holds the merged reports that the
      parser without pools reads, and the result says whether there are any. */
  lemma ParseReads(p: Pools, iface: nat, items: seq<Item>, d: nat)
    requires Shaped(p, NoCollection) && Accepts(p, iface, items)
    requires d == FirstEmpty(DeleteDevice(p, iface, 0).owned, 0) && d < DEVICE_COUNT
    ensures var r := ParseDescriptor(p, iface, items);
      var u := PureSteps(StartOf(p, iface), items, true);
      && ListsInRange(r.pools.owned, COLLECTION_COUNT) && ListsInRange(r.pools.parts, MEMBER_COUNT)
      && Sized(r.pools)
      && Contents(r.pools, d) == Merge(u.finished, 0)
      && r.ok == (u.finished != [])
  {
    var q := DeleteDevice(p, iface, 0);
    DeleteDeviceShaped(p, iface, 0);
    ShapedInRange(q, NoCollection);
    BeginReady(q, iface, d);
    BeginFollows(q, iface, d);
    StepsFollow(Begin(q, iface, d), StartOf(p, iface), items);
    var s := Steps(Begin(q, iface, d), items);
    EndShapedExactly(s);
    CompressShaped(s.pools, d, 0);
    CompressFollows(s.pools, d, 0);
    assert |Contents(s.pools, d)| == |s.pools.owned[d]|;
  }

  /** A parse leaves the contents of every other device unchanged. */
  lemma OthersKept(p: Pools, iface: nat, items: seq<Item>, d: nat, e: nat)
    requires Shaped(p, NoCollection) && Accepts(p, iface, items)
    requires ListsInRange(p.parts, MEMBER_COUNT)
    requires d == FirstEmpty(DeleteDevice(p, iface, 0).owned, 0) && d < DEVICE_COUNT
    requires e < DEVICE_COUNT && e != d && p.interfaces[e] != iface
    ensures var r := ParseDescriptor(p, iface, items).pools;
      && Sized(r) && ListsInRange(r.owned, COLLECTION_COUNT) && ListsInRange(r.parts, MEMBER_COUNT)
      && Contents(r, e) == Contents(p, e)
  {
    var q := DeleteDevice(p, iface, 0);
    DeleteDeviceShaped(p, iface, 0);
    ShapedInRange(q, NoCollection);
    DeleteDeviceKeeps(p, iface, 0, e);
    BeginReady(q, iface, d);
    BeginFollows(q, iface, d);
    StepsShaped(Begin(q, iface, d), items);
    StepsKeep(Begin(q, iface, d), items, e);
    var s := Steps(Begin(q, iface, d), items);
    EndShapedExactly(s);
    ShapedInRange(s.pools, NoCollection);
    CompressFollows(s.pools, d, 0);
  }
}
