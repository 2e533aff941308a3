/** The static pools of keyboards/keyboard_quantizer/report_descriptor_parser.c with their links
    read as lists, and the descriptor parser as a function on them. A list holds slot numbers. */
module HidPools {

  const DEVICE_COUNT := 8
  const COLLECTION_COUNT := 16
  const MEMBER_COUNT := 32
  const USAGE_COUNT := 32

  datatype Member = Member(
    usagePage: nat, logicalMaximum: int, logicalMinimum: int, reportSize: nat, reportCount: nat,
    usage: nat, usageMaximum: int, usageMinimum: int)

  const EMPTY_MEMBER := Member(0, 0, 0, 0, 0, 0, 0, 0)

  datatype Collection = Collection(id: nat, usagePage: nat, usage: nat)

  const EMPTY_COLLECTION := Collection(0, 0, 0)

  /** owned[d] lists the collections of device d, parts[c] the members of collection c. */
  datatype Pools = Pools(
    interfaces: seq<nat>, owned: seq<seq<nat>>,
    collections: seq<Collection>, parts: seq<seq<nat>>,
    members: seq<Member>)

  predicate Sized(p: Pools) {
    && |p.interfaces| == |p.owned| == DEVICE_COUNT
    && |p.collections| == |p.parts| == COLLECTION_COUNT
    && |p.members| == MEMBER_COUNT
  }

  function Init(): (p: Pools)
    ensures Sized(p)
  {
    Pools(
      seq(DEVICE_COUNT, _ => 0), seq(DEVICE_COUNT, _ => []),
      seq(COLLECTION_COUNT, _ => EMPTY_COLLECTION), seq(COLLECTION_COUNT, _ => []),
      seq(MEMBER_COUNT, _ => EMPTY_MEMBER))
  }

  /** A short item of a report descriptor. raw is its value as uint16, data as int16. */
  datatype Item =
    | StartCollection
    | EndCollection
    | ReportId(raw: nat)
    | UsagePage(raw: nat)
    | Usage(raw: nat)
    | UsageMinimum(data: int)
    | UsageMaximum(data: int)
    | LogicalMinimum(data: int)
    | LogicalMaximum(data: int)
    | ReportSize(raw: nat)
    | ReportCount(raw: nat)
    | Input
    | Ignored

  function NoUsages(): (r: seq<nat>)
    ensures |r| == USAGE_COUNT && forall i :: 0 <= i < |r| ==> r[i] == 0
  {
    seq(USAGE_COUNT, _ => 0)
  }

  /** Eight devices, sixteen collections, thirty-two members, and as many usages for one input */
  lemma PoolSizes()
    ensures |Init().interfaces| == |Init().owned| == 8 && |Init().collections| == |Init().parts| == 16
    ensures |Init().members| == 32 && |NoUsages()| == 32
  {
  }

  // ---------- free slots ----------

  /** find_empty_device: the first device without collections, or the number of devices. */
  function FirstEmpty(lists: seq<seq<nat>>, i: nat): (j: nat)
    requires i <= |lists|
    ensures i <= j <= |lists|
    ensures j < |lists| ==> lists[j] == []
    ensures forall k :: i <= k < j ==> lists[k] != []
    decreases |lists| - i
  {
    if i == |lists| || lists[i] == [] then i else FirstEmpty(lists, i + 1)
  }

  /** find_empty_report_def: the first member whose report size is zero. */
  function FirstFreeMember(members: seq<Member>, i: nat): (j: nat)
    requires i <= |members|
    ensures i <= j <= |members|
    ensures j < |members| ==> members[j].reportSize == 0
    ensures forall k :: i <= k < j ==> members[k].reportSize != 0
    decreases |members| - i
  {
    if i == |members| || members[i].reportSize == 0 then i else FirstFreeMember(members, i + 1)
  }

  // ---------- deletion ----------

  /** Every member of the list is zeroed. */
  function ZeroMembers(members: seq<Member>, list: seq<nat>): (r: seq<Member>)
    ensures |r| == |members|
    ensures forall m :: 0 <= m < |r| ==> r[m] == if m in list then EMPTY_MEMBER else members[m]
  {
    seq(|members|, m requires 0 <= m < |members| => if m in list then EMPTY_MEMBER else members[m])
  }

  /** delete_hid_id_collection */
  function DeleteCollection(p: Pools, c: nat): (r: Pools)
    requires Sized(p) && c < COLLECTION_COUNT
    ensures Sized(r)
  {
    p.(members := ZeroMembers(p.members, p.parts[c]),
       collections := p.collections[c := EMPTY_COLLECTION],
       parts := p.parts[c := []])
  }

  predicate InRange(list: seq<nat>, n: nat) {
    forall i :: 0 <= i < |list| ==> list[i] < n
  }

  function DeleteCollections(p: Pools, list: seq<nat>): (r: Pools)
    requires Sized(p) && InRange(list, COLLECTION_COUNT)
    ensures Sized(r)
    decreases |list|
  {
    if list == [] then p else DeleteCollections(DeleteCollection(p, list[0]), list[1..])
  }

  function ClearDevice(p: Pools, d: nat): (r: Pools)
    requires Sized(p) && d < DEVICE_COUNT && InRange(p.owned[d], COLLECTION_COUNT)
    ensures Sized(r)
  {
    var q := DeleteCollections(p, p.owned[d]);
    q.(interfaces := p.interfaces[d := 0], owned := p.owned[d := []])
  }

  predicate ListsInRange(lists: seq<seq<nat>>, n: nat) {
    forall d :: 0 <= d < |lists| ==> InRange(lists[d], n)
  }

  lemma DeleteKeepsOthers(p: Pools, list: seq<nat>)
    requires Sized(p) && InRange(list, COLLECTION_COUNT)
    ensures var r := DeleteCollections(p, list);
      r.owned == p.owned && r.interfaces == p.interfaces
    decreases |list|
  {
    if list != [] {
      DeleteKeepsOthers(DeleteCollection(p, list[0]), list[1..]);
    }
  }

  /** delete_hid_device, from device d on: a device of this interface without collections ends
      the search. */
  function DeleteDevice(p: Pools, iface: nat, d: nat): (r: Pools)
    requires Sized(p) && ListsInRange(p.owned, COLLECTION_COUNT) && d <= DEVICE_COUNT
    ensures Sized(r) && ListsInRange(r.owned, COLLECTION_COUNT)
    decreases DEVICE_COUNT - d
  {
    if d == DEVICE_COUNT then p
    else if p.interfaces[d] != iface then DeleteDevice(p, iface, d + 1)
    else if p.owned[d] == [] then p
    else
      DeleteKeepsOthers(p, p.owned[d]);
      DeleteDevice(ClearDevice(p, d), iface, d + 1)
  }

  // ---------- the item loop ----------

  /** The local variables of the item loop. The current member is the last one of the current
      collection. The usage table keeps old entries above its count. The level goes below zero when
      collections end that never began. */
  datatype Parse = Parse(
    pools: Pools, device: nat, template: Member, current: Current, level: int,
    table: seq<nat>, count: nat, topUsagePage: nat, topUsage: nat)

  datatype Current = NoCollection | In(collection: nat)

  predicate Fits(s: Parse) {
    && Sized(s.pools) && s.device < DEVICE_COUNT && |s.table| == USAGE_COUNT && s.count <= USAGE_COUNT
    && (s.current.In? ==> s.current.collection < COLLECTION_COUNT)
  }

  /** One new member after another, until no slot is free. */
  function AddMembers(p: Pools, c: nat, template: Member, usages: seq<nat>): (r: Pools)
    requires Sized(p) && c < COLLECTION_COUNT
    ensures Sized(r)
    decreases |usages|
  {
    var m := FirstFreeMember(p.members, 0);
    if usages == [] || m == MEMBER_COUNT then p
    else
      var q := p.(members := p.members[m := template.(usage := usages[0])],
                  parts := p.parts[c := p.parts[c] + [m]]);
      AddMembers(q, c, template, usages[1..])
  }

  lemma AddKeepsOthers(p: Pools, c: nat, template: Member, usages: seq<nat>)
    requires Sized(p) && c < COLLECTION_COUNT
    ensures var r := AddMembers(p, c, template, usages);
      && r.owned == p.owned && r.interfaces == p.interfaces && r.collections == p.collections
      && (forall d :: 0 <= d < COLLECTION_COUNT && d != c ==> r.parts[d] == p.parts[d])
      && p.parts[c] <= r.parts[c]
    decreases |usages|
  {
    var m := FirstFreeMember(p.members, 0);
    if usages != [] && m < MEMBER_COUNT {
      AddKeepsOthers(p.(members := p.members[m := template.(usage := usages[0])],
                        parts := p.parts[c := p.parts[c] + [m]]), c, template, usages[1..]);
    }
  }

  /** Outside a collection the new members are linked to nothing. */
  function AddLoose(members: seq<Member>, template: Member, usages: seq<nat>): (r: seq<Member>)
    ensures |r| == |members|
    decreases |usages|
  {
    var m := FirstFreeMember(members, 0);
    if usages == [] || m == |members| then members
    else AddLoose(members[m := template.(usage := usages[0])], template, usages[1..])
  }

  function ClearLocal(m: Member): Member {
    m.(usage := 0, usageMaximum := 0, usageMinimum := 0)
  }

  /** Without a usage the first entry of the table is used, whatever was left there. */
  function InputUsages(s: Parse): (r: seq<nat>)
    requires Fits(s)
    ensures r != []
  {
    s.table[..if s.count == 0 then 1 else s.count]
  }

  /** The member template of an input, its count divided among the usages */
  function InputTemplate(s: Parse): Member
    requires Fits(s)
  {
    s.template.(reportCount := s.template.reportCount / |InputUsages(s)|)
  }

  /** The start of a collection. A top-level collection for which there is no slot is passed over. */
  function Open(s: Parse): (r: Parse)
    requires Fits(s)
    ensures Fits(r)
  {
    var p := s.pools;
    if s.level != 0 then s.(count := 0, level := s.level + 1)
    else
      var c := FirstEmpty(p.parts, 0);
      if c == COLLECTION_COUNT then s.(current := NoCollection)
      else
        var header := p.collections[c].(usage := s.topUsage, usagePage := s.topUsagePage);
        s.(pools := p.(collections := p.collections[c := header]), current := In(c), count := 0, level := 1)
  }

  function Close(s: Parse): (r: Parse)
    requires Fits(s)
    ensures Fits(r)
  {
    var p := s.pools;
    if s.level != 1 then s.(level := s.level - 1)
    else
      var q :=
        if s.current.In? && p.parts[s.current.collection] != []
        then p.(owned := p.owned[s.device := p.owned[s.device] + [s.current.collection]])
        else p;
      s.(pools := q, current := NoCollection, count := 0, level := 0)
  }

  function DoInput(s: Parse): (r: Parse)
    requires Fits(s)
    ensures Fits(r)
  {
    var t, us := InputTemplate(s), InputUsages(s);
    var q :=
      if s.current.In? then AddMembers(s.pools, s.current.collection, t, us)
      else s.pools.(members := AddLoose(s.pools.members, t, us));
    s.(pools := q, template := ClearLocal(t), table := NoUsages(), count := 0)
  }

  /** The cases of the switch. */
  function Step(s: Parse, item: Item): (r: Parse)
    requires Fits(s)
    ensures Fits(r)
  {
    match item
    case StartCollection => Open(s)
    case EndCollection => Close(s)
    case ReportId(raw) =>
      if s.current.In? then
        var c := s.current.collection;
        s.(pools := s.pools.(collections := s.pools.collections[c := s.pools.collections[c].(id := raw % 256)]))
      else s
    case UsagePage(raw) =>
      if s.level == 0 then s.(topUsagePage := raw) else s.(template := s.template.(usagePage := raw))
    case Usage(raw) =>
      if s.count >= USAGE_COUNT then s
      else if s.level == 0 then s.(topUsage := raw)
      else s.(table := s.table[s.count := raw], count := s.count + 1)
    case UsageMinimum(data) => s.(template := s.template.(usageMinimum := data))
    case UsageMaximum(data) => s.(template := s.template.(usageMaximum := data))
    case LogicalMinimum(data) => s.(template := s.template.(logicalMinimum := data))
    case LogicalMaximum(data) => s.(template := s.template.(logicalMaximum := data))
    case ReportSize(raw) => s.(template := s.template.(reportSize := raw % 256))
    case ReportCount(raw) => s.(template := s.template.(reportCount := raw % 256))
    case Input => DoInput(s)
    case Ignored => s
  }

  /** A collection is being filled exactly while the level is above zero. */
  predicate Ready(s: Parse) {
    Fits(s) && (s.level > 0 <==> s.current.In?) && ListsInRange(s.pools.owned, COLLECTION_COUNT)
  }

  /** Every item finds the parser ready and leaves it so, for the same device. */
  lemma StepReady(s: Parse, item: Item)
    requires Ready(s)
    ensures Ready(Step(s, item)) && Step(s, item).device == s.device
  {
    if item.Input? && s.current.In? {
      AddKeepsOthers(s.pools, s.current.collection, InputTemplate(s), InputUsages(s));
    }
  }

  function Steps(s: Parse, items: seq<Item>): (r: Parse)
    requires Ready(s)
    ensures Ready(r) && r.device == s.device
    decreases |items|
  {
    if items == [] then s
    else
      StepReady(s, items[0]);
      Steps(Step(s, items[0]), items[1..])
  }

  // ---------- what the parser needs of a descriptor ----------

  /** An input that finds a free member slot and wastes it: inside a collection it has no size, or it has
      one outside. */
  predicate Wastes(s: Parse, item: Item)
    requires Fits(s)
  {
    && item.Input? && FirstFreeMember(s.pools.members, 0) < MEMBER_COUNT
    && (s.current.In? <==> s.template.reportSize == 0)
  }

  predicate Harmless(s: Parse, items: seq<Item>)
    requires Ready(s)
    decreases |items|
  {
    items == [] || (
      && !Wastes(s, items[0])
      && (StepReady(s, items[0]); Harmless(Step(s, items[0]), items[1..])))
  }

  /** No collection that has members is left open. */
  predicate Closed(s: Parse)
    requires Fits(s)
  {
    s.current.In? ==> s.pools.parts[s.current.collection] == []
  }

  // ---------- merging collections without a report id ----------

  /** Collections without an id, other than the first, give their members to the one before. */
  function Compress(p: Pools, d: nat, j: nat): (r: Pools)
    requires Sized(p) && d < DEVICE_COUNT && InRange(p.owned[d], COLLECTION_COUNT)
    ensures Sized(r)
    decreases |p.owned[d]| - j
  {
    var list := p.owned[d];
    if j + 1 >= |list| then p
    else
      var base, c := list[j], list[j + 1];
      if p.collections[c].id == 0 then
        var parts := p.parts[base := p.parts[base] + p.parts[c]][c := []];
        Compress(p.(parts := parts, collections := p.collections[c := EMPTY_COLLECTION],
                    owned := p.owned[d := list[..j + 1] + list[j + 2..]]), d, j)
      else Compress(p, d, j + 1)
  }

  // ---------- parse_report_descriptor ----------

  function Begin(p: Pools, iface: nat, d: nat): (s: Parse)
    requires Sized(p) && d < DEVICE_COUNT
  {
    Parse(p.(interfaces := p.interfaces[d := iface]), d, EMPTY_MEMBER, NoCollection, 0, NoUsages(), 0, 0, 0)
  }

  lemma BeginReady(p: Pools, iface: nat, d: nat)
    requires Sized(p) && d < DEVICE_COUNT && ListsInRange(p.owned, COLLECTION_COUNT)
    ensures Ready(Begin(p, iface, d))
  {
  }

  /** If the descriptor gets an entry of the device table, none of its items wastes a slot, and it leaves no
      collection with members open. */
  predicate Accepts(p: Pools, iface: nat, items: seq<Item>) {
    && Sized(p) && ListsInRange(p.owned, COLLECTION_COUNT)
    && var q := DeleteDevice(p, iface, 0);
       var d := FirstEmpty(q.owned, 0);
       d < DEVICE_COUNT ==>
         (BeginReady(q, iface, d); Harmless(Begin(q, iface, d), items) && Closed(Steps(Begin(q, iface, d), items)))
  }

  datatype Result = Result(pools: Pools, ok: bool)

  function ParseDescriptor(p: Pools, iface: nat, items: seq<Item>): (r: Result)
    requires Sized(p) && ListsInRange(p.owned, COLLECTION_COUNT)
  {
    var q := DeleteDevice(p, iface, 0);
    var d := FirstEmpty(q.owned, 0);
    if d == DEVICE_COUNT then Result(q, false)
    else
      BeginReady(q, iface, d);
      var s := Steps(Begin(q, iface, d), items);
      if s.pools.owned[d] == [] then Result(s.pools, false) else Result(Compress(s.pools, d, 0), true)
  }
}
