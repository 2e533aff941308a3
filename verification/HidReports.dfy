/** How a report finds its fields (parse_report of report_parser.c): the device entry of its interface, and in
    it the collection with its id. */
module HidReports {
  import opened HidContents
  import opened HidDevices
  import opened HidMachine
  import opened HidParser
  import opened HidPools
  import opened HidShape
  import opened LinkedLists

  // ---------- the entry of an interface ----------

  /** get_hid_device_def: the first entry of the interface, or the number of entries */
  function Lookup(interfaces: seq<nat>, iface: nat, i: nat): (j: nat)
    requires i <= |interfaces|
    ensures i <= j <= |interfaces|
    ensures j < |interfaces| ==> interfaces[j] == iface
    ensures forall k :: i <= k < j ==> interfaces[k] != iface
    decreases |interfaces| - i
  {
    if i == |interfaces| || interfaces[i] == iface then i else Lookup(interfaces, iface, i + 1)
  }

  /** Nothing but entry d differs in the device table. */
  predicate SameTable(p: Pools, r: Pools, d: nat)
    requires Sized(p) && Sized(r)
  {
    r.interfaces == p.interfaces && forall k :: 0 <= k < DEVICE_COUNT && k != d ==> r.owned[k] == p.owned[k]
  }

  lemma {:induction false} StepsKeepTable(s: Parse, items: seq<Item>)
    requires Ready(s)
    ensures SameTable(s.pools, Steps(s, items).pools, s.device)
    decreases |items|
  {
    if items != [] {
      StepReady(s, items[0]);
      if items[0].Input? && s.current.In? {
        AddKeepsOthers(s.pools, s.current.collection, InputTemplate(s), InputUsages(s));
      }
      StepsKeepTable(Step(s, items[0]), items[1..]);
    }
  }

  lemma {:induction false} CompressKeepsTable(p: Pools, d: nat, j: nat)
    requires Sized(p) && d < DEVICE_COUNT && InRange(p.owned[d], COLLECTION_COUNT)
    ensures SameTable(p, Compress(p, d, j), d)
    decreases |p.owned[d]| - j
  {
    var list := p.owned[d];
    if j + 1 < |list| {
      var base, c := list[j], list[j + 1];
      if p.collections[c].id == 0 {
        CompressKeepsTable(
          p.(parts := p.parts[base := p.parts[base] + p.parts[c]][c := []],
             collections := p.collections[c := EMPTY_COLLECTION],
             owned := p.owned[d := list[..j + 1] + list[j + 2..]]), d, j);
      } else {
        CompressKeepsTable(p, d, j + 1);
      }
    }
  }

  function EntryFor(p: Pools, iface: nat): nat
    requires Sized(p) && ListsInRange(p.owned, COLLECTION_COUNT)
  {
    FirstEmpty(DeleteDevice(p, iface, 0).owned, 0)
  }

  lemma ParseTable(p: Pools, iface: nat, items: seq<Item>)
    requires Sized(p) && ListsInRange(p.owned, COLLECTION_COUNT)
    ensures var q, r, d := DeleteDevice(p, iface, 0), ParseDescriptor(p, iface, items).pools, EntryFor(p, iface);
      && Sized(r) && (forall k :: 0 <= k < DEVICE_COUNT && k != d ==> r.owned[k] == q.owned[k])
      && r.interfaces == if d < DEVICE_COUNT then q.interfaces[d := iface] else q.interfaces
  {
    var q, d := DeleteDevice(p, iface, 0), EntryFor(p, iface);
    if d < DEVICE_COUNT {
      BeginReady(q, iface, d);
      StepsKeepTable(Begin(q, iface, d), items);
      CompressKeepsTable(Steps(Begin(q, iface, d), items).pools, d, 0);
    }
  }

  /** Before the first empty entry the interface does not occur: one in use would be behind a gap that is itself
      empty. */
  lemma NotBeforeEntry(p: Pools, iface: nat, e: nat)
    requires Sized(p) && ListsInRange(p.owned, COLLECTION_COUNT) && e < EntryFor(p, iface)
    ensures DeleteDevice(p, iface, 0).interfaces[e] != iface
  {
    var q := DeleteDevice(p, iface, 0);
    DeletesReached(p, iface, 0, e);
    if q.interfaces[e] == iface {
      var k :| 0 <= k <= e && p.interfaces[k] == iface && p.owned[k] == [];
      NotReached(p, iface, k, k);
      DeletesReached(p, iface, 0, k);
      assert false;
    }
  }

  /** After any parse, of whatever descriptor, the lookup of its interface finds the entry that the parse took,
      and nothing when the table was full. */
  lemma LookupFindsParsed(p: Pools, iface: nat, items: seq<Item>)
    requires Sized(p) && ListsInRange(p.owned, COLLECTION_COUNT)
    ensures Sized(ParseDescriptor(p, iface, items).pools)
    ensures Lookup(ParseDescriptor(p, iface, items).pools.interfaces, iface, 0) == EntryFor(p, iface)
  {
    ParseTable(p, iface, items);
    forall e | 0 <= e < EntryFor(p, iface)
      ensures DeleteDevice(p, iface, 0).interfaces[e] != iface
    {
      NotBeforeEntry(p, iface, e);
    }
  }

  /** Entries freed by a deletion are marked with interface 0. */
  predicate Zeroed(p: Pools, iface: nat, e: nat)
    requires Sized(p) && ListsInRange(p.owned, COLLECTION_COUNT)
  {
    exists k :: 0 <= k < e && k < DEVICE_COUNT && k != EntryFor(p, iface) && Reached(p, iface, 0, k)
  }

  /** A parse for one interface leaves the lookup of another, whose entry is in use, as it was, except that
      interface 0 is lost behind an entry that was freed and not taken again. */
  lemma OtherLookupExactly(p: Pools, iface: nat, items: seq<Item>, other: nat, e: nat)
    requires Sized(p) && ListsInRange(p.owned, COLLECTION_COUNT) && other != iface
    requires e == Lookup(p.interfaces, other, 0) && e < DEVICE_COUNT && p.owned[e] != []
    ensures Sized(ParseDescriptor(p, iface, items).pools) && e != EntryFor(p, iface)
    ensures Lookup(ParseDescriptor(p, iface, items).pools.interfaces, other, 0) == e
        <==> !(other == 0 && Zeroed(p, iface, e))
  {
    var q, r, d := DeleteDevice(p, iface, 0), ParseDescriptor(p, iface, items).pools, EntryFor(p, iface);
    ParseTable(p, iface, items);
    DeletesReached(p, iface, 0, e);
    assert q.owned[e] == p.owned[e] && r.interfaces[e] == other;
    forall k | 0 <= k < e
      ensures r.interfaces[k] == other <==> other == 0 && k != d && Reached(p, iface, 0, k)
    {
      DeletesReached(p, iface, 0, k);
    }
  }

  // ---------- the collection of a report ----------

  /** What parse_report finds: nothing, an entry without collections, whose first collection it reads through a
      null pointer, or a collection, and whether the first byte was the report id */
  datatype Answer = Nothing | Broken | Reads(report: Report, hasId: bool)

  function WithId(reports: seq<Report>, id: nat, i: nat): (j: nat)
    requires i <= |reports|
    ensures i <= j <= |reports|
    decreases |reports| - i
  {
    if i == |reports| || reports[i].header.id == id then i else WithId(reports, id, i + 1)
  }

  /** Without ids the first collection takes every report. */
  function Choose(reports: seq<Report>, first: nat): Answer {
    if reports == [] then Broken
    else if reports[0].header.id == 0 then Reads(reports[0], false)
    else
      var i := WithId(reports, first, 0);
      if i == |reports| then Nothing else Reads(reports[i], true)
  }

  lemma {:induction false} WithIdIsFirst(reports: seq<Report>, id: nat, i: nat)
    requires i <= |reports|
    ensures var j := WithId(reports, id, i);
      (j < |reports| ==> reports[j].header.id == id) && forall k :: i <= k < j ==> reports[k].header.id != id
    decreases |reports| - i
  {
    if i < |reports| && reports[i].header.id != id { WithIdIsFirst(reports, id, i + 1); }
  }

  /** Report k is the first with this id. */
  predicate FirstWith(reports: seq<Report>, id: nat, k: nat) {
    k < |reports| && reports[k].header.id == id && forall i :: 0 <= i < k ==> reports[i].header.id != id
  }

  /** If the first collection has no id, it reads every report, the first byte included. Otherwise the first byte is
      the id: the first collection with it reads the rest, and without one nothing does. */
  lemma ChoosesById(reports: seq<Report>, first: nat, k: nat)
    requires reports != []
    ensures reports[0].header.id == 0 ==> Choose(reports, first) == Reads(reports[0], false)
    ensures reports[0].header.id != 0 && FirstWith(reports, first, k)
            ==> Choose(reports, first) == Reads(reports[k], true)
    ensures reports[0].header.id != 0
            ==> (Choose(reports, first) == Nothing
                 <==> forall i :: 0 <= i < |reports| ==> reports[i].header.id != first)
  {
    WithIdIsFirst(reports, first, 0);
  }

  predicate Readable(p: Pools) {
    Sized(p) && ListsInRange(p.owned, COLLECTION_COUNT) && ListsInRange(p.parts, MEMBER_COUNT)
  }

  function AnswerTo(p: Pools, iface: nat, first: nat): Answer
    requires Readable(p)
  {
    var d := Lookup(p.interfaces, iface, 0);
    if d == DEVICE_COUNT then Nothing else Choose(Contents(p, d), first)
  }

  /** A report that arrives after an accepted parse is read with the members that the parser without pools gives
      to its id; without any, parse_report_descriptor has returned false. */
  lemma ReportFindsFields(p: Pools, iface: nat, items: seq<Item>, first: nat)
    requires Shaped(p, NoCollection) && Readable(p) && Accepts(p, iface, items)
    ensures var r := ParseDescriptor(p, iface, items);
      && Readable(r.pools)
      && AnswerTo(r.pools, iface, first)
           == (if EntryFor(p, iface) == DEVICE_COUNT then Nothing
               else Choose(Merge(PureSteps(StartOf(p, iface), items, true).finished, 0), first))
  {
    ParseShaped(p, iface, items);
    ShapedInRange(ParseDescriptor(p, iface, items).pools, NoCollection);
    LookupFindsParsed(p, iface, items);
    if EntryFor(p, iface) < DEVICE_COUNT {
      ParseReads(p, iface, items, EntryFor(p, iface));
    }
  }

  /** The interface has an entry with collections. */
  predicate Serves(p: Pools, iface: nat)
    requires Sized(p)
  {
    var e := Lookup(p.interfaces, iface, 0);
    e < DEVICE_COUNT && p.owned[e] != []
  }

  lemma ContentsKept(p: Pools, iface: nat, items: seq<Item>, e: nat)
    requires Shaped(p, NoCollection) && Readable(p) && Accepts(p, iface, items)
    requires e < DEVICE_COUNT && e != EntryFor(p, iface) && p.interfaces[e] != iface
    ensures Readable(ParseDescriptor(p, iface, items).pools)
    ensures Contents(ParseDescriptor(p, iface, items).pools, e) == Contents(p, e)
  {
    if EntryFor(p, iface) < DEVICE_COUNT {
      OthersKept(p, iface, items, EntryFor(p, iface), e);
    } else {
      DeleteDeviceKeeps(p, iface, 0, e);
    }
  }

  /** An interface 0 that is lost is found in an entry without collections. */
  lemma LostIsBroken(p: Pools, iface: nat, items: seq<Item>, first: nat)
    requires Shaped(p, NoCollection) && Readable(p) && Accepts(p, iface, items) && iface != 0 && Serves(p, 0)
    requires Zeroed(p, iface, Lookup(p.interfaces, 0, 0))
    ensures Readable(ParseDescriptor(p, iface, items).pools)
    ensures AnswerTo(ParseDescriptor(p, iface, items).pools, 0, first) == Broken
  {
    var e, r := Lookup(p.interfaces, 0, 0), ParseDescriptor(p, iface, items).pools;
    ParseShaped(p, iface, items);
    ShapedInRange(r, NoCollection);
    ParseTable(p, iface, items);
    var k :| 0 <= k < e && k < DEVICE_COUNT && k != EntryFor(p, iface) && Reached(p, iface, 0, k);
    DeletesReached(p, iface, 0, k);
    var j := Lookup(r.interfaces, 0, 0);
    assert r.interfaces[k] == 0 && j <= k;
    DeletesReached(p, iface, 0, j);
    assert r.owned[j] == [];
  }

  /** A parse for one interface leaves the reading of another's reports as it was, unless it loses interface 0. */
  lemma OtherAnswerExactly(p: Pools, iface: nat, items: seq<Item>, other: nat, first: nat)
    requires Shaped(p, NoCollection) && Readable(p) && Accepts(p, iface, items)
    requires other != iface && Serves(p, other)
    ensures var r := ParseDescriptor(p, iface, items).pools;
      && Readable(r)
      && (AnswerTo(r, other, first) == AnswerTo(p, other, first)
          <==> !(other == 0 && Zeroed(p, iface, Lookup(p.interfaces, other, 0))))
      && (Serves(r, other) <==> !(other == 0 && Zeroed(p, iface, Lookup(p.interfaces, other, 0))))
  {
    var e := Lookup(p.interfaces, other, 0);
    OtherLookupExactly(p, iface, items, other, e);
    ContentsKept(p, iface, items, e);
    assert |Contents(p, e)| == |p.owned[e]|;
    if other == 0 && Zeroed(p, iface, e) {
      LostIsBroken(p, iface, items, first);
    }
  }

  /** No parse of the run loses interface 0. */
  ghost predicate KeepsZero(p: Pools, calls: seq<Call>)
    requires Shaped(p, NoCollection) && AllAccepted(p, calls)
    decreases |calls|
  {
    calls == [] || (
      ParseShaped(p, calls[0].iface, calls[0].items);
      ShapedInRange(p, NoCollection);
      && !Zeroed(p, calls[0].iface, Lookup(p.interfaces, 0, 0))
      && KeepsZero(ParseDescriptor(p, calls[0].iface, calls[0].items).pools, calls[1..]))
  }

  lemma {:induction false} LaterParses(p: Pools, calls: seq<Call>, other: nat, first: nat)
    requires Shaped(p, NoCollection) && Readable(p) && AllAccepted(p, calls) && Serves(p, other)
    requires forall i :: 0 <= i < |calls| ==> calls[i].iface != other
    requires other == 0 ==> KeepsZero(p, calls)
    ensures Readable(ParseAll(p, calls)) && AnswerTo(ParseAll(p, calls), other, first) == AnswerTo(p, other, first)
    decreases |calls|
  {
    if calls != [] {
      ParseShaped(p, calls[0].iface, calls[0].items);
      OtherAnswerExactly(p, calls[0].iface, calls[0].items, other, first);
      LaterParses(ParseDescriptor(p, calls[0].iface, calls[0].items).pools, calls[1..], other, first);
    }
  }

  /** From any well-shaped pools on: reports of an interface are read as its last descriptor says, however many
      descriptors of other interfaces come after it, if it is not interface 0 or none of them loses it. */
  lemma ReadAsLastParsed(p: Pools, iface: nat, items: seq<Item>, calls: seq<Call>, first: nat)
    requires Shaped(p, NoCollection) && Readable(p) && Accepts(p, iface, items) && ParseDescriptor(p, iface, items).ok
    requires Shaped(ParseDescriptor(p, iface, items).pools, NoCollection)
    requires AllAccepted(ParseDescriptor(p, iface, items).pools, calls)
    requires forall i :: 0 <= i < |calls| ==> calls[i].iface != iface
    requires iface == 0 ==> KeepsZero(ParseDescriptor(p, iface, items).pools, calls)
    ensures var r := ParseAll(ParseDescriptor(p, iface, items).pools, calls);
      && Readable(r)
      && AnswerTo(r, iface, first) == Choose(Merge(PureSteps(StartOf(p, iface), items, true).finished, 0), first)
  {
    ReportFindsFields(p, iface, items, first);
    FilledServes(p, iface, items);
    LookupFindsParsed(p, iface, items);
    LaterParses(ParseDescriptor(p, iface, items).pools, calls, iface, first);
  }

  /** After four parses interface 0 is served, and a fifth, for interface 2, loses it. */
  lemma InterfaceZeroLost(first: nat)
    ensures AllAccepted(Init(), SILENCING) && AllAccepted(Init(), MOVES)
    ensures Sized(ParseAll(Init(), SILENCING)) && Serves(ParseAll(Init(), SILENCING), 0)
    ensures Readable(ParseAll(Init(), MOVES)) && AnswerTo(ParseAll(Init(), MOVES), 0, first) == Broken
  {
    MovesShow();
    InitShaped();
    RunShaped(Init(), MOVES);
    ShapedInRange(ParseAll(Init(), MOVES), NoCollection);
    ServesThird(ParseAll(Init(), SILENCING));
    BrokenSecond(ParseAll(Init(), MOVES), first);
  }

  lemma ServesThird(p: Pools)
    requires Shows(p, 3, [1, 2, 0], [false, true, true])
    ensures Serves(p, 0)
  {
    assert p.interfaces[0] == 1 && p.interfaces[1] == 2 && p.interfaces[2] == 0 && p.owned[2] != [];
    assert Lookup(p.interfaces, 0, 0) == 2;
  }

  lemma BrokenSecond(p: Pools, first: nat)
    requires Shows(p, 4, [2, 0, 0], [true, false, true]) && Readable(p)
    ensures AnswerTo(p, 0, first) == Broken
  {
    assert p.interfaces[0] == 2 && p.interfaces[1] == 0 && p.owned[1] == [];
    assert Lookup(p.interfaces, 0, 0) == 1;
  }

  lemma {:induction false} MergeLeavesSome(reports: seq<Report>, j: nat)
    requires reports != []
    ensures Merge(reports, j) != []
    decreases |reports| - j
  {
    if j + 1 < |reports| {
      var joined := reports[j].(members := reports[j].members + reports[j + 1].members);
      if reports[j + 1].header.id == 0 {
        MergeLeavesSome(reports[..j] + [joined] + reports[j + 2..], j);
      } else {
        MergeLeavesSome(reports, j + 1);
      }
    }
  }

  lemma FilledServes(p: Pools, iface: nat, items: seq<Item>)
    requires Shaped(p, NoCollection) && Readable(p) && Accepts(p, iface, items)
    requires ParseDescriptor(p, iface, items).ok
    ensures Sized(ParseDescriptor(p, iface, items).pools) && Serves(ParseDescriptor(p, iface, items).pools, iface)
  {
    var d := EntryFor(p, iface);
    LookupFindsParsed(p, iface, items);
    ParseReads(p, iface, items, d);
    MergeLeavesSome(PureSteps(StartOf(p, iface), items, true).finished, 0);
    var r := ParseDescriptor(p, iface, items).pools;
    assert |Contents(r, d)| == |r.owned[d]|;
  }

  // ---------- on the nodes ----------

  /** get_hid_device_def */
  method GetHidDeviceDef(parser: Parser, iface: nat) returns (d: nat)
    requires parser.Valid(NoCollection)
    ensures d == Lookup(parser.pools.interfaces, iface, 0)
  {
    d := 0;
    while d < parser.devices.Length
      invariant d <= parser.devices.Length
      invariant Lookup(parser.pools.interfaces, iface, 0) == Lookup(parser.pools.interfaces, iface, d)
    {
      if parser.devices[d].iface == iface {
        return;
      }
      d := d + 1;
    }
  }

  /** The loop over the collections of an entry: the one with this id, or none */
  method FindId(parser: Parser, d: nat, first: nat, start: int) returns (c: int)
    requires parser.Valid(NoCollection) && d < DEVICE_COUNT && Readable(parser.pools)
    requires start == Head(parser.pools.owned[d], 0)
    ensures var i := WithId(Contents(parser.pools, d), first, 0);
      c == Head(parser.pools.owned[d], i)
  {
    ghost var list, reports := parser.pools.owned[d], Contents(parser.pools, d);
    ghost var i := 0;
    c := start;
    while c != NULL && parser.collections[c].data.id != first
      invariant i <= |list| && c == Head(list, i)
      invariant WithId(reports, first, 0) == WithId(reports, first, i)
      decreases |list| - i
    {
      assert reports[i].header == parser.collections[c].data;
      LinkAt(parser.collections[..], list, i);
      c := parser.collections[c].next;
      i := i + 1;
    }
  }

  /** The part of parse_report before a parser is chosen */
  method FindCollection(parser: Parser, iface: nat, first: nat) returns (c: int, hasId: bool)
    requires parser.Valid(NoCollection) && Readable(parser.pools) && !AnswerTo(parser.pools, iface, first).Broken?
    ensures AnswerTo(parser.pools, iface, first).Nothing? <==> c == NULL
    ensures c != NULL ==> 0 <= c < COLLECTION_COUNT
    ensures c != NULL ==> AnswerTo(parser.pools, iface, first) == Reads(ReportOf(parser.pools, c), hasId)
  {
    c, hasId := NULL, false;
    var d := GetHidDeviceDef(parser, iface);
    if d < parser.devices.Length {
      ghost var list := parser.pools.owned[d];
      assert |Contents(parser.pools, d)| == |list|;
      assert Firsts(parser.devices[..])[d] == parser.devices[d].first == Head(list, 0);
      c := parser.devices[d].first;
      if parser.collections[c].data.id != 0 {
        c := FindId(parser, d, first, c);
        hasId := true;
      }
    }
  }
}
