/** Whose id a collection gets. Opening a collection does not clear the id its slot was left with by a
    collection that got an id but no members; this module says exactly when that shows. */
module HidIds {
  import opened HidContents
  import opened HidLegal
  import opened HidPools
  import opened HidShape

  /** A collection that set no id of its own ends, with members, under an id from its slot. */
  predicate Inherits(s: Pure, item: Item)
    requires PureFits(s)
  {
    item.EndCollection? && s.level == 1 && s.open[0].members != [] && !s.own && s.open[0].header.id != 0
  }

  predicate NoneInherits(s: Pure, items: seq<Item>)
    requires PureFits(s)
    decreases |items|
  {
    items == [] || (!Inherits(s, items[0]) && NoneInherits(PureStep(s, items[0], true), items[1..]))
  }

  /** Equal, but for an id that the second has not got */
  predicate Alike(f: Report, g: Report) {
    f == g || (g.header.id == 0 && f == g.(header := g.header.(id := f.header.id)))
  }

  predicate AlikeAll(fs: seq<Report>, gs: seq<Report>) {
    |fs| == |gs| && forall i :: 0 <= i < |fs| ==> Alike(fs[i], gs[i])
  }

  predicate SameLocals(u: Pure, v: Pure) {
    && u.own == v.own && u.template == v.template && u.level == v.level && u.table == v.table
    && u.count == v.count && u.topUsagePage == v.topUsagePage && u.topUsage == v.topUsage && u.room == v.room
  }

  /** The same run with and without the ids left in the slots */
  predicate Twin(u: Pure, v: Pure) {
    && PureFits(u) && PureFits(v) && SameLocals(u, v)
    && AlikeAll(u.finished, v.finished) && AlikeAll(u.open, v.open) && |u.left| == |v.left|
    && (u.level > 0 ==> if u.own then u.open == v.open else v.open[0].header.id == 0)
  }

  /** Both runs one item on: still twins, and equal if they were and nothing was inherited */
  predicate TwinAfter(u: Pure, v: Pure, item: Item)
    requires PureFits(u) && PureFits(v)
  {
    var u', v' := PureStep(u, item, true), PureStep(v, item, false);
    Twin(u', v') && (u'.finished == v'.finished <==> u.finished == v.finished && !Inherits(u, item))
  }

  lemma TwinClose(u: Pure, v: Pure)
    requires Twin(u, v)
    ensures TwinAfter(u, v, EndCollection)
  {
    if u.level == 1 && u.open[0].members != [] {
      var u', v' := PureClose(u), PureClose(v);
      assert u'.finished == u.finished + [u.open[0]] && v'.finished == v.finished + [v.open[0]];
      assert u'.finished[..|u.finished|] == u.finished && v'.finished[..|v.finished|] == v.finished;
    }
  }

  lemma TwinOpen(u: Pure, v: Pure)
    requires Twin(u, v)
    ensures TwinAfter(u, v, StartCollection)
  {
  }

  lemma TwinInput(u: Pure, v: Pure)
    requires Twin(u, v)
    ensures TwinAfter(u, v, Input)
  {
  }

  lemma TwinUsage(u: Pure, v: Pure, raw: nat)
    requires Twin(u, v)
    ensures TwinAfter(u, v, Usage(raw))
  {
  }

  lemma TwinReportId(u: Pure, v: Pure, raw: nat)
    requires Twin(u, v)
    ensures TwinAfter(u, v, ReportId(raw))
  {
  }

  lemma TwinTemplate(u: Pure, v: Pure, item: Item)
    requires Twin(u, v) && !item.StartCollection? && !item.EndCollection? && !item.Input?
    requires !item.Usage? && !item.ReportId?
    ensures TwinAfter(u, v, item)
  {
  }

  lemma TwinStep(u: Pure, v: Pure, item: Item)
    requires Twin(u, v)
    ensures TwinAfter(u, v, item)
  {
    match item
    case StartCollection => TwinOpen(u, v);
    case EndCollection => TwinClose(u, v);
    case Input => TwinInput(u, v);
    case Usage(raw) => TwinUsage(u, v, raw);
    case ReportId(raw) => TwinReportId(u, v, raw);
    case _ => TwinTemplate(u, v, item);
  }

  lemma {:induction false} TwinSteps(u: Pure, v: Pure, items: seq<Item>)
    requires Twin(u, v)
    ensures var u', v' := PureSteps(u, items, true), PureSteps(v, items, false);
      && AlikeAll(u'.finished, v'.finished)
      && (u'.finished == v'.finished <==> u.finished == v.finished && NoneInherits(u, items))
    decreases |items|
  {
    if items != [] {
      TwinStep(u, v, items[0]);
      TwinSteps(PureStep(u, items[0], true), PureStep(v, items[0], false), items[1..]);
    }
  }

  /** How many reports have an id, from one on */
  function CountIds(reports: seq<Report>, i: nat): nat
    decreases |reports| - i
  {
    if i >= |reports| then 0 else CountIds(reports, i + 1) + if reports[i].header.id != 0 then 1 else 0
  }

  lemma {:induction false} SameCount(rs: seq<Report>, i: nat, qs: seq<Report>, k: nat)
    requires i <= |rs| && k <= |qs| && |rs| - i == |qs| - k
    requires forall t :: i <= t < |rs| ==> rs[t] == qs[t - i + k]
    ensures CountIds(rs, i) == CountIds(qs, k)
    decreases |rs| - i
  {
    if i < |rs| {
      SameCount(rs, i + 1, qs, k + 1);
    }
  }

  /** Merging keeps the first header, and one report for every later id. */
  lemma {:induction false} MergeCounts(reports: seq<Report>, j: nat)
    requires j < |reports|
    ensures var r := Merge(reports, j);
      |r| == j + 1 + CountIds(reports, j + 1) && r[0].header == reports[0].header
    decreases |reports| - j
  {
    if j + 1 < |reports| {
      if reports[j + 1].header.id == 0 {
        var joined := reports[j].(members := reports[j].members + reports[j + 1].members);
        var rest := reports[..j] + [joined] + reports[j + 2..];
        SameCount(rest, j + 1, reports, j + 2);
        MergeCounts(rest, j);
      } else {
        MergeCounts(reports, j + 1);
      }
    }
  }

  /** As many ids, so the same ids */
  lemma {:induction false} CountsAgree(fs: seq<Report>, gs: seq<Report>, i: nat)
    requires AlikeAll(fs, gs) && i <= |fs|
    ensures CountIds(fs, i) >= CountIds(gs, i)
    ensures CountIds(fs, i) == CountIds(gs, i) ==> forall k :: i <= k < |fs| ==> fs[k] == gs[k]
    decreases |fs| - i
  {
    if i < |fs| {
      CountsAgree(fs, gs, i + 1);
    }
  }

  lemma MergesDiffer(fs: seq<Report>, gs: seq<Report>)
    requires AlikeAll(fs, gs)
    ensures Merge(fs, 0) == Merge(gs, 0) <==> fs == gs
  {
    if fs != [] && Merge(fs, 0) == Merge(gs, 0) {
      MergeCounts(fs, 0);
      MergeCounts(gs, 0);
      CountsAgree(fs, gs, 1);
    }
  }

  /** The table says what the descriptor says, a collection having no id until it sets one, if and only
      if no collection inherits an id from an earlier one that gave its slot back. */
  lemma ReadsRightExactly(p: Pools, iface: nat, items: seq<Item>, d: nat)
    requires Shaped(p, NoCollection) && Accepts(p, iface, items)
    requires d == FirstEmpty(DeleteDevice(p, iface, 0).owned, 0) && d < DEVICE_COUNT
    ensures var r := ParseDescriptor(p, iface, items).pools;
      && Sized(r) && ListsInRange(r.owned, COLLECTION_COUNT) && ListsInRange(r.parts, MEMBER_COUNT)
      && var u := StartOf(p, iface);
         Contents(r, d) == Merge(PureSteps(u, items, false).finished, 0) <==> NoneInherits(u, items)
  {
    ParseReads(p, iface, items, d);
    var u := StartOf(p, iface);
    TwinSteps(u, u, items);
    MergesDiffer(PureSteps(u, items, true).finished, PureSteps(u, items, false).finished);
  }

  const SILENT: seq<Item> := [StartCollection, ReportId(5), EndCollection]
  const SILENT_THEN_ONE: seq<Item> := SILENT + ONE_REPORT

  /** One item is done, the rest is to come. */
  lemma Peel(s: Pure, items: seq<Item>, rest: seq<Item>)
    requires items != [] && items == [items[0]] + rest
    requires PureFits(s)
    ensures var next := PureStep(s, items[0], true);
      && PureSteps(s, items, true) == PureSteps(next, rest, true)
      && (NoneInherits(s, items) <==> !Inherits(s, items[0]) && NoneInherits(next, rest))
  {
    assert items[1..] == rest;
  }

  lemma SilentRun(u: Pure) returns (v: Pure)
    requires PureFits(u) && u.level == 0 && u.left != []
    ensures PureFits(v) && v.level == 0 && v.left != [] && v.left[0] == 5
    ensures v == u.(own := v.own, count := 0, left := v.left, open := [])
    ensures PureSteps(u, SILENT_THEN_ONE, true) == PureSteps(v, ONE_REPORT, true)
    ensures NoneInherits(u, SILENT_THEN_ONE) <==> NoneInherits(v, ONE_REPORT)
  {
    var begun := PureStep(u, StartCollection, true);
    Peel(u, SILENT_THEN_ONE, SILENT[1..] + ONE_REPORT);
    var named := PureStep(begun, ReportId(5), true);
    Peel(begun, SILENT[1..] + ONE_REPORT, SILENT[2..] + ONE_REPORT);
    v := PureStep(named, EndCollection, true);
    Peel(named, SILENT[2..] + ONE_REPORT, ONE_REPORT);
  }

  lemma OneRun(u: Pure)
    requires PureFits(u) && u.level == 0 && u.left != [] && u.room > 0 && u.count == 0
    ensures var r := PureSteps(u, ONE_REPORT, true).finished;
      && |r| == |u.finished| + 1
      && r[|u.finished|].header == Collection(u.left[0], u.topUsagePage, u.topUsage)
    ensures u.left[0] != 0 ==> !NoneInherits(u, ONE_REPORT)
  {
    var u1 := PureStep(u, StartCollection, true);
    Peel(u, ONE_REPORT, ONE_REPORT[1..]);
    var u2 := PureStep(u1, ReportSize(8), true);
    Peel(u1, ONE_REPORT[1..], ONE_REPORT[2..]);
    var u3 := PureStep(u2, Input, true);
    Peel(u2, ONE_REPORT[2..], ONE_REPORT[3..]);
    assert u3.open[0].header == Collection(u.left[0], u.topUsagePage, u.topUsage);
    assert |u3.open[0].members| == 1;
    Peel(u3, ONE_REPORT[3..], []);
  }

  /** On a fresh parser a collection without an id gets id 5 from an empty collection before it. */
  lemma InheritedId()
    ensures Accepts(Init(), 0, SILENT_THEN_ONE)
    ensures var r := ParseDescriptor(Init(), 0, SILENT_THEN_ONE).pools;
      && Sized(r) && ListsInRange(r.owned, COLLECTION_COUNT) && ListsInRange(r.parts, MEMBER_COUNT)
      && |Contents(r, 0)| == 1 && Contents(r, 0)[0].header == Collection(5, 0, 0)
    ensures !NoneInherits(StartOf(Init(), 0), SILENT_THEN_ONE)
  {
    var p := Init();
    InitShaped();
    assert DeleteDevice(p, 0, 0) == p;
    assert 0 in EmptyLists(p.parts) && 1 in EmptyLists(p.parts);
    TwoInSet(EmptyLists(p.parts), 0, 1);
    SilentIsLegal(|EmptyLists(p.parts)|);
    LegalIsAccepted(p, 0, SILENT_THEN_ONE);
    ShapedInRange(p, NoCollection);
    HasRoom(p.members);
    assert LeftIds(p, NoCollection, 0) == [0] + LeftIds(p, NoCollection, 1);
    ParseReads(p, 0, SILENT_THEN_ONE, 0);
    var v := SilentRun(StartOf(p, 0));
    OneRun(v);
    MergeCounts(PureSteps(v, ONE_REPORT, true).finished, 0);
  }

  lemma TwoInSet(s: set<nat>, a: nat, b: nat)
    requires a in s && b in s && a != b
    ensures |s| >= 2
  {
    assert |s| == |s - {a, b}| + |{a, b}|;
  }

  lemma SilentIsLegal(free: nat)
    requires free >= 2
    ensures Legal(SILENT_THEN_ONE, 0, 0, free)
  {
    OneIsLegal(free - 1);
    var all := SILENT_THEN_ONE;
    assert all[1..] == SILENT[1..] + ONE_REPORT && all[1..][1..] == SILENT[2..] + ONE_REPORT;
    assert all[1..][1..][1..] == ONE_REPORT;
    assert Legal(all[1..][1..], 1, 0, free - 1);
    assert Legal(all[1..], 1, 0, free - 1);
  }

  lemma HasRoom(members: seq<Member>)
    requires members != [] && members[|members| - 1].reportSize == 0
    ensures Room(members) > 0
  {
  }
}
