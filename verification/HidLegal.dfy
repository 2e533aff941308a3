/** Descriptors that the parser accepts whatever the pools hold: what can be read off the items and the
    number of free collections alone. */
module HidLegal {
  import opened HidPools

  /** A well-nested descriptor whose inputs lie inside a collection and have a size (as stored in
      one byte), with at most so many top-level collections */
  predicate Legal(items: seq<Item>, level: nat, size: nat, free: nat) {
    if items == [] then level == 0
    else
      var rest := items[1..];
      match items[0]
      case StartCollection =>
        if level == 0 then free > 0 && Legal(rest, 1, size, free - 1) else Legal(rest, level + 1, size, free)
      case EndCollection => level > 0 && Legal(rest, level - 1, size, free)
      case ReportSize(raw) => Legal(rest, level, raw % 256, free)
      case Input => level > 0 && size > 0 && Legal(rest, level, size, free)
      case _ => Legal(rest, level, size, free)
  }

  // ---------- legal descriptors find their slots ----------

  /** The collections that have no members and are not being filled */
  function Spare(s: Parse): set<nat> {
    set c: nat | c < |s.pools.parts| && s.pools.parts[c] == [] && s.current != In(c)
  }

  function EmptyLists(lists: seq<seq<nat>>): set<nat> {
    set c: nat | c < |lists| && lists[c] == []
  }

  lemma SparesLeft(a: set<nat>, b: set<nat>, n: nat)
    requires a <= b && |a| >= n
    ensures |b| >= n
  {
    assert |b| == |a| + |b - a|;
  }

  lemma SpareIsFound(s: Parse, free: nat)
    requires Fits(s) && free > 0 && |Spare(s)| >= free
    ensures FirstEmpty(s.pools.parts, 0) < COLLECTION_COUNT
  {
    var c :| c in Spare(s);
  }

  lemma OpenSpares(s: Parse, free: nat)
    requires Ready(s) && s.level == 0 && free > 0 && |Spare(s)| >= free
    ensures Open(s).level == 1 && |Spare(Open(s))| >= free - 1
  {
    SpareIsFound(s, free);
    var c := FirstEmpty(s.pools.parts, 0);
    assert Spare(s) == Spare(Open(s)) + {c};
  }

  lemma InputSpares(s: Parse, free: nat)
    requires Ready(s) && s.level > 0 && |Spare(s)| >= free
    ensures |Spare(DoInput(s))| >= free
  {
    AddKeepsOthers(s.pools, s.current.collection, InputTemplate(s), InputUsages(s));
    SparesLeft(Spare(s), Spare(DoInput(s)), free);
  }

  predicate Opens(s: Parse, item: Item) {
    item.StartCollection? && s.level == 0
  }

  function FreeAfter(s: Parse, item: Item, free: nat): nat {
    if Opens(s, item) && free > 0 then free - 1 else free
  }

  /** The item of a legal descriptor wastes nothing, and the rest is legal after it. */
  lemma LegalStep(s: Parse, items: seq<Item>, free: nat)
    requires Ready(s) && s.level >= 0 && items != []
    requires Legal(items, s.level, s.template.reportSize, free) && |Spare(s)| >= free
    ensures !Wastes(s, items[0])
    ensures var t := Step(s, items[0]);
      && t.level >= 0 && |Spare(t)| >= FreeAfter(s, items[0], free)
      && Legal(items[1..], t.level, t.template.reportSize, FreeAfter(s, items[0], free))
  {
    if Opens(s, items[0]) {
      OpenSpares(s, free);
    } else if items[0].Input? {
      InputSpares(s, free);
    } else {
      SparesLeft(Spare(s), Spare(Step(s, items[0])), free);
    }
  }

  lemma {:induction false} LegalIsHarmless(s: Parse, items: seq<Item>, free: nat)
    requires Ready(s) && s.level >= 0
    requires Legal(items, s.level, s.template.reportSize, free) && |Spare(s)| >= free
    ensures Harmless(s, items) && Steps(s, items).level == 0
    decreases |items|
  {
    if items != [] {
      StepReady(s, items[0]);
      LegalStep(s, items, free);
      LegalIsHarmless(Step(s, items[0]), items[1..], FreeAfter(s, items[0], free));
    }
  }

  /** A legal descriptor with no more top-level collections than are free is accepted. */
  lemma LegalIsAccepted(p: Pools, iface: nat, items: seq<Item>)
    requires Sized(p) && ListsInRange(p.owned, COLLECTION_COUNT)
    requires Legal(items, 0, 0, |EmptyLists(DeleteDevice(p, iface, 0).parts)|)
    ensures Accepts(p, iface, items)
  {
    var q := DeleteDevice(p, iface, 0);
    var d := FirstEmpty(q.owned, 0);
    if d < DEVICE_COUNT {
      BeginReady(q, iface, d);
      assert Spare(Begin(q, iface, d)) == EmptyLists(q.parts);
      LegalIsHarmless(Begin(q, iface, d), items, |EmptyLists(q.parts)|);
    }
  }

  /** One collection with one input */
  const ONE_REPORT: seq<Item> := [StartCollection, ReportSize(8), Input, EndCollection]

  lemma OneIsLegal(free: nat)
    requires free > 0
    ensures Legal(ONE_REPORT, 0, 0, free)
  {
    assert ONE_REPORT[1..][1..] == ONE_REPORT[2..] && ONE_REPORT[2..][1..] == ONE_REPORT[3..];
    assert ONE_REPORT[3..][1..] == [];
    assert Legal(ONE_REPORT[3..], 1, 8, free - 1);
    assert Legal(ONE_REPORT[2..], 1, 8, free - 1);
    assert Legal(ONE_REPORT[1..], 1, 0, free - 1);
  }

  // ---------- slots given back, and slots used up ----------

  predicate NoInput(items: seq<Item>) {
    forall i :: 0 <= i < |items| ==> !items[i].Input?
  }

  lemma {:induction false} NoInputFillsNothing(s: Parse, items: seq<Item>)
    requires Ready(s) && NoInput(items) && Closed(s)
    ensures Harmless(s, items) && Closed(Steps(s, items))
    decreases |items|
  {
    if items != [] {
      StepReady(s, items[0]);
      assert NoInput(items[1..]);
      NoInputFillsNothing(Step(s, items[0]), items[1..]);
    }
  }

  /** Collections without inputs give their slot back, so a descriptor may have any number of them. */
  lemma WithoutInputsAccepted(p: Pools, iface: nat, items: seq<Item>)
    requires Sized(p) && ListsInRange(p.owned, COLLECTION_COUNT) && NoInput(items)
    ensures Accepts(p, iface, items)
  {
    var q := DeleteDevice(p, iface, 0);
    var d := FirstEmpty(q.owned, 0);
    if d < DEVICE_COUNT {
      BeginReady(q, iface, d);
      NoInputFillsNothing(Begin(q, iface, d), items);
    }
  }

  /** The first input of a top-level collection wastes a member slot if and only if there was no slot for the
      collection. */
  lemma UsedUpExactly(s: Parse)
    requires Ready(s) && s.level == 0 && s.template.reportSize > 0
    requires FirstFreeMember(s.pools.members, 0) < MEMBER_COUNT
    ensures Wastes(Step(s, StartCollection), Input) <==> FirstEmpty(s.pools.parts, 0) == COLLECTION_COUNT
  {
  }
}
