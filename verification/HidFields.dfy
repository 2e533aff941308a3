/** The members of a report descriptor, read off the positions of its items: which item each field of a member comes
    from (section 6.2.2 of the USB HID 1.11 class definition: local items last until the next main item). */
module HidFields {
  import opened HidContents
  import opened HidLegal
  import opened HidPools
  import opened HidShape

  // ---------- what holds at a position ----------

  /** How many collections are open before item n; those in refused never opened. */
  function LevelAt(items: seq<Item>, n: nat, refused: set<nat>): int
    requires n <= |items|
  {
    if n == 0 then 0
    else
      var level := LevelAt(items, n - 1, refused);
      if items[n - 1].StartCollection? && n - 1 !in refused then level + 1
      else if items[n - 1].EndCollection? then level - 1
      else level
  }

  /** The last usage minimum since the last input, or 0 */
  function UsageMinimumAt(items: seq<Item>, n: nat): int
    requires n <= |items|
  {
    if n == 0 || items[n - 1].Input? then 0
    else if items[n - 1].UsageMinimum? then items[n - 1].data
    else UsageMinimumAt(items, n - 1)
  }

  /** The last usage maximum since the last input, or 0 */
  function UsageMaximumAt(items: seq<Item>, n: nat): int
    requires n <= |items|
  {
    if n == 0 || items[n - 1].Input? then 0
    else if items[n - 1].UsageMaximum? then items[n - 1].data
    else UsageMaximumAt(items, n - 1)
  }

  /** The last logical minimum, or 0 */
  function LogicalMinimumAt(items: seq<Item>, n: nat): int
    requires n <= |items|
  {
    if n == 0 then 0
    else if items[n - 1].LogicalMinimum? then items[n - 1].data
    else LogicalMinimumAt(items, n - 1)
  }

  /** The last logical maximum, or 0 */
  function LogicalMaximumAt(items: seq<Item>, n: nat): int
    requires n <= |items|
  {
    if n == 0 then 0
    else if items[n - 1].LogicalMaximum? then items[n - 1].data
    else LogicalMaximumAt(items, n - 1)
  }

  /** The last report size, in one byte, or 0 */
  function SizeAt(items: seq<Item>, n: nat): nat
    requires n <= |items|
  {
    if n == 0 then 0
    else if items[n - 1].ReportSize? then items[n - 1].raw % 256
    else SizeAt(items, n - 1)
  }

  /** The last usage page outside (or inside) all collections, or 0 */
  function PageAt(items: seq<Item>, n: nat, refused: set<nat>, inside: bool): nat
    requires n <= |items|
  {
    if n == 0 then 0
    else if items[n - 1].UsagePage? && (LevelAt(items, n - 1, refused) != 0) == inside then items[n - 1].raw
    else PageAt(items, n - 1, refused, inside)
  }

  /** The item ends the list of usages before it: an input, or the start or end of a collection that counts. */
  predicate Resets(items: seq<Item>, k: nat, refused: set<nat>)
    requires k < |items|
  {
    || items[k].Input?
    || (items[k].StartCollection? && k !in refused)
    || (items[k].EndCollection? && LevelAt(items, k, refused) == 1)
  }

  /** The usages listed since the last reset, at most as many as the table holds */
  function UsagesAt(items: seq<Item>, n: nat, refused: set<nat>): (us: seq<nat>)
    requires n <= |items|
    ensures |us| <= USAGE_COUNT
  {
    if n == 0 || Resets(items, n - 1, refused) then []
    else
      var us := UsagesAt(items, n - 1, refused);
      if items[n - 1].Usage? && |us| < USAGE_COUNT && LevelAt(items, n - 1, refused) != 0 then us + [items[n - 1].raw]
      else us
  }

  /** What an input without usages takes: the first usage of the last list since the last input, or 0 */
  function StaleAt(items: seq<Item>, n: nat, refused: set<nat>): nat
    requires n <= |items|
  {
    if n == 0 || items[n - 1].Input? then 0
    else if items[n - 1].Usage? && UsagesAt(items, n - 1, refused) == [] && LevelAt(items, n - 1, refused) != 0 then
      items[n - 1].raw
    else StaleAt(items, n - 1, refused)
  }

  function InputUsagesAt(items: seq<Item>, n: nat, refused: set<nat>): (us: seq<nat>)
    requires n <= |items|
    ensures us != []
  {
    var us := UsagesAt(items, n, refused);
    if us == [] then [StaleAt(items, n, refused)] else us
  }

  /** The last report count, in one byte; every input since has divided it among its usages. */
  function CountAt(items: seq<Item>, n: nat, refused: set<nat>): nat
    requires n <= |items|
  {
    if n == 0 then 0
    else if items[n - 1].ReportCount? then items[n - 1].raw % 256
    else
      var count := CountAt(items, n - 1, refused);
      if items[n - 1].Input? then count / |InputUsagesAt(items, n - 1, refused)| else count
  }

  /** The members of an input at position k, one for each usage */
  function MembersAt(items: seq<Item>, k: nat, refused: set<nat>): (ms: seq<Member>)
    requires k < |items|
  {
    var us := InputUsagesAt(items, k, refused);
    seq(|us|, i requires 0 <= i < |us| => Member(
      PageAt(items, k, refused, true), LogicalMaximumAt(items, k), LogicalMinimumAt(items, k), SizeAt(items, k),
      CountAt(items, k, refused) / |us|, us[i], UsageMaximumAt(items, k), UsageMinimumAt(items, k)))
  }

  /** What the item at position k adds */
  function DescribedAt(items: seq<Item>, k: nat, refused: set<nat>): seq<Member>
    requires k < |items|
  {
    if items[k].Input? && LevelAt(items, k, refused) > 0 then MembersAt(items, k, refused) else []
  }

  /** The members of all inputs inside collections, in order */
  function Described(items: seq<Item>, n: nat, refused: set<nat>): seq<Member>
    requires n <= |items|
  {
    if n == 0 then [] else Described(items, n - 1, refused) + DescribedAt(items, n - 1, refused)
  }

  // ---------- the variables of the parser ----------

  /** The top-level collections among the first n items for which no slot was left */
  function RefusedBefore(u: Pure, items: seq<Item>, n: nat): (r: set<nat>)
    requires PureFits(u) && n <= |items|
    ensures forall k :: k in r ==> k < n
  {
    if n == 0 then {}
    else
      var s := After(u, items, n - 1);
      RefusedBefore(u, items, n - 1)
      + if items[n - 1].StartCollection? && s.level == 0 && s.left == [] then {n - 1} else {}
  }

  /** The parser without pools before item n */
  function After(u: Pure, items: seq<Item>, n: nat): (s: Pure)
    requires PureFits(u) && n <= |items|
    ensures PureFits(s)
  {
    if n == 0 then u else PureStep(After(u, items, n - 1), items[n - 1], true)
  }

  lemma {:induction false} AfterIsSteps(u: Pure, items: seq<Item>, n: nat)
    requires PureFits(u) && n <= |items|
    ensures PureSteps(After(u, items, n), items[n..], true) == PureSteps(u, items, true)
  {
    if n == 0 {
      assert items[0..] == items;
    } else {
      AfterIsSteps(u, items, n - 1);
      assert items[n - 1..][0] == items[n - 1] && items[n - 1..][1..] == items[n..];
    }
  }

  lemma {:induction false} RefusedIs(u: Pure, items: seq<Item>, n: nat, k: nat)
    requires PureFits(u) && k < n <= |items|
    ensures k in RefusedBefore(u, items, n)
        <==> items[k].StartCollection? && After(u, items, k).level == 0 && After(u, items, k).left == []
  {
    if k < n - 1 { RefusedIs(u, items, n - 1, k); }
  }

  function Refused(u: Pure, items: seq<Item>): set<nat>
    requires PureFits(u)
  {
    RefusedBefore(u, items, |items|)
  }

  /** The list of usages: the table up to its count, and its first entry */
  predicate TableSays(s: Pure, items: seq<Item>, n: nat, refused: set<nat>)
    requires PureFits(s) && n <= |items|
  {
    && s.level == LevelAt(items, n, refused)
    && s.table[..s.count] == UsagesAt(items, n, refused)
    && s.table[0] == StaleAt(items, n, refused)
  }

  predicate TemplateSays(s: Pure, items: seq<Item>, n: nat, refused: set<nat>)
    requires n <= |items|
  {
    && s.template == Member(
         PageAt(items, n, refused, true), LogicalMaximumAt(items, n), LogicalMinimumAt(items, n), SizeAt(items, n),
         CountAt(items, n, refused), 0, UsageMaximumAt(items, n), UsageMinimumAt(items, n))
    && s.topUsagePage == PageAt(items, n, refused, false)
  }

  /** A reset of the list follows the level and the slots. */
  lemma TableNext(s: Pure, items: seq<Item>, n: nat, refused: set<nat>)
    requires n < |items| && PureFits(s) && TableSays(s, items, n, refused)
    requires n in refused <==> items[n].StartCollection? && s.level == 0 && s.left == []
    ensures TableSays(PureStep(s, items[n], true), items, n + 1, refused)
  {
    var t := PureStep(s, items[n], true);
    if items[n].Usage? && s.count < USAGE_COUNT && s.level != 0 {
      assert t.table[..t.count] == s.table[..s.count] + [items[n].raw];
    }
  }

  function PureUsages(s: Pure): (us: seq<nat>)
    requires PureFits(s)
    ensures us != []
  {
    s.table[..if s.count == 0 then 1 else s.count]
  }

  lemma InputUsagesSaid(s: Pure, items: seq<Item>, n: nat, refused: set<nat>)
    requires n <= |items| && PureFits(s) && TableSays(s, items, n, refused)
    ensures PureUsages(s) == InputUsagesAt(items, n, refused)
  {
    if s.count == 0 { assert s.table[..1] == [s.table[0]]; }
  }

  lemma TemplateNext(s: Pure, items: seq<Item>, n: nat, refused: set<nat>)
    requires n < |items| && PureFits(s) && TableSays(s, items, n, refused) && TemplateSays(s, items, n, refused)
    ensures TemplateSays(PureStep(s, items[n], true), items, n + 1, refused)
  {
    InputUsagesSaid(s, items, n, refused);
  }

  lemma RefusedNow(u: Pure, items: seq<Item>, n: nat)
    requires PureFits(u) && n < |items|
    ensures var s := After(u, items, n);
      n in Refused(u, items) <==> items[n].StartCollection? && s.level == 0 && s.left == []
  {
    RefusedIs(u, items, |items|, n);
  }

  lemma TableStep(u: Pure, items: seq<Item>, n: nat)
    requires PureFits(u) && n < |items| && TableSays(After(u, items, n), items, n, Refused(u, items))
    ensures TableSays(After(u, items, n + 1), items, n + 1, Refused(u, items))
  {
    RefusedNow(u, items, n);
    TableNext(After(u, items, n), items, n, Refused(u, items));
  }

  lemma {:induction false} AfterTable(u: Pure, items: seq<Item>, n: nat)
    requires PureFits(u) && n <= |items| && u == PureStart(u.room, u.left)
    ensures TableSays(After(u, items, n), items, n, Refused(u, items))
  {
    if n > 0 {
      AfterTable(u, items, n - 1);
      TableStep(u, items, n - 1);
    }
  }

  lemma TemplateStep(u: Pure, items: seq<Item>, n: nat)
    requires PureFits(u) && n < |items| && u == PureStart(u.room, u.left)
    requires TemplateSays(After(u, items, n), items, n, Refused(u, items))
    ensures TemplateSays(After(u, items, n + 1), items, n + 1, Refused(u, items))
  {
    AfterTable(u, items, n);
    TemplateNext(After(u, items, n), items, n, Refused(u, items));
  }

  lemma {:induction false} AfterTemplate(u: Pure, items: seq<Item>, n: nat)
    requires PureFits(u) && n <= |items| && u == PureStart(u.room, u.left)
    ensures TemplateSays(After(u, items, n), items, n, Refused(u, items))
  {
    if n > 0 {
      AfterTemplate(u, items, n - 1);
      TemplateStep(u, items, n - 1);
    }
  }

  // ---------- the members that are stored ----------

  function Flat(reports: seq<Report>): seq<Member> {
    if reports == [] then [] else Flat(reports[..|reports| - 1]) + reports[|reports| - 1].members
  }

  lemma FlatMore(reports: seq<Report>, r: Report)
    ensures Flat(reports + [r]) == Flat(reports) + r.members
  {
    assert (reports + [r])[..|reports|] == reports;
  }

  lemma {:induction false} FlatAppend(a: seq<Report>, b: seq<Report>)
    ensures Flat(a + b) == Flat(a) + Flat(b)
  {
    if b == [] {
      assert a + b == a;
    } else {
      assert (a + b)[..|a + b| - 1] == a + b[..|b| - 1];
      FlatAppend(a, b[..|b| - 1]);
    }
  }

  /** As many as there is room for */
  function Cut(ms: seq<Member>, room: nat): seq<Member> {
    if |ms| <= room then ms else ms[..room]
  }

  /** What is stored so far: the members of the finished reports and of the open one */
  predicate StoredSays(s: Pure, room: nat, ms: seq<Member>) {
    && Flat(s.finished) + Flat(s.open) == Cut(ms, room)
    && s.room == room - |Cut(ms, room)|
  }

  function PureTemplate(s: Pure): Member
    requires PureFits(s)
  {
    s.template.(reportCount := s.template.reportCount / |PureUsages(s)|)
  }

  lemma NewMembersSaid(s: Pure, items: seq<Item>, n: nat, refused: set<nat>)
    requires n < |items| && PureFits(s) && TableSays(s, items, n, refused) && TemplateSays(s, items, n, refused)
    ensures MembersAt(items, n, refused) == NewMembers(PureTemplate(s), PureUsages(s))
  {
    InputUsagesSaid(s, items, n, refused);
  }

  lemma CutMore(ms: seq<Member>, template: Member, us: seq<nat>, room: nat)
    ensures var fits := NewMembers(template, Fitting(us, room - |Cut(ms, room)|));
      Cut(ms + NewMembers(template, us), room) == Cut(ms, room) + fits
  {
  }

  lemma FlatOne(r: Report)
    ensures Flat([r]) == r.members
  {
    assert [r][..0] == [];
    assert [] + r.members == r.members;
  }

  lemma OpenAlone(s: Pure)
    requires PureFits(s) && s.level > 0
    ensures s.open == [s.open[0]] && Flat(s.open) == s.open[0].members
  {
    assert s.open == [s.open[0]];
    FlatOne(s.open[0]);
  }

  lemma InputFills(s: Pure)
    requires PureFits(s) && s.level > 0
    ensures var t, fits := PureInput(s), NewMembers(PureTemplate(s), Fitting(PureUsages(s), s.room));
      && t.finished == s.finished && t.room == s.room - |fits| && t.level == s.level
      && Flat(t.open) == Flat(s.open) + fits
  {
    OpenAlone(s);
    OpenAlone(PureInput(s));
  }

  lemma Regroup(a: seq<Member>, b: seq<Member>, c: seq<Member>)
    ensures a + (b + c) == a + b + c
  {
  }

  lemma InputStores(s: Pure, room: nat, ms: seq<Member>)
    requires PureFits(s) && s.level > 0 && StoredSays(s, room, ms)
    ensures StoredSays(PureInput(s), room, ms + NewMembers(PureTemplate(s), PureUsages(s)))
  {
    var t, fits := PureInput(s), NewMembers(PureTemplate(s), Fitting(PureUsages(s), s.room));
    InputFills(s);
    Regroup(Flat(s.finished), Flat(s.open), fits);
    CutMore(ms, PureTemplate(s), PureUsages(s), room);
    assert Flat(t.finished) + Flat(t.open) == Cut(ms, room) + fits;
  }

  /** No other item stores anything. */
  lemma OtherStores(s: Pure, item: Item, room: nat, ms: seq<Member>)
    requires PureFits(s) && StoredSays(s, room, ms) && !(item.Input? && s.level > 0)
    ensures StoredSays(PureStep(s, item, true), room, ms)
  {
    match item
    case StartCollection => OpenStores(s);
    case EndCollection => CloseStores(s);
    case ReportId(raw) =>
      if s.level > 0 {
        FlatOne(s.open[0]);
        FlatOne(s.open[0].(header := s.open[0].header.(id := raw % 256)));
        assert s.open == [s.open[0]];
      }
    case _ =>
  }

  lemma OpenStores(s: Pure)
    requires PureFits(s)
    ensures var t := PureStep(s, StartCollection, true);
      t.room == s.room && t.finished == s.finished && Flat(t.open) == Flat(s.open)
  {
    if s.level == 0 && s.left != [] {
      FlatOne(PureOpen(s, true).open[0]);
    }
  }

  lemma CloseStores(s: Pure)
    requires PureFits(s)
    ensures var t := PureStep(s, EndCollection, true);
      t.room == s.room && Flat(t.finished) + Flat(t.open) == Flat(s.finished) + Flat(s.open)
  {
    if s.level == 1 {
      assert s.open == [s.open[0]];
      FlatOne(s.open[0]);
      FlatMore(s.finished, s.open[0]);
      assert PureClose(s).open == [];
    }
  }

  /** What the inputs before item n made, whether or not there was room */
  function Made(u: Pure, items: seq<Item>, n: nat): seq<Member>
    requires PureFits(u) && n <= |items|
  {
    if n == 0 then [] else Made(u, items, n - 1) + MadeBy(After(u, items, n - 1), items[n - 1])
  }

  function MadeBy(s: Pure, item: Item): seq<Member>
    requires PureFits(s)
  {
    if item.Input? && s.level > 0 then NewMembers(PureTemplate(s), PureUsages(s)) else []
  }

  lemma StepStores(s: Pure, item: Item, room: nat, ms: seq<Member>)
    requires PureFits(s) && StoredSays(s, room, ms)
    ensures StoredSays(PureStep(s, item, true), room, ms + MadeBy(s, item))
  {
    if item.Input? && s.level > 0 {
      InputStores(s, room, ms);
    } else {
      OtherStores(s, item, room, ms);
      assert ms + [] == ms;
    }
  }

  /** The parser stores what the inputs make, as long as there is room. */
  lemma {:induction false} AfterStores(u: Pure, items: seq<Item>, n: nat)
    requires PureFits(u) && n <= |items| && u == PureStart(u.room, u.left)
    ensures StoredSays(After(u, items, n), u.room, Made(u, items, n))
  {
    if n > 0 {
      AfterStores(u, items, n - 1);
      StepStores(After(u, items, n - 1), items[n - 1], u.room, Made(u, items, n - 1));
    }
  }

  lemma MadeBySaid(s: Pure, items: seq<Item>, n: nat, refused: set<nat>)
    requires n < |items| && PureFits(s) && TableSays(s, items, n, refused) && TemplateSays(s, items, n, refused)
    ensures MadeBy(s, items[n]) == DescribedAt(items, n, refused)
  {
    if items[n].Input? { NewMembersSaid(s, items, n, refused); }
  }

  lemma MadeByAt(u: Pure, items: seq<Item>, n: nat)
    requires PureFits(u) && n < |items| && u == PureStart(u.room, u.left)
    ensures MadeBy(After(u, items, n), items[n]) == DescribedAt(items, n, Refused(u, items))
  {
    AfterTable(u, items, n);
    AfterTemplate(u, items, n);
    MadeBySaid(After(u, items, n), items, n, Refused(u, items));
  }

  lemma MadeStep(u: Pure, items: seq<Item>, n: nat, refused: set<nat>)
    requires PureFits(u) && 0 < n <= |items| && Made(u, items, n - 1) == Described(items, n - 1, refused)
    requires MadeBy(After(u, items, n - 1), items[n - 1]) == DescribedAt(items, n - 1, refused)
    ensures Made(u, items, n) == Described(items, n, refused)
  {
  }

  /** And that is what the positions of the items say. */
  lemma {:induction false} MadeIsDescribed(u: Pure, items: seq<Item>, n: nat)
    requires PureFits(u) && n <= |items| && u == PureStart(u.room, u.left)
    ensures Made(u, items, n) == Described(items, n, Refused(u, items))
  {
    if n > 0 {
      MadeIsDescribed(u, items, n - 1);
      MadeByAt(u, items, n - 1);
      MadeStep(u, items, n, Refused(u, items));
    }
  }

  // ---------- what the device table holds ----------

  lemma {:induction false} MergeKeepsMembers(reports: seq<Report>, j: nat)
    ensures Flat(Merge(reports, j)) == Flat(reports)
    decreases |reports| - j
  {
    if j + 1 < |reports| {
      if reports[j + 1].header.id == 0 {
        var joined := reports[j].(members := reports[j].members + reports[j + 1].members);
        JoinKeepsMembers(reports, j, joined);
        MergeKeepsMembers(reports[..j] + [joined] + reports[j + 2..], j);
      } else {
        MergeKeepsMembers(reports, j + 1);
      }
    }
  }

  lemma JoinTwo(a: seq<Report>, x: Report, y: Report, joined: Report)
    requires joined.members == x.members + y.members
    ensures Flat(a + [joined]) == Flat(a + [x] + [y])
  {
    FlatMore(a, joined);
    FlatMore(a, x);
    FlatMore(a + [x], y);
    assert Flat(a) + (x.members + y.members) == Flat(a) + x.members + y.members;
  }

  lemma SplitTwo(reports: seq<Report>, j: nat)
    requires j + 1 < |reports|
    ensures reports == reports[..j] + [reports[j]] + [reports[j + 1]] + reports[j + 2..]
  {
  }

  lemma JoinKeepsMembers(reports: seq<Report>, j: nat, joined: Report)
    requires j + 1 < |reports| && joined.members == reports[j].members + reports[j + 1].members
    ensures Flat(reports[..j] + [joined] + reports[j + 2..]) == Flat(reports)
  {
    var a, b := reports[..j], reports[j + 2..];
    SplitTwo(reports, j);
    JoinTwo(a, reports[j], reports[j + 1], joined);
    FlatAppend(a + [joined], b);
    FlatAppend(a + [reports[j]] + [reports[j + 1]], b);
  }

  lemma {:induction false} AfterPrefix(u: Pure, items: seq<Item>, n: nat, m: nat)
    requires PureFits(u) && n <= m <= |items|
    ensures After(u, items[..m], n) == After(u, items, n)
  {
    if n > 0 { AfterPrefix(u, items, n - 1, m); }
  }

  lemma StepsOfPrefix(u: Pure, items: seq<Item>, n: nat)
    requires PureFits(u) && n <= |items|
    ensures PureSteps(u, items[..n], true) == After(u, items, n)
  {
    AfterIsSteps(u, items[..n], n);
    AfterPrefix(u, items, n, n);
    assert items[..n][n..] == [];
  }

  lemma {:induction false} HarmlessPrefix(s: Parse, items: seq<Item>, n: nat)
    requires Ready(s) && Harmless(s, items) && n <= |items|
    ensures Harmless(s, items[..n])
    decreases n
  {
    if n > 0 {
      StepReady(s, items[0]);
      HarmlessPrefix(Step(s, items[0]), items[1..], n - 1);
      assert items[..n][0] == items[0] && items[..n][1..] == items[1..][..n - 1];
    }
  }

  lemma {:induction false} LeftIfFree(p: Pools, c: nat)
    requires Sized(p) && c <= COLLECTION_COUNT
    ensures LeftIds(p, NoCollection, c) == [] <==> FirstEmpty(p.parts, c) == COLLECTION_COUNT
    decreases COLLECTION_COUNT - c
  {
    if c < COLLECTION_COUNT { LeftIfFree(p, c + 1); }
  }

  /** The parsers agree before every item. */
  lemma BothAt(p: Pools, iface: nat, items: seq<Item>, d: nat, k: nat)
    requires Shaped(p, NoCollection) && Accepts(p, iface, items) && k <= |items|
    requires d == FirstEmpty(DeleteDevice(p, iface, 0).owned, 0) && d < DEVICE_COUNT
    ensures var s := Begin(DeleteDevice(p, iface, 0), iface, d);
      Ready(s) && Follows(Steps(s, items[..k]), After(StartOf(p, iface), items, k))
  {
    var q := DeleteDevice(p, iface, 0);
    var s := Begin(q, iface, d);
    DeleteDeviceShaped(p, iface, 0);
    ShapedInRange(q, NoCollection);
    BeginReady(q, iface, d);
    BeginFollows(q, iface, d);
    HarmlessPrefix(s, items, k);
    StepsFollow(s, StartOf(p, iface), items[..k]);
    StepsOfPrefix(StartOf(p, iface), items, k);
  }

  /** A collection is refused if and only if it is a top-level one that finds no empty slot. */
  lemma RefusedExactly(p: Pools, iface: nat, items: seq<Item>, d: nat, k: nat)
    requires Shaped(p, NoCollection) && Accepts(p, iface, items) && k < |items|
    requires d == FirstEmpty(DeleteDevice(p, iface, 0).owned, 0) && d < DEVICE_COUNT
    ensures Ready(Begin(DeleteDevice(p, iface, 0), iface, d))
    ensures var s := Steps(Begin(DeleteDevice(p, iface, 0), iface, d), items[..k]);
      k in Refused(StartOf(p, iface), items)
      <==> items[k].StartCollection? && s.level == 0 && FirstEmpty(s.pools.parts, 0) == COLLECTION_COUNT
  {
    BothAt(p, iface, items, d, k);
    RefusedIs(StartOf(p, iface), items, |items|, k);
    var s := Steps(Begin(DeleteDevice(p, iface, 0), iface, d), items[..k]);
    if s.level == 0 { LeftIfFree(s.pools, 0); }
  }

  lemma NothingOpen(s: Parse, u: Pure)
    requires Follows(s, u) && Closed(s)
    ensures Flat(u.open) == []
  {
    if u.level > 0 {
      OpenAlone(u);
      assert |ReportOf(s.pools, s.current.collection).members| == 0;
    }
  }

  /** For every accepted descriptor: the members of the entry, collection after collection, are those of all Input
      items inside collections, in order, as many as there was room for; every field of a member is that of the last
      item of its kind before the Input, for the usage range since the Input before. */
  lemma MembersRead(p: Pools, iface: nat, items: seq<Item>, d: nat)
    requires Shaped(p, NoCollection) && Accepts(p, iface, items)
    requires d == FirstEmpty(DeleteDevice(p, iface, 0).owned, 0) && d < DEVICE_COUNT
    ensures var r := ParseDescriptor(p, iface, items).pools;
      && Sized(r) && ListsInRange(r.owned, COLLECTION_COUNT) && ListsInRange(r.parts, MEMBER_COUNT)
      && Flat(Contents(r, d))
           == Cut(Described(items, |items|, Refused(StartOf(p, iface), items)),
                  Room(DeleteDevice(p, iface, 0).members))
  {
    var u := StartOf(p, iface);
    ParseReads(p, iface, items, d);
    BothAt(p, iface, items, d, |items|);
    assert items[..|items|] == items;
    NothingOpen(Steps(Begin(DeleteDevice(p, iface, 0), iface, d), items), After(u, items, |items|));
    StepsOfPrefix(u, items, |items|);
    AfterStores(u, items, |items|);
    MadeIsDescribed(u, items, |items|);
    MergeKeepsMembers(After(u, items, |items|).finished, 0);
  }

  // ---------- what the collections are for ----------

  /** The last usage outside all collections, or 0 */
  function TopUsageAt(items: seq<Item>, n: nat, refused: set<nat>): nat
    requires n <= |items|
  {
    if n == 0 then 0
    else if items[n - 1].Usage? && |UsagesAt(items, n - 1, refused)| < USAGE_COUNT
              && LevelAt(items, n - 1, refused) == 0 then items[n - 1].raw
    else TopUsageAt(items, n - 1, refused)
  }

  lemma TopUsageNext(s: Pure, items: seq<Item>, n: nat, refused: set<nat>)
    requires n < |items| && PureFits(s) && s.topUsage == TopUsageAt(items, n, refused)
    requires s.level == LevelAt(items, n, refused) && s.count == |UsagesAt(items, n, refused)|
    ensures PureStep(s, items[n], true).topUsage == TopUsageAt(items, n + 1, refused)
  {
  }

  lemma TableCounts(u: Pure, items: seq<Item>, n: nat)
    requires PureFits(u) && n <= |items| && u == PureStart(u.room, u.left)
    ensures var s, refused := After(u, items, n), Refused(u, items);
      s.level == LevelAt(items, n, refused) && s.count == |UsagesAt(items, n, refused)|
  {
    AfterTable(u, items, n);
  }

  lemma {:induction false} AfterTopUsage(u: Pure, items: seq<Item>, n: nat)
    requires PureFits(u) && n <= |items| && u == PureStart(u.room, u.left)
    ensures After(u, items, n).topUsage == TopUsageAt(items, n, Refused(u, items))
  {
    if n > 0 {
      AfterTopUsage(u, items, n - 1);
      TableCounts(u, items, n - 1);
      TopUsageNext(After(u, items, n - 1), items, n - 1, Refused(u, items));
    }
  }

  /** The collection that begins at position k: at the top level, with the usage page and the usage before it */
  predicate HeaderAt(h: Collection, items: seq<Item>, k: nat, refused: set<nat>) {
    && k < |items| && items[k].StartCollection? && k !in refused && LevelAt(items, k, refused) == 0
    && h.usagePage == PageAt(items, k, refused, false) && h.usage == TopUsageAt(items, k, refused)
  }

  ghost predicate HeaderSaid(h: Collection, items: seq<Item>, refused: set<nat>) {
    exists k: nat :: HeaderAt(h, items, k, refused)
  }

  ghost predicate HeadersSaid(reports: seq<Report>, items: seq<Item>, refused: set<nat>) {
    forall i :: 0 <= i < |reports| ==> HeaderSaid(reports[i].header, items, refused)
  }

  lemma OpenedSaid(u: Pure, items: seq<Item>, n: nat)
    requires PureFits(u) && n < |items| && u == PureStart(u.room, u.left) && items[n].StartCollection?
    requires After(u, items, n).level == 0 && After(u, items, n).left != []
    ensures HeaderSaid(After(u, items, n + 1).open[0].header, items, Refused(u, items))
  {
    RefusedNow(u, items, n);
    AfterTable(u, items, n);
    AfterTemplate(u, items, n);
    AfterTopUsage(u, items, n);
    assert HeaderAt(After(u, items, n + 1).open[0].header, items, n, Refused(u, items));
  }

  lemma SetIdSaid(h: Collection, items: seq<Item>, refused: set<nat>, id: nat)
    requires HeaderSaid(h, items, refused)
    ensures HeaderSaid(h.(id := id), items, refused)
  {
    var k: nat :| HeaderAt(h, items, k, refused);
    assert HeaderAt(h.(id := id), items, k, refused);
  }

  lemma HeadersNext(s: Pure, item: Item, items: seq<Item>, refused: set<nat>)
    requires PureFits(s) && HeadersSaid(s.finished, items, refused) && HeadersSaid(s.open, items, refused)
    requires item.StartCollection? && s.level == 0 && s.left != []
             ==> HeaderSaid(PureStep(s, item, true).open[0].header, items, refused)
    ensures var t := PureStep(s, item, true);
      HeadersSaid(t.finished, items, refused) && HeadersSaid(t.open, items, refused)
  {
    if item.ReportId? && s.level > 0 {
      SetIdSaid(s.open[0].header, items, refused, item.raw % 256);
    }
  }

  lemma {:induction false} AfterHeaders(u: Pure, items: seq<Item>, n: nat)
    requires PureFits(u) && n <= |items| && u == PureStart(u.room, u.left)
    ensures var s := After(u, items, n);
      HeadersSaid(s.finished, items, Refused(u, items)) && HeadersSaid(s.open, items, Refused(u, items))
  {
    if n > 0 {
      var s := After(u, items, n - 1);
      AfterHeaders(u, items, n - 1);
      if items[n - 1].StartCollection? && s.level == 0 && s.left != [] { OpenedSaid(u, items, n - 1); }
      HeadersNext(s, items[n - 1], items, Refused(u, items));
    }
  }

  lemma {:induction false} MergeKeepsHeaders(reports: seq<Report>, j: nat, items: seq<Item>, refused: set<nat>)
    requires HeadersSaid(reports, items, refused)
    ensures HeadersSaid(Merge(reports, j), items, refused)
    decreases |reports| - j
  {
    if j + 1 < |reports| {
      if reports[j + 1].header.id == 0 {
        var joined := reports[j].(members := reports[j].members + reports[j + 1].members);
        MergeKeepsHeaders(reports[..j] + [joined] + reports[j + 2..], j, items, refused);
      } else {
        MergeKeepsHeaders(reports, j + 1, items, refused);
      }
    }
  }

  /** Every stored collection has the usage page and the usage that stand before its beginning. */
  lemma HeadersRead(p: Pools, iface: nat, items: seq<Item>, d: nat)
    requires Shaped(p, NoCollection) && Accepts(p, iface, items)
    requires d == FirstEmpty(DeleteDevice(p, iface, 0).owned, 0) && d < DEVICE_COUNT
    ensures var r := ParseDescriptor(p, iface, items).pools;
      && Sized(r) && ListsInRange(r.owned, COLLECTION_COUNT) && ListsInRange(r.parts, MEMBER_COUNT)
      && HeadersSaid(Contents(r, d), items, Refused(StartOf(p, iface), items))
  {
    var u := StartOf(p, iface);
    ParseReads(p, iface, items, d);
    assert items[..|items|] == items;
    StepsOfPrefix(u, items, |items|);
    AfterHeaders(u, items, |items|);
    MergeKeepsHeaders(After(u, items, |items|).finished, 0, items, Refused(u, items));
  }

  // ---------- when no collection is refused ----------

  lemma {:induction false} LegalNoneRefused(u: Pure, items: seq<Item>, n: nat, free: nat, k: nat)
    requires PureFits(u) && n <= k < |items|
    requires var s := After(u, items, n);
      && s.level >= 0 && free <= |s.left|
      && Legal(items[n..], s.level, s.template.reportSize, free)
    ensures k !in Refused(u, items)
    decreases k - n
  {
    assert items[n..][0] == items[n] && items[n..][1..] == items[n + 1..];
    if n == k {
      RefusedNow(u, items, k);
    } else {
      var s := After(u, items, n);
      LegalNoneRefused(u, items, n + 1, if items[n].StartCollection? && s.level == 0 then free - 1 else free, k);
    }
  }

  /** A descriptor with no more top-level collections than there are empty slots: nothing but the items' positions
      says what is stored. */
  lemma LegalMembersRead(p: Pools, iface: nat, items: seq<Item>, d: nat)
    requires Shaped(p, NoCollection) && ListsInRange(p.owned, COLLECTION_COUNT) && Accepts(p, iface, items)
    requires d == FirstEmpty(DeleteDevice(p, iface, 0).owned, 0) && d < DEVICE_COUNT
    requires Legal(items, 0, 0, |LeftIds(DeleteDevice(p, iface, 0), NoCollection, 0)|)
    ensures var r := ParseDescriptor(p, iface, items).pools;
      && Sized(r) && ListsInRange(r.owned, COLLECTION_COUNT) && ListsInRange(r.parts, MEMBER_COUNT)
      && Flat(Contents(r, d)) == Cut(Described(items, |items|, {}), Room(DeleteDevice(p, iface, 0).members))
  {
    var u := StartOf(p, iface);
    MembersRead(p, iface, items, d);
    assert items[0..] == items;
    forall k: nat | k < |items|
      ensures k !in Refused(u, items)
    {
      LegalNoneRefused(u, items, 0, |u.left|, k);
    }
    assert Refused(u, items) == {};
  }
}
