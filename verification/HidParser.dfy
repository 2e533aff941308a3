/** The static node pools with their pointers, built and torn down in place as in
    keyboards/keyboard_quantizer/report_descriptor_parser.c. A pointer is a slot number, or NULL. */
module HidParser {
  import opened HidPools
  import opened HidShape
  import opened LinkedLists

  datatype DeviceNode = DeviceNode(iface: nat, first: int)
  datatype CollectionNode = CollectionNode(data: Collection, start: int, next: int)
  datatype MemberNode = MemberNode(data: Member, next: int)

  const NO_DEVICE := DeviceNode(0, NULL)
  const NO_COLLECTION := CollectionNode(EMPTY_COLLECTION, NULL, NULL)
  const NO_MEMBER := MemberNode(EMPTY_MEMBER, NULL)

  function MemberLinks(ms: seq<MemberNode>): (next: seq<int>)
    ensures |next| == |ms|
  {
    seq(|ms|, i requires 0 <= i < |ms| => ms[i].next)
  }

  function CollectionLinks(cs: seq<CollectionNode>): (next: seq<int>)
    ensures |next| == |cs|
  {
    seq(|cs|, i requires 0 <= i < |cs| => cs[i].next)
  }

  function Starts(cs: seq<CollectionNode>): (r: seq<int>)
    ensures |r| == |cs|
  {
    seq(|cs|, i requires 0 <= i < |cs| => cs[i].start)
  }

  function Firsts(ds: seq<DeviceNode>): (r: seq<int>)
    ensures |r| == |ds|
  {
    seq(|ds|, i requires 0 <= i < |ds| => ds[i].first)
  }

  // ---------- the nodes represent the pools ----------

  predicate DataMatch(ds: seq<DeviceNode>, cs: seq<CollectionNode>, ms: seq<MemberNode>, p: Pools) {
    && Sized(p) && |ds| == DEVICE_COUNT && |cs| == COLLECTION_COUNT && |ms| == MEMBER_COUNT
    && (forall d :: 0 <= d < DEVICE_COUNT ==> ds[d].iface == p.interfaces[d])
    && (forall c :: 0 <= c < COLLECTION_COUNT ==> cs[c].data == p.collections[c])
    && (forall m :: 0 <= m < MEMBER_COUNT ==> ms[m].data == p.members[m])
  }

  /** A collection outside the device table links to nothing. */
  predicate Unlinked(cs: seq<CollectionNode>, p: Pools, current: Current) {
    forall c :: 0 <= c < |cs| && c < |p.parts| && (p.parts[c] == [] || current == In(c)) ==> cs[c].next == NULL
  }

  ghost predicate Represents(ds: seq<DeviceNode>, cs: seq<CollectionNode>, ms: seq<MemberNode>, p: Pools,
      current: Current) {
    && Shaped(p, current) && DataMatch(ds, cs, ms, p) && Unlinked(cs, p, current)
    && AllLinked(MemberLinks(ms), Starts(cs), p.parts)
    && AllLinked(CollectionLinks(cs), Firsts(ds), p.owned)
  }

  // ---------- effects of single updates, on values ----------

  /** A new member is linked behind the last one of collection c. */
  ghost predicate MemberLinked(cs: seq<CollectionNode>, ms: seq<MemberNode>, list: seq<nat>, c: nat, m: nat, x: Member,
                               cs': seq<CollectionNode>, ms': seq<MemberNode>)
  {
    && c < |cs| && m < |ms| && InRange(list, |ms|)
    && var ms1 := ms[m := MemberNode(x, NULL)];
       if list == [] then cs' == cs[c := cs[c].(start := m)] && ms' == ms1
       else cs' == cs && ms' == ms1[list[|list| - 1] := ms1[list[|list| - 1]].(next := m)]
  }

  function WithMember(p: Pools, c: nat, m: nat, x: Member): Pools
    requires Sized(p) && c < COLLECTION_COUNT && m < MEMBER_COUNT
  {
    p.(members := p.members[m := x], parts := p.parts[c := p.parts[c] + [m]])
  }

  lemma MemberLinksKept(cs: seq<CollectionNode>, ms: seq<MemberNode>, list: seq<nat>, c: nat, m: nat, x: Member,
                     cs': seq<CollectionNode>, ms': seq<MemberNode>)
    requires MemberLinked(cs, ms, list, c, m, x, cs', ms') && m !in list
    ensures Appended(MemberLinks(ms), Starts(cs), list, c, m, MemberLinks(ms'), Starts(cs'))
    ensures |ms'| == |ms| && |cs'| == |cs| && CollectionLinks(cs') == CollectionLinks(cs)
    ensures forall e :: 0 <= e < |cs| ==> cs'[e].data == cs[e].data && cs'[e].next == cs[e].next
    ensures forall k :: 0 <= k < |ms| ==> ms'[k].data == if k == m then x else ms[k].data
  {
  }

  lemma WithMemberShaped(p: Pools, c: nat, m: nat, x: Member)
    requires Shaped(p, In(c)) && c < COLLECTION_COUNT && m < MEMBER_COUNT
    requires p.members[m].reportSize == 0 && x.reportSize > 0
    ensures Shaped(WithMember(p, c, m, x), In(c))
    ensures Separate(p.parts, c) && Nowhere(p.parts, m) && m !in p.parts[c]
  {
    var q := WithMember(p, c, m, x);
    PartSeparate(p.parts, UsedMembers(p.members), c);
    PartNowhere(p.parts, UsedMembers(p.members), m);
    PartitionAppend(p.parts, UsedMembers(p.members), c, m);
    assert UsedMembers(q.members) == UsedMembers(p.members) + {m};
    assert UsedCollections(q.parts) - {c} == UsedCollections(p.parts) - {c};
  }

  lemma LinkMember(ds: seq<DeviceNode>, cs: seq<CollectionNode>, ms: seq<MemberNode>, p: Pools, c: nat, m: nat,
      x: Member, cs': seq<CollectionNode>, ms': seq<MemberNode>)
    requires Represents(ds, cs, ms, p, In(c)) && c < COLLECTION_COUNT && m < MEMBER_COUNT
    requires p.members[m].reportSize == 0 && x.reportSize > 0
    requires MemberLinked(cs, ms, p.parts[c], c, m, x, cs', ms')
    ensures Represents(ds, cs', ms', WithMember(p, c, m, x), In(c))
  {
    WithMemberShaped(p, c, m, x);
    MemberLinksKept(cs, ms, p.parts[c], c, m, x, cs', ms');
    AllAppend(MemberLinks(ms), Starts(cs), p.parts, c, m, MemberLinks(ms'), Starts(cs'));
  }

  /** A node is written that no list holds, and another such node may be linked to it. */
  lemma LooseMember(ds: seq<DeviceNode>, cs: seq<CollectionNode>, ms: seq<MemberNode>, p: Pools, last: int, m: nat,
                    x: Member, ms': seq<MemberNode>)
    requires Represents(ds, cs, ms, p, NoCollection) && m < MEMBER_COUNT
    requires p.members[m].reportSize == 0 && x.reportSize == 0 && |ms'| == |ms|
    requires last != NULL ==> 0 <= last < MEMBER_COUNT && p.members[last].reportSize == 0
    requires ms'[m].data == x && forall k :: 0 <= k < |ms| && k != m ==> ms'[k].data == ms[k].data
    requires forall k :: 0 <= k < |ms| && k != m && k != last ==> ms'[k].next == ms[k].next
    ensures Represents(ds, cs, ms', p.(members := p.members[m := x]), NoCollection)
  {
    assert UsedMembers(p.members[m := x]) == UsedMembers(p.members);
    PartNowhere(p.parts, UsedMembers(p.members), m);
    if last != NULL { PartNowhere(p.parts, UsedMembers(p.members), last); }
    forall c | 0 <= c < |p.parts|
      ensures Linked(MemberLinks(ms'), Starts(cs)[c], p.parts[c])
    {
      LinkedFrame(MemberLinks(ms), MemberLinks(ms'), Starts(cs)[c], p.parts[c]);
    }
  }

  /** A filled collection is linked behind the last one of the device. */
  ghost predicate CollectionLinked(ds: seq<DeviceNode>, cs: seq<CollectionNode>, list: seq<nat>, d: nat, c: nat,
                                   ds': seq<DeviceNode>, cs': seq<CollectionNode>)
  {
    && d < |ds| && c < |cs| && InRange(list, |cs|)
    && if list == [] then ds' == ds[d := ds[d].(first := c)] && cs' == cs
       else ds' == ds && cs' == cs[list[|list| - 1] := cs[list[|list| - 1]].(next := c)]
  }

  function WithCollection(p: Pools, d: nat, c: nat): Pools
    requires Sized(p) && d < DEVICE_COUNT
  {
    p.(owned := p.owned[d := p.owned[d] + [c]])
  }

  lemma WithCollectionShaped(p: Pools, d: nat, c: nat)
    requires Shaped(p, In(c)) && c < COLLECTION_COUNT && d < DEVICE_COUNT && p.parts[c] != []
    ensures Shaped(WithCollection(p, d, c), NoCollection)
    ensures Separate(p.owned, d) && Nowhere(p.owned, c)
    ensures forall x :: x in p.owned[d] ==> x < COLLECTION_COUNT && p.parts[x] != []
  {
    var used := UsedCollections(p.parts);
    PartNowhere(p.owned, used - {c}, c);
    PartSeparate(p.owned, used - {c}, d);
    PartitionAppend(p.owned, used - {c}, d, c);
    assert used - {c} + {c} == used - {};
  }

  lemma CollectionLinksKept(ds: seq<DeviceNode>, cs: seq<CollectionNode>, list: seq<nat>, d: nat, c: nat,
                         ds': seq<DeviceNode>, cs': seq<CollectionNode>)
    requires CollectionLinked(ds, cs, list, d, c, ds', cs') && cs[c].next == NULL
    ensures Appended(CollectionLinks(cs), Firsts(ds), list, d, c, CollectionLinks(cs'), Firsts(ds'))
    ensures |ds'| == |ds| && |cs'| == |cs| && Starts(cs') == Starts(cs)
    ensures forall e :: 0 <= e < |cs| ==> cs'[e].data == cs[e].data && (cs'[e].next != cs[e].next ==> e in list)
    ensures forall e :: 0 <= e < |ds| ==> ds'[e].iface == ds[e].iface
  {
  }

  lemma LinkCollection(ds: seq<DeviceNode>, cs: seq<CollectionNode>, ms: seq<MemberNode>, p: Pools, d: nat, c: nat,
                       ds': seq<DeviceNode>, cs': seq<CollectionNode>)
    requires Represents(ds, cs, ms, p, In(c)) && c < COLLECTION_COUNT && d < DEVICE_COUNT && p.parts[c] != []
    requires CollectionLinked(ds, cs, p.owned[d], d, c, ds', cs')
    ensures Represents(ds', cs', ms, WithCollection(p, d, c), NoCollection)
  {
    WithCollectionShaped(p, d, c);
    CollectionLinksKept(ds, cs, p.owned[d], d, c, ds', cs');
    AllAppend(CollectionLinks(cs), Firsts(ds), p.owned, d, c, CollectionLinks(cs'), Firsts(ds'));
  }

  // ---------- merging ----------

  function Joined(p: Pools, d: nat, j: nat): Pools
    requires Sized(p) && d < DEVICE_COUNT && j + 1 < |p.owned[d]| && InRange(p.owned[d], COLLECTION_COUNT)
  {
    var list := p.owned[d];
    var base, c := list[j], list[j + 1];
    p.(parts := p.parts[base := p.parts[base] + p.parts[c]][c := []],
       collections := p.collections[c := EMPTY_COLLECTION],
       owned := p.owned[d := list[..j + 1] + list[j + 2..]])
  }

  lemma JoinedShaped(p: Pools, d: nat, j: nat)
    requires Shaped(p, NoCollection) && d < DEVICE_COUNT && j + 1 < |p.owned[d]|
    requires InRange(p.owned[d], COLLECTION_COUNT)
    ensures Shaped(Joined(p, d, j), NoCollection)
    ensures Separate(p.owned, d) && Separate(p.parts, p.owned[d][j]) && p.owned[d][j] != p.owned[d][j + 1]
    ensures p.parts[p.owned[d][j]] != [] && InRange(p.parts[p.owned[d][j]], MEMBER_COUNT)
  {
    var base, c := p.owned[d][j], p.owned[d][j + 1];
    var used := UsedCollections(p.parts);
    PartSeparate(p.owned, used - {}, d);
    PartSeparate(p.parts, UsedMembers(p.members), base);
    assert base in p.owned[d] && c in p.owned[d];
    PartitionMove(p.parts, UsedMembers(p.members), base, c);
    PartitionRemove(p.owned, used - {}, d, j + 1);
    assert UsedCollections(Joined(p, d, j).parts) - {} == used - {} - {c};
    ShapedInRange(p, NoCollection);
  }

  /** The records of two neighbours after the merge. */
  ghost predicate Merged(cs: seq<CollectionNode>, ms: seq<MemberNode>, base: nat, c: nat, last: nat,
                         cs': seq<CollectionNode>, ms': seq<MemberNode>)
  {
    && base < |cs| && c < |cs| && last < |ms|
    && cs' == cs[base := cs[base].(next := cs[c].next)][c := NO_COLLECTION]
    && ms' == ms[last := ms[last].(next := cs[c].start)]
  }

  lemma MergedLinks(cs: seq<CollectionNode>, ms: seq<MemberNode>, base: nat, c: nat, last: nat,
                    cs': seq<CollectionNode>, ms': seq<MemberNode>)
    requires Merged(cs, ms, base, c, last, cs', ms') && base != c
    ensures MemberLinks(ms') == MemberLinks(ms)[last := Starts(cs)[c]]
    ensures Starts(cs') == Starts(cs)[c := NULL]
    ensures CollectionLinks(cs') == CollectionLinks(cs)[base := CollectionLinks(cs)[c]][c := NULL]
  {
  }

  /** The second of two neighbours gives its members to the first and leaves the list. */
  lemma MergeNodes(ds: seq<DeviceNode>, cs: seq<CollectionNode>, ms: seq<MemberNode>, p: Pools, d: nat, j: nat,
                   cs': seq<CollectionNode>, ms': seq<MemberNode>, last: nat)
    requires Represents(ds, cs, ms, p, NoCollection) && d < DEVICE_COUNT && j + 1 < |p.owned[d]|
    requires InRange(p.owned[d], COLLECTION_COUNT)
    requires p.parts[p.owned[d][j]] != [] && last == p.parts[p.owned[d][j]][|p.parts[p.owned[d][j]]| - 1]
    requires Merged(cs, ms, p.owned[d][j], p.owned[d][j + 1], last, cs', ms')
    ensures Represents(ds, cs', ms', Joined(p, d, j), NoCollection)
  {
    var base, c := p.owned[d][j], p.owned[d][j + 1];
    JoinedShaped(p, d, j);
    MergedLinks(cs, ms, base, c, last, cs', ms');
    MergeLists(ds, cs, ms, p, d, j, cs', ms', last);
    MergeData(ds, cs, ms, p, d, j, cs', ms', last);
  }

  lemma MergeLists(ds: seq<DeviceNode>, cs: seq<CollectionNode>, ms: seq<MemberNode>, p: Pools, d: nat, j: nat,
                   cs': seq<CollectionNode>, ms': seq<MemberNode>, last: nat)
    requires Sized(p) && d < DEVICE_COUNT && j + 1 < |p.owned[d]| && InRange(p.owned[d], COLLECTION_COUNT)
    requires AllLinked(MemberLinks(ms), Starts(cs), p.parts) && AllLinked(CollectionLinks(cs), Firsts(ds), p.owned)
    requires Separate(p.owned, d) && Separate(p.parts, p.owned[d][j]) && p.owned[d][j] != p.owned[d][j + 1]
    requires p.parts[p.owned[d][j]] != [] && last == p.parts[p.owned[d][j]][|p.parts[p.owned[d][j]]| - 1]
    requires Merged(cs, ms, p.owned[d][j], p.owned[d][j + 1], last, cs', ms')
    ensures AllLinked(MemberLinks(ms'), Starts(cs'), Joined(p, d, j).parts)
    ensures AllLinked(CollectionLinks(cs'), Firsts(ds), Joined(p, d, j).owned)
  {
    MergedLinks(cs, ms, p.owned[d][j], p.owned[d][j + 1], last, cs', ms');
    AllJoin(MemberLinks(ms), Starts(cs), p.parts, p.owned[d][j], p.owned[d][j + 1]);
    AllRemove(CollectionLinks(cs), Firsts(ds), p.owned, d, j);
  }

  lemma MergeData(ds: seq<DeviceNode>, cs: seq<CollectionNode>, ms: seq<MemberNode>, p: Pools, d: nat, j: nat,
                  cs': seq<CollectionNode>, ms': seq<MemberNode>, last: nat)
    requires DataMatch(ds, cs, ms, p) && Unlinked(cs, p, NoCollection)
    requires d < DEVICE_COUNT && j + 1 < |p.owned[d]| && InRange(p.owned[d], COLLECTION_COUNT)
    requires p.owned[d][j] != p.owned[d][j + 1] && p.parts[p.owned[d][j]] != []
    requires Merged(cs, ms, p.owned[d][j], p.owned[d][j + 1], last, cs', ms')
    ensures DataMatch(ds, cs', ms', Joined(p, d, j)) && Unlinked(cs', Joined(p, d, j), NoCollection)
  {
  }
}
