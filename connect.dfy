/** Link synthesis of scripts/core.py `connect`: the tier lists, the
    tier-1/MSAN split, the per-tier links of every visited exchange and the
    island bridges. */
module Connect {
  import opened Results
  import opened Seqs
  import opened Network
  import opened Islands

  // ---------------------------------------------------------------------
  // Tier lists

  predicate IsInner(n: Node) { n.inner > 0 }

  /** The `outer` list of `connect` holds every core exchange, inner or
      outer. */
  predicate IsCore(n: Node) { n.outer > 0 || n.inner > 0 }

  predicate IsMetro(n: Node) { n.metro > 0 }

  predicate IsLower(n: Node) { n.lower > 0 }

  /** The four lists the first loop of `connect` fills. */
  datatype TierNodes = TierNodes(inner: seq<Node>, core: seq<Node>, metro: seq<Node>, lower: seq<Node>)

  function TierNodesOf(exchanges: seq<Node>): TierNodes {
    TierNodes(Filter(exchanges, IsInner), Filter(exchanges, IsCore), Filter(exchanges, IsMetro), Filter(exchanges, IsLower))
  }

  /** The first loop of `connect`: one pass appending each exchange to
      every list whose test it passes. */
  method CollectTiers(exchanges: seq<Node>) returns (t: TierNodes)
    ensures t == TierNodesOf(exchanges)
  {
    var inner, core, metro, lower := [], [], [], [];
    for i := 0 to |exchanges|
      invariant inner == Filter(exchanges[..i], IsInner)
      invariant core == Filter(exchanges[..i], IsCore)
      invariant metro == Filter(exchanges[..i], IsMetro)
      invariant lower == Filter(exchanges[..i], IsLower)
    {
      assert exchanges[..i + 1][..i] == exchanges[..i];
      var e := exchanges[i];
      if e.inner > 0 {
        inner := inner + [e];
      }
      if e.outer > 0 || e.inner > 0 {
        core := core + [e];
      }
      if e.metro > 0 {
        metro := metro + [e];
      }
      if e.lower > 0 {
        lower := lower + [e];
      }
    }
    assert exchanges[..|exchanges|] == exchanges;
    t := TierNodes(inner, core, metro, lower);
  }

  /** Each list holds, in input order, exactly the exchanges passing its
      test, and every core list member is inner or outer. */
  lemma TierListsMembers(exchanges: seq<Node>, n: Node)
    ensures n in TierNodesOf(exchanges).inner <==> n in exchanges && n.inner > 0
    ensures n in TierNodesOf(exchanges).core <==> n in exchanges && (n.outer > 0 || n.inner > 0)
    ensures n in TierNodesOf(exchanges).metro <==> n in exchanges && n.metro > 0
    ensures n in TierNodesOf(exchanges).lower <==> n in exchanges && n.lower > 0
    ensures Subsequence(TierNodesOf(exchanges).core, exchanges)
    ensures Subsequence(TierNodesOf(exchanges).lower, exchanges)
  {
    FilterMembers(exchanges, IsInner, n);
    FilterMembers(exchanges, IsCore, n);
    FilterMembers(exchanges, IsMetro, n);
    FilterMembers(exchanges, IsLower, n);
    FilterIsSubsequence(exchanges, IsCore);
    FilterIsSubsequence(exchanges, IsLower);
  }

  // ---------------------------------------------------------------------
  // Tier-1 / MSAN split

  /** How many of the most populous `lower` exchanges become tier-1 nodes. */
  const Tier1Cutoff: nat := 1000

  /** Sorting ascending on the negated population is the stable descending
      sort `sorted(..., reverse=True)` performs. */
  function NegPopulation(n: Node): real {
    -(n.population as real)
  }

  function Min(a: nat, b: nat): nat {
    if a <= b then a else b
  }

  /** The `lower` exchanges by descending population, cut to the first
      1000. */
  function Ranked(lower: seq<Node>): seq<Node> {
    var sorted := SortBy(lower, NegPopulation);
    SortByLength(lower, NegPopulation);
    sorted[..Min(Tier1Cutoff, |sorted|)]
  }

  function OloOf(n: Node): string {
    n.olo
  }

  function RankedIds(lower: seq<Node>): seq<string> {
    Map(Ranked(lower), OloOf)
  }

  function InIds(ids: seq<string>): Node -> bool {
    (n: Node) => n.olo in ids
  }

  /** The fresh tier-1 record: every attribute copied, `tier_1` set, and no
      island tag, because a new record is built. */
  function AsTier1(n: Node): Node {
    n.(tier1 := 1, island := None)
  }

  function AsMsan(n: Node): Node {
    n.(msan := 1, island := None)
  }

  function Tier1Records(lower: seq<Node>, ids: seq<string>): seq<Node> {
    Map(Filter(lower, InIds(ids)), AsTier1)
  }

  function MsanRecords(lower: seq<Node>, ids: seq<string>): seq<Node> {
    Map(Filter(lower, Not(InIds(ids))), AsMsan)
  }

  /** The ranking keeps min(1000, |lower|) exchanges, all from `lower`, and
      none of them is less populous than any `lower` exchange left out. */
  lemma RankedTopPopulation(lower: seq<Node>)
    ensures |Ranked(lower)| == Min(Tier1Cutoff, |lower|)
    ensures multiset(Ranked(lower)) <= multiset(lower)
    ensures forall r, n :: r in Ranked(lower) && n in multiset(lower) - multiset(Ranked(lower)) ==>
              r.population >= n.population
  {
    var k := Min(Tier1Cutoff, |lower|);
    SortByPrefixLeast(lower, NegPopulation, k);
    forall r, n | r in Ranked(lower) && n in multiset(lower) - multiset(Ranked(lower))
      ensures r.population >= n.population
    {
      assert NegPopulation(r) <= NegPopulation(n);
    }
  }

  /** With no OLO repeated among the `lower` exchanges, exactly
      min(1000, |lower|) of them become tier-1 records and the rest MSAN
      records. Tier-1 membership goes by OLO, so this needs the OLOs to be
      distinct. */
  lemma Tier1Count(lower: seq<Node>)
    requires forall i, j :: 0 <= i < j < |lower| ==> lower[i].olo != lower[j].olo
    ensures |Tier1Records(lower, RankedIds(lower))| == Min(Tier1Cutoff, |lower|)
    ensures |MsanRecords(lower, RankedIds(lower))| == |lower| - Min(Tier1Cutoff, |lower|)
  {
    var ranked, ids := Ranked(lower), RankedIds(lower);
    RankedTopPopulation(lower);
    assert Distinct(lower);
    forall x | x in lower ensures InIds(ids)(x) <==> x in ranked {
      MapMembers(ranked, OloOf, x.olo);
      if x.olo in ids {
        var y :| y in ranked && OloOf(y) == x.olo;
        assert y in multiset(lower);
        var i :| 0 <= i < |lower| && lower[i] == x;
        var j :| 0 <= j < |lower| && lower[j] == y;
        assert i == j;
      }
      if x in ranked {
        MapMembers(ranked, OloOf, x.olo);
      }
    }
    DistinctFilterSize(lower, InIds(ids), ranked);
    FilterPartition(lower, InIds(ids));
  }

  /** The loop over `lower` that fills `tier_1` and `msan`. */
  method SplitTiers(lower: seq<Node>, ids: seq<string>) returns (tier1: seq<Node>, msan: seq<Node>)
    ensures tier1 == Tier1Records(lower, ids)
    ensures msan == MsanRecords(lower, ids)
  {
    tier1, msan := [], [];
    for i := 0 to |lower|
      invariant tier1 == Tier1Records(lower[..i], ids)
      invariant msan == MsanRecords(lower[..i], ids)
    {
      assert lower[..i + 1] == lower[..i] + [lower[i]];
      RecordsSnoc(lower[..i], lower[i], ids);
      var e := lower[i];
      if e.olo in ids {
        tier1 := tier1 + [e.(tier1 := 1, island := None)];
      }
      if e.olo !in ids {
        msan := msan + [e.(msan := 1, island := None)];
      }
    }
    assert lower[..|lower|] == lower;
  }

  lemma RecordsSnoc(s: seq<Node>, x: Node, ids: seq<string>)
    ensures Tier1Records(s + [x], ids) == Tier1Records(s, ids) + (if x.olo in ids then [AsTier1(x)] else [])
    ensures MsanRecords(s + [x], ids) == MsanRecords(s, ids) + (if x.olo !in ids then [AsMsan(x)] else [])
  {
    assert (s + [x])[..|s|] == s;
    var p := InIds(ids);
    var chosen, rest := Filter(s, p), Filter(s, Not(p));
    if x.olo in ids {
      assert Filter(s + [x], p) == chosen + [x];
      assert (chosen + [x])[..|chosen|] == chosen;
      assert Filter(s + [x], Not(p)) == rest;
    } else {
      assert Filter(s + [x], p) == chosen;
      assert Filter(s + [x], Not(p)) == rest + [x];
      assert (rest + [x])[..|rest|] == rest;
    }
  }

  /** A tier-1 record is made exactly from a `lower` exchange whose OLO is
      ranked. */
  lemma Tier1RecordMembers(lower: seq<Node>, ids: seq<string>, t: Node)
    ensures t in Tier1Records(lower, ids) <==> exists n :: n in lower && n.olo in ids && t == AsTier1(n)
  {
    MapMembers(Filter(lower, InIds(ids)), AsTier1, t);
    forall n ensures n in Filter(lower, InIds(ids)) <==> n in lower && n.olo in ids {
      FilterMembers(lower, InIds(ids), n);
    }
  }

  /** An MSAN record is made exactly from a `lower` exchange whose OLO is
      not ranked. */
  lemma MsanRecordMembers(lower: seq<Node>, ids: seq<string>, m: Node)
    ensures m in MsanRecords(lower, ids) <==> exists n :: n in lower && n.olo !in ids && m == AsMsan(n)
  {
    MapMembers(Filter(lower, Not(InIds(ids))), AsMsan, m);
    forall n ensures n in Filter(lower, Not(InIds(ids))) <==> n in lower && n.olo !in ids {
      FilterMembers(lower, Not(InIds(ids)), n);
    }
  }

  /** The split is a partition of `lower`: the exchanges with a ranked OLO
      and the others together hold `lower` exactly, both in the order of
      `lower`; tier-1 records carry `tier_1 = 1` and a ranked OLO, MSAN
      records `msan = 1` and an unranked one, so no OLO is in both. */
  lemma TierSplitPartition(lower: seq<Node>, ids: seq<string>)
    ensures |Tier1Records(lower, ids)| + |MsanRecords(lower, ids)| == |lower|
    ensures multiset(Filter(lower, InIds(ids))) + multiset(Filter(lower, Not(InIds(ids)))) == multiset(lower)
    ensures Subsequence(Filter(lower, InIds(ids)), lower) && Subsequence(Filter(lower, Not(InIds(ids))), lower)
    ensures forall t :: t in Tier1Records(lower, ids) ==> t.tier1 == 1 && t.olo in ids
    ensures forall m :: m in MsanRecords(lower, ids) ==> m.msan == 1 && m.olo !in ids
  {
    FilterPartition(lower, InIds(ids));
    FilterIsSubsequence(lower, InIds(ids));
    FilterIsSubsequence(lower, Not(InIds(ids)));
    forall t | t in Tier1Records(lower, ids) ensures t.tier1 == 1 && t.olo in ids {
      Tier1RecordMembers(lower, ids, t);
    }
    forall m | m in MsanRecords(lower, ids) ensures m.msan == 1 && m.olo !in ids {
      MsanRecordMembers(lower, ids, m);
    }
  }

  // ---------------------------------------------------------------------
  // Per-tier links

  /** The rtree query `idx.nearest(point, k, objects='raw')` as a
      parameter: the records of the indexed list it returns. */
  type Nearest = (seq<Node>, Point, nat) -> seq<Node>

  /** The query returns indexed records, never more records than were
      indexed. How many it returns when distances tie is left open. */
  ghost predicate ValidNearest(nearest: Nearest) {
    forall items, p, k ::
      |nearest(items, p, k)| <= |items| &&
      forall n :: n in nearest(items, p, k) ==> n in items
  }

  /** The four spatial indexes `connect` queries, as the lists inserted. */
  datatype Indexes = Indexes(inner: seq<Node>, core: seq<Node>, metro: seq<Node>, tier1: seq<Node>)

  /** A core link of the inner mesh of visited exchange `v`: from `a` to `b`,
      with the attributes of `v`. */
  function CoreLink(v: Node, a: Node, b: Node): Link {
    Link(a.olo, b.olo, Line(a.geom, b.geom), Count(v.population), Core, TiersOf(v))
  }

  function MeshRow(v: Node, a: Node, c: seq<Node>): seq<Link> {
    if c == [] then [] else MeshRow(v, a, c[..|c| - 1]) + [CoreLink(v, a, c[|c| - 1])]
  }

  function MeshRows(v: Node, rows: seq<Node>, c: seq<Node>): seq<Link> {
    if rows == [] then [] else MeshRows(v, rows[..|rows| - 1], c) + MeshRow(v, rows[|rows| - 1], c)
  }

  /** Every ordered pair of the neighbours, a node with itself included. */
  function Mesh(v: Node, c: seq<Node>): seq<Link> {
    MeshRows(v, c, c)
  }

  /** A link from `v` to neighbour `n` at `level`. The MSAN rule draws the
      line from the neighbour back to `v` but keeps `v` as the source. */
  function Spoke(v: Node, n: Node, level: Level): Link {
    Link(v.olo, n.olo, if level == Msan then Line(n.geom, v.geom) else Line(v.geom, n.geom),
         Count(v.population), level, TiersOf(v))
  }

  function Spokes(v: Node, c: seq<Node>, level: Level): seq<Link> {
    if c == [] then [] else Spokes(v, c[..|c| - 1], level) + [Spoke(v, c[|c| - 1], level)]
  }

  /** The neighbours each rule asks for. The inner and outer rules query
      with `stale`, the point the index-building loops left in `coords`;
      the other rules query with the visited exchange's own point. */
  function InnerNeighbours(v: Node, ix: Indexes, stale: Point, nearest: Nearest): seq<Node> {
    nearest(ix.inner, stale, |ix.inner| + 1)
  }

  function OuterNeighbours(v: Node, ix: Indexes, stale: Point, nearest: Nearest): seq<Node> {
    nearest(ix.core, stale, 4)
  }

  function MetroNeighbours(v: Node, ix: Indexes, nearest: Nearest): seq<Node> {
    nearest(ix.core, v.geom, 3)
  }

  function Tier1Neighbours(v: Node, ix: Indexes, nearest: Nearest): seq<Node> {
    nearest(ix.metro, v.geom, 3)
  }

  function MsanNeighbours(v: Node, ix: Indexes, nearest: Nearest): seq<Node> {
    nearest(ix.tier1, v.geom, 3)
  }

  /** The links of one visited exchange: the five rules in source order,
      each applying when its flag is positive. */
  function NodeLinks(v: Node, ix: Indexes, stale: Point, nearest: Nearest): seq<Link> {
    (if v.inner > 0 then Mesh(v, InnerNeighbours(v, ix, stale, nearest)) else []) +
    (if v.outer > 0 then Spokes(v, OuterNeighbours(v, ix, stale, nearest), Core) else []) +
    (if v.metro > 0 then Spokes(v, MetroNeighbours(v, ix, nearest), Metro) else []) +
    (if v.tier1 > 0 then Spokes(v, Tier1Neighbours(v, ix, nearest), Tier1) else []) +
    (if v.msan > 0 then Spokes(v, MsanNeighbours(v, ix, nearest), Msan) else [])
  }

  function VisitLinks(visit: seq<Node>, ix: Indexes, stale: Point, nearest: Nearest): seq<Link> {
    if visit == [] then []
    else VisitLinks(visit[..|visit| - 1], ix, stale, nearest) + NodeLinks(visit[|visit| - 1], ix, stale, nearest)
  }

  lemma {:induction false} MeshRowAt(v: Node, a: Node, c: seq<Node>)
    ensures |MeshRow(v, a, c)| == |c|
    ensures forall j :: 0 <= j < |c| ==> MeshRow(v, a, c)[j] == CoreLink(v, a, c[j])
  {
    if c != [] {
      MeshRowAt(v, a, c[..|c| - 1]);
    }
  }

  lemma {:induction false} MeshRowsLength(v: Node, rows: seq<Node>, c: seq<Node>)
    ensures |MeshRows(v, rows, c)| == |rows| * |c|
  {
    if rows != [] {
      MeshRowsLength(v, rows[..|rows| - 1], c);
      MeshRowAt(v, rows[|rows| - 1], c);
      assert (|rows| - 1) * |c| + |c| == |rows| * |c|;
    }
  }

  lemma {:induction false} MeshRowsAt(v: Node, rows: seq<Node>, c: seq<Node>, i: nat, j: nat)
    requires i < |rows| && j < |c|
    ensures i * |c| + j < |MeshRows(v, rows, c)|
    ensures MeshRows(v, rows, c)[i * |c| + j] == CoreLink(v, rows[i], c[j])
  {
    var n, w := |rows|, |c|;
    var init := rows[..n - 1];
    MeshRowsLength(v, init, c);
    MeshRowAt(v, rows[n - 1], c);
    var before := MeshRows(v, init, c);
    assert MeshRows(v, rows, c) == before + MeshRow(v, rows[n - 1], c);
    if i < n - 1 {
      MeshRowsAt(v, init, c, i, j);
      assert rows[i] == init[i];
    } else {
      assert |before| == i * w;
    }
  }

  /** The inner rule emits |c|² links: position i·|c|+j runs from the i-th
      neighbour to the j-th, so each neighbour is also linked to itself. */
  lemma MeshPairs(v: Node, c: seq<Node>)
    ensures |Mesh(v, c)| == |c| * |c|
    ensures forall i, j :: 0 <= i < |c| && 0 <= j < |c| ==>
              i * |c| + j < |Mesh(v, c)| &&
              Mesh(v, c)[i * |c| + j] == Link(c[i].olo, c[j].olo, Line(c[i].geom, c[j].geom), Count(v.population), Core, TiersOf(v))
  {
    MeshRowsLength(v, c, c);
    forall i, j | 0 <= i < |c| && 0 <= j < |c|
      ensures i * |c| + j < |Mesh(v, c)| &&
              Mesh(v, c)[i * |c| + j] == Link(c[i].olo, c[j].olo, Line(c[i].geom, c[j].geom), Count(v.population), Core, TiersOf(v))
    {
      MeshRowsAt(v, c, c, i, j);
    }
  }

  /** Each spoke rule emits one link per neighbour, from the visited
      exchange to that neighbour, at the rule's level; only the MSAN line is
      drawn the other way round. */
  lemma {:induction false} SpokesShape(v: Node, c: seq<Node>, level: Level)
    ensures |Spokes(v, c, level)| == |c|
    ensures forall k :: 0 <= k < |c| ==>
              Spokes(v, c, level)[k].source == v.olo && Spokes(v, c, level)[k].sink == c[k].olo &&
              Spokes(v, c, level)[k].level == level &&
              Spokes(v, c, level)[k].line == (if level == Msan then Line(c[k].geom, v.geom) else Line(v.geom, c[k].geom))
  {
    if c != [] {
      SpokesShape(v, c[..|c| - 1], level);
    }
  }

  lemma {:induction false} MeshRowAttributes(v: Node, a: Node, c: seq<Node>)
    ensures forall l :: l in MeshRow(v, a, c) ==> l.population == Count(v.population) && l.tiers == TiersOf(v) && l.level == Core
  {
    if c != [] {
      MeshRowAttributes(v, a, c[..|c| - 1]);
    }
  }

  lemma {:induction false} MeshRowsAttributes(v: Node, rows: seq<Node>, c: seq<Node>)
    ensures forall l :: l in MeshRows(v, rows, c) ==> l.population == Count(v.population) && l.tiers == TiersOf(v) && l.level == Core
  {
    if rows != [] {
      MeshRowsAttributes(v, rows[..|rows| - 1], c);
      MeshRowAttributes(v, rows[|rows| - 1], c);
    }
  }

  lemma {:induction false} SpokesAttributes(v: Node, c: seq<Node>, level: Level)
    ensures forall l :: l in Spokes(v, c, level) ==>
              l.population == Count(v.population) && l.tiers == TiersOf(v) && l.level == level && l.source == v.olo
  {
    if c != [] {
      SpokesAttributes(v, c[..|c| - 1], level);
    }
  }

  /** Every link of a visited exchange carries its population and its five
      flags, and is a core, metro, tier-1 or MSAN link. */
  lemma NodeLinksAttributes(v: Node, ix: Indexes, stale: Point, nearest: Nearest)
    ensures forall l :: l in NodeLinks(v, ix, stale, nearest) ==>
              l.population == Count(v.population) && l.tiers == TiersOf(v) &&
              l.level != Island && l.level != Unknown
  {
    MeshRowsAttributes(v, InnerNeighbours(v, ix, stale, nearest), InnerNeighbours(v, ix, stale, nearest));
    SpokesAttributes(v, OuterNeighbours(v, ix, stale, nearest), Core);
    SpokesAttributes(v, MetroNeighbours(v, ix, nearest), Metro);
    SpokesAttributes(v, Tier1Neighbours(v, ix, nearest), Tier1);
    SpokesAttributes(v, MsanNeighbours(v, ix, nearest), Msan);
  }

  /** How many links a visited exchange yields: the square of its inner
      neighbours plus one per neighbour of every other rule that applies. */
  lemma NodeLinksCount(v: Node, ix: Indexes, stale: Point, nearest: Nearest)
    ensures |NodeLinks(v, ix, stale, nearest)| ==
              (if v.inner > 0 then |InnerNeighbours(v, ix, stale, nearest)| * |InnerNeighbours(v, ix, stale, nearest)| else 0) +
              (if v.outer > 0 then |OuterNeighbours(v, ix, stale, nearest)| else 0) +
              (if v.metro > 0 then |MetroNeighbours(v, ix, nearest)| else 0) +
              (if v.tier1 > 0 then |Tier1Neighbours(v, ix, nearest)| else 0) +
              (if v.msan > 0 then |MsanNeighbours(v, ix, nearest)| else 0)
  {
    MeshPairs(v, InnerNeighbours(v, ix, stale, nearest));
    SpokesShape(v, OuterNeighbours(v, ix, stale, nearest), Core);
    SpokesShape(v, MetroNeighbours(v, ix, nearest), Metro);
    SpokesShape(v, Tier1Neighbours(v, ix, nearest), Tier1);
    SpokesShape(v, MsanNeighbours(v, ix, nearest), Msan);
  }

  /** Every emitted link was produced by some visited exchange and carries
      that exchange's population and flags. */
  lemma {:induction false} VisitLinksAttributes(visit: seq<Node>, ix: Indexes, stale: Point, nearest: Nearest)
    ensures forall l :: l in VisitLinks(visit, ix, stale, nearest) ==>
              exists v :: v in visit && l.population == Count(v.population) && l.tiers == TiersOf(v)
  {
    if visit != [] {
      var init, v := visit[..|visit| - 1], visit[|visit| - 1];
      VisitLinksAttributes(init, ix, stale, nearest);
      NodeLinksAttributes(v, ix, stale, nearest);
      forall l | l in VisitLinks(visit, ix, stale, nearest)
        ensures exists v :: v in visit && l.population == Count(v.population) && l.tiers == TiersOf(v)
      {
        if l in VisitLinks(init, ix, stale, nearest) {
          var u :| u in init && l.population == Count(u.population) && l.tiers == TiersOf(u);
          assert u in visit;
        } else {
          assert v in visit;
        }
      }
    }
  }

  /** The inner rule's nested loops. */
  method MeshLinks(v: Node, c: seq<Node>) returns (links: seq<Link>)
    ensures links == Mesh(v, c)
  {
    links := [];
    for i := 0 to |c|
      invariant links == MeshRows(v, c[..i], c)
    {
      assert c[..i + 1][..i] == c[..i];
      for j := 0 to |c|
        invariant links == MeshRows(v, c[..i], c) + MeshRow(v, c[i], c[..j])
      {
        assert c[..j + 1][..j] == c[..j];
        links := links + [Link(c[i].olo, c[j].olo, Line(c[i].geom, c[j].geom), Count(v.population), Core, TiersOf(v))];
      }
      assert c[..|c|] == c;
    }
    assert c[..|c|] == c;
  }

  /** The loop of one of the outer, metro, tier-1 and MSAN rules. */
  method SpokeLinks(v: Node, c: seq<Node>, level: Level) returns (links: seq<Link>)
    ensures links == Spokes(v, c, level)
  {
    links := [];
    for k := 0 to |c|
      invariant links == Spokes(v, c[..k], level)
    {
      assert c[..k + 1][..k] == c[..k];
      var line := if level == Msan then Line(c[k].geom, v.geom) else Line(v.geom, c[k].geom);
      links := links + [Link(v.olo, c[k].olo, line, Count(v.population), level, TiersOf(v))];
    }
    assert c[..|c|] == c;
  }

  /** One pass of the main loop of `connect`. */
  method EmitNode(v: Node, ix: Indexes, stale: Point, nearest: Nearest) returns (links: seq<Link>)
    ensures links == NodeLinks(v, ix, stale, nearest)
  {
    var inner, outer, metro, tier1, msan: seq<Link> := [], [], [], [], [];
    if v.inner > 0 {
      var closest := nearest(ix.inner, stale, |ix.inner| + 1);
      inner := MeshLinks(v, closest);
    }
    if v.outer > 0 {
      var closest := nearest(ix.core, stale, 4);
      outer := SpokeLinks(v, closest, Core);
    }
    if v.metro > 0 {
      var closest := nearest(ix.core, v.geom, 3);
      metro := SpokeLinks(v, closest, Metro);
    }
    if v.tier1 > 0 {
      var closest := nearest(ix.metro, v.geom, 3);
      tier1 := SpokeLinks(v, closest, Tier1);
    }
    if v.msan > 0 {
      var closest := nearest(ix.tier1, v.geom, 3);
      msan := SpokeLinks(v, closest, Msan);
    }
    links := inner + outer + metro + tier1 + msan;
  }

  /** The main loop of `connect` over the visit list. */
  method EmitLinks(visit: seq<Node>, ix: Indexes, stale: Point, nearest: Nearest) returns (output: seq<Link>)
    ensures output == VisitLinks(visit, ix, stale, nearest)
  {
    output := [];
    for i := 0 to |visit|
      invariant output == VisitLinks(visit[..i], ix, stale, nearest)
    {
      assert visit[..i + 1][..i] == visit[..i];
      var links := EmitNode(visit[i], ix, stale, nearest);
      output := output + links;
    }
    assert visit[..|visit|] == visit;
  }

  // ---------------------------------------------------------------------
  // Visit list

  function Lower(exchanges: seq<Node>): seq<Node> {
    Filter(exchanges, IsLower)
  }

  /** `metro + msan + tier_1`: the list the main loop walks. */
  function VisitList(exchanges: seq<Node>): seq<Node> {
    var lower := Lower(exchanges);
    var ids := RankedIds(lower);
    Filter(exchanges, IsMetro) + MsanRecords(lower, ids) + Tier1Records(lower, ids)
  }

  function IndexesOf(exchanges: seq<Node>): Indexes {
    var lower := Lower(exchanges);
    Indexes(Filter(exchanges, IsInner), Filter(exchanges, IsCore), Filter(exchanges, IsMetro),
            Tier1Records(lower, RankedIds(lower)))
  }

  /** The point left in `coords` by the last index-building loop: that of
      the last input exchange. With no input nothing is visited and the
      point is never read. */
  function StalePoint(exchanges: seq<Node>): Point {
    if exchanges == [] then Point(0.0, 0.0) else exchanges[|exchanges| - 1].geom
  }

  /** The visit list holds the metro exchanges themselves and the tier-1
      and MSAN records made from `lower` exchanges, and nothing else: every
      visited record has its metro or `lower` flag set, so an exchange that
      is inner or outer and nothing else never gets links of its own. */
  lemma VisitedAreMetroOrLower(exchanges: seq<Node>)
    ensures forall v :: v in VisitList(exchanges) <==>
              (v in exchanges && v.metro > 0) ||
              exists n :: n in Lower(exchanges) && (
                (n.olo in RankedIds(Lower(exchanges)) && v == AsTier1(n)) ||
                (n.olo !in RankedIds(Lower(exchanges)) && v == AsMsan(n)))
    ensures forall v :: v in VisitList(exchanges) ==> v.metro > 0 || v.lower > 0
  {
    var lower := Lower(exchanges);
    var ids := RankedIds(lower);
    forall v ensures v in VisitList(exchanges) <==>
        (v in exchanges && v.metro > 0) ||
        exists n :: n in lower && ((n.olo in ids && v == AsTier1(n)) || (n.olo !in ids && v == AsMsan(n)))
    {
      FilterMembers(exchanges, IsMetro, v);
      Tier1RecordMembers(lower, ids, v);
      MsanRecordMembers(lower, ids, v);
    }
    forall v | v in VisitList(exchanges) ensures v.metro > 0 || v.lower > 0 {
      if !(v in exchanges && v.metro > 0) {
        var n :| n in lower && ((n.olo in ids && v == AsTier1(n)) || (n.olo !in ids && v == AsMsan(n)));
        FilterMembers(exchanges, IsLower, n);
      }
    }
  }

  /** A metro exchange with `lower` set is visited twice: once as itself and
      once as its tier-1 or MSAN record. */
  lemma MetroVisitedTwice(exchanges: seq<Node>, n: Node)
    requires n in exchanges && n.metro > 0 && n.lower > 0
    ensures n in VisitList(exchanges)
    ensures AsTier1(n) in VisitList(exchanges) || AsMsan(n) in VisitList(exchanges)
  {
    var lower := Lower(exchanges);
    var ids := RankedIds(lower);
    FilterMembers(exchanges, IsMetro, n);
    FilterMembers(exchanges, IsLower, n);
    Tier1RecordMembers(lower, ids, AsTier1(n));
    MsanRecordMembers(lower, ids, AsMsan(n));
  }

  // ---------------------------------------------------------------------
  // Island bridges

  /** One row of `node_lut`: an island exchange, the tier-1 node nearest to
      it and the length of the line between them. */
  datatype Candidate = Candidate(island: Node, mainland: Node, length: real)

  function CandidateLength(c: Candidate): real {
    c.length
  }

  function IslandOf(c: Candidate): Node {
    c.island
  }

  function Tagged(name: string): Node -> bool {
    (n: Node) => n.island == Some(name)
  }

  /** The bridge link: the population attribute holds the island OLO. */
  function BridgeLink(c: Candidate): Link {
    Link(c.island.olo, c.mainland.olo, Line(c.island.geom, c.mainland.geom), Label(c.island.olo), Island, TiersOf(c.island))
  }

  /** The `node_lut` rows of island `name`, or the first error: an exchange
      without an island attribute (KeyError) or an empty answer from the
      tier-1 index (IndexError). */
  function IslandCandidates(islands: seq<Node>, name: string, tier1: seq<Node>, nearest: Nearest, dist: Metric): Result<seq<Candidate>> {
    if islands == [] then Ok([])
    else
      match IslandCandidates(islands[..|islands| - 1], name, tier1, nearest, dist)
      case Err(e) => Err(e)
      case Ok(cs) =>
        var e := islands[|islands| - 1];
        if e.island.None? then Err(KeyError)
        else if e.island.value != name then Ok(cs)
        else
          var near := nearest(tier1, e.geom, 1);
          if near == [] then Err(IndexError)
          else Ok(cs + [Candidate(e, near[0], dist(e.geom, near[0].geom))])
  }

  /** The bridge of island `name`: the first shortest candidate, which is
      what `sorted(node_lut, key=length)[0]` picks. */
  function Bridge(islands: seq<Node>, name: string, tier1: seq<Node>, nearest: Nearest, dist: Metric): Result<Link> {
    match IslandCandidates(islands, name, tier1, nearest, dist)
    case Err(e) => Err(e)
    case Ok(cs) =>
      if cs == [] then Err(IndexError)
      else
        SortByLength(cs, CandidateLength);
        Ok(BridgeLink(SortBy(cs, CandidateLength)[0]))
  }

  /** `Bridge` for fixed islands and tier-1 records, as a function of the
      island name. */
  function BridgeOf(islands: seq<Node>, tier1: seq<Node>, nearest: Nearest, dist: Metric): string -> Result<Link> {
    name => Bridge(islands, name, tier1, nearest, dist)
  }

  /** One bridge per island name, in the order `names` lists them, or the
      first error. */
  function Bridges(names: seq<string>, islands: seq<Node>, tier1: seq<Node>, nearest: Nearest, dist: Metric): Result<seq<Link>> {
    CollectAll(names, BridgeOf(islands, tier1, nearest, dist))
  }

  /** Without errors there is one candidate per exchange tagged `name`, in
      input order, each linking it to a tier-1 node nearest to it. */
  lemma {:induction false} IslandCandidatesShape(islands: seq<Node>, name: string, tier1: seq<Node>, nearest: Nearest, dist: Metric)
    requires ValidNearest(nearest)
    ensures IslandCandidates(islands, name, tier1, nearest, dist).Ok? ==>
              var cs := IslandCandidates(islands, name, tier1, nearest, dist).value;
              Map(cs, IslandOf) == Filter(islands, Tagged(name)) &&
              forall c :: c in cs ==> c.mainland in tier1 && c.length == dist(c.island.geom, c.mainland.geom)
  {
    if islands != [] {
      IslandCandidatesShape(islands[..|islands| - 1], name, tier1, nearest, dist);
      var e := islands[|islands| - 1];
      if IslandCandidates(islands, name, tier1, nearest, dist).Ok? && e.island == Some(name) {
        var cs := IslandCandidates(islands[..|islands| - 1], name, tier1, nearest, dist).value;
        var near := nearest(tier1, e.geom, 1);
        var c := Candidate(e, near[0], dist(e.geom, near[0].geom));
        assert Map(cs + [c], IslandOf) == Map(cs, IslandOf) + [e];
        assert near[0] in near;
      }
    }
  }

  /** The bridge is the candidate of least length, the first one among
      equals, and it is an island link whose population is the island OLO. */
  lemma BridgeIsShortest(islands: seq<Node>, name: string, tier1: seq<Node>, nearest: Nearest, dist: Metric)
    requires IslandCandidates(islands, name, tier1, nearest, dist).Ok?
    requires IslandCandidates(islands, name, tier1, nearest, dist).value != []
    ensures var cs := IslandCandidates(islands, name, tier1, nearest, dist).value;
            exists i :: 0 <= i < |cs| &&
              Bridge(islands, name, tier1, nearest, dist) == Ok(BridgeLink(cs[i])) &&
              (forall j :: 0 <= j < |cs| ==> cs[i].length <= cs[j].length) &&
              (forall j :: 0 <= j < i ==> cs[j].length > cs[i].length)
    ensures Bridge(islands, name, tier1, nearest, dist).Ok?
    ensures Bridge(islands, name, tier1, nearest, dist).value.level == Island
  {
    var cs := IslandCandidates(islands, name, tier1, nearest, dist).value;
    SortByHead(cs, CandidateLength);
  }

  /** An island none of whose tagged exchanges is present fails with
      IndexError, once every exchange carries an island tag. */
  lemma {:induction false} NoMembersFails(islands: seq<Node>, name: string, tier1: seq<Node>, nearest: Nearest, dist: Metric)
    requires forall n :: n in islands ==> n.island.Some? && n.island != Some(name)
    ensures IslandCandidates(islands, name, tier1, nearest, dist) == Ok([])
    ensures Bridge(islands, name, tier1, nearest, dist) == Err(IndexError)
  {
    if islands != [] {
      NoMembersFails(islands[..|islands| - 1], name, tier1, nearest, dist);
    }
  }

  /** With an empty tier-1 index the first tagged exchange of the island
      fails with IndexError. */
  lemma {:induction false} EmptyTier1Fails(islands: seq<Node>, name: string, nearest: Nearest, dist: Metric)
    requires ValidNearest(nearest)
    requires forall n :: n in islands ==> n.island.Some?
    requires exists n :: n in islands && n.island == Some(name)
    ensures IslandCandidates(islands, name, [], nearest, dist) == Err(IndexError)
    ensures Bridge(islands, name, [], nearest, dist) == Err(IndexError)
  {
    var init, e := islands[..|islands| - 1], islands[|islands| - 1];
    if exists n :: n in init && n.island == Some(name) {
      EmptyTier1Fails(init, name, nearest, dist);
    } else {
      NoMembersFails(init, name, [], nearest, dist);
      assert e.island == Some(name);
      var near := nearest([], e.geom, 1);
      assert |near| <= 0;
    }
  }

  /** Without errors there is exactly one bridge per island name, in the
      order the names are visited. */
  lemma BridgesOnePerIsland(names: seq<string>, islands: seq<Node>, tier1: seq<Node>, nearest: Nearest, dist: Metric)
    ensures Bridges(names, islands, tier1, nearest, dist).Ok? <==>
              forall k :: 0 <= k < |names| ==> Bridge(islands, names[k], tier1, nearest, dist).Ok?
    ensures Bridges(names, islands, tier1, nearest, dist).Ok? ==>
              |Bridges(names, islands, tier1, nearest, dist).value| == |names| &&
              forall k :: 0 <= k < |names| ==>
                Bridges(names, islands, tier1, nearest, dist).value[k] == Bridge(islands, names[k], tier1, nearest, dist).value
  {
    CollectAllOk(names, BridgeOf(islands, tier1, nearest, dist));
  }

  /** The inner loop over the island exchanges that fills `node_lut`,
      followed by the sort that picks the bridge. */
  method BridgeIsland(islands: seq<Node>, name: string, tier1: seq<Node>, nearest: Nearest, dist: Metric) returns (r: Result<Link>)
    ensures r == Bridge(islands, name, tier1, nearest, dist)
  {
    var nodeLut: seq<Candidate> := [];
    for i := 0 to |islands|
      invariant IslandCandidates(islands[..i], name, tier1, nearest, dist) == Ok(nodeLut)
    {
      assert islands[..i + 1][..i] == islands[..i];
      var e := islands[i];
      if e.island.None? {
        r := Err(KeyError);
        PrefixError(islands, i + 1, name, tier1, nearest, dist);
        return;
      }
      if e.island.value == name {
        var closest := nearest(tier1, e.geom, 1);
        if closest == [] {
          r := Err(IndexError);
          PrefixError(islands, i + 1, name, tier1, nearest, dist);
          return;
        }
        nodeLut := nodeLut + [Candidate(e, closest[0], dist(e.geom, closest[0].geom))];
      }
    }
    assert islands[..|islands|] == islands;
    if nodeLut == [] {
      return Err(IndexError);
    }
    SortByLength(nodeLut, CandidateLength);
    var ranked := SortBy(nodeLut, CandidateLength)[0];
    r := Ok(Link(ranked.island.olo, ranked.mainland.olo, Line(ranked.island.geom, ranked.mainland.geom),
                 Label(ranked.island.olo), Island, TiersOf(ranked.island)));
  }

  /** An error on a prefix of the island exchanges is the error of the whole
      list. */
  lemma {:induction false} PrefixError(islands: seq<Node>, m: nat, name: string, tier1: seq<Node>, nearest: Nearest, dist: Metric)
    requires m <= |islands|
    requires IslandCandidates(islands[..m], name, tier1, nearest, dist).Err?
    ensures IslandCandidates(islands, name, tier1, nearest, dist) == IslandCandidates(islands[..m], name, tier1, nearest, dist)
    decreases |islands| - m
  {
    if m < |islands| {
      assert islands[..m + 1][..m] == islands[..m];
      PrefixError(islands, m + 1, name, tier1, nearest, dist);
    } else {
      assert islands[..m] == islands;
    }
  }

  /** The outer loop over the island names that appends one bridge each. */
  method BridgeIslands(names: seq<string>, islands: seq<Node>, tier1: seq<Node>, nearest: Nearest, dist: Metric) returns (r: Result<seq<Link>>)
    ensures r == Bridges(names, islands, tier1, nearest, dist)
  {
    ghost var bridgeOf := BridgeOf(islands, tier1, nearest, dist);
    var edges: seq<Link> := [];
    assert names[0..] == names;
    ghost var all := CollectAll(names, bridgeOf);
    assert all.Ok? ==> [] + all.value == all.value;
    for a := 0 to |names|
      invariant Then(edges, CollectAll(names[a..], bridgeOf)) == CollectAll(names, bridgeOf)
    {
      var bridge := BridgeIsland(islands, names[a], tier1, nearest, dist);
      CollectStep(names, a, bridgeOf, edges, bridge);
      if bridge.Err? {
        return Err(bridge.error);
      }
      edges := edges + [bridge.value];
    }
    assert names[|names|..] == [] && edges + [] == edges;
    r := Ok(edges);
  }

  // ---------------------------------------------------------------------
  // connect

  /** `connect`: the links of every visited exchange followed by one bridge
      per island name, in the order `names` visits the set of island names
      of the lookup. */
  method Connect(exchanges: seq<Node>, islands: seq<Node>, lut: seq<IslandRow>, names: seq<string>, nearest: Nearest, dist: Metric)
    returns (r: Result<seq<Link>>)
    requires IterationOrder(names, lut)
    ensures var lower := Lower(exchanges);
            var bridges := Bridges(names, islands, Tier1Records(lower, RankedIds(lower)), nearest, dist);
            (r.Err? <==> bridges.Err?) &&
            (r.Err? ==> r.error == bridges.error) &&
            (r.Ok? ==> r.value == VisitLinks(VisitList(exchanges), IndexesOf(exchanges), StalePoint(exchanges), nearest) + bridges.value)
  {
    var t := CollectTiers(exchanges);
    var ranked := SortBy(t.lower, NegPopulation);
    SortByLength(t.lower, NegPopulation);
    ranked := ranked[..Min(Tier1Cutoff, |ranked|)];
    var ids: seq<string> := [];
    for k := 0 to |ranked|
      invariant ids == Map(ranked[..k], OloOf)
    {
      assert ranked[..k + 1][..k] == ranked[..k];
      ids := ids + [ranked[k].olo];
    }
    assert ranked[..|ranked|] == ranked;
    var tier1, msan := SplitTiers(t.lower, ids);
    var ix := Indexes(t.inner, t.core, t.metro, tier1);
    var stale := if exchanges == [] then Point(0.0, 0.0) else exchanges[|exchanges| - 1].geom;
    var output := EmitLinks(t.metro + msan + tier1, ix, stale, nearest);
    var edges := BridgeIslands(names, islands, tier1, nearest, dist);
    if edges.Err? {
      return Err(edges.error);
    }
    r := Ok(output + edges.value);
  }

  /** The links `connect` returns are the visited exchanges' links, whose
      attributes come from a visited exchange, then the island bridges,
      each at level 'island'. */
  lemma ConnectLinkLevels(exchanges: seq<Node>, names: seq<string>, islands: seq<Node>, nearest: Nearest, dist: Metric)
    requires Bridges(names, islands, Tier1Records(Lower(exchanges), RankedIds(Lower(exchanges))), nearest, dist).Ok?
    ensures var bridges := Bridges(names, islands, Tier1Records(Lower(exchanges), RankedIds(Lower(exchanges))), nearest, dist).value;
            |bridges| == |names| && forall l :: l in bridges ==> l.level == Island
  {
    var tier1 := Tier1Records(Lower(exchanges), RankedIds(Lower(exchanges)));
    BridgesOnePerIsland(names, islands, tier1, nearest, dist);
    var bridges := Bridges(names, islands, tier1, nearest, dist).value;
    forall l | l in bridges ensures l.level == Island {
      var k :| 0 <= k < |bridges| && bridges[k] == l;
      var cs := IslandCandidates(islands, names[k], tier1, nearest, dist);
      assert cs.Ok? && cs.value != [];
      BridgeIsShortest(islands, names[k], tier1, nearest, dist);
    }
  }
}
