/** Island segmentation of scripts/core.py: `process_islands` and the edge
    generation of `design_network`. */
module Islands {
  import opened Results
  import opened Seqs
  import opened Network

  /** One row of the island lookup: an exchange and the island it is on. */
  datatype IslandRow = IslandRow(olo: string, island: string)

  /** The islands for which `process_islands` declares a `<name>_set` local
      and a `<name>` list; `locals()` has no entry for any other name. */
  const KnownIslands: set<string> :=
    {"arran", "campbeltown", "islay", "mull", "orkney", "outer_heb", "shetland", "skye"}

  function IslandNames(lut: seq<IslandRow>): set<string> {
    set r | r in lut :: r.island
  }

  /** The OLO codes the lookup places on island `name`. */
  function MembersOf(lut: seq<IslandRow>, name: string): set<string> {
    set r | r in lut && r.island == name :: r.olo
  }

  /** The OLO codes the lookup places on any island. */
  function IslandOlos(lut: seq<IslandRow>): set<string> {
    set r | r in lut :: r.olo
  }

  /** `names` is the order in which Python happens to iterate over the set
      of island names: every name of the lookup exactly once. */
  ghost predicate IterationOrder(names: seq<string>, lut: seq<IslandRow>) {
    (forall i, j :: 0 <= i < j < |names| ==> names[i] != names[j]) &&
    (forall name :: name in names <==> name in IslandNames(lut))
  }

  function OnIsland(lut: seq<IslandRow>): Node -> bool {
    (n: Node) => n.olo in IslandOlos(lut)
  }

  function InIsland(lut: seq<IslandRow>, name: string): Node -> bool {
    (n: Node) => n.olo in MembersOf(lut, name)
  }

  /** The island tag an exchange ends with: tagging runs island by island
      in `names` order, so the last island listing the OLO wins; an OLO on
      no island keeps `current`. */
  function LastIsland(names: seq<string>, lut: seq<IslandRow>, olo: string, current: Option<string>): Option<string> {
    if names == [] then current
    else if olo in MembersOf(lut, names[|names| - 1]) then Some(names[|names| - 1])
    else LastIsland(names[..|names| - 1], lut, olo, current)
  }

  function Tag(n: Node, names: seq<string>, lut: seq<IslandRow>): Node {
    n.(island := LastIsland(names, lut, n.olo, n.island))
  }

  /** The tag is the last island in `names` that lists the OLO, and an OLO
      that no island lists keeps its tag. */
  lemma {:induction false} LastIslandChoice(names: seq<string>, lut: seq<IslandRow>, olo: string, current: Option<string>)
    ensures (forall k :: 0 <= k < |names| ==> olo !in MembersOf(lut, names[k])) ==>
              LastIsland(names, lut, olo, current) == current
    ensures (exists k :: 0 <= k < |names| && olo in MembersOf(lut, names[k])) ==>
              exists k :: 0 <= k < |names| && olo in MembersOf(lut, names[k]) &&
                LastIsland(names, lut, olo, current) == Some(names[k]) &&
                forall m :: k < m < |names| ==> olo !in MembersOf(lut, names[m])
  {
    if names != [] {
      var init, last := names[..|names| - 1], names[|names| - 1];
      LastIslandChoice(init, lut, olo, current);
      if olo !in MembersOf(lut, last) {
        if exists k :: 0 <= k < |names| && olo in MembersOf(lut, names[k]) {
          var k :| 0 <= k < |names| && olo in MembersOf(lut, names[k]);
          assert k < |init| && init[k] == names[k];
          var k' :| 0 <= k' < |init| && olo in MembersOf(lut, init[k']) &&
                    LastIsland(init, lut, olo, current) == Some(init[k']) &&
                    forall m :: k' < m < |init| ==> olo !in MembersOf(lut, init[m]);
          assert names[k'] == init[k'];
          assert forall m :: k' < m < |names| ==> olo !in MembersOf(lut, names[m]) by {
            forall m | k' < m < |names| ensures olo !in MembersOf(lut, names[m]) {
              if m < |init| {
                assert names[m] == init[m];
              }
            }
          }
        }
        if forall k :: 0 <= k < |names| ==> olo !in MembersOf(lut, names[k]) {
          forall k | 0 <= k < |init| ensures olo !in MembersOf(lut, init[k]) {
            assert init[k] == names[k];
          }
        }
      }
    }
  }

  /** Every exchange the lookup places on an island is tagged with one of
      the islands that list it; every other exchange is left unchanged. */
  lemma TaggingMarksIslands(n: Node, names: seq<string>, lut: seq<IslandRow>)
    requires IterationOrder(names, lut)
    ensures n.olo in IslandOlos(lut) ==>
              Tag(n, names, lut).island.Some? &&
              Tag(n, names, lut).island.value in names &&
              n.olo in MembersOf(lut, Tag(n, names, lut).island.value)
    ensures n.olo !in IslandOlos(lut) ==> Tag(n, names, lut) == n
  {
    LastIslandChoice(names, lut, n.olo, n.island);
    if n.olo in IslandOlos(lut) {
      var r :| r in lut && r.olo == n.olo;
      assert r.island in IslandNames(lut);
      var k :| 0 <= k < |names| && names[k] == r.island;
      assert n.olo in MembersOf(lut, names[k]);
    }
  }

  /** The mainland and island lists split the exchanges: every exchange is
      in exactly one of them, each keeps the input order, and an exchange is
      on the island list exactly when the lookup lists its OLO. */
  lemma SegmentationPartition(nodes: seq<Node>, lut: seq<IslandRow>)
    ensures multiset(Filter(nodes, Not(OnIsland(lut)))) + multiset(Filter(nodes, OnIsland(lut))) == multiset(nodes)
    ensures Subsequence(Filter(nodes, Not(OnIsland(lut))), nodes)
    ensures Subsequence(Filter(nodes, OnIsland(lut)), nodes)
    ensures forall n :: n in Filter(nodes, OnIsland(lut)) <==> n in nodes && n.olo in IslandOlos(lut)
    ensures forall n :: n in Filter(nodes, Not(OnIsland(lut))) <==> n in nodes && n.olo !in IslandOlos(lut)
  {
    FilterPartition(nodes, OnIsland(lut));
    FilterIsSubsequence(nodes, OnIsland(lut));
    FilterIsSubsequence(nodes, Not(OnIsland(lut)));
    forall n ensures n in Filter(nodes, OnIsland(lut)) <==> n in nodes && n.olo in IslandOlos(lut) {
      FilterMembers(nodes, OnIsland(lut), n);
    }
    forall n ensures n in Filter(nodes, Not(OnIsland(lut))) <==> n in nodes && n.olo !in IslandOlos(lut) {
      FilterMembers(nodes, Not(OnIsland(lut)), n);
    }
  }

  // ---------------------------------------------------------------------
  // design_network

  /** The candidate edge from `a` to `b`: a line between their points and
      its length. */
  function Join(a: Node, b: Node, dist: Metric): Edge {
    Edge(a.olo, b.olo, Line(a.geom, b.geom), dist(a.geom, b.geom))
  }

  /** Edges from node `i` to nodes `0 .. m-1`, skipping `i` itself. */
  function Row(nodes: seq<Node>, i: nat, m: nat, dist: Metric): seq<Edge>
    requires i < |nodes| && m <= |nodes|
  {
    if m == 0 then []
    else Row(nodes, i, m - 1, dist) + (if m - 1 != i then [Join(nodes[i], nodes[m - 1], dist)] else [])
  }

  /** The rows of nodes `0 .. m-1`, one after the other. */
  function Rows(nodes: seq<Node>, m: nat, dist: Metric): seq<Edge>
    requires m <= |nodes|
  {
    if m == 0 then [] else Rows(nodes, m - 1, dist) + Row(nodes, m - 1, |nodes|, dist)
  }

  /** The candidate edges `design_network` hands to the spanning-tree
      search: both directions of every pair of distinct positions. */
  function Candidates(nodes: seq<Node>, dist: Metric): seq<Edge> {
    Rows(nodes, |nodes|, dist)
  }

  lemma {:induction false} RowShape(nodes: seq<Node>, i: nat, m: nat, dist: Metric)
    requires i < |nodes| && m <= |nodes|
    ensures |Row(nodes, i, m, dist)| == if i < m then m - 1 else m
    ensures forall e :: e in Row(nodes, i, m, dist) <==>
              exists j :: 0 <= j < m && j != i && e == Join(nodes[i], nodes[j], dist)
  {
    if m > 0 {
      RowShape(nodes, i, m - 1, dist);
    }
  }

  lemma {:induction false} RowsShape(nodes: seq<Node>, m: nat, dist: Metric)
    requires m <= |nodes|
    ensures |Rows(nodes, m, dist)| == m * (|nodes| - 1)
    ensures forall e :: e in Rows(nodes, m, dist) <==>
              exists i, j :: 0 <= i < m && 0 <= j < |nodes| && i != j && e == Join(nodes[i], nodes[j], dist)
  {
    if m > 0 {
      RowsShape(nodes, m - 1, dist);
      RowShape(nodes, m - 1, |nodes|, dist);
      assert (m - 1) * (|nodes| - 1) + (|nodes| - 1) == m * (|nodes| - 1);
    }
  }

  /** `design_network`'s candidates are exactly the n·(n−1) ordered pairs of
      distinct positions. */
  lemma CandidatesArePairs(nodes: seq<Node>, dist: Metric)
    ensures |Candidates(nodes, dist)| == |nodes| * (|nodes| - 1)
    ensures forall e :: e in Candidates(nodes, dist) <==>
              exists i, j :: 0 <= i < |nodes| && 0 <= j < |nodes| && i != j && e == Join(nodes[i], nodes[j], dist)
  {
    RowsShape(nodes, |nodes|, dist);
  }

  /** The nested loop of `design_network` that builds the candidate edges. */
  method CandidateEdges(nodes: seq<Node>, dist: Metric) returns (edges: seq<Edge>)
    ensures edges == Candidates(nodes, dist)
    ensures |edges| == |nodes| * (|nodes| - 1)
  {
    edges := [];
    for i := 0 to |nodes|
      invariant edges == Rows(nodes, i, dist)
    {
      for j := 0 to |nodes|
        invariant edges == Rows(nodes, i, dist) + Row(nodes, i, j, dist)
      {
        if i != j {
          edges := edges + [Join(nodes[i], nodes[j], dist)];
        }
      }
    }
    CandidatesArePairs(nodes, dist);
  }

  /** The spanning-tree search (networkx's `minimum_spanning_edges`) as a
      parameter: given the candidate edges it returns some of them. */
  type Mst = seq<Edge> -> seq<Edge>

  ghost predicate ValidMst(mst: Mst) {
    forall candidates: seq<Edge>, e :: e in mst(candidates) ==> e in candidates
  }

  predicate HasLength(e: Edge) {
    e.length > 0.0
  }

  /** `design_network`: the spanning-tree edges of positive length, in the
      order the search yields them. */
  method DesignNetwork(nodes: seq<Node>, dist: Metric, mst: Mst) returns (links: seq<Edge>)
    requires ValidMst(mst)
    ensures links == Filter(mst(Candidates(nodes, dist)), HasLength)
    ensures forall e :: e in links ==>
              e.length > 0.0 &&
              exists i, j :: 0 <= i < |nodes| && 0 <= j < |nodes| && i != j && e == Join(nodes[i], nodes[j], dist)
    ensures forall e :: e in mst(Candidates(nodes, dist)) && e.length > 0.0 ==> e in links
  {
    var edges := CandidateEdges(nodes, dist);
    var tree := mst(edges);
    links := [];
    for k := 0 to |tree|
      invariant links == Filter(tree[..k], HasLength)
    {
      assert tree[..k + 1][..k] == tree[..k];
      if tree[k].length > 0.0 {
        links := links + [tree[k]];
      }
    }
    assert tree[..|tree|] == tree;
    CandidatesArePairs(nodes, dist);
    forall e ensures e in links <==> e in tree && HasLength(e) {
      FilterMembers(tree, HasLength, e);
    }
  }

  // ---------------------------------------------------------------------
  // process_islands

  /** A spanning-tree edge re-wrapped as a link: no single exchange owns it,
      so its attributes are the 'unknown' text and a zero population. */
  function TreeLink(e: Edge): Link {
    Link(e.from, e.to, e.line, Count(0), Unknown, UnknownTiers)
  }

  /** The loop that re-wraps one island's spanning tree as links. */
  method WrapTree(tree: seq<Edge>) returns (links: seq<Link>)
    ensures |links| == |tree|
    ensures forall k :: 0 <= k < |tree| ==>
              links[k].source == tree[k].from && links[k].sink == tree[k].to &&
              links[k].line == tree[k].line && links[k].population == Count(0) &&
              links[k].level == Unknown && links[k].tiers == UnknownTiers
  {
    links := [];
    for k := 0 to |tree|
      invariant |links| == k
      invariant forall m :: 0 <= m < k ==> links[m] == TreeLink(tree[m])
    {
      links := links + [TreeLink(tree[k])];
    }
  }

  /** One island's exchanges, in input order. */
  function Group(nodes: seq<Node>, lut: seq<IslandRow>, name: string): seq<Node> {
    Filter(nodes, InIsland(lut, name))
  }

  function TreeLinks(edges: seq<Edge>): seq<Link> {
    if edges == [] then [] else TreeLinks(edges[..|edges| - 1]) + [TreeLink(edges[|edges| - 1])]
  }

  /** The spanning-tree links of every island, island by island. */
  function IslandTrees(names: seq<string>, nodes: seq<Node>, lut: seq<IslandRow>, dist: Metric, mst: Mst): seq<Link> {
    if names == [] then []
    else
      IslandTrees(names[..|names| - 1], nodes, lut, dist, mst) +
      TreeLinks(Filter(mst(Candidates(Group(nodes, lut, names[|names| - 1]), dist)), HasLength))
  }

  lemma {:induction false} TreeLinksUnknown(edges: seq<Edge>)
    ensures forall l :: l in TreeLinks(edges) ==>
              l.level == Unknown && l.population == Count(0) && l.tiers == UnknownTiers
  {
    if edges != [] {
      TreeLinksUnknown(edges[..|edges| - 1]);
    }
  }

  /** Every spanning-tree link `process_islands` returns has level
      'unknown', population 0 and 'unknown' tier attributes. */
  lemma {:induction false} IslandTreesUnknown(names: seq<string>, nodes: seq<Node>, lut: seq<IslandRow>, dist: Metric, mst: Mst)
    ensures forall l :: l in IslandTrees(names, nodes, lut, dist, mst) ==>
              l.level == Unknown && l.population == Count(0) && l.tiers == UnknownTiers
  {
    if names != [] {
      IslandTreesUnknown(names[..|names| - 1], nodes, lut, dist, mst);
      TreeLinksUnknown(Filter(mst(Candidates(Group(nodes, lut, names[|names| - 1]), dist)), HasLength));
    }
  }

  /** The island sets built by the first loop of `process_islands`: every
      island OLO, and for each of the eight declared islands its members
      (the `<name>_set` locals, here an explicit map). */
  datatype IslandSets = IslandSets(all: seq<string>, members: map<string, set<string>>)

  /** The members of island `name` among `rows`, collected row by row. */
  function MembersIn(rows: seq<IslandRow>, name: string): set<string> {
    if rows == [] then {}
    else
      var last := rows[|rows| - 1];
      MembersIn(rows[..|rows| - 1], name) + (if last.island == name then {last.olo} else {})
  }

  lemma {:induction false} MembersInAll(rows: seq<IslandRow>, name: string)
    ensures MembersIn(rows, name) == MembersOf(rows, name)
  {
    if rows != [] {
      var init := rows[..|rows| - 1];
      MembersInAll(init, name);
      assert rows == init + [rows[|rows| - 1]];
      assert forall r :: r in rows <==> r in init || r == rows[|rows| - 1];
    }
  }

  /** One island's pass over the lookup in the first loop of
      `process_islands`: each row of island `name` appends its OLO to `all`
      and adds it to the island's set; the first such row raises KeyError
      when the island has no set. */
  method CollectIsland(lut: seq<IslandRow>, name: string, all: seq<string>, members: map<string, set<string>>)
    returns (r: Result<IslandSets>)
    requires name in IslandNames(lut)
    requires name in members ==> members[name] == {}
    ensures r.Err? <==> name !in members
    ensures r.Err? ==> r.error == KeyError
    ensures r.Ok? ==> r.value.members == members[name := MembersOf(lut, name)]
    ensures r.Ok? ==> forall olo :: olo in r.value.all <==> olo in all || olo in MembersOf(lut, name)
  {
    var olos, sets := all, members;
    assert name in sets ==> sets == members[name := {}];
    for b := 0 to |lut|
      invariant sets.Keys == members.Keys
      invariant name in sets ==> sets == members[name := MembersIn(lut[..b], name)]
      invariant name !in sets ==> sets == members && MembersIn(lut[..b], name) == {}
      invariant forall olo :: olo in olos <==> olo in all || olo in MembersIn(lut[..b], name)
    {
      assert lut[..b + 1][..b] == lut[..b];
      assert MembersIn(lut[..b + 1], name) ==
             MembersIn(lut[..b], name) + (if lut[b].island == name then {lut[b].olo} else {});
      if name == lut[b].island {
        olos := olos + [lut[b].olo];
        if name !in sets {
          return Err(KeyError);
        }
        ghost var found := MembersIn(lut[..b], name);
        sets := sets[name := sets[name] + {lut[b].olo}];
        assert sets == members[name := found + {lut[b].olo}];
      } else {
        assert MembersIn(lut[..b + 1], name) == MembersIn(lut[..b], name);
      }
    }
    assert lut[..|lut|] == lut;
    MembersInAll(lut, name);
    var row :| row in lut && row.island == name;
    assert row.olo in MembersOf(lut, name);
    assert name in sets;
    r := Ok(IslandSets(olos, sets));
  }

  /** The island names visited by the first `a` passes of the loop. */
  ghost function NamesUpTo(names: seq<string>, a: nat): set<string>
    requires a <= |names|
  {
    if a == 0 then {} else NamesUpTo(names, a - 1) + {names[a - 1]}
  }

  /** The island OLOs gathered by the first `a` passes of the loop. */
  ghost function OlosUpTo(lut: seq<IslandRow>, names: seq<string>, a: nat): set<string>
    requires a <= |names|
  {
    if a == 0 then {} else OlosUpTo(lut, names, a - 1) + MembersOf(lut, names[a - 1])
  }

  lemma {:induction false} NamesUpToMembers(names: seq<string>, a: nat, n: string)
    requires a <= |names|
    ensures n in NamesUpTo(names, a) <==> exists k :: 0 <= k < a && names[k] == n
  {
    if a > 0 {
      NamesUpToMembers(names, a - 1, n);
    }
  }

  lemma {:induction false} OlosUpToMembers(lut: seq<IslandRow>, names: seq<string>, a: nat, olo: string)
    requires a <= |names|
    ensures olo in OlosUpTo(lut, names, a) <==> exists k :: 0 <= k < a && olo in MembersOf(lut, names[k])
  {
    if a > 0 {
      OlosUpToMembers(lut, names, a - 1, olo);
    }
  }

  /** The state of the first loop of `process_islands` after its first `a`
      passes: every known island has a set, the visited ones hold their
      members and the rest are still empty, and `all` holds the visited
      islands' OLOs. */
  ghost predicate Collected(lut: seq<IslandRow>, names: seq<string>, a: nat, members: map<string, set<string>>, all: seq<string>)
    requires a <= |names|
  {
    && members.Keys == KnownIslands
    && NamesUpTo(names, a) <= KnownIslands
    && (forall n :: n in NamesUpTo(names, a) ==> members[n] == MembersOf(lut, n))
    && (forall n :: n in KnownIslands && n !in NamesUpTo(names, a) ==> members[n] == {})
    && (forall olo :: olo in all <==> olo in OlosUpTo(lut, names, a))
  }

  /** One pass of the loop keeps `Collected`. */
  lemma CollectedStep(lut: seq<IslandRow>, names: seq<string>, a: nat, members: map<string, set<string>>, all: seq<string>,
                      members': map<string, set<string>>, all': seq<string>)
    requires a < |names| && Collected(lut, names, a, members, all)
    requires names[a] in members && names[a] !in NamesUpTo(names, a)
    requires members' == members[names[a] := MembersOf(lut, names[a])]
    requires forall olo :: olo in all' <==> olo in all || olo in MembersOf(lut, names[a])
    ensures Collected(lut, names, a + 1, members', all')
  {
    var name := names[a];
    var visited, visited' := NamesUpTo(names, a), NamesUpTo(names, a + 1);
    assert visited' == visited + {name};
    forall n | n in visited' ensures members'[n] == MembersOf(lut, n) {
      if n != name {
        assert n in visited;
      }
    }
    forall n | n in KnownIslands && n !in visited' ensures members'[n] == {} {
      assert n != name && n !in visited;
    }
    assert OlosUpTo(lut, names, a + 1) == OlosUpTo(lut, names, a) + MembersOf(lut, name);
  }

  /** First loop of `process_islands`: gathers each island's members into
      its `<name>_set` and every island OLO into one list. The first island
      name without such a local raises KeyError. */
  method CollectIslandSets(lut: seq<IslandRow>, names: seq<string>) returns (r: Result<IslandSets>)
    requires IterationOrder(names, lut)
    ensures r.Err? <==> exists k :: 0 <= k < |names| && names[k] !in KnownIslands
    ensures r.Err? ==> r.error == KeyError
    ensures r.Ok? ==> r.value.members.Keys == KnownIslands
    ensures r.Ok? ==> forall k :: 0 <= k < |names| ==> r.value.members[names[k]] == MembersOf(lut, names[k])
    ensures r.Ok? ==> forall olo :: olo in r.value.all <==> olo in IslandOlos(lut)
  {
    r := GatherIslandSets(lut, names);
    if r.Ok? {
      CollectedSets(lut, names, r.value.members, r.value.all);
    }
  }

  /** The loop itself: it stops at the first unknown island name, and
      otherwise ends in the `Collected` state for every name. */
  method GatherIslandSets(lut: seq<IslandRow>, names: seq<string>) returns (r: Result<IslandSets>)
    requires IterationOrder(names, lut)
    ensures r.Err? ==> r.error == KeyError && exists k :: 0 <= k < |names| && names[k] !in KnownIslands
    ensures r.Ok? ==> Collected(lut, names, |names|, r.value.members, r.value.all)
  {
    var all: seq<string> := [];
    var members: map<string, set<string>> := map n | n in KnownIslands :: {};
    for a := 0 to |names|
      invariant Collected(lut, names, a, members, all)
    {
      var name := names[a];
      assert name in IslandNames(lut) by {
        assert names[a] in names;
      }
      assert name !in NamesUpTo(names, a) by {
        NamesUpToMembers(names, a, name);
      }
      assert members.Keys == KnownIslands;
      var step := CollectIsland(lut, name, all, members);
      if step.Err? {
        assert names[a] !in KnownIslands;
        return Err(step.error);
      }
      CollectedStep(lut, names, a, members, all, step.value.members, step.value.all);
      all, members := step.value.all, step.value.members;
    }
    r := Ok(IslandSets(all, members));
  }

  /** What `Collected` gives once every name is visited. */
  lemma CollectedSets(lut: seq<IslandRow>, names: seq<string>, members: map<string, set<string>>, all: seq<string>)
    requires IterationOrder(names, lut)
    requires Collected(lut, names, |names|, members, all)
    ensures members.Keys == KnownIslands
    ensures forall k :: 0 <= k < |names| ==> names[k] in KnownIslands && names[k] in members
    ensures forall k :: 0 <= k < |names| ==> members[names[k]] == MembersOf(lut, names[k])
    ensures forall olo :: olo in all <==> olo in IslandOlos(lut)
  {
    forall k | 0 <= k < |names| ensures names[k] in NamesUpTo(names, |names|) {
      NamesUpToMembers(names, |names|, names[k]);
    }
    forall olo ensures olo in OlosUpTo(lut, names, |names|) <==> olo in IslandOlos(lut) {
      OlosUpToMembers(lut, names, |names|, olo);
      if olo in IslandOlos(lut) {
        var row :| row in lut && row.olo == olo;
        assert row.island in IslandNames(lut);
        var k :| 0 <= k < |names| && names[k] == row.island;
        assert olo in MembersOf(lut, names[k]);
      }
    }
  }

  /** The tagging loop of `process_islands`: island by island, each
      exchange whose OLO is in that island's set gets `island` set in
      place. */
  method TagIslands(exchanges: array<Node>, names: seq<string>, members: map<string, set<string>>, ghost lut: seq<IslandRow>)
    requires forall k :: 0 <= k < |names| ==> names[k] in members && members[names[k]] == MembersOf(lut, names[k])
    modifies exchanges
    ensures forall i :: 0 <= i < exchanges.Length ==> exchanges[i] == Tag(old(exchanges[i]), names, lut)
  {
    for a := 0 to |names|
      invariant forall i :: 0 <= i < exchanges.Length ==> exchanges[i] == Tag(old(exchanges[i]), names[..a], lut)
    {
      var name := names[a];
      assert names[..a + 1][..a] == names[..a];
      for i := 0 to exchanges.Length
        invariant forall m :: 0 <= m < i ==> exchanges[m] == Tag(old(exchanges[m]), names[..a + 1], lut)
        invariant forall m :: i <= m < exchanges.Length ==> exchanges[m] == Tag(old(exchanges[m]), names[..a], lut)
      {
        if exchanges[i].olo in members[name] {
          exchanges[i] := exchanges[i].(island := Some(name));
        }
      }
    }
    assert names[..|names|] == names;
  }

  /** The explicit map from island name to its exchanges that replaces the
      `locals()[name]` lists. */
  method IslandGroups(nodes: seq<Node>, names: seq<string>, members: map<string, set<string>>, ghost lut: seq<IslandRow>)
    returns (groups: map<string, seq<Node>>)
    requires forall k :: 0 <= k < |names| ==> names[k] in members && members[names[k]] == MembersOf(lut, names[k])
    ensures forall name :: name in groups <==> name in names
    ensures forall k :: 0 <= k < |names| ==> groups[names[k]] == Group(nodes, lut, names[k])
  {
    groups := map[];
    for a := 0 to |names|
      invariant forall name :: name in groups <==> name in names[..a]
      invariant forall k :: 0 <= k < a ==> groups[names[k]] == Group(nodes, lut, names[k])
    {
      var name := names[a];
      var group: seq<Node> := [];
      for i := 0 to |nodes|
        invariant group == Filter(nodes[..i], InIsland(lut, name))
      {
        assert nodes[..i + 1][..i] == nodes[..i];
        if nodes[i].olo in members[name] {
          group := group + [nodes[i]];
        }
      }
      assert nodes[..|nodes|] == nodes;
      groups := groups[name := group];
      assert names[..a + 1] == names[..a] + [name];
    }
    assert names[..|names|] == names;
  }

  /** The last loop of `process_islands`: exchanges whose OLO is not on the
      island list stay on the mainland, the others go to the island list. */
  method SplitMainland(nodes: seq<Node>, all: seq<string>, ghost lut: seq<IslandRow>)
    returns (mainland: seq<Node>, islands: seq<Node>)
    requires forall olo :: olo in all <==> olo in IslandOlos(lut)
    ensures mainland == Filter(nodes, Not(OnIsland(lut)))
    ensures islands == Filter(nodes, OnIsland(lut))
  {
    mainland, islands := [], [];
    for i := 0 to |nodes|
      invariant mainland == Filter(nodes[..i], Not(OnIsland(lut)))
      invariant islands == Filter(nodes[..i], OnIsland(lut))
    {
      assert nodes[..i + 1][..i] == nodes[..i];
      if nodes[i].olo !in all {
        mainland := mainland + [nodes[i]];
      }
      if nodes[i].olo in all {
        islands := islands + [nodes[i]];
      }
    }
    assert nodes[..|nodes|] == nodes;
  }

  /** What `process_islands` returns: the mainland exchanges, the island
      exchanges and the islands' spanning-tree links. */
  datatype Segmentation = Segmentation(mainland: seq<Node>, islands: seq<Node>, links: seq<Link>)

  /** `process_islands`. The exchanges are updated in place (their island
      tag); the lists returned hold the updated records, as Python's lists
      hold references to the same dictionaries. */
  method ProcessIslands(exchanges: array<Node>, lut: seq<IslandRow>, names: seq<string>, dist: Metric, mst: Mst)
    returns (r: Result<Segmentation>)
    requires IterationOrder(names, lut)
    requires ValidMst(mst)
    modifies exchanges
    ensures r.Err? <==> exists k :: 0 <= k < |names| && names[k] !in KnownIslands
    ensures r.Err? ==> r.error == KeyError && exchanges[..] == old(exchanges[..])
    ensures r.Ok? ==> forall i :: 0 <= i < exchanges.Length ==> exchanges[i] == Tag(old(exchanges[i]), names, lut)
    ensures r.Ok? ==> r.value.mainland == Filter(exchanges[..], Not(OnIsland(lut)))
    ensures r.Ok? ==> r.value.islands == Filter(exchanges[..], OnIsland(lut))
    ensures r.Ok? ==> r.value.links == IslandTrees(names, exchanges[..], lut, dist, mst)
  {
    var sets := CollectIslandSets(lut, names);
    if sets.Err? {
      return Err(sets.error);
    }
    var all, members := sets.value.all, sets.value.members;
    TagIslands(exchanges, names, members, lut);
    var tagged := exchanges[..];
    var groups := IslandGroups(tagged, names, members, lut);
    var links: seq<Link> := [];
    for a := 0 to |names|
      invariant exchanges[..] == tagged
      invariant links == IslandTrees(names[..a], tagged, lut, dist, mst)
    {
      var tree := DesignNetwork(groups[names[a]], dist, mst);
      var newLinks := WrapTree(tree);
      assert newLinks == TreeLinks(tree) by {
        TreeLinksAt(tree);
      }
      assert names[..a + 1][..a] == names[..a];
      links := links + newLinks;
    }
    assert names[..|names|] == names;
    var mainland, islands := SplitMainland(tagged, all, lut);
    r := Ok(Segmentation(mainland, islands, links));
  }

  lemma {:induction false} TreeLinksAt(edges: seq<Edge>)
    ensures |TreeLinks(edges)| == |edges|
    ensures forall k :: 0 <= k < |edges| ==> TreeLinks(edges)[k] == TreeLink(edges[k])
  {
    if edges != [] {
      TreeLinksAt(edges[..|edges| - 1]);
    }
  }
}
