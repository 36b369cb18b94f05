/** Node classification of scripts/core.py: `return_list` and
    `determine_nodes`. */
module Classify {
  import opened Results
  import opened Network

  /** The three tier columns of the core lookup that `return_list` is
      asked about. */
  datatype Column = InnerColumn | OuterColumn | MetroColumn

  function Cell(row: LookupRow, key: Column): string {
    match key
    case InnerColumn => row.inner
    case OuterColumn => row.outer
    case MetroColumn => row.metro
  }

  /** The OLO of every row whose `key` column holds `value`, in row order. */
  function Matching(rows: seq<LookupRow>, key: Column, value: string): seq<string> {
    if rows == [] then []
    else
      var last := rows[|rows| - 1];
      Matching(rows[..|rows| - 1], key, value) + (if Cell(last, key) == value then [last.olo] else [])
  }

  /** An OLO is listed exactly when some row with that OLO holds `value`. */
  lemma {:induction false} MatchingMembers(rows: seq<LookupRow>, key: Column, value: string, olo: string)
    ensures olo in Matching(rows, key, value) <==>
            exists i :: 0 <= i < |rows| && rows[i].olo == olo && Cell(rows[i], key) == value
  {
    if rows != [] {
      var init := rows[..|rows| - 1];
      MatchingMembers(init, key, value, olo);
      if olo in Matching(init, key, value) {
        var i :| 0 <= i < |init| && init[i].olo == olo && Cell(init[i], key) == value;
        assert rows[i] == init[i];
      }
      if exists i :: 0 <= i < |rows| && rows[i].olo == olo && Cell(rows[i], key) == value {
        var i :| 0 <= i < |rows| && rows[i].olo == olo && Cell(rows[i], key) == value;
        if i < |init| {
          assert init[i] == rows[i];
        }
      }
    }
  }

  /** `return_list`: collects, in row order, the OLO of each row whose
      column `key` equals `value`. */
  method ReturnList(rows: seq<LookupRow>, key: Column, value: string) returns (olos: seq<string>)
    ensures olos == Matching(rows, key, value)
    ensures |olos| <= |rows|
    ensures forall olo :: olo in olos <==>
              exists i :: 0 <= i < |rows| && rows[i].olo == olo && Cell(rows[i], key) == value
  {
    olos := [];
    for i := 0 to |rows|
      invariant olos == Matching(rows[..i], key, value)
      invariant |olos| <= i
    {
      assert rows[..i + 1][..i] == rows[..i];
      if Cell(rows[i], key) == value {
        olos := olos + [rows[i].olo];
      }
    }
    assert rows[..|rows|] == rows;
    forall olo ensures olo in olos <==>
        exists i :: 0 <= i < |rows| && rows[i].olo == olo && Cell(rows[i], key) == value
    {
      MatchingMembers(rows, key, value, olo);
    }
  }

  /** The lookup marks `olo` with '1' in column `key`. */
  predicate InTier(lookup: seq<LookupRow>, key: Column, olo: string) {
    olo in Matching(lookup, key, "1")
  }

  predicate InAnyTier(lookup: seq<LookupRow>, olo: string) {
    InTier(lookup, InnerColumn, olo) || InTier(lookup, OuterColumn, olo) || InTier(lookup, MetroColumn, olo)
  }

  function Flag(b: bool): nat {
    if b then 1 else 0
  }

  /** The three OLO lists that `determine_nodes` tests membership in. */
  datatype TierLists = TierLists(inner: seq<string>, outer: seq<string>, metro: seq<string>)

  function ListsOf(lookup: seq<LookupRow>): TierLists {
    TierLists(Matching(lookup, InnerColumn, "1"), Matching(lookup, OuterColumn, "1"), Matching(lookup, MetroColumn, "1"))
  }

  /** `n` is the classified record of `e`: the exchange's own fields, one
      membership flag per tier list, no tier-1/MSAN mark and no island. */
  predicate Classifies(lists: TierLists, e: Exchange, n: Node) {
    n.olo == e.olo && n.geom == e.geom && n.population == e.population &&
    n.inner == Flag(e.olo in lists.inner) &&
    n.outer == Flag(e.olo in lists.outer) &&
    n.metro == Flag(e.olo in lists.metro) &&
    n.tier1 == 0 && n.msan == 0 && n.island == None
  }

  /** How `determine_nodes` sets `lower` for exchange `e`, given the value
      `prev` left by the exchanges before it (None while still unbound). */
  predicate LowerRule(lists: TierLists, prev: Option<nat>, e: Exchange, lower: nat) {
    if e.olo in lists.metro then lower == 1
    else if e.olo in lists.inner || e.olo in lists.outer then lower == 0
    else prev == Some(lower)
  }

  /** The value of `lower` left by the first `j` classified nodes. */
  function PrevLower(nodes: seq<Node>, j: nat): Option<nat>
    requires j <= |nodes|
  {
    if j == 0 then None else Some(nodes[j - 1].lower)
  }

  /** Node `j` of `nodes` is the classified record of exchange `j` and
      carries the `lower` the rule gives it. */
  predicate ClassifiedAt(lists: TierLists, exchanges: seq<Exchange>, nodes: seq<Node>, j: nat)
    requires j < |exchanges| && j < |nodes|
  {
    Classifies(lists, exchanges[j], nodes[j]) && LowerRule(lists, PrevLower(nodes, j), exchanges[j], nodes[j].lower)
  }

  /** `determine_nodes`. `lower` is one variable for the whole loop: the
      inner, outer and metro tests overwrite it in that order and nothing
      resets it, so an exchange in no tier inherits the previous exchange's
      value, and the first exchange in no tier reads it unbound. */
  method DetermineNodes(exchanges: seq<Exchange>, lookup: seq<LookupRow>) returns (r: Result<seq<Node>>)
    ensures r.Err? <==> |exchanges| > 0 && !InAnyTier(lookup, exchanges[0].olo)
    ensures r.Err? ==> r.error == UnboundLocalError
    ensures r.Ok? ==> |r.value| == |exchanges|
    ensures r.Ok? ==> forall i :: 0 <= i < |exchanges| ==> Classifies(ListsOf(lookup), exchanges[i], r.value[i])
    // a metro match always wins
    ensures r.Ok? ==> forall i :: 0 <= i < |exchanges| && InTier(lookup, MetroColumn, exchanges[i].olo) ==>
                        r.value[i].lower == 1
    // an inner or outer match without a metro match
    ensures r.Ok? ==> forall i :: 0 <= i < |exchanges| && !InTier(lookup, MetroColumn, exchanges[i].olo) &&
                        (InTier(lookup, InnerColumn, exchanges[i].olo) || InTier(lookup, OuterColumn, exchanges[i].olo))
                        ==> r.value[i].lower == 0
    // no match: the previous exchange's value is kept
    ensures r.Ok? ==> forall i :: 0 < i < |exchanges| && !InAnyTier(lookup, exchanges[i].olo) ==>
                        r.value[i].lower == r.value[i - 1].lower
  {
    var innerList := ReturnList(lookup, InnerColumn, "1");
    var outerList := ReturnList(lookup, OuterColumn, "1");
    var metroList := ReturnList(lookup, MetroColumn, "1");
    r := ClassifyExchanges(exchanges, TierLists(innerList, outerList, metroList));
    if r.Ok? {
      forall i | 0 <= i < |exchanges|
        ensures Classifies(ListsOf(lookup), exchanges[i], r.value[i])
        ensures LowerRule(ListsOf(lookup), PrevLower(r.value, i), exchanges[i], r.value[i].lower)
      {
        assert ClassifiedAt(ListsOf(lookup), exchanges, r.value, i);
      }
    }
  }

  /** The loop of `determine_nodes`, over the three tier lists. */
  method ClassifyExchanges(exchanges: seq<Exchange>, lists: TierLists) returns (r: Result<seq<Node>>)
    ensures r.Err? <==>
              |exchanges| > 0 &&
              !(exchanges[0].olo in lists.inner || exchanges[0].olo in lists.outer || exchanges[0].olo in lists.metro)
    ensures r.Err? ==> r.error == UnboundLocalError
    ensures r.Ok? ==> |r.value| == |exchanges|
    ensures r.Ok? ==> forall j :: 0 <= j < |exchanges| ==> ClassifiedAt(lists, exchanges, r.value, j)
  {
    var nodes: seq<Node> := [];
    var lower: Option<nat> := None;
    for i := 0 to |exchanges|
      invariant |nodes| == i
      invariant (i == 0) == lower.None?
      invariant i > 0 ==> lower == Some(nodes[i - 1].lower)
      invariant i > 0 ==> (exchanges[0].olo in lists.inner || exchanges[0].olo in lists.outer || exchanges[0].olo in lists.metro)
      invariant forall j :: 0 <= j < i ==> ClassifiedAt(lists, exchanges, nodes, j)
    {
      var e := exchanges[i];
      ghost var prev := lower;
      var isInner, isOuter, isMetro: nat;
      if e.olo in lists.inner {
        isInner, lower := 1, Some(0);
      } else {
        isInner := 0;
      }
      if e.olo in lists.outer {
        isOuter, lower := 1, Some(0);
      } else {
        isOuter := 0;
      }
      if e.olo in lists.metro {
        isMetro, lower := 1, Some(1);
      } else {
        isMetro := 0;
      }
      if lower.None? {
        return Err(UnboundLocalError);
      }
      var n := Node(e.olo, e.geom, e.population, isInner, isOuter, isMetro, 0, 0, lower.value, None);
      assert prev == PrevLower(nodes, i);
      ghost var before := nodes;
      nodes := nodes + [n];
      ClassifiedAppend(lists, exchanges, before, n);
    }
    r := Ok(nodes);
  }

  /** Appending a node classified by the rule keeps the earlier nodes
      classified. */
  lemma ClassifiedAppend(lists: TierLists, exchanges: seq<Exchange>, nodes: seq<Node>, n: Node)
    requires |nodes| < |exchanges|
    requires forall j :: 0 <= j < |nodes| ==> ClassifiedAt(lists, exchanges, nodes, j)
    requires Classifies(lists, exchanges[|nodes|], n)
    requires LowerRule(lists, PrevLower(nodes, |nodes|), exchanges[|nodes|], n.lower)
    ensures forall j :: 0 <= j <= |nodes| ==> ClassifiedAt(lists, exchanges, nodes + [n], j)
  {
    var after := nodes + [n];
    forall j | 0 <= j <= |nodes| ensures ClassifiedAt(lists, exchanges, after, j) {
      if j < |nodes| {
        assert after[j] == nodes[j];
        assert PrevLower(after, j) == PrevLower(nodes, j);
        assert ClassifiedAt(lists, exchanges, nodes, j);
      } else {
        assert after[j] == n;
        assert PrevLower(after, j) == PrevLower(nodes, j);
      }
    }
  }
}
