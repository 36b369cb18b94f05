# UK digital networks: backhaul topology, capacity and demand in Dafny

This project models the core of `uk_digital_networks`, which synthesises a
hierarchical fixed-backhaul topology for the UK and estimates mobile capacity
and demand per area. The model is written in Dafny and its properties are proved.

- **Classify** (`scripts/core.py`, `return_list` and `determine_nodes`) turns
  raw exchanges into nodes. Each node gets 0/1 inner, outer and metro flags
  from the 21CN core lookup and a `lower` flag set by the overwrite order of
  the source.
- **Islands** (`process_islands` and `design_network`) tags island exchanges
  in place. It splits mainland from island exchanges, and joins each island's
  exchanges by the positive-length edges of a spanning tree over all ordered
  pairs.
- **Connect** (`connect`) does five things:
  - builds the tier lists;
  - ranks the `lower` exchanges by population and takes the top 1000 as tier 1;
  - splits the rest off as MSAN records;
  - emits the core, metro, tier-1 and MSAN links of every visited exchange;
  - adds one bridge per island, to the tier-1 node nearest to one of its
    exchanges.
- **Capacity** (`scripts/capacity.py`) covers the lookup table: its grouping,
  filtering and density sort. It also covers `pairwise`, the piecewise-linear
  `lookup_capacity` with `interpolate`, and `estimate_area_capacity`, which
  sums six spectrum bands.
- **Demand** (`scripts/demand.py`) covers `calculate_user_demand` and
  `total_demand`.
- **Network**, **Results** and **Seqs** hold the shared records. They also
  hold the Python exceptions as a `Result` type, an order-preserving filter,
  and the stable sort that `sorted` and `list.sort` perform.

Some effects live in libraries the model cannot see. These are parameters with
stated assumptions:
- the R-tree query is `Nearest`, assumed to return indexed records, never
  more than were indexed;
- networkx's spanning-tree search is `Mst`, assumed to return candidate edges;
- shapely's line length is `Metric`;
- Python's iteration order over the set of island names is a sequence `names`
  holding each island name of the lookup exactly once.

Python's exceptions are the `Error` values of `Result`: `KeyError`,
`IndexError`, `UnboundLocalError` and `ZeroDivisionError`. Every path that
raises is modelled as an error result, never excluded by a precondition.

Where the code behaves in a way a reader may not expect, the model follows the code:
- The inner mesh links every ordered pair of retrieved neighbours,
  self-pairs included, so it emits |c|² links (`Connect.MeshPairs`).
- The inner and outer rules query the index with the point left in `coords`
  by the last index-building loop, which is the last input exchange's point
  (`Connect.StalePoint`).
- Tier-1 membership is decided by OLO. Every lower exchange whose OLO is
  among the ranked ones becomes a tier-1 record. When no OLO repeats, the
  tier-1 list has exactly min(1000, |lower|) records (`Connect.Tier1Count`).
- An exchange in no tier list keeps the `lower` value of the exchange before
  it. If the first exchange is in no list, `lower` is read unbound and the
  call fails with `UnboundLocalError` (`Classify.DetermineNodes`).
- An exchange listed on several islands ends with the tag of the last one in
  iteration order (`Islands.LastIslandChoice`). Island names other than the
  eight hard-coded ones have no `<name>_set` local and raise `KeyError`.
- A bridge's `population` attribute holds the island exchange's OLO text.
- `find_frequency_bandwidth` builds a `KeyError` for a missing parameter
  without raising it. The failure comes from the dictionary access that
  follows, which also raises `KeyError`.

## Model

| member | source | states |
|---|---|---|
| Classify.MatchingMembers | scripts/core.py:125-135 | an OLO is listed exactly when some lookup row with that OLO holds the value in the column |
| Classify.ReturnList | scripts/core.py:125-135 | returns the OLOs of the matching rows in row order: never more than the rows, and an OLO is present iff a matching row has it |
| Classify.DetermineNodes | scripts/core.py:76-123 | fails with UnboundLocalError iff the first exchange is in no tier list; otherwise one node per exchange, carrying its OLO, point and population, a 0/1 flag per list, tier_1 = msan = 0 and no island; `lower` is 1 on a metro match, 0 on an inner or outer match without metro, else the previous node's value |
| Classify.ClassifyExchanges | scripts/core.py:86-121 | the loop over the three lists: same error condition; every node is classified and obeys the `lower` rule given the node before it |
| Islands.LastIslandChoice | scripts/core.py:191-196 | the island tag is the last island in iteration order whose set holds the OLO; an OLO in no set keeps its tag |
| Islands.TaggingMarksIslands | scripts/core.py:191-196 | every exchange the lookup places on an island is tagged with an island that lists it; every other exchange is unchanged |
| Islands.SegmentationPartition | scripts/core.py:223-230 | mainland and island lists together hold each exchange exactly as often as the input, each in input order; an exchange is on the island list iff its OLO is an island OLO |
| Islands.CandidatesArePairs | scripts/core.py:239-253 | the candidate edges are n·(n−1), exactly the ordered pairs of distinct positions |
| Islands.CandidateEdges | scripts/core.py:239-253 | the nested loop yields exactly those candidates, n·(n−1) of them |
| Islands.DesignNetwork | scripts/core.py:235-272 | keeps the spanning-tree edges of positive length in the order yielded; each joins two distinct positions, and no positive-length tree edge is dropped |
| Islands.WrapTree | scripts/core.py:204-218 | one link per tree edge, with the same endpoints and line, population 0 and 'unknown' level and tier attributes |
| Islands.IslandTreesUnknown | scripts/core.py:198-220 | every spanning-tree link `process_islands` returns has level 'unknown', population 0 and 'unknown' tiers |
| Islands.CollectIsland | scripts/core.py:175-179 | one island's pass: KeyError iff the name has no `<name>_set`; otherwise that set becomes the island's members and the OLO list gains exactly them |
| Islands.GatherIslandSets | scripts/core.py:175-179 | the loop over island names: it stops at the first undeclared name, otherwise every visited name's set holds its members and the others stay empty |
| Islands.CollectIslandSets | scripts/core.py:160-179 | KeyError iff some island name is not one of the eight declared; otherwise every name's set holds exactly its lookup members, and the OLO list holds exactly the island OLOs |
| Islands.TagIslands | scripts/core.py:190-196 | every array element becomes its tagged version: the last island listing it, in iteration order |
| Islands.IslandGroups | scripts/core.py:190-196 | one group per island name, holding in input order the exchanges whose OLO is in that island's set |
| Islands.SplitMainland | scripts/core.py:223-230 | the final loop yields exactly the mainland and island filters of the exchanges |
| Islands.ProcessIslands | scripts/core.py:156-232 | KeyError iff some island name is undeclared, with the exchanges untouched; otherwise the exchanges are tagged in place, and the result holds the mainland and island lists of the tagged exchanges and every island's spanning-tree links |
| Connect.CollectTiers | scripts/core.py:288-302 | one pass fills the inner, core (inner or outer), metro and lower lists in input order |
| Connect.TierListsMembers | scripts/core.py:288-302 | each list holds exactly the exchanges passing its test; the core and lower lists keep input order |
| Connect.RankedTopPopulation | scripts/core.py:304-306 | the ranking keeps min(1000, \|lower\|) exchanges taken from `lower`, none less populous than any exchange left out |
| Connect.SplitTiers | scripts/core.py:308-338 | the loop yields the tier-1 records of the ranked OLOs and the MSAN records of the others |
| Connect.Tier1Count | scripts/core.py:304-338 | when no OLO repeats among the lower exchanges, exactly the smaller of 1000 and their number become tier-1 records and the rest MSAN records |
| Connect.Tier1RecordMembers | scripts/core.py:309-323 | a tier-1 record is made exactly from a lower exchange with a ranked OLO |
| Connect.MsanRecordMembers | scripts/core.py:324-338 | an MSAN record is made exactly from a lower exchange with an unranked OLO |
| Connect.TierSplitPartition | scripts/core.py:308-338 | tier-1 and MSAN records together number \|lower\| and hold it exactly, both in its order; tier-1 records have tier_1 = 1 and a ranked OLO, MSAN records msan = 1 and an unranked one |
| Connect.MeshPairs | scripts/core.py:373-409 | the inner rule emits \|c\|² core links; position i·\|c\|+j links neighbour i to neighbour j, self-pairs included |
| Connect.MeshLinks | scripts/core.py:382-409 | the nested loops emit exactly that mesh |
| Connect.SpokesShape | scripts/core.py:411-542 | each spoke rule emits one link per neighbour from the visited exchange at the rule's level; only the MSAN line runs from the neighbour back |
| Connect.SpokeLinks | scripts/core.py:419-443 | the loop of a spoke rule emits exactly those links |
| Connect.NodeLinksAttributes | scripts/core.py:369-542 | every link of a visited exchange carries its population and five flags, at a core, metro, tier-1 or MSAN level |
| Connect.NodeLinksCount | scripts/core.py:369-542 | a visited exchange yields the square of its inner neighbours plus one link per neighbour of each other rule that applies |
| Connect.EmitNode | scripts/core.py:371-542 | one pass of the main loop emits that exchange's links in rule order |
| Connect.EmitLinks | scripts/core.py:369-542 | the main loop emits the visited exchanges' links in visit order |
| Connect.VisitLinksAttributes | scripts/core.py:369-542 | every emitted link carries the population and flags of some visited exchange |
| Connect.VisitedAreMetroOrLower | scripts/core.py:367 | the visit list holds exactly the metro exchanges, the tier-1 records of lower exchanges with a ranked OLO and the MSAN records of the other lower exchanges; every visited record has metro > 0 or lower > 0, so an exchange that is only inner or outer gets no links of its own |
| Connect.MetroVisitedTwice | scripts/core.py:367 | a metro exchange with `lower` set is visited as itself and again as its tier-1 or MSAN record |
| Connect.IslandCandidatesShape | scripts/core.py:551-579 | without errors there is one candidate per exchange tagged with the island, in input order, each to a tier-1 record and with its line's length |
| Connect.BridgeIsShortest | scripts/core.py:581-597 | the bridge is the first candidate of least length, an island link |
| Connect.NoMembersFails | scripts/core.py:551-581 | an island with no tagged exchange fails with IndexError at `[0]` of the sorted empty list |
| Connect.EmptyTier1Fails | scripts/core.py:556-560 | with an empty tier-1 index, the island's first tagged exchange fails with IndexError |
| Connect.BridgesOnePerIsland | scripts/core.py:548-597 | the bridges succeed iff every island's bridge does, and then there is one bridge per name, in visit order |
| Connect.BridgeIsland | scripts/core.py:551-597 | the loop over island exchanges and the sort compute that island's bridge, or its first error |
| Connect.BridgeIslands | scripts/core.py:548-597 | the loop over island names computes the bridges or the first error |
| Connect.Connect | scripts/core.py:275-599 | fails exactly when a bridge fails, with its error; otherwise returns the visited exchanges' links then the bridges |
| Connect.ConnectLinkLevels | scripts/core.py:583-599 | when the bridges succeed there are \|names\| of them, each at level 'island' |
| Seqs.FilterPartition | scripts/core.py:308-338 | a filter and its complement hold every element exactly as often as the input |
| Seqs.SortBySorted | scripts/capacity.py:65-66 | the stable sort orders by key |
| Seqs.SortByPermutes | scripts/capacity.py:65-66 | the stable sort is a permutation |
| Seqs.SortByHead | scripts/core.py:581 | the head of the sort is the first element of least key |
| Seqs.SortByPrefixLeast | scripts/core.py:304 | the first k sorted elements come from the input, with keys no larger than any element left out |
| Capacity.GroupedMembers | scripts/capacity.py:42-63 | a sample is grouped under a key iff some row with positive capacity and that key carries it |
| Capacity.GroupRows | scripts/capacity.py:42-63 | a key is in the table iff some kept row has it, and its list holds those rows' samples in row order |
| Capacity.SortGroups | scripts/capacity.py:65-66 | same keys, each list sorted by density |
| Capacity.LoadCapacityTable | scripts/capacity.py:31-68 | keys are exactly those of rows with positive capacity; each list is that key's samples sorted by density |
| Capacity.LoadedListShape | scripts/capacity.py:31-68 | every loaded list is non-empty, density-sorted, a permutation of its rows' samples, and holds only positive capacities |
| Capacity.InterpolateEndpoints | scripts/capacity.py:181-187 | ZeroDivisionError iff x0 = x1; otherwise the line passes through both end points |
| Capacity.InterpolateBetween | scripts/capacity.py:181-187 | between the end points the value lies between the two ordinates |
| Capacity.PairwiseShape | scripts/capacity.py:130-138 | \|s\|−1 pairs (none below two elements), the i-th being (s[i], s[i+1]) |
| Capacity.PairwiseExample | scripts/capacity.py:133-134 | pairwise([1,2,3,4]) is [(1,2),(2,3),(3,4)] |
| Capacity.LookupFirstBracket | scripts/capacity.py:161-173 | the first pair bracketing the density is interpolated |
| Capacity.LookupAboveTable | scripts/capacity.py:175-178 | on a sorted list a density at or past the last gets the last capacity |
| Capacity.LookupBounds | scripts/capacity.py:153-178 | a non-empty list never fails: 0 below the table, otherwise within the tabulated capacities |
| Capacity.LookupCapacity | scripts/capacity.py:141-178 | KeyError for an absent key, IndexError for an empty list, 0 below the lowest density, otherwise the scan result |
| Capacity.LookupNeverFails | scripts/capacity.py:153-178 | a lookup in a non-empty list always succeeds |
| Capacity.FindFrequencyBandwidth | scripts/capacity.py:115-127 | KeyError iff `channel_bandwidth_<frequency>` is missing |
| Capacity.SitesMembers | scripts/capacity.py:82-86 | a site counts iff some asset with that site lists the band |
| Capacity.UniqueSites | scripts/capacity.py:82-86 | the inner loops collect exactly those sites |
| Capacity.DensitySign | scripts/capacity.py:88-97 | the density over a non-zero area is positive iff there is a site and the area is positive |
| Capacity.BandContribution | scripts/capacity.py:82-108 | one band: ZeroDivisionError for a zero area, then the bandwidth lookup's error, then the capacity lookup when the density is positive, else 0 |
| Capacity.SumBands | scripts/capacity.py:80-110 | the band loop adds the contributions in order, or stops at the first error |
| Capacity.EstimateAreaCapacity | scripts/capacity.py:71-112 | the area capacity is the band sum over 700, 800, 1800, 2600, 3500 and 26000 MHz |
| Capacity.SumOk | scripts/capacity.py:80-110 | the sum succeeds exactly when every contribution does |
| Capacity.AreaCapacitySum | scripts/capacity.py:71-112 | the area capacity fails iff a band does; otherwise it is the sum of the six band contributions |
| Capacity.ZeroAreaFails | scripts/capacity.py:88 | a zero area fails with ZeroDivisionError |
| Capacity.SilentBand | scripts/capacity.py:82-108 | a band no asset lists contributes 0 once its bandwidth is known |
| Capacity.RepeatedAssetsIgnored | scripts/capacity.py:82-88 | the capacity depends only on which assets there are, not on their repetition or order |
| Capacity.AreaCapacityNonNegative | scripts/capacity.py:71-112 | with a positive area and non-negative tabulated capacities the result is non-negative |
| Demand.UserDemand | scripts/demand.py:12-31 | KeyError iff a parameter is missing; otherwise monthly GB × 1024 × 8 × busy-hour share ÷ 30 ÷ 3600 |
| Demand.UserDemandLinear | scripts/demand.py:25-31 | demand scales with monthly consumption |
| Demand.NoConsumptionNoDemand | scripts/demand.py:25-31 | zero consumption gives zero demand |
| Demand.UserDemandNonNegative | scripts/demand.py:25-31 | non-negative inputs give a non-negative demand |
| Demand.TotalDemand | scripts/demand.py:56-66 | KeyError for a missing percentage, ZeroDivisionError for a zero area; otherwise demand × area = population × penetration × market share × user demand ÷ 100 |
| Demand.TotalDemandLinear | scripts/demand.py:56-66 | demand is linear in population and in user demand |
| Demand.TotalDemandOverArea | scripts/demand.py:56-66 | the same traffic over c times the area is c times less dense |
| Demand.TotalDemandNonNegative | scripts/demand.py:56-66 | non-negative inputs over a positive area give a non-negative demand |
| Demand.TotalDemandIntended | scripts/demand.py:43-53 | the documented computation: both percentages over 100 |
| Demand.TotalDemandHundredfold | scripts/demand.py:43-66 | the code's demand is defined exactly when the documented one is, and is 100 times it |
| Demand.DocumentedExampleDiffers | scripts/demand.py:43-60 | on the documented example, the code gives 20.0 Mbps/km² where the documentation gives 0.2 |

## Left out

- File reading, CSV and GeoJSON parsing, shapefile writing, `print` and the
  `__main__` blocks are not modelled. Capacity rows arrive parsed; the
  frequency text that `str(int(float(GHz) * 1e3))` produces is taken as given.
- Floating point is modelled as exact reals. Rounding in the
  interpolation, the density division and the demand arithmetic is not
  modelled.
- `str.lower` is modelled on ASCII letters only.
- The R-tree index is left out: its queries are the `Nearest` parameter. The
  model does not capture which records it returns, how many it returns when
  distances tie, or their order among equal distances. The unused `idx_all` index is left out, apart from the stale
  point its building loop leaves behind.
- networkx's spanning-tree search is the `Mst` parameter. Minimality of the
  tree is not modelled; only that it returns candidate edges is assumed.
- Shapely line lengths are the `Metric` parameter.
- The iteration order of Python sets is the `names` parameter. It is any
  order listing each island name once.
- Connect.StalePoint: with no input exchanges it returns an arbitrary point.
  In that case nothing is visited and the point is never read.
- Connect.Connect: the GeoJSON `type` fields and the `geometry` mappings are
  reduced to the record fields that the links carry.
- Seqs.SortBy: its stability is proved only as far as the bridge choice
  needs it (`Seqs.SortByHead`: first of the least), not as a general lemma.

## Findings

| source | as written | input that shows it | evidently intended | confidence | as-written member | corrected member |
|---|---|---|---|---|---|---|
| scripts/demand.py:60 | `users = population * (penetration / 100) * market_share`: the market share percentage is not divided by 100 | 100 people, 80 % penetration, 25 % market share, 0.01 Mbps per user, 1 km² | 20 users and 0.2 Mbps/km², as the worked example in scripts/demand.py:43-53 states | not executed | Demand.TotalDemand (Demand.DocumentedExampleDiffers) | Demand.TotalDemandIntended (Demand.TotalDemandHundredfold) |
