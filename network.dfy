/** The records that flow through the backhaul topology synthesis of
    scripts/core.py: exchanges, classified nodes, candidate edges and links. */
module Network {
  import opened Results

  /** A point geometry. Coordinates are carried, never computed with. */
  datatype Point = Point(x: real, y: real)

  /** A two-point line string, from `start` to `end`. */
  datatype Line = Line(start: Point, end: Point)

  /** Length of the straight line between two points (shapely's
      `LineString.length`), supplied by the caller. */
  type Metric = (Point, Point) -> real

  /** An exchange as read from the node file: its OLO code, location and
      the population it serves. */
  datatype Exchange = Exchange(olo: string, geom: Point, population: int)

  /** One row of the 21CN core lookup; the tier columns hold CSV text. */
  datatype LookupRow = LookupRow(olo: string, inner: string, outer: string, metro: string)

  /** A classified exchange: the tier flags are 0 or 1 as the source stores
      them, `lower` selects the tier-1/MSAN split and `island` is the
      island tag that the island segmentation adds. */
  datatype Node = Node(
    olo: string, geom: Point, population: int,
    inner: nat, outer: nat, metro: nat, tier1: nat, msan: nat,
    lower: nat, island: Option<string>)

  /** The five tier attributes a link copies from the exchange that
      produced it, or the 'unknown' text that spanning-tree links carry. */
  datatype Tiers =
    | Tiers(inner: nat, outer: nat, metro: nat, tier1: nat, msan: nat)
    | UnknownTiers

  /** The `population` attribute of a link: a count, or (for island
      bridges) the OLO text that the source stores there. */
  datatype Population = Count(n: int) | Label(text: string)

  datatype Level = Core | Metro | Tier1 | Msan | Island | Unknown

  datatype Link = Link(
    source: string, sink: string, line: Line,
    population: Population, level: Level, tiers: Tiers)

  /** A candidate spanning-tree edge between two island exchanges. */
  datatype Edge = Edge(from: string, to: string, line: Line, length: real)

  function TiersOf(n: Node): Tiers {
    Tiers(n.inner, n.outer, n.metro, n.tier1, n.msan)
  }
}
