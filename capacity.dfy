/** Radio access capacity of scripts/capacity.py: the capacity lookup
    table, its piecewise-linear lookup and the per-area capacity summed over
    the six spectrum bands. */
module Capacity {
  import opened Results
  import opened Seqs

  // ---------------------------------------------------------------------
  // Lookup table

  /** The 5-tuple a lookup table is keyed by. */
  datatype Key = Key(environment: string, cellType: string, frequency: string, bandwidth: string, generation: string)

  /** One tabulated point: a site density (sites per km²) and the capacity
      (Mbps per km²) reached at it. */
  datatype Sample = Sample(density: real, capacity: real)

  /** A row of the capacity CSV, already parsed; `frequency` is the text of
      the frequency in MHz. */
  datatype CapacityRow = CapacityRow(
    environment: string, cellType: string, frequency: string, bandwidth: string, generation: string,
    density: real, capacity: real)

  function LowerChar(c: char): char {
    if 'A' <= c <= 'Z' then (c as int + 32) as char else c
  }

  /** `str.lower` on ASCII text. */
  function LowerAscii(s: string): string {
    if s == [] then [] else LowerAscii(s[..|s| - 1]) + [LowerChar(s[|s| - 1])]
  }

  function KeyOf(row: CapacityRow): Key {
    Key(LowerAscii(row.environment), row.cellType, row.frequency, row.bandwidth, row.generation)
  }

  function SampleOf(row: CapacityRow): Sample {
    Sample(row.density, row.capacity)
  }

  function Density(s: Sample): real {
    s.density
  }

  /** A row that is loaded under `key`: positive capacity and that key. */
  function KeptUnder(key: Key): CapacityRow -> bool {
    (row: CapacityRow) => row.capacity > 0.0 && KeyOf(row) == key
  }

  /** The samples of the rows loaded under `key`, in row order. */
  function Grouped(rows: seq<CapacityRow>, key: Key): seq<Sample> {
    Map(Filter(rows, KeptUnder(key)), SampleOf)
  }

  lemma GroupedSnoc(rows: seq<CapacityRow>, row: CapacityRow, key: Key)
    ensures Grouped(rows + [row], key) ==
            Grouped(rows, key) + (if row.capacity > 0.0 && KeyOf(row) == key then [SampleOf(row)] else [])
  {
    assert (rows + [row])[..|rows|] == rows;
    var kept := Filter(rows, KeptUnder(key));
    if row.capacity > 0.0 && KeyOf(row) == key {
      assert Filter(rows + [row], KeptUnder(key)) == kept + [row];
      assert (kept + [row])[..|kept|] == kept;
    } else {
      assert Filter(rows + [row], KeptUnder(key)) == kept;
    }
  }

  /** A sample is grouped under `key` exactly when some row with positive
      capacity and that key carries it. */
  lemma GroupedMembers(rows: seq<CapacityRow>, key: Key, s: Sample)
    ensures s in Grouped(rows, key) <==>
              exists i :: 0 <= i < |rows| && rows[i].capacity > 0.0 && KeyOf(rows[i]) == key && SampleOf(rows[i]) == s
  {
    var kept := Filter(rows, KeptUnder(key));
    MapMembers(kept, SampleOf, s);
    if s in Grouped(rows, key) {
      var row :| row in kept && SampleOf(row) == s;
      FilterMembers(rows, KeptUnder(key), row);
      var i :| 0 <= i < |rows| && rows[i] == row;
    }
    if exists i :: 0 <= i < |rows| && rows[i].capacity > 0.0 && KeyOf(rows[i]) == key && SampleOf(rows[i]) == s {
      var i :| 0 <= i < |rows| && rows[i].capacity > 0.0 && KeyOf(rows[i]) == key && SampleOf(rows[i]) == s;
      FilterMembers(rows, KeptUnder(key), rows[i]);
    }
  }

  /** The reading loop of `load_capacity_lookup_table`: rows with
      non-positive capacity are skipped, the rest are appended, in row
      order, to the list of their key. */
  method GroupRows(rows: seq<CapacityRow>) returns (table: map<Key, seq<Sample>>)
    ensures forall key :: key in table <==> Grouped(rows, key) != []
    ensures forall key :: key in table ==> table[key] == Grouped(rows, key)
  {
    table := map[];
    for r := 0 to |rows|
      invariant forall key :: key in table <==> Grouped(rows[..r], key) != []
      invariant forall key :: key in table ==> table[key] == Grouped(rows[..r], key)
    {
      var row := rows[r];
      assert rows[..r + 1] == rows[..r] + [row];
      forall key ensures Grouped(rows[..r + 1], key) ==
          Grouped(rows[..r], key) + (if row.capacity > 0.0 && KeyOf(row) == key then [SampleOf(row)] else []) {
        GroupedSnoc(rows[..r], row, key);
      }
      if row.capacity <= 0.0 {
        continue;
      }
      var key := Key(LowerAscii(row.environment), row.cellType, row.frequency, row.bandwidth, row.generation);
      if key !in table {
        table := table[key := []];
      }
      table := table[key := table[key] + [Sample(row.density, row.capacity)]];
    }
    assert rows[..|rows|] == rows;
  }

  /** The sorting loop of `load_capacity_lookup_table`: every list is
      sorted by density, keys unchanged. */
  method SortGroups(grouped: map<Key, seq<Sample>>) returns (table: map<Key, seq<Sample>>)
    ensures table.Keys == grouped.Keys
    ensures forall key :: key in table ==> table[key] == SortBy(grouped[key], Density)
  {
    table := grouped;
    var pending := table.Keys;
    while pending != {}
      invariant table.Keys == grouped.Keys && pending <= table.Keys
      invariant forall key :: key in table && key !in pending ==> table[key] == SortBy(grouped[key], Density)
      invariant forall key :: key in pending ==> table[key] == grouped[key]
      decreases pending
    {
      var key :| key in pending;
      table := table[key := SortBy(table[key], Density)];
      pending := pending - {key};
    }
  }

  /** `load_capacity_lookup_table` on parsed rows: rows with non-positive
      capacity are skipped, the rest are grouped by key in row order, and
      each group is then sorted by density. */
  method LoadCapacityTable(rows: seq<CapacityRow>) returns (table: map<Key, seq<Sample>>)
    ensures forall key :: key in table <==>
              exists i :: 0 <= i < |rows| && rows[i].capacity > 0.0 && KeyOf(rows[i]) == key
    ensures forall key :: key in table ==> table[key] == SortBy(Grouped(rows, key), Density)
  {
    var grouped := GroupRows(rows);
    table := SortGroups(grouped);
    forall key ensures key in table <==>
        exists i :: 0 <= i < |rows| && rows[i].capacity > 0.0 && KeyOf(rows[i]) == key {
      if key in table {
        var s := grouped[key][0];
        GroupedMembers(rows, key, s);
      } else {
        if exists i :: 0 <= i < |rows| && rows[i].capacity > 0.0 && KeyOf(rows[i]) == key {
          var i :| 0 <= i < |rows| && rows[i].capacity > 0.0 && KeyOf(rows[i]) == key;
          GroupedMembers(rows, key, SampleOf(rows[i]));
        }
      }
    }
  }

  /** Every list of a loaded table is non-empty, sorted by density, holds
      exactly the samples of its key's rows (each as often), and only
      positive capacities. */
  lemma LoadedListShape(rows: seq<CapacityRow>, key: Key)
    requires exists i :: 0 <= i < |rows| && rows[i].capacity > 0.0 && KeyOf(rows[i]) == key
    ensures SortBy(Grouped(rows, key), Density) != []
    ensures SortedBy(SortBy(Grouped(rows, key), Density), Density)
    ensures multiset(SortBy(Grouped(rows, key), Density)) == multiset(Grouped(rows, key))
    ensures forall i :: 0 <= i < |rows| && rows[i].capacity > 0.0 && KeyOf(rows[i]) == key ==>
              SampleOf(rows[i]) in SortBy(Grouped(rows, key), Density)
    ensures forall s :: s in SortBy(Grouped(rows, key), Density) ==> s.capacity > 0.0
  {
    var g := Grouped(rows, key);
    SortBySorted(g, Density);
    SortByPermutes(g, Density);
    var i :| 0 <= i < |rows| && rows[i].capacity > 0.0 && KeyOf(rows[i]) == key;
    GroupedMembers(rows, key, SampleOf(rows[i]));
    assert SampleOf(rows[i]) in multiset(SortBy(g, Density));
    forall j | 0 <= j < |rows| && rows[j].capacity > 0.0 && KeyOf(rows[j]) == key
      ensures SampleOf(rows[j]) in SortBy(g, Density)
    {
      GroupedMembers(rows, key, SampleOf(rows[j]));
      assert SampleOf(rows[j]) in multiset(SortBy(g, Density));
    }
    forall s | s in SortBy(g, Density) ensures s.capacity > 0.0 {
      assert s in multiset(g);
      GroupedMembers(rows, key, s);
    }
  }

  // ---------------------------------------------------------------------
  // interpolate, pairwise, lookup_capacity

  /** `interpolate`: the line through (x0, y0) and (x1, y1) evaluated at x;
      equal abscissas divide by zero. */
  function Interpolate(x0: real, y0: real, x1: real, y1: real, x: real): Result<real> {
    if x1 - x0 == 0.0 then Err(ZeroDivisionError)
    else Ok((y0 * (x1 - x) + y1 * (x - x0)) / (x1 - x0))
  }

  /** The line passes through both end points. */
  lemma InterpolateEndpoints(x0: real, y0: real, x1: real, y1: real)
    ensures Interpolate(x0, y0, x1, y1, x0).Err? <==> x0 == x1
    ensures x0 != x1 ==> Interpolate(x0, y0, x1, y1, x0) == Ok(y0) && Interpolate(x0, y0, x1, y1, x1) == Ok(y1)
  {
    if x0 != x1 {
      var d := x1 - x0;
      assert d != 0.0;
      assert y0 * (x1 - x0) + y1 * (x0 - x0) == y0 * d;
      assert y0 * (x1 - x1) + y1 * (x1 - x0) == y1 * d;
      DivCancel(y0, d);
      DivCancel(y1, d);
      assert Interpolate(x0, y0, x1, y1, x0).value == (y0 * (x1 - x0) + y1 * (x0 - x0)) / (x1 - x0);
      assert Interpolate(x0, y0, x1, y1, x0).value == (y0 * d) / d;
      assert Interpolate(x0, y0, x1, y1, x1).value == (y0 * (x1 - x1) + y1 * (x1 - x0)) / (x1 - x0);
      assert Interpolate(x0, y0, x1, y1, x1).value == (y1 * d) / d;
    }
  }

  function MinReal(a: real, b: real): real { if a <= b then a else b }

  function MaxReal(a: real, b: real): real { if a <= b then b else a }

  /** Between the end points the value lies between the two ordinates. */
  lemma InterpolateBetween(x0: real, y0: real, x1: real, y1: real, x: real)
    requires x0 < x1 && x0 <= x <= x1
    ensures Interpolate(x0, y0, x1, y1, x).Ok?
    ensures MinReal(y0, y1) <= Interpolate(x0, y0, x1, y1, x).value <= MaxReal(y0, y1)
  {
    var d, a, b := x1 - x0, x1 - x, x - x0;
    var lo, hi := MinReal(y0, y1), MaxReal(y0, y1);
    var n := y0 * a + y1 * b;
    assert a + b == d;
    assert lo * a <= y0 * a <= hi * a;
    assert lo * b <= y1 * b <= hi * b;
    assert lo * d <= n <= hi * d;
    DivBetween(lo, n, hi, d);
    assert n / d == Interpolate(x0, y0, x1, y1, x).value;
  }

  lemma DivCancel(v: real, d: real)
    requires d != 0.0
    ensures (v * d) / d == v
  {
    var q := (v * d) / d;
    assert q * d == v * d;
    assert (q - v) * d == 0.0;
  }

  lemma DivBetween(lo: real, n: real, hi: real, d: real)
    requires d > 0.0 && lo * d <= n <= hi * d
    ensures lo <= n / d <= hi
  {
    var q := n / d;
    assert q * d == n;
    assert (q - lo) * d >= 0.0;
    assert (hi - q) * d >= 0.0;
  }

  /** `pairwise`: each element with its successor. */
  function Pairwise<T>(s: seq<T>): seq<(T, T)> {
    if |s| < 2 then [] else Pairwise(s[..|s| - 1]) + [(s[|s| - 2], s[|s| - 1])]
  }

  /** There are |s|−1 consecutive pairs (none for fewer than two
      elements), the i-th being (s[i], s[i+1]). */
  lemma {:induction false} PairwiseShape<T>(s: seq<T>)
    ensures |Pairwise(s)| == if |s| < 2 then 0 else |s| - 1
    ensures forall i :: 0 <= i < |Pairwise(s)| ==> Pairwise(s)[i] == (s[i], s[i + 1])
  {
    if |s| >= 2 {
      var init := s[..|s| - 1];
      PairwiseShape(init);
      forall i | 0 <= i < |Pairwise(s)| ensures Pairwise(s)[i] == (s[i], s[i + 1]) {
        if i < |Pairwise(init)| {
          assert init[i] == s[i] && init[i + 1] == s[i + 1];
        }
      }
    }
  }

  /** The docstring example of `pairwise`. */
  lemma PairwiseExample()
    ensures Pairwise([1, 2, 3, 4]) == [(1, 2), (2, 3), (3, 4)]
  {
    assert [1, 2, 3, 4][..3] == [1, 2, 3];
    assert [1, 2, 3][..2] == [1, 2];
    assert [1, 2][..1] == [1];
  }

  /** `x` lies in the half-open density interval of the pair. */
  predicate Brackets(p: (Sample, Sample), x: real) {
    p.0.density <= x && x < p.1.density
  }

  /** The loop over the pairs: the first pair bracketing `x` is
      interpolated; with none the last capacity is returned. */
  function Scan(pairs: seq<(Sample, Sample)>, x: real, last: real): Result<real> {
    if pairs == [] then Ok(last)
    else if Brackets(pairs[0], x) then
      Interpolate(pairs[0].0.density, pairs[0].0.capacity, pairs[0].1.density, pairs[0].1.capacity, x)
    else Scan(pairs[1..], x, last)
  }

  /** The capacity for density `x` from one sorted list. */
  function LookupIn(s: seq<Sample>, x: real): Result<real> {
    if s == [] then Err(IndexError)
    else if x < s[0].density then Ok(0.0)
    else Scan(Pairwise(s), x, s[|s| - 1].capacity)
  }

  function LookupSpec(table: map<Key, seq<Sample>>, key: Key, x: real): Result<real> {
    if key !in table then Err(KeyError) else LookupIn(table[key], x)
  }

  lemma {:induction false} ScanFirst(pairs: seq<(Sample, Sample)>, x: real, last: real, i: nat)
    requires i < |pairs| && Brackets(pairs[i], x)
    requires forall j :: 0 <= j < i ==> !Brackets(pairs[j], x)
    ensures Scan(pairs, x, last) ==
            Interpolate(pairs[i].0.density, pairs[i].0.capacity, pairs[i].1.density, pairs[i].1.capacity, x)
  {
    if i > 0 {
      ScanFirst(pairs[1..], x, last, i - 1);
    }
  }

  lemma {:induction false} ScanNone(pairs: seq<(Sample, Sample)>, x: real, last: real)
    requires forall j :: 0 <= j < |pairs| ==> !Brackets(pairs[j], x)
    ensures Scan(pairs, x, last) == Ok(last)
  {
    if pairs != [] {
      ScanNone(pairs[1..], x, last);
    }
  }

  /** When the i-th and (i+1)-th densities are the first to bracket `x`,
      the lookup interpolates between them. */
  lemma LookupFirstBracket(s: seq<Sample>, x: real, i: nat)
    requires i + 1 < |s| && s[0].density <= x
    requires s[i].density <= x < s[i + 1].density
    requires forall j :: 0 <= j < i ==> !(s[j].density <= x < s[j + 1].density)
    ensures LookupIn(s, x) == Interpolate(s[i].density, s[i].capacity, s[i + 1].density, s[i + 1].capacity, x)
  {
    var pairs := Pairwise(s);
    PairwiseShape(s);
    forall j | 0 <= j < i ensures !Brackets(pairs[j], x) {
      assert pairs[j] == (s[j], s[j + 1]);
    }
    assert pairs[i] == (s[i], s[i + 1]);
    ScanFirst(pairs, x, s[|s| - 1].capacity, i);
  }

  /** On a density-sorted list, a density at or past the last tabulated one
      gets the last capacity. */
  lemma LookupAboveTable(s: seq<Sample>, x: real)
    requires s != [] && SortedBy(s, Density)
    requires x >= s[|s| - 1].density
    ensures LookupIn(s, x) == Ok(s[|s| - 1].capacity)
  {
    PairwiseShape(s);
    if |s| > 1 {
      assert Density(s[0]) <= Density(s[|s| - 1]);
    }
    forall j | 0 <= j < |Pairwise(s)| ensures !Brackets(Pairwise(s)[j], x) {
      assert Density(s[j + 1]) <= Density(s[|s| - 1]);
    }
    ScanNone(Pairwise(s), x, s[|s| - 1].capacity);
  }

  lemma {:induction false} ScanBounds(pairs: seq<(Sample, Sample)>, x: real, last: real, lo: real, hi: real)
    requires lo <= last <= hi
    requires forall j :: 0 <= j < |pairs| ==>
               lo <= pairs[j].0.capacity <= hi && lo <= pairs[j].1.capacity <= hi
    ensures Scan(pairs, x, last).Ok?
    ensures lo <= Scan(pairs, x, last).value <= hi
  {
    if pairs != [] {
      if Brackets(pairs[0], x) {
        InterpolateBetween(pairs[0].0.density, pairs[0].0.capacity, pairs[0].1.density, pairs[0].1.capacity, x);
      } else {
        ScanBounds(pairs[1..], x, last, lo, hi);
      }
    }
  }

  /** A lookup in a non-empty list never fails, even unsorted: the bracket
      test keeps the interpolation off equal densities. The result is 0
      below the table and otherwise within the tabulated capacities. */
  lemma LookupBounds(s: seq<Sample>, x: real, lo: real, hi: real)
    requires s != []
    requires forall j :: 0 <= j < |s| ==> lo <= s[j].capacity <= hi
    ensures LookupIn(s, x).Ok?
    ensures x < s[0].density ==> LookupIn(s, x).value == 0.0
    ensures x >= s[0].density ==> lo <= LookupIn(s, x).value <= hi
  {
    var pairs := Pairwise(s);
    PairwiseShape(s);
    if x >= s[0].density {
      forall j | 0 <= j < |pairs| ensures lo <= pairs[j].0.capacity <= hi && lo <= pairs[j].1.capacity <= hi {
        assert pairs[j] == (s[j], s[j + 1]);
      }
      ScanBounds(pairs, x, s[|s| - 1].capacity, lo, hi);
    }
  }

  /** `lookup_capacity`. */
  method LookupCapacity(table: map<Key, seq<Sample>>, key: Key, x: real) returns (r: Result<real>)
    ensures r == LookupSpec(table, key, x)
    ensures r.Err? <==> key !in table || table[key] == []
    ensures r.Err? ==> r.error == (if key !in table then KeyError else IndexError)
    ensures key in table && table[key] != [] && x < table[key][0].density ==> r == Ok(0.0)
  {
    if key !in table {
      return Err(KeyError);
    }
    var s := table[key];
    if |s| == 0 {
      return Err(IndexError);
    }
    if x < s[0].density {
      return Ok(0.0);
    }
    var pairs := Pairwise(s);
    var last := s[|s| - 1].capacity;
    LookupNeverFails(s, x);
    for i := 0 to |pairs|
      invariant Scan(pairs, x, last) == Scan(pairs[i..], x, last)
    {
      var (a, b) := pairs[i];
      if a.density <= x && x < b.density {
        r := Interpolate(a.density, a.capacity, b.density, b.capacity, x);
        return;
      }
      assert pairs[i..][1..] == pairs[i + 1..];
    }
    r := Ok(last);
  }

  /** A lookup in a non-empty list always succeeds. */
  lemma LookupNeverFails(s: seq<Sample>, x: real)
    requires s != []
    ensures LookupIn(s, x).Ok?
  {
    LookupBounds(s, x, MinCapacity(s), MaxCapacity(s));
  }

  // ---------------------------------------------------------------------
  // find_frequency_bandwidth, estimate_area_capacity

  /** `find_frequency_bandwidth`: reads `channel_bandwidth_<frequency>`.
      The KeyError the source constructs for a missing key is never raised;
      the failure comes from the dictionary access itself. */
  function FindFrequencyBandwidth(frequency: string, parameters: map<string, string>): (r: Result<string>)
    ensures r.Err? <==> "channel_bandwidth_" + frequency !in parameters
    ensures r.Err? ==> r.error == KeyError
  {
    var name := "channel_bandwidth_" + frequency;
    if name !in parameters then Err(KeyError) else Ok(parameters[name])
  }

  /** A site record: its grid reference and the bands it carries. */
  datatype Asset = Asset(site: string, frequencies: seq<string>)

  /** The bands `estimate_area_capacity` sums over, in order. */
  datatype Band = MHz700 | MHz800 | MHz1800 | MHz2600 | MHz3500 | MHz26000

  /** The band's name as the asset records and parameters spell it. */
  function Frequency(band: Band): string {
    match band
    case MHz700 => "700"
    case MHz800 => "800"
    case MHz1800 => "1800"
    case MHz2600 => "2600"
    case MHz3500 => "3500"
    case MHz26000 => "26000"
  }

  const Bands: seq<Band> := [MHz700, MHz800, MHz1800, MHz2600, MHz3500, MHz26000]

  function Generation(frequency: string): string {
    if frequency == "700" || frequency == "3500" || frequency == "26000" then "5G" else "4G"
  }

  /** The distinct sites of the assets that list `frequency`. */
  function Sites(assets: seq<Asset>, frequency: string): set<string> {
    if assets == [] then {}
    else
      var last := assets[|assets| - 1];
      Sites(assets[..|assets| - 1], frequency) + (if frequency in last.frequencies then {last.site} else {})
  }

  lemma {:induction false} SitesMembers(assets: seq<Asset>, frequency: string, site: string)
    ensures site in Sites(assets, frequency) <==>
              exists a :: a in assets && frequency in a.frequencies && a.site == site
  {
    if assets != [] {
      var init := assets[..|assets| - 1];
      SitesMembers(init, frequency, site);
      assert assets == init + [assets[|assets| - 1]];
    }
  }

  /** One band's contribution, or the first error it raises: the density
      division, then the bandwidth lookup, then the capacity lookup when the
      density is positive, that is when there is a site and the area is
      positive (`DensitySign`). */
  function BandCapacity(assets: seq<Asset>, area: real, environment: string, table: map<Key, seq<Sample>>,
                        parameters: map<string, string>, frequency: string): Result<real> {
    if area == 0.0 then Err(ZeroDivisionError)
    else
      var density := |Sites(assets, frequency)| as real / area;
      match FindFrequencyBandwidth(frequency, parameters)
      case Err(e) => Err(e)
      case Ok(bandwidth) =>
        if |Sites(assets, frequency)| > 0 && area > 0.0 then LookupSpec(table, Key(environment, "macro", frequency, bandwidth, Generation(frequency)), density)
        else Ok(0.0)
  }

  /** The density of `count` sites over a non-zero area is positive
      exactly when there is a site and the area is positive. */
  lemma DensitySign(count: nat, area: real)
    requires area != 0.0
    ensures count as real / area > 0.0 <==> count > 0 && area > 0.0
  {
    var d := count as real / area;
    assert d * area == count as real;
    if count > 0 && area > 0.0 {
      assert d > 0.0;
    }
    if area < 0.0 {
      assert d <= 0.0;
    }
  }

  /** The contributions of `bands`, added up in order, or the first error
      one of them raises. */
  function SumOver<T>(bands: seq<T>, band: T -> Result<real>): Result<real> {
    if bands == [] then Ok(0.0)
    else
      match band(bands[0])
      case Err(e) => Err(e)
      case Ok(c) =>
        match SumOver(bands[1..], band)
        case Err(e) => Err(e)
        case Ok(rest) => Ok(c + rest)
  }

  /** A running total plus what the remaining bands add, or their first
      error. */
  function Shift(total: real, rest: Result<real>): Result<real> {
    if rest.Err? then rest else Ok(total + rest.value)
  }

  /** `BandCapacity` for one area, as a function of the band. */
  function BandsOf(assets: seq<Asset>, area: real, environment: string, table: map<Key, seq<Sample>>,
                   parameters: map<string, string>): Band -> Result<real> {
    band => BandCapacity(assets, area, environment, table, parameters, Frequency(band))
  }

  function AreaCapacity(assets: seq<Asset>, area: real, environment: string,
                        table: map<Key, seq<Sample>>, parameters: map<string, string>): Result<real> {
    SumOver(Bands, BandsOf(assets, area, environment, table, parameters))
  }

  /** The inner loops of `estimate_area_capacity` that collect one band's
      sites. */
  method UniqueSites(assets: seq<Asset>, frequency: string) returns (sites: set<string>)
    ensures sites == Sites(assets, frequency)
  {
    sites := {};
    for i := 0 to |assets|
      invariant sites == Sites(assets[..i], frequency)
    {
      assert assets[..i + 1][..i] == assets[..i];
      var asset := assets[i];
      for j := 0 to |asset.frequencies|
        invariant sites == Sites(assets[..i], frequency) + (if frequency in asset.frequencies[..j] then {asset.site} else {})
      {
        assert asset.frequencies[..j + 1] == asset.frequencies[..j] + [asset.frequencies[j]];
        if asset.frequencies[j] == frequency {
          sites := sites + {asset.site};
        }
      }
      assert asset.frequencies[..|asset.frequencies|] == asset.frequencies;
    }
    assert assets[..|assets|] == assets;
  }

  /** One pass of the band loop of `estimate_area_capacity`: the band's
      distinct sites, their density, the band's bandwidth and generation, and
      the capacity looked up when there is at least one site. */
  method BandContribution(assets: seq<Asset>, area: real, environment: string, table: map<Key, seq<Sample>>,
                          parameters: map<string, string>, frequency: string) returns (r: Result<real>)
    ensures r == BandCapacity(assets, area, environment, table, parameters, frequency)
  {
    var sites := UniqueSites(assets, frequency);
    if area == 0.0 {
      return Err(ZeroDivisionError);
    }
    var density := |sites| as real / area;
    DensitySign(|sites|, area);
    var bandwidth := FindFrequencyBandwidth(frequency, parameters);
    if bandwidth.Err? {
      return Err(bandwidth.error);
    }
    var generation := if frequency == "700" || frequency == "3500" || frequency == "26000" then "5G" else "4G";
    if density > 0.0 {
      r := LookupCapacity(table, Key(environment, "macro", frequency, bandwidth.value, generation), density);
    } else {
      r := Ok(0.0);
    }
  }

  /** `estimate_area_capacity`: the band contributions added up in band
      order, stopping at the first error. */
  method EstimateAreaCapacity(assets: seq<Asset>, area: real, environment: string,
                              table: map<Key, seq<Sample>>, parameters: map<string, string>) returns (r: Result<real>)
    ensures r == AreaCapacity(assets, area, environment, table, parameters)
  {
    r := SumBands(Bands, assets, area, environment, table, parameters);
  }

  /** The band loop of `estimate_area_capacity`. */
  method SumBands(bands: seq<Band>, assets: seq<Asset>, area: real, environment: string,
                  table: map<Key, seq<Sample>>, parameters: map<string, string>) returns (r: Result<real>)
    ensures r == SumOver(bands, BandsOf(assets, area, environment, table, parameters))
  {
    ghost var band := BandsOf(assets, area, environment, table, parameters);
    var capacity := 0.0;
    for b := 0 to |bands|
      invariant Shift(capacity, SumOver(bands[b..], band)) == SumOver(bands, band)
    {
      var techCapacity := BandContribution(assets, area, environment, table, parameters, Frequency(bands[b]));
      SumStep(bands, b, band, capacity, techCapacity);
      if techCapacity.Err? {
        return Err(techCapacity.error);
      }
      capacity := capacity + techCapacity.value;
    }
    r := Ok(capacity);
  }

  /** One step of the sum: the next contribution moves into the running
      total, or its error is the error of the whole list. */
  lemma SumStep<T>(bands: seq<T>, b: nat, band: T -> Result<real>, total: real, c: Result<real>)
    requires b < |bands| && Shift(total, SumOver(bands[b..], band)) == SumOver(bands, band)
    requires c == band(bands[b])
    ensures c.Err? ==> SumOver(bands, band) == Err(c.error)
    ensures c.Ok? ==> Shift(total + c.value, SumOver(bands[b + 1..], band)) == SumOver(bands, band)
  {
    assert bands[b..][1..] == bands[b + 1..];
  }

  /** The sum succeeds exactly when every contribution does. */
  lemma {:induction false} SumOk<T>(bands: seq<T>, band: T -> Result<real>)
    ensures SumOver(bands, band).Ok? <==> forall k :: 0 <= k < |bands| ==> band(bands[k]).Ok?
  {
    if bands != [] {
      var rest := bands[1..];
      SumOk(rest, band);
      assert forall k :: 0 <= k < |rest| ==> rest[k] == bands[k + 1];
      if forall k :: 0 <= k < |rest| ==> band(rest[k]).Ok? {
        if band(bands[0]).Ok? {
          forall k | 0 <= k < |bands| ensures band(bands[k]).Ok? {
            if k > 0 {
              assert bands[k] == rest[k - 1];
            }
          }
        }
      }
    }
  }

  /** The area capacity is the sum of the six band contributions, and it
      fails exactly when one of them does. */
  lemma AreaCapacitySum(assets: seq<Asset>, area: real, environment: string,
                        table: map<Key, seq<Sample>>, parameters: map<string, string>)
    ensures AreaCapacity(assets, area, environment, table, parameters).Ok? <==>
              forall k :: 0 <= k < |Bands| ==> BandCapacity(assets, area, environment, table, parameters, Frequency(Bands[k])).Ok?
    ensures AreaCapacity(assets, area, environment, table, parameters).Ok? ==>
              AreaCapacity(assets, area, environment, table, parameters).value ==
                BandCapacity(assets, area, environment, table, parameters, Frequency(MHz700)).value +
                BandCapacity(assets, area, environment, table, parameters, Frequency(MHz800)).value +
                BandCapacity(assets, area, environment, table, parameters, Frequency(MHz1800)).value +
                BandCapacity(assets, area, environment, table, parameters, Frequency(MHz2600)).value +
                BandCapacity(assets, area, environment, table, parameters, Frequency(MHz3500)).value +
                BandCapacity(assets, area, environment, table, parameters, Frequency(MHz26000)).value
  {
    var band := BandsOf(assets, area, environment, table, parameters);
    SumOk(Bands, band);
    assert band(Bands[0]) == BandCapacity(assets, area, environment, table, parameters, Frequency(MHz700));
    assert band(Bands[1]) == BandCapacity(assets, area, environment, table, parameters, Frequency(MHz800));
    assert band(Bands[2]) == BandCapacity(assets, area, environment, table, parameters, Frequency(MHz1800));
    assert band(Bands[3]) == BandCapacity(assets, area, environment, table, parameters, Frequency(MHz2600));
    assert band(Bands[4]) == BandCapacity(assets, area, environment, table, parameters, Frequency(MHz3500));
    assert band(Bands[5]) == BandCapacity(assets, area, environment, table, parameters, Frequency(MHz26000));
    if SumOver(Bands, band).Ok? {
      SumOfSix(Bands, band);
    }
  }

  /** A successful sum over six bands, written out. */
  lemma SumOfSix<T>(bands: seq<T>, band: T -> Result<real>)
    requires |bands| == 6 && forall k :: 0 <= k < 6 ==> band(bands[k]).Ok?
    ensures SumOver(bands, band).Ok?
    ensures SumOver(bands, band).value ==
              band(bands[0]).value + band(bands[1]).value + band(bands[2]).value +
              band(bands[3]).value + band(bands[4]).value + band(bands[5]).value
  {
    SumOk(bands, band);
    SumSuffix(bands, 0, band);
    SumSuffix(bands, 1, band);
    SumSuffix(bands, 2, band);
    SumSuffix(bands, 3, band);
    SumSuffix(bands, 4, band);
    SumSuffix(bands, 5, band);
    assert bands[6..] == [];
  }

  /** Peeling one contribution off a successful suffix sum. */
  lemma SumSuffix<T>(bands: seq<T>, b: nat, band: T -> Result<real>)
    requires b < |bands| && forall k :: 0 <= k < |bands| ==> band(bands[k]).Ok?
    ensures SumOver(bands[b..], band).Ok? && SumOver(bands[b + 1..], band).Ok?
    ensures SumOver(bands[b..], band).value == band(bands[b]).value + SumOver(bands[b + 1..], band).value
  {
    assert bands[b..][1..] == bands[b + 1..];
    SumOk(bands[b..], band);
    assert forall k :: 0 <= k < |bands[b..]| ==> bands[b..][k] == bands[b + k];
  }

  /** A zero area fails at the density division of the first band. */
  lemma ZeroAreaFails(assets: seq<Asset>, environment: string, table: map<Key, seq<Sample>>, parameters: map<string, string>)
    ensures AreaCapacity(assets, 0.0, environment, table, parameters) == Err(ZeroDivisionError)
  {
    var band := BandsOf(assets, 0.0, environment, table, parameters);
    assert band(Bands[0]) == Err(ZeroDivisionError);
  }

  /** A band that no asset lists contributes 0 once its bandwidth is known,
      whatever the lookup table holds. */
  lemma SilentBand(assets: seq<Asset>, area: real, environment: string, table: map<Key, seq<Sample>>,
                   parameters: map<string, string>, frequency: string)
    requires area != 0.0 && "channel_bandwidth_" + frequency in parameters
    requires forall a :: a in assets ==> frequency !in a.frequencies
    ensures BandCapacity(assets, area, environment, table, parameters, frequency) == Ok(0.0)
  {
    if Sites(assets, frequency) != {} {
      var site :| site in Sites(assets, frequency);
      SitesMembers(assets, frequency, site);
    }
  }

  /** The capacity depends only on which assets there are: repeating an
      asset or reordering the assets leaves every band's site count, and so
      the result, unchanged. */
  lemma RepeatedAssetsIgnored(assets: seq<Asset>, others: seq<Asset>, area: real, environment: string,
                              table: map<Key, seq<Sample>>, parameters: map<string, string>)
    requires forall a :: a in assets <==> a in others
    ensures AreaCapacity(assets, area, environment, table, parameters) == AreaCapacity(others, area, environment, table, parameters)
  {
    var f := BandsOf(assets, area, environment, table, parameters);
    var g := BandsOf(others, area, environment, table, parameters);
    forall band ensures f(band) == g(band) {
      var frequency := Frequency(band);
      forall site ensures site in Sites(assets, frequency) <==> site in Sites(others, frequency) {
        SitesMembers(assets, frequency, site);
        SitesMembers(others, frequency, site);
      }
      assert Sites(assets, frequency) == Sites(others, frequency);
    }
    SameSum(Bands, f, g);
  }

  lemma {:induction false} SameSum<T>(bands: seq<T>, f: T -> Result<real>, g: T -> Result<real>)
    requires forall x :: f(x) == g(x)
    ensures SumOver(bands, f) == SumOver(bands, g)
  {
    if bands != [] {
      SameSum(bands[1..], f, g);
    }
  }

  /** With a positive area and a table of non-negative capacities, the area
      capacity is never negative. */
  lemma AreaCapacityNonNegative(assets: seq<Asset>, area: real, environment: string,
                                table: map<Key, seq<Sample>>, parameters: map<string, string>)
    requires area > 0.0
    requires forall key, j :: key in table && 0 <= j < |table[key]| ==> table[key][j].capacity >= 0.0
    ensures AreaCapacity(assets, area, environment, table, parameters).Ok? ==>
              AreaCapacity(assets, area, environment, table, parameters).value >= 0.0
  {
    var band := BandsOf(assets, area, environment, table, parameters);
    forall b | band(b).Ok? ensures band(b).value >= 0.0 {
      BandNonNegative(assets, area, environment, table, parameters, Frequency(b));
    }
    NonNegativeSum(Bands, band);
  }

  lemma BandNonNegative(assets: seq<Asset>, area: real, environment: string,
                        table: map<Key, seq<Sample>>, parameters: map<string, string>, frequency: string)
    requires area > 0.0
    requires forall key, j :: key in table && 0 <= j < |table[key]| ==> table[key][j].capacity >= 0.0
    ensures BandCapacity(assets, area, environment, table, parameters, frequency).Ok? ==>
              BandCapacity(assets, area, environment, table, parameters, frequency).value >= 0.0
  {
    var bw := FindFrequencyBandwidth(frequency, parameters);
    if bw.Ok? {
      var key := Key(environment, "macro", frequency, bw.value, Generation(frequency));
      var density := |Sites(assets, frequency)| as real / area;
      if density > 0.0 && key in table && table[key] != [] {
        LookupBounds(table[key], density, 0.0, MaxCapacity(table[key]));
      }
    }
  }

  lemma {:induction false} NonNegativeSum<T>(bands: seq<T>, band: T -> Result<real>)
    requires forall x :: band(x).Ok? ==> band(x).value >= 0.0
    ensures SumOver(bands, band).Ok? ==> SumOver(bands, band).value >= 0.0
  {
    if bands != [] {
      NonNegativeSum(bands[1..], band);
    }
  }

  /** The largest capacity of a non-empty list. */
  function MaxCapacity(s: seq<Sample>): (m: real)
    requires s != []
    ensures forall j :: 0 <= j < |s| ==> s[j].capacity <= m
    ensures exists j :: 0 <= j < |s| && s[j].capacity == m
  {
    if |s| == 1 then s[0].capacity
    else MaxReal(MaxCapacity(s[..|s| - 1]), s[|s| - 1].capacity)
  }

  /** The smallest capacity of a non-empty list. */
  function MinCapacity(s: seq<Sample>): (m: real)
    requires s != []
    ensures forall j :: 0 <= j < |s| ==> m <= s[j].capacity
    ensures exists j :: 0 <= j < |s| && s[j].capacity == m
  {
    if |s| == 1 then s[0].capacity
    else MinReal(MinCapacity(s[..|s| - 1]), s[|s| - 1].capacity)
  }
}
