// Data demand estimation: the busy-hour demand of one user and the demand
// density of an area.

module Demand {
  import opened Results

  /** The scenario parameters, by name. A missing name is a `KeyError`. */
  type Parameters = map<string, real>

  const BusyHourKey := "busy_hour_traffic_percentage"
  const MonthlyDataKey := "monthly_data_consumption_GB"
  const PenetrationKey := "penetration_percentage"
  const MarketShareKey := "market_share_percentage"

  /** Megabits per second that one user needs in the busy hour: the monthly
      gigabytes in megabits, the busy-hour share of one day's traffic, over
      30 days of 3600 seconds. */
  function UserDemand(parameters: Parameters): (r: Result<real>)
    ensures r.Err? <==> BusyHourKey !in parameters || MonthlyDataKey !in parameters
    ensures r.Err? ==> r.error == KeyError
    ensures r.Ok? ==>
              r.value == parameters[MonthlyDataKey] * parameters[BusyHourKey] * 8192.0 / 10800000.0
  {
    if BusyHourKey !in parameters then Err(KeyError)
    else
      var busyHourTraffic := parameters[BusyHourKey] / 100.0;
      if MonthlyDataKey !in parameters then Err(KeyError)
      else
        var monthlyData := parameters[MonthlyDataKey];
        Ok(monthlyData * 1024.0 * 8.0 * busyHourTraffic / 30.0 / 3600.0)
  }

  /** Demand grows in proportion to the monthly consumption. */
  lemma UserDemandLinear(parameters: Parameters, c: real)
    requires BusyHourKey in parameters && MonthlyDataKey in parameters
    ensures UserDemand(parameters[MonthlyDataKey := c * parameters[MonthlyDataKey]]).Ok?
    ensures UserDemand(parameters[MonthlyDataKey := c * parameters[MonthlyDataKey]]).value ==
              c * UserDemand(parameters).value
  {
    var scaled := parameters[MonthlyDataKey := c * parameters[MonthlyDataKey]];
    assert scaled[BusyHourKey] == parameters[BusyHourKey];
    var m, b := parameters[MonthlyDataKey], parameters[BusyHourKey];
    assert (c * m) * b * 8192.0 == c * (m * b * 8192.0);
  }

  /** A user who consumes nothing demands nothing. */
  lemma NoConsumptionNoDemand(parameters: Parameters)
    requires BusyHourKey in parameters && MonthlyDataKey in parameters
    requires parameters[MonthlyDataKey] == 0.0
    ensures UserDemand(parameters) == Ok(0.0)
  {
    assert 0.0 * parameters[BusyHourKey] == 0.0;
  }

  /** Non-negative consumption and busy-hour share give a non-negative
      demand. */
  lemma UserDemandNonNegative(parameters: Parameters)
    requires BusyHourKey in parameters && MonthlyDataKey in parameters
    requires parameters[MonthlyDataKey] >= 0.0 && parameters[BusyHourKey] >= 0.0
    ensures UserDemand(parameters).Ok? && UserDemand(parameters).value >= 0.0
  {
    var m, b := parameters[MonthlyDataKey], parameters[BusyHourKey];
    assert m * b >= 0.0;
  }

  /** Demand per square kilometre as the code computes it: the users are the
      population times the penetration percentage over 100 times the market
      share percentage itself, not over 100. */
  function TotalDemand(userDemand: real, population: real, area: real, parameters: Parameters): (r: Result<real>)
    ensures r.Err? <==> PenetrationKey !in parameters || MarketShareKey !in parameters || area == 0.0
    ensures r.Err? && (PenetrationKey !in parameters || MarketShareKey !in parameters) ==> r.error == KeyError
    ensures r.Err? && PenetrationKey in parameters && MarketShareKey in parameters ==> r.error == ZeroDivisionError
    ensures r.Ok? ==>
              r.value * area == population * parameters[PenetrationKey] * parameters[MarketShareKey] * userDemand / 100.0
  {
    if PenetrationKey !in parameters then Err(KeyError)
    else
      var penetration := parameters[PenetrationKey];
      if MarketShareKey !in parameters then Err(KeyError)
      else
        var marketShare := parameters[MarketShareKey];
        var users := population * (penetration / 100.0) * marketShare;
        var userThroughput := users * userDemand;
        if area == 0.0 then Err(ZeroDivisionError)
        else Ok(userThroughput / area)
  }

  /** Doubling the population, or the user demand, doubles the area demand:
      it is linear in each. */
  lemma TotalDemandLinear(userDemand: real, population: real, area: real, parameters: Parameters, c: real)
    requires PenetrationKey in parameters && MarketShareKey in parameters && area != 0.0
    ensures TotalDemand(userDemand, c * population, area, parameters).value ==
              c * TotalDemand(userDemand, population, area, parameters).value
    ensures TotalDemand(c * userDemand, population, area, parameters).value ==
              c * TotalDemand(userDemand, population, area, parameters).value
  {
    var p, s := parameters[PenetrationKey] / 100.0, parameters[MarketShareKey];
    var t := population * p * s * userDemand;
    assert TotalDemand(userDemand, population, area, parameters).value == t / area;
    assert (c * population) * p * s * userDemand == c * t;
    assert population * p * s * (c * userDemand) == c * t;
    assert TotalDemand(userDemand, c * population, area, parameters).value == (c * t) / area;
    assert TotalDemand(c * userDemand, population, area, parameters).value == (c * t) / area;
    assert (c * t) / area == c * (t / area);
  }

  /** The same traffic over an area `c` times as large is `c` times less
      dense. */
  lemma TotalDemandOverArea(userDemand: real, population: real, area: real, parameters: Parameters, c: real)
    requires PenetrationKey in parameters && MarketShareKey in parameters && area != 0.0 && c != 0.0
    ensures TotalDemand(userDemand, population, c * area, parameters).Ok?
    ensures c * TotalDemand(userDemand, population, c * area, parameters).value ==
              TotalDemand(userDemand, population, area, parameters).value
  {
    var t := population * (parameters[PenetrationKey] / 100.0) * parameters[MarketShareKey] * userDemand;
    assert c * area != 0.0;
    assert TotalDemand(userDemand, population, c * area, parameters).value == t / (c * area);
    assert TotalDemand(userDemand, population, area, parameters).value == t / area;
    assert c * (t / (c * area)) == t / area;
  }

  /** With non-negative inputs and a positive area, the demand is
      non-negative. */
  lemma TotalDemandNonNegative(userDemand: real, population: real, area: real, parameters: Parameters)
    requires PenetrationKey in parameters && MarketShareKey in parameters
    requires userDemand >= 0.0 && population >= 0.0 && area > 0.0
    requires parameters[PenetrationKey] >= 0.0 && parameters[MarketShareKey] >= 0.0
    ensures TotalDemand(userDemand, population, area, parameters).Ok?
    ensures TotalDemand(userDemand, population, area, parameters).value >= 0.0
  {
    var p, s := parameters[PenetrationKey] / 100.0, parameters[MarketShareKey];
    assert population * p >= 0.0;
    assert population * p * s >= 0.0;
    var t := population * p * s * userDemand;
    assert t >= 0.0;
    assert TotalDemand(userDemand, population, area, parameters).value == t / area;
  }

  /** Demand per square kilometre as the worked example in the code's own
      documentation computes it: both percentages are divided by 100. */
  function TotalDemandIntended(userDemand: real, population: real, area: real, parameters: Parameters): (r: Result<real>)
    ensures r.Err? <==> PenetrationKey !in parameters || MarketShareKey !in parameters || area == 0.0
    ensures r.Ok? ==>
              r.value * area == population * parameters[PenetrationKey] * parameters[MarketShareKey] * userDemand / 10000.0
  {
    if PenetrationKey !in parameters || MarketShareKey !in parameters then Err(KeyError)
    else
      var users := population * (parameters[PenetrationKey] / 100.0) * (parameters[MarketShareKey] / 100.0);
      if area == 0.0 then Err(ZeroDivisionError)
      else Ok(users * userDemand / area)
  }

  /** The code's demand is exactly 100 times the documented one, whenever
      either is defined. */
  lemma TotalDemandHundredfold(userDemand: real, population: real, area: real, parameters: Parameters)
    ensures TotalDemand(userDemand, population, area, parameters).Ok? <==>
              TotalDemandIntended(userDemand, population, area, parameters).Ok?
    ensures TotalDemand(userDemand, population, area, parameters).Ok? ==>
              TotalDemand(userDemand, population, area, parameters).value ==
                100.0 * TotalDemandIntended(userDemand, population, area, parameters).value
  {
    if TotalDemand(userDemand, population, area, parameters).Ok? {
      var p, s := parameters[PenetrationKey], parameters[MarketShareKey];
      var t := population * (p / 100.0) * (s / 100.0) * userDemand;
      assert population * (p / 100.0) * s * userDemand == 100.0 * t;
      assert TotalDemand(userDemand, population, area, parameters).value == (100.0 * t) / area;
      assert TotalDemandIntended(userDemand, population, area, parameters).value == t / area;
      assert (100.0 * t) / area == 100.0 * (t / area);
    }
  }

  /** The documented example: 100 people, 80% penetration, 25% market share,
      0.01 Mbps per user over 1 km^2. The documentation expects 20 users and
      0.2 Mbps/km^2; the code counts 2000 users and gives 20.0. */
  lemma DocumentedExampleDiffers()
    ensures TotalDemand(0.01, 100.0, 1.0, map[PenetrationKey := 80.0, MarketShareKey := 25.0]) == Ok(20.0)
    ensures TotalDemandIntended(0.01, 100.0, 1.0, map[PenetrationKey := 80.0, MarketShareKey := 25.0]) == Ok(0.2)
  {
    var parameters := map[PenetrationKey := 80.0, MarketShareKey := 25.0];
    assert PenetrationKey != MarketShareKey;
    assert parameters[PenetrationKey] == 80.0 && parameters[MarketShareKey] == 25.0;
  }
}
