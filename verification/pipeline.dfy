/**
  The solve button (`setupSolveButton`, solver.ts lines 170-264): the four
  matrices and the model are built from the selected cities, the external
  solver streams its solutions, and each solution becomes one route table.
  The solver run itself (loading the problem file, Gecode, the asynchronous
  stream) is outside the model: it enters as a `SolverRun` value holding the
  edge selections `x` it reported, or the message of the error it raised.
 */
module Pipeline {
  import opened Base
  import opened Matrices
  import opened Cities
  import opened ModelBuilder
  import opened Route

  /** What the external solver did: reported these solutions then a status, or failed. */
  datatype SolverRun =
    | Finished(solutions: seq<seq<int>>, status: string)
    | Failed(message: string)

  /** What the route container shows once the run is over. */
  datatype Outcome =
    | SelectTwo
    | Routes(tables: seq<seq<Leg>>, status: string)
    | ErrorMessage(message: string)

  /** `calculateDurationMatrix(calculateTimeMatrix(selected), shift)`. */
  function Durations(selected: seq<City>, shift: int, offsetOf: string -> int): (m: Matrix<int>)
    ensures IsSquare(m, |selected|)
  {
    DurationMatrix(TimeMatrix(selected, offsetOf), shift)
  }

  /** `calculateSpeedMatrix(calculateDistanceMatrix(selected), durations)`. */
  function Speeds(selected: seq<City>, shift: int, geo: (City, City) -> real, offsetOf: string -> int): (m: Matrix<int>)
    ensures IsSquare(m, |selected|)
  {
    SpeedMatrix(DistanceMatrix(selected, geo), Durations(selected, shift, offsetOf))
  }

  function Names(cities: seq<City>): (names: seq<string>)
    ensures |names| == |cities|
    ensures forall k :: 0 <= k < |cities| ==> names[k] == cities[k].name
  {
    seq(|cities|, k requires 0 <= k < |cities| => cities[k].name)
  }

  /**
    The shape every route table has: at most one leg fewer than the selected
    cities, starting at the first selected city, each leg leaving from where
    the previous one arrived, between selected cities, at a speed inside the window.
   */
  predicate IsRouteTable(legs: seq<Leg>, selected: seq<City>, speedMin: int, speedMax: int) {
    && |legs| <= StepLimit(|selected|)
    && (|legs| > 0 ==> |selected| > 0 && legs[0].from == selected[0].name)
    && (forall k :: 0 < k < |legs| ==> legs[k].from == legs[k - 1].to)
    && (forall k :: 0 <= k < |legs| ==> legs[k].from in Names(selected) && legs[k].to in Names(selected))
    && (forall k :: 0 <= k < |legs| ==> InWindow(legs[k].speed, speedMin, speedMax))
  }

  /** Every duration string of the table reads back as a non-negative number of minutes, and so does the total. */
  predicate HasKnownTotal(legs: seq<Leg>) {
    && (forall k :: 0 <= k < |legs| ==> ParseDuration(legs[k].duration).Some? && ParseDuration(legs[k].duration).value >= 0)
    && RouteTotal(legs).Some? && RouteTotal(legs).value >= 0
  }

  /** Every edge of the model joins two cities whose speed is inside the window. */
  predicate AllKept(md: ModelData, speed: Matrix<int>, speedMin: int, speedMax: int)
    requires WellFormed(md) && IsSquare(speed, md.n)
  {
    forall k :: 0 <= k < |md.edges| ==> Kept(speed, speedMin, speedMax, md.edges[k].src - 1, md.edges[k].dst - 1)
  }

  /** Every cost of the model is the cost `createModelData` gives its edge. */
  predicate AllCosted(md: ModelData, speed: Matrix<int>, duration: Matrix<int>)
    requires WellFormed(md) && IsSquare(speed, md.n) && IsSquare(duration, md.n)
  {
    forall k :: 0 <= k < |md.edges| ==> md.costs[k] == Cost(speed, duration, md.edges[k].src - 1, md.edges[k].dst - 1)
  }

  /** A table built from a model whose edges are all in the window is a route table. */
  lemma TableIsRoute(md: ModelData, cities: seq<City>, speed: Matrix<int>, x: seq<int>, speedMin: int, speedMax: int)
    requires WellFormed(md) && md.n == |cities| && IsSquare(speed, |cities|)
    requires AllKept(md, speed, speedMin, speedMax)
    ensures IsRouteTable(ParseSolution(md, cities, speed, x), cities, speedMin, speedMax)
  {
    var legs := ParseSolution(md, cities, speed, x);
    LegsChain(md, cities, speed, x);
    forall k | 0 <= k < |legs|
      ensures legs[k].from in Names(cities) && legs[k].to in Names(cities)
      ensures InWindow(legs[k].speed, speedMin, speedMax)
    {
      LegInWindow(md, cities, speed, x, speedMin, speedMax, k);
    }
  }

  /** One leg of such a table joins two selected cities at a speed inside the window. */
  lemma LegInWindow(md: ModelData, cities: seq<City>, speed: Matrix<int>, x: seq<int>, speedMin: int, speedMax: int, k: nat)
    requires WellFormed(md) && md.n == |cities| && IsSquare(speed, |cities|)
    requires AllKept(md, speed, speedMin, speedMax)
    requires k < |Reconstruct(md, x)|
    ensures k < |ParseSolution(md, cities, speed, x)|
    ensures var leg := ParseSolution(md, cities, speed, x)[k];
      leg.from in Names(cities) && leg.to in Names(cities) && InWindow(leg.speed, speedMin, speedMax)
  {
    var h := Reconstruct(md, x)[k];
    var leg := ParseSolution(md, cities, speed, x)[k];
    assert leg == LegOf(cities, speed, md.costs, h);
    assert Names(cities)[h.from] == leg.from;
    assert Names(cities)[h.to] == leg.to;
    assert Selected(md.edges, x, h.edge, h.from);
    assert Kept(speed, speedMin, speedMax, md.edges[h.edge].src - 1, md.edges[h.edge].dst - 1);
  }

  /** Over a non-negative geodesic, every cost `createModelData` attaches is non-negative. */
  lemma CostsNonNegative(md: ModelData, selected: seq<City>, shift: int, geo: (City, City) -> real, offsetOf: string -> int)
    requires WellFormed(md) && md.n == |selected|
    requires AllCosted(md, Speeds(selected, shift, geo, offsetOf), Durations(selected, shift, offsetOf))
    requires forall a, b :: geo(a, b) >= 0.0
    ensures forall k :: 0 <= k < |md.costs| ==> md.costs[k] >= 0
  {
    var speed := Speeds(selected, shift, geo, offsetOf);
    var duration := Durations(selected, shift, offsetOf);
    var distance := DistanceMatrix(selected, geo);
    forall k | 0 <= k < |md.costs|
      ensures md.costs[k] >= 0
    {
      var i, j := md.edges[k].src - 1, md.edges[k].dst - 1;
      assert speed[i][j] == SpeedEntry(i, j, distance[i][j], duration[i][j]);
      assert distance[i][j] >= 0.0;
    }
  }

  lemma {:induction false} SumNonNegative(c: seq<int>)
    requires forall k :: 0 <= k < |c| ==> c[k] >= 0
    ensures Sum(c) >= 0
  {
    if |c| > 0 {
      SumNonNegative(c[1..]);
    }
  }

  /** With non-negative costs every duration string of a table reads back as a non-negative number of minutes. */
  lemma LegsReadBack(md: ModelData, cities: seq<City>, speed: Matrix<int>, x: seq<int>)
    requires WellFormed(md) && md.n == |cities| && IsSquare(speed, |cities|)
    requires forall k :: 0 <= k < |md.costs| ==> md.costs[k] >= 0
    ensures var legs := ParseSolution(md, cities, speed, x);
      forall k :: 0 <= k < |legs| ==> ParseDuration(legs[k].duration).Some? && ParseDuration(legs[k].duration).value >= 0
  {
    LegDurationsReadBack(md, cities, speed, x);
  }

  /** With non-negative costs the total of a table is a known, non-negative number of minutes. */
  lemma TotalReadsBack(md: ModelData, cities: seq<City>, speed: Matrix<int>, x: seq<int>)
    requires WellFormed(md) && md.n == |cities| && IsSquare(speed, |cities|)
    requires forall k :: 0 <= k < |md.costs| ==> md.costs[k] >= 0
    ensures RouteTotal(ParseSolution(md, cities, speed, x)).Some?
    ensures RouteTotal(ParseSolution(md, cities, speed, x)).value >= 0
  {
    RouteTotalIsSumOfCosts(md, cities, speed, x);
    SumNonNegative(RouteCosts(md, Reconstruct(md, x)));
  }

  lemma TableTotalKnown(md: ModelData, cities: seq<City>, speed: Matrix<int>, x: seq<int>)
    requires WellFormed(md) && md.n == |cities| && IsSquare(speed, |cities|)
    requires forall k :: 0 <= k < |md.costs| ==> md.costs[k] >= 0
    ensures HasKnownTotal(ParseSolution(md, cities, speed, x))
  {
    LegsReadBack(md, cities, speed, x);
    TotalReadsBack(md, cities, speed, x);
  }

  /** The tables of a run's solutions, one per solution, in the order they were reported. */
  function Tables(md: ModelData, selected: seq<City>, speed: Matrix<int>, solutions: seq<seq<int>>): (tables: seq<seq<Leg>>)
    requires WellFormed(md) && md.n == |selected| && IsSquare(speed, |selected|)
    ensures |tables| == |solutions|
    ensures forall s :: 0 <= s < |tables| ==> tables[s] == ParseSolution(md, selected, speed, solutions[s])
  {
    seq(|solutions|, s requires 0 <= s < |solutions| => ParseSolution(md, selected, speed, solutions[s]))
  }

  /** Every table of a model whose edges are all in the window is a route table. */
  lemma TablesAreRoutes(md: ModelData, selected: seq<City>, speed: Matrix<int>, solutions: seq<seq<int>>,
                        speedMin: int, speedMax: int)
    requires WellFormed(md) && md.n == |selected| && IsSquare(speed, |selected|)
    requires AllKept(md, speed, speedMin, speedMax)
    ensures var tables := Tables(md, selected, speed, solutions);
      forall s :: 0 <= s < |tables| ==> IsRouteTable(tables[s], selected, speedMin, speedMax)
  {
    var tables := Tables(md, selected, speed, solutions);
    forall s | 0 <= s < |tables|
      ensures IsRouteTable(tables[s], selected, speedMin, speedMax)
    {
      TableIsRoute(md, selected, speed, solutions[s], speedMin, speedMax);
    }
  }

  /** Over a non-negative geodesic every table's total is known and is the sum of its route's edge costs. */
  lemma TablesTotals(md: ModelData, selected: seq<City>, shift: int, geo: (City, City) -> real,
                     offsetOf: string -> int, solutions: seq<seq<int>>)
    requires WellFormed(md) && md.n == |selected|
    requires AllCosted(md, Speeds(selected, shift, geo, offsetOf), Durations(selected, shift, offsetOf))
    requires forall a, b :: geo(a, b) >= 0.0
    ensures var tables := Tables(md, selected, Speeds(selected, shift, geo, offsetOf), solutions);
      forall s :: 0 <= s < |tables| ==>
        HasKnownTotal(tables[s]) && RouteTotal(tables[s]) == Some(Sum(RouteCosts(md, Reconstruct(md, solutions[s]))))
  {
    var speed := Speeds(selected, shift, geo, offsetOf);
    var tables := Tables(md, selected, speed, solutions);
    CostsNonNegative(md, selected, shift, geo, offsetOf);
    forall s | 0 <= s < |tables|
      ensures HasKnownTotal(tables[s])
      ensures RouteTotal(tables[s]) == Some(Sum(RouteCosts(md, Reconstruct(md, solutions[s]))))
    {
      TableTotalKnown(md, selected, speed, solutions[s]);
      RouteTotalIsSumOfCosts(md, selected, speed, solutions[s]);
    }
  }

  /**
    The solve button.  Fewer than two selected cities give the prompt to
    select two and no model is built (`md` is then the empty model);
    otherwise the model is built from the speed and duration matrices of the
    selection, and the solver either fails (its message is shown) or reports
    solutions, each shown as the route table `parseSolution` makes of it,
    followed by its status.
   */
  method Solve(selected: seq<City>, shift: int, speedMin: int, speedMax: int,
               geo: (City, City) -> real, offsetOf: string -> int, run: SolverRun)
    returns (out: Outcome, md: ModelData)
    ensures |selected| < 2 <==> out.SelectTwo?
    ensures |selected| < 2 ==> md == ModelData(0, 0, [], [])
    ensures |selected| >= 2 ==> md.n == |selected| && WellFormed(md)
    ensures |selected| >= 2 ==> AllKept(md, Speeds(selected, shift, geo, offsetOf), speedMin, speedMax)
    ensures |selected| >= 2 ==> AllCosted(md, Speeds(selected, shift, geo, offsetOf), Durations(selected, shift, offsetOf))
    ensures |selected| >= 2 ==> forall i, j ::
              0 <= i < md.n && 0 <= j < md.n && Kept(Speeds(selected, shift, geo, offsetOf), speedMin, speedMax, i, j)
              ==> Edge(i + 1, j + 1) in md.edges
    ensures |selected| >= 2 ==> Sorted(md.edges)
    ensures |selected| >= 2 && run.Failed? ==> out == ErrorMessage(run.message)
    ensures out.Routes? <==> |selected| >= 2 && run.Finished?
    ensures out.Routes? ==> |out.tables| == |run.solutions| && out.status == run.status
    ensures out.Routes? ==> forall s :: 0 <= s < |out.tables| ==>
              out.tables[s] == ParseSolution(md, selected, Speeds(selected, shift, geo, offsetOf), run.solutions[s])
    ensures out.Routes? ==> forall s :: 0 <= s < |out.tables| ==>
              IsRouteTable(out.tables[s], selected, speedMin, speedMax)
    ensures out.Routes? && (forall a, b :: geo(a, b) >= 0.0) ==> forall s :: 0 <= s < |out.tables| ==>
              HasKnownTotal(out.tables[s])
              && RouteTotal(out.tables[s]) == Some(Sum(RouteCosts(md, Reconstruct(md, run.solutions[s]))))
  {
    if |selected| < 2 {
      return SelectTwo, ModelData(0, 0, [], []);
    }
    var duration := Durations(selected, shift, offsetOf);
    var speed := Speeds(selected, shift, geo, offsetOf);
    md := CreateModelData(speed, duration, speedMin, speedMax);
    assert AllKept(md, speed, speedMin, speedMax);
    assert AllCosted(md, speed, duration);
    match run
    case Failed(message) =>
      out := ErrorMessage(message);
    case Finished(solutions, status) =>
      TablesAreRoutes(md, selected, speed, solutions, speedMin, speedMax);
      if forall a, b :: geo(a, b) >= 0.0 {
        TablesTotals(md, selected, shift, geo, offsetOf, solutions);
      }
      out := Routes(Tables(md, selected, speed, solutions), status);
  }
}
