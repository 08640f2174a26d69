/**
  Route reconstruction from the solver's 0/1 edge selection (`parseSolution`,
  solver.ts lines 128-167) and the duration strings of the route table
  (`generateRouteHtml`, solver.ts lines 87-126).
 */
module Route {
  import opened Base
  import opened JsMath
  import opened JsText
  import opened Matrices
  import opened Cities
  import opened ModelBuilder

  /** One step of the walk, by 0-indexed city and by position in the edge list. */
  datatype Hop = Hop(from: nat, to: nat, edge: nat)

  /** One row of the route table. */
  datatype Leg = Leg(from: string, to: string, duration: string, speed: int)

  /** Edge k leaves 0-indexed city `cur` and the solver set its indicator to 1. */
  predicate Selected(edges: seq<Edge>, x: seq<int>, k: nat, cur: nat)
    requires k < |edges|
  {
    edges[k].src == cur + 1 && k < |x| && x[k] == 1
  }

  /** The inner search of `parseSolution`: the first selected edge leaving `cur`, from position `from` on. */
  function FirstSelected(edges: seq<Edge>, x: seq<int>, cur: nat, from: nat): (r: Option<nat>)
    requires from <= |edges|
    ensures r.Some? ==> from <= r.value < |edges| && Selected(edges, x, r.value, cur)
    ensures r.Some? ==> forall l :: from <= l < r.value ==> !Selected(edges, x, l, cur)
    ensures r.None? ==> forall l :: from <= l < |edges| ==> !Selected(edges, x, l, cur)
    decreases |edges| - from
  {
    if from == |edges| then None
    else if Selected(edges, x, from, cur) then Some(from)
    else FirstSelected(edges, x, cur, from + 1)
  }

  /** `h` is the step the walk takes from `h.from`: the first selected edge leaving it, and its head. */
  predicate IsNextHop(edges: seq<Edge>, x: seq<int>, h: Hop) {
    FirstSelected(edges, x, h.from, 0) == Some(h.edge) && h.to + 1 == edges[h.edge].dst
  }

  /** Where a walk from `start` taking `hops` ends up. */
  function EndOf(start: nat, hops: seq<Hop>): nat {
    if |hops| == 0 then start else hops[|hops| - 1].to
  }

  /**
    The outer loop of `parseSolution`: from `cur`, at most `steps` times, follow
    the first selected outgoing edge; stop early when there is none.
   */
  function Walk(edges: seq<Edge>, x: seq<int>, n: nat, cur: nat, steps: nat): (hops: seq<Hop>)
    requires EndpointsIn(edges, n) && cur < n
    ensures |hops| <= steps
    ensures |hops| > 0 ==> hops[0].from == cur
    ensures forall k :: 0 <= k < |hops| ==> hops[k].to < n && IsNextHop(edges, x, hops[k])
    ensures forall k :: 0 < k < |hops| ==> hops[k].from == hops[k - 1].to
    ensures EndOf(cur, hops) < n
    ensures |hops| < steps ==> FirstSelected(edges, x, EndOf(cur, hops), 0).None?
    decreases steps
  {
    if steps == 0 then []
    else
      match FirstSelected(edges, x, cur, 0)
      case None => []
      case Some(k) =>
        var next := edges[k].dst - 1;
        [Hop(cur, next, k)] + Walk(edges, x, n, next, steps - 1)
  }

  /** The number of legs `parseSolution` looks for: one fewer than the cities, so no closing leg. */
  function StepLimit(cityCount: nat): nat {
    if cityCount == 0 then 0 else cityCount - 1
  }

  /** The hops of the route for the solver's selection `x`, starting at city 0. */
  function Reconstruct(md: ModelData, x: seq<int>): (hops: seq<Hop>)
    requires WellFormed(md)
    ensures |hops| <= StepLimit(md.n)
    ensures |hops| > 0 ==> hops[0].from == 0
    ensures forall k :: 0 <= k < |hops| ==> hops[k].from < md.n && hops[k].to < md.n
    ensures forall k :: 0 <= k < |hops| ==> hops[k].edge < |md.edges| && IsNextHop(md.edges, x, hops[k])
    ensures forall k :: 0 < k < |hops| ==> hops[k].from == hops[k - 1].to
    ensures md.n > 0 && |hops| < StepLimit(md.n) ==> FirstSelected(md.edges, x, EndOf(0, hops), 0).None?
  {
    if md.n == 0 then [] else Walk(md.edges, x, md.n, 0, md.n - 1)
  }

  /**
    `durationString`: whole hours (`Math.floor(m / 60)`; Dafny's `/` by a positive
    divisor is floor division), then the JavaScript remainder in minutes when it is positive.
   */
  function FormatDuration(minutes: int): (r: string)
    ensures |r| >= 4
    ensures minutes >= 0 ==> IsDigit(r[0])
    ensures minutes < 0 ==> r[0] == '-'
    ensures r[|r| - 3..] == "hrs" <==> Rem(minutes, 60) <= 0
  {
    var hours := HoursPiece(minutes);
    if Rem(minutes, 60) > 0 then
      var r := hours + " " + MinutesPiece(minutes);
      assert r[|r| - 3..] == "ins";
      r
    else
      assert hours[|hours| - 3..] == "hrs";
      hours
  }

  function HoursPiece(minutes: int): string {
    IntToString(minutes / 60) + "hrs"
  }

  function MinutesPiece(minutes: int): string {
    IntToString(Rem(minutes, 60)) + "mins"
  }

  /** The minutes one space-separated piece of a duration string contributes; `None` is `NaN`. */
  function PartMinutes(part: string): Option<int> {
    if Includes(part, "hrs") then
      match ParseInt(part)
      case None => None
      case Some(h) => Some(h * 60)
    else if Includes(part, "mins") then ParseInt(part)
    else Some(0)
  }

  /** Addition where `NaN` absorbs everything. */
  function AddMinutes(a: Option<int>, b: Option<int>): Option<int> {
    if a.Some? && b.Some? then Some(a.value + b.value) else None
  }

  /** A running total of minutes in which one `NaN` makes the whole total `NaN`. */
  function SumMinutes(vals: seq<Option<int>>): Option<int> {
    if |vals| == 0 then Some(0) else AddMinutes(vals[0], SumMinutes(vals[1..]))
  }

  function SumParts(parts: seq<string>): Option<int> {
    SumMinutes(seq(|parts|, k requires 0 <= k < |parts| => PartMinutes(parts[k])))
  }

  /** A running total is `NaN` exactly when one of its values is. */
  lemma {:induction false} SumUnknownIff(vals: seq<Option<int>>)
    ensures SumMinutes(vals).None? <==> exists k :: 0 <= k < |vals| && vals[k].None?
  {
    if |vals| > 0 {
      SumUnknownIff(vals[1..]);
      if vals[0].Some? && SumMinutes(vals[1..]).None? {
        var k :| 0 <= k < |vals[1..]| && vals[1..][k].None?;
        assert vals[k + 1].None?;
      }
      if vals[0].Some? && SumMinutes(vals[1..]).Some? {
        forall k | 0 <= k < |vals|
          ensures vals[k].Some?
        {
          if k > 0 {
            assert vals[k] == vals[1..][k - 1];
          }
        }
      }
    }
  }

  /**
    How `generateRouteHtml` reads a leg's duration string back into minutes:
    `NaN` exactly when one of its space-separated pieces is, and a string
    without spaces reads as its single piece.
   */
  function ParseDuration(s: string): (r: Option<int>)
    ensures r.None? ==> exists k :: 0 <= k < |Split(s, ' ')| && PartMinutes(Split(s, ' ')[k]).None?
    ensures forall k :: 0 <= k < |Split(s, ' ')| && PartMinutes(Split(s, ' ')[k]).None? ==> r.None?
    ensures ' ' !in s ==> r == PartMinutes(s)
  {
    PartsUnknownIff(Split(s, ' '));
    SinglePiece(s);
    SumParts(Split(s, ' '))
  }

  lemma SinglePiece(s: string)
    ensures ' ' !in s ==> SumParts(Split(s, ' ')) == PartMinutes(s)
  {
    if ' ' !in s {
      SplitWithoutSeparator(s, ' ');
      OnePart(s);
    }
  }

  /** A single piece totals to what it contributes. */
  lemma OnePart(a: string)
    ensures SumParts([a]) == PartMinutes(a)
  {
    assert seq(1, k requires 0 <= k < 1 => PartMinutes([a][k])) == [PartMinutes(a)];
    SumMinutesOfTwo(PartMinutes(a), None);
  }

  lemma PartsUnknownIff(parts: seq<string>)
    ensures SumParts(parts).None? <==> exists k :: 0 <= k < |parts| && PartMinutes(parts[k]).None?
  {
    var vals := seq(|parts|, k requires 0 <= k < |parts| => PartMinutes(parts[k]));
    SumUnknownIff(vals);
    if SumParts(parts).None? {
      var k :| 0 <= k < |vals| && vals[k].None?;
      assert PartMinutes(parts[k]).None?;
    }
    if exists k :: 0 <= k < |parts| && PartMinutes(parts[k]).None? {
      var k :| 0 <= k < |parts| && PartMinutes(parts[k]).None?;
      assert vals[k].None?;
    }
  }

  /** Decimal digits followed by a suffix without spaces contain no space. */
  lemma NoSpaceAfterDigits(n: nat, suffix: string)
    requires ' ' !in suffix
    ensures ' ' !in NatToString(n) + suffix
  {
    var s := NatToString(n) + suffix;
    forall k | 0 <= k < |s| ensures s[k] != ' ' {
      if k < |NatToString(n)| {
        assert IsDigit(NatToString(n)[k]);
      } else {
        assert s[k] == suffix[k - |NatToString(n)|];
      }
    }
  }

  /** The hours piece of a duration string reads back as that many hours, in minutes. */
  lemma HoursPart(h: nat)
    ensures PartMinutes(NatToString(h) + "hrs") == Some(h * 60)
  {
    IncludesSuffix(NatToString(h), "hrs");
    assert IntToString(h) == NatToString(h);
    ParseIntOfDecimal(h, "hrs");
  }

  /** The minutes piece of a duration string reads back as that many minutes. */
  lemma MinutesPart(r: nat)
    ensures PartMinutes(NatToString(r) + "mins") == Some(r)
  {
    var s := NatToString(r) + "mins";
    forall k | 0 <= k < |s| ensures s[k] != 'h' {
      if k < |NatToString(r)| {
        assert IsDigit(NatToString(r)[k]);
      }
    }
    NotIncludes(s, "hrs");
    IncludesSuffix(NatToString(r), "mins");
    assert IntToString(r) == NatToString(r);
    ParseIntOfDecimal(r, "mins");
  }

  lemma SumMinutesOfTwo(x: Option<int>, y: Option<int>)
    ensures SumMinutes([x]) == AddMinutes(x, Some(0))
    ensures SumMinutes([x, y]) == AddMinutes(x, AddMinutes(y, Some(0)))
  {
    assert [x, y][1..] == [y];
    assert [y][1..] == [];
    assert [x][1..] == [];
  }

  lemma SumOfOne(a: string, h: int, total: int)
    requires PartMinutes(a) == Some(h) && h == total
    ensures SumParts([a]) == Some(total)
  {
    assert seq(1, k requires 0 <= k < 1 => PartMinutes([a][k])) == [Some(h)];
    SumMinutesOfTwo(Some(h), Some(0));
  }

  lemma SumOfTwo(a: string, b: string, h: int, r: int, total: int)
    requires PartMinutes(a) == Some(h) && PartMinutes(b) == Some(r) && h + r == total
    ensures SumParts([a, b]) == Some(total)
  {
    assert seq(2, k requires 0 <= k < 2 => PartMinutes([a, b][k])) == [Some(h), Some(r)];
    SumMinutesOfTwo(Some(h), Some(r));
  }

  /** Whole hours in minutes plus the remaining minutes make up m. */
  lemma HoursAndMinutes(m: int)
    ensures m / 60 * 60 == m - m % 60
    ensures m - m % 60 + m % 60 == m
    ensures m % 60 == 0 ==> m - m % 60 == m
  {
  }

  lemma HoursPieceFree(m: int)
    requires m >= 0
    ensures ' ' !in HoursPiece(m)
  {
    assert IntToString(m / 60) == NatToString(m / 60);
    NoSpaceAfterDigits(m / 60, "hrs");
  }

  lemma MinutesPieceFree(m: int)
    requires m >= 0
    ensures ' ' !in MinutesPiece(m)
  {
    assert IntToString(Rem(m, 60)) == NatToString(m % 60);
    NoSpaceAfterDigits(m % 60, "mins");
  }

  /** For m >= 0 the hours piece reads back as the whole hours of m, in minutes. */
  lemma HoursPieceReads(m: int)
    requires m >= 0
    ensures PartMinutes(HoursPiece(m)) == Some(m - m % 60)
  {
    assert IntToString(m / 60) == NatToString(m / 60);
    HoursPart(m / 60);
    HoursAndMinutes(m);
  }

  /** For m >= 0 the minutes piece reads back as the remaining minutes of m. */
  lemma MinutesPieceReads(m: int)
    requires m >= 0
    ensures PartMinutes(MinutesPiece(m)) == Some(m % 60)
  {
    assert IntToString(Rem(m, 60)) == NatToString(m % 60);
    MinutesPart(m % 60);
  }

  /** For m >= 0 the duration string splits at spaces into its hours piece and, when present, its minutes piece. */
  lemma SplitFormatted(m: int)
    requires m >= 0
    ensures Split(FormatDuration(m), ' ') == if m % 60 > 0 then [HoursPiece(m), MinutesPiece(m)] else [HoursPiece(m)]
  {
    HoursPieceFree(m);
    MinutesPieceFree(m);
    if m % 60 > 0 {
      SplitAtSeparator(HoursPiece(m), ' ', MinutesPiece(m));
      SplitWithoutSeparator(MinutesPiece(m), ' ');
    } else {
      SplitWithoutSeparator(HoursPiece(m), ' ');
    }
  }

  /** For m >= 0 the pieces of the duration string add up to m. */
  lemma SumFormatted(m: int)
    requires m >= 0
    ensures SumParts(if m % 60 > 0 then [HoursPiece(m), MinutesPiece(m)] else [HoursPiece(m)]) == Some(m)
  {
    if m % 60 > 0 {
      SumWithMinutes(m);
    } else {
      SumWholeHours(m);
    }
  }

  lemma SumWithMinutes(m: int)
    requires m >= 0 && m % 60 > 0
    ensures SumParts([HoursPiece(m), MinutesPiece(m)]) == Some(m)
  {
    HoursPieceReads(m);
    MinutesPieceReads(m);
    HoursAndMinutes(m);
    SumOfTwo(HoursPiece(m), MinutesPiece(m), m - m % 60, m % 60, m);
  }

  lemma SumWholeHours(m: int)
    requires m >= 0 && m % 60 == 0
    ensures SumParts([HoursPiece(m)]) == Some(m)
  {
    HoursPieceReads(m);
    HoursAndMinutes(m);
    SumOfOne(HoursPiece(m), m - m % 60, m);
  }

  /** Reading a formatted duration back gives the minutes it was made from, for every m >= 0. */
  lemma DurationRoundTrip(m: int)
    requires m >= 0
    ensures ParseDuration(FormatDuration(m)) == Some(m)
  {
    SplitFormatted(m);
    SumFormatted(m);
  }

  /**
    A negative number of minutes that is not whole hours does not survive the
    round trip: -30 is written "-1hrs" (floor of -0.5 hours, and a remainder of
    -30 that is not positive) and reads back as -60.  No edge of the program
    costs a negative number: a negative duration gives a speed of at most 0,
    and such an edge costs 0; only a negative geodesic could make one.
   */
  lemma NegativeDurationMisread()
    ensures FormatDuration(-30) == "-1hrs"
    ensures ParseDuration(FormatDuration(-30)) == Some(-60)
  {
    assert Rem(-30, 60) == -30;
    assert -30 / 60 == -1;
    assert IntToString(-1) == "-" + NatToString(1);
    assert NatToString(1) == "1";
    assert FormatDuration(-30) == "-" + (NatToString(1) + "hrs");
    ParseIntOfNegative(1, "hrs");
    IncludesSuffix("-1", "hrs");
    assert "-1" + "hrs" == FormatDuration(-30);
    SplitWithoutSeparator("-1hrs", ' ');
    SumOfOne("-1hrs", -60, -60);
  }

  /** The table row for a hop. */
  function LegOf(cities: seq<City>, speed: Matrix<int>, costs: seq<int>, h: Hop): Leg
    requires IsSquare(speed, |cities|)
    requires h.from < |cities| && h.to < |cities| && h.edge < |costs|
  {
    Leg(cities[h.from].name, cities[h.to].name, FormatDuration(costs[h.edge]), speed[h.from][h.to])
  }

  /** The costs of the edges a walk follows, in order. */
  function RouteCosts(md: ModelData, hops: seq<Hop>): (c: seq<int>)
    requires forall k :: 0 <= k < |hops| ==> hops[k].edge < |md.costs|
    ensures |c| == |hops|
  {
    seq(|hops|, k requires 0 <= k < |hops| => md.costs[hops[k].edge])
  }

  /** `parseSolution` without the HTML: one table row per hop of the reconstructed route. */
  function ParseSolution(md: ModelData, cities: seq<City>, speed: Matrix<int>, x: seq<int>): (legs: seq<Leg>)
    requires WellFormed(md) && md.n == |cities| && IsSquare(speed, |cities|)
    ensures var hops := Reconstruct(md, x);
      |legs| == |hops| && forall k :: 0 <= k < |legs| ==> legs[k] == LegOf(cities, speed, md.costs, hops[k])
  {
    var hops := Reconstruct(md, x);
    seq(|hops|, k requires 0 <= k < |hops| => LegOf(cities, speed, md.costs, hops[k]))
  }

  /**
    The legs form a route: they start at the first selected city, each leg
    ends where the next begins, and there is at most one fewer than the cities,
    so the route never closes back on its start by a final leg.
   */
  lemma LegsChain(md: ModelData, cities: seq<City>, speed: Matrix<int>, x: seq<int>)
    requires WellFormed(md) && md.n == |cities| && IsSquare(speed, |cities|)
    ensures var legs := ParseSolution(md, cities, speed, x);
      && |legs| <= StepLimit(|cities|)
      && (|legs| > 0 ==> legs[0].from == cities[0].name)
      && forall k :: 0 < k < |legs| ==> legs[k].from == legs[k - 1].to
  {
    var legs := ParseSolution(md, cities, speed, x);
    var hops := Reconstruct(md, x);
    forall k | 0 < k < |legs|
      ensures legs[k].from == legs[k - 1].to
    {
      assert hops[k].from == hops[k - 1].to;
    }
  }

  /** Each leg's duration string reads back as the cost of the edge it follows, when that cost is non-negative. */
  lemma LegDurationsReadBack(md: ModelData, cities: seq<City>, speed: Matrix<int>, x: seq<int>)
    requires WellFormed(md) && md.n == |cities| && IsSquare(speed, |cities|)
    ensures var legs := ParseSolution(md, cities, speed, x);
      var c := RouteCosts(md, Reconstruct(md, x));
      forall k :: 0 <= k < |legs| && c[k] >= 0 ==> ParseDuration(legs[k].duration) == Some(c[k])
  {
    var legs := ParseSolution(md, cities, speed, x);
    var c := RouteCosts(md, Reconstruct(md, x));
    forall k | 0 <= k < |legs| && c[k] >= 0
      ensures ParseDuration(legs[k].duration) == Some(c[k])
    {
      DurationRoundTrip(c[k]);
    }
  }

  /**
    `totalDurationMinutes` of `generateRouteHtml`: the sum of the legs' parsed
    durations, `NaN` exactly when one leg's duration reads as `NaN`.
   */
  function RouteTotal(legs: seq<Leg>): (r: Option<int>)
    ensures |legs| == 0 ==> r == Some(0)
    ensures r.None? <==> exists k :: 0 <= k < |legs| && ParseDuration(legs[k].duration).None?
  {
    var vals := seq(|legs|, k requires 0 <= k < |legs| => ParseDuration(legs[k].duration));
    LegsUnknownIff(legs);
    SumMinutes(vals)
  }

  lemma LegsUnknownIff(legs: seq<Leg>)
    ensures var vals := seq(|legs|, k requires 0 <= k < |legs| => ParseDuration(legs[k].duration));
      SumMinutes(vals).None? <==> exists k :: 0 <= k < |legs| && ParseDuration(legs[k].duration).None?
  {
    var vals := seq(|legs|, k requires 0 <= k < |legs| => ParseDuration(legs[k].duration));
    SumUnknownIff(vals);
    if SumMinutes(vals).None? {
      var k :| 0 <= k < |vals| && vals[k].None?;
      assert ParseDuration(legs[k].duration).None?;
    }
    if exists k :: 0 <= k < |legs| && ParseDuration(legs[k].duration).None? {
      var k :| 0 <= k < |legs| && ParseDuration(legs[k].duration).None?;
      assert vals[k].None?;
    }
  }

  /**
    The total row: a `NaN` total prints as `NaNhrs`, any other as a leg
    duration does.  Read back like a leg, the row gives the total again,
    `NaN` included, whenever the total is not negative.
   */
  function TotalDurationString(total: Option<int>): (r: string)
    ensures total.None? ==> ParseDuration(r).None?
    ensures total.Some? && total.value >= 0 ==> ParseDuration(r) == total
  {
    match total
    case None =>
      NaNTotalReadsNaN();
      "NaNhrs"
    case Some(t) =>
      if t >= 0 then DurationRoundTrip(t); FormatDuration(t) else FormatDuration(t)
  }

  /** The `NaNhrs` row holds an hours piece with no number in it. */
  lemma NaNTotalReadsNaN()
    ensures ParseDuration("NaNhrs").None?
  {
    var r := "NaNhrs";
    assert r == "NaN" + "hrs";
    IncludesSuffix("NaN", "hrs");
    DropLeadingNone(r);
    assert DigitPrefixLen(r) == 0;
    assert ' ' !in r;
  }

  function Sum(c: seq<int>): int {
    if |c| == 0 then 0 else c[0] + Sum(c[1..])
  }

  /** A total of known values is their sum. */
  lemma {:induction false} SumOfKnown(vals: seq<Option<int>>, c: seq<int>)
    requires |vals| == |c|
    requires forall k :: 0 <= k < |vals| ==> vals[k] == Some(c[k])
    ensures SumMinutes(vals) == Some(Sum(c))
  {
    if |vals| > 0 {
      SumOfKnown(vals[1..], c[1..]);
    }
  }

  /**
    When the costs of the model are non-negative, the total row of the route
    table is the sum of the costs of the edges the route follows.
   */
  lemma RouteTotalIsSumOfCosts(md: ModelData, cities: seq<City>, speed: Matrix<int>, x: seq<int>)
    requires WellFormed(md) && md.n == |cities| && IsSquare(speed, |cities|)
    requires forall k :: 0 <= k < |md.costs| ==> md.costs[k] >= 0
    ensures RouteTotal(ParseSolution(md, cities, speed, x)) == Some(Sum(RouteCosts(md, Reconstruct(md, x))))
    ensures TotalDurationString(RouteTotal(ParseSolution(md, cities, speed, x)))
            == FormatDuration(Sum(RouteCosts(md, Reconstruct(md, x))))
  {
    var legs := ParseSolution(md, cities, speed, x);
    LegDurationsReadBack(md, cities, speed, x);
    SumOfKnown(seq(|legs|, k requires 0 <= k < |legs| => ParseDuration(legs[k].duration)),
               RouteCosts(md, Reconstruct(md, x)));
  }
}
