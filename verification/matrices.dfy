/**
  The four square matrices the solve button derives from the selected cities:
  distance, timezone offset, duration and speed (solver.ts, lines 8-39).
  Geodesic distance and timezone offset are computed by libraries outside
  this model, so they enter as the functions `geo` and `offsetOf`.
 */
module Matrices {
  import opened JsMath
  import opened Cities

  type Matrix<T> = seq<seq<T>>

  const MinutesPerDay: int := 24 * 60

  predicate IsSquare<T>(m: Matrix<T>, n: nat) {
    |m| == n && forall i :: 0 <= i < n ==> |m[i]| == n
  }

  predicate SameShape<T, U>(a: Matrix<T>, b: Matrix<U>) {
    |a| == |b| && forall i :: 0 <= i < |a| ==> |a[i]| == |b[i]|
  }

  /** Metres between every ordered pair of cities; the geodesic is never asked about a city and itself. */
  function DistanceMatrix(cities: seq<City>, geo: (City, City) -> real): (m: Matrix<real>)
    ensures IsSquare(m, |cities|)
    ensures forall i :: 0 <= i < |cities| ==> m[i][i] == 0.0
    ensures forall i, j :: 0 <= i < |cities| && 0 <= j < |cities| && i != j ==>
              m[i][j] == geo(cities[i], cities[j])
  {
    seq(|cities|, i requires 0 <= i < |cities| =>
      seq(|cities|, j requires 0 <= j < |cities| =>
        if i == j then 0.0 else geo(cities[i], cities[j])))
  }

  /** With a symmetric, non-negative geodesic the distance matrix is symmetric and non-negative. */
  lemma DistanceMatrixSymmetric(cities: seq<City>, geo: (City, City) -> real)
    requires forall a, b :: geo(a, b) == geo(b, a) && geo(a, b) >= 0.0
    ensures var m := DistanceMatrix(cities, geo);
      forall i, j :: 0 <= i < |cities| && 0 <= j < |cities| ==> m[i][j] == m[j][i] && m[i][j] >= 0.0
  {
  }

  /**
    Row i, column j is the UTC offset of city i's timezone minus that of city j,
    in minutes.  Both offsets are read at one instant, given by `offsetOf`.
   */
  function TimeMatrix(cities: seq<City>, offsetOf: string -> int): (m: Matrix<int>)
    ensures IsSquare(m, |cities|)
    ensures forall i :: 0 <= i < |cities| ==> m[i][i] == 0
    ensures forall i, j :: 0 <= i < |cities| && 0 <= j < |cities| ==> m[i][j] == -m[j][i]
    ensures forall i, j, k :: 0 <= i < |cities| && 0 <= j < |cities| && 0 <= k < |cities| ==>
              m[i][k] == m[i][j] + m[j][k]
  {
    seq(|cities|, i requires 0 <= i < |cities| =>
      seq(|cities|, j requires 0 <= j < |cities| =>
        offsetOf(cities[i].timezone) - offsetOf(cities[j].timezone)))
  }

  /**
    One duration entry: the shifted offset, with one day added when it is
    negative.  There is no full reduction modulo a day: the result agrees with
    `(value + shift) mod 1440` exactly when the shifted value lies in [-1440, 1440).
   */
  function DurationEntry(value: int, shift: int): (r: int)
    ensures value + shift >= 0 ==> r == value + shift
    ensures value + shift < 0 ==> r == value + shift + MinutesPerDay
    ensures r >= 0 <==> value + shift >= -MinutesPerDay
    ensures r >= MinutesPerDay <==> value + shift >= MinutesPerDay
    ensures r % MinutesPerDay == (value + shift) % MinutesPerDay
    ensures r == (value + shift) % MinutesPerDay <==> -MinutesPerDay <= value + shift < MinutesPerDay
  {
    var adjusted := value + shift;
    if adjusted < 0 then adjusted + MinutesPerDay else adjusted
  }

  /** `calculateDurationMatrix`: every entry shifted and folded, the shape kept. */
  function DurationMatrix(time: Matrix<int>, shift: int): (m: Matrix<int>)
    ensures SameShape(m, time)
    ensures forall i, j :: 0 <= i < |time| && 0 <= j < |time[i]| ==>
              m[i][j] == DurationEntry(time[i][j], shift)
  {
    seq(|time|, i requires 0 <= i < |time| =>
      seq(|time[i]|, j requires 0 <= j < |time[i]| => DurationEntry(time[i][j], shift)))
  }

  /** Kilometres per hour for `metres` covered in `minutes` (exact arithmetic). */
  function KmPerHour(metres: real, minutes: int): real
    requires minutes != 0
  {
    (metres / 1000.0) / (minutes as real / 60.0)
  }

  /**
    One speed entry: zero on the diagonal and for a zero duration, otherwise the
    rounded km/h.  A non-negative distance gives a non-negative speed over a
    positive duration and a non-positive one over a negative duration.
   */
  function SpeedEntry(i: nat, j: nat, metres: real, minutes: int): (r: int)
    ensures i == j || minutes == 0 ==> r == 0
    ensures i != j && minutes != 0 ==> IsRounding(r, KmPerHour(metres, minutes))
    ensures metres >= 0.0 && minutes > 0 ==> r >= 0
    ensures metres >= 0.0 && minutes < 0 ==> r <= 0
    ensures metres >= 0.0 && r > 0 ==> minutes > 0
  {
    if i == j then 0
    else if minutes == 0 then 0
    else Round(KmPerHour(metres, minutes))
  }

  /** `calculateSpeedMatrix`: one speed entry per distance entry, the shape kept. */
  function SpeedMatrix(distance: Matrix<real>, duration: Matrix<int>): (m: Matrix<int>)
    requires SameShape(distance, duration)
    ensures SameShape(m, distance)
    ensures forall i, j :: 0 <= i < |distance| && 0 <= j < |distance[i]| ==>
              m[i][j] == SpeedEntry(i, j, distance[i][j], duration[i][j])
  {
    seq(|distance|, i requires 0 <= i < |distance| =>
      seq(|distance[i]|, j requires 0 <= j < |distance[i]| =>
        SpeedEntry(i, j, distance[i][j], duration[i][j])))
  }
}
