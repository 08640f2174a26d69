/**
  `createModelData` (solver.ts, lines 41-71): the sparse directed graph handed
  to the constraint solver.  Nodes are 1-indexed in the edge list, as the
  solver's problem template expects.
 */
module ModelBuilder {
  import opened Matrices

  /** A directed edge between 1-indexed nodes. */
  datatype Edge = Edge(src: int, dst: int)

  /** The solver's input: node count, edge count, edge list and parallel cost list. */
  datatype ModelData = ModelData(n: nat, numEdges: nat, edges: seq<Edge>, costs: seq<int>)

  /** The inclusive speed window. */
  predicate InWindow(speed: int, speedMin: int, speedMax: int) {
    speedMin <= speed <= speedMax
  }

  /** Whether the pair of 0-indexed cities (i, j) becomes an edge. */
  predicate Kept(speed: Matrix<int>, speedMin: int, speedMax: int, i: nat, j: nat)
    requires i < |speed| && j < |speed[i]|
  {
    i != j && InWindow(speed[i][j], speedMin, speedMax)
  }

  /** The cost attached to the edge for (i, j): its duration when it has positive speed, else 0. */
  function Cost(speed: Matrix<int>, duration: Matrix<int>, i: nat, j: nat): int
    requires i < |speed| && j < |speed[i]|
    requires i < |duration| && j < |duration[i]|
  {
    if speed[i][j] > 0 then duration[i][j] else 0
  }

  /** Row-major order on edges: by source, then by destination. */
  predicate Precedes(a: Edge, b: Edge) {
    a.src < b.src || (a.src == b.src && a.dst < b.dst)
  }

  predicate EndpointsIn(edges: seq<Edge>, n: nat) {
    forall k :: 0 <= k < |edges| ==> 1 <= edges[k].src <= n && 1 <= edges[k].dst <= n
  }

  /** What every model built by `CreateModelData` satisfies. */
  predicate WellFormed(md: ModelData) {
    && md.numEdges == |md.edges| == |md.costs|
    && EndpointsIn(md.edges, md.n)
    && (forall k :: 0 <= k < |md.edges| ==> md.edges[k].src != md.edges[k].dst)
  }

  /** Edge `e` is "before" the loop position (i, j) in row-major order (0-indexed position). */
  predicate Before(e: Edge, i: int, j: int) {
    e.src - 1 < i || (e.src - 1 == i && e.dst - 1 < j)
  }

  predicate Sorted(edges: seq<Edge>) {
    forall k, l :: 0 <= k < l < |edges| ==> Precedes(edges[k], edges[l])
  }

  /** Every listed edge is kept and carries its cost. */
  predicate Sound(speed: Matrix<int>, duration: Matrix<int>, speedMin: int, speedMax: int,
                  edges: seq<Edge>, costs: seq<int>)
    requires IsSquare(speed, |speed|) && IsSquare(duration, |speed|)
  {
    && |edges| == |costs|
    && EndpointsIn(edges, |speed|)
    && forall k :: 0 <= k < |edges| ==>
         && Kept(speed, speedMin, speedMax, edges[k].src - 1, edges[k].dst - 1)
         && costs[k] == Cost(speed, duration, edges[k].src - 1, edges[k].dst - 1)
  }

  /** Every kept pair before loop position (i, j) is listed. */
  predicate CompleteBefore(speed: Matrix<int>, speedMin: int, speedMax: int, edges: seq<Edge>, i: int, j: int)
    requires IsSquare(speed, |speed|)
  {
    forall a, b ::
      (0 <= a < |speed| && 0 <= b < |speed| && (a < i || (a == i && b < j))
       && Kept(speed, speedMin, speedMax, a, b)) ==> Edge(a + 1, b + 1) in edges
  }

  /** The loop state at position (i, j): what the source's two loops keep true. */
  predicate Scanned(speed: Matrix<int>, duration: Matrix<int>, speedMin: int, speedMax: int,
                    edges: seq<Edge>, costs: seq<int>, i: int, j: int)
    requires IsSquare(speed, |speed|) && IsSquare(duration, |speed|)
  {
    && Sound(speed, duration, speedMin, speedMax, edges, costs)
    && CompleteBefore(speed, speedMin, speedMax, edges, i, j)
    && (forall k :: 0 <= k < |edges| ==> Before(edges[k], i, j))
    && Sorted(edges)
  }

  /**
    Builds the model the way the source does, with two nested loops over the
    speed matrix.  The result holds exactly the in-window pairs with distinct
    ends, each once, in row-major order, each with its cost.
   */
  method CreateModelData(speed: Matrix<int>, duration: Matrix<int>, speedMin: int, speedMax: int)
    returns (md: ModelData)
    requires IsSquare(speed, |speed|) && IsSquare(duration, |speed|)
    ensures md.n == |speed|
    ensures WellFormed(md)
    ensures forall k :: 0 <= k < |md.edges| ==>
              && Kept(speed, speedMin, speedMax, md.edges[k].src - 1, md.edges[k].dst - 1)
              && md.costs[k] == Cost(speed, duration, md.edges[k].src - 1, md.edges[k].dst - 1)
    ensures forall i, j :: 0 <= i < md.n && 0 <= j < md.n && Kept(speed, speedMin, speedMax, i, j) ==>
              Edge(i + 1, j + 1) in md.edges
    ensures Sorted(md.edges)
  {
    var n := |speed|;
    var edges: seq<Edge> := [];
    var costs: seq<int> := [];
    var i := 0;
    while i < n
      invariant 0 <= i <= n
      invariant Scanned(speed, duration, speedMin, speedMax, edges, costs, i, 0)
    {
      edges, costs := ScanRow(speed, duration, speedMin, speedMax, i, edges, costs);
      i := i + 1;
    }
    md := ModelData(n, |edges|, edges, costs);
  }

  /** The inner loop of `createModelData`: appends the kept edges leaving city i. */
  method ScanRow(speed: Matrix<int>, duration: Matrix<int>, speedMin: int, speedMax: int,
                 i: nat, edges0: seq<Edge>, costs0: seq<int>)
    returns (edges: seq<Edge>, costs: seq<int>)
    requires IsSquare(speed, |speed|) && IsSquare(duration, |speed|) && i < |speed|
    requires Scanned(speed, duration, speedMin, speedMax, edges0, costs0, i, 0)
    ensures Scanned(speed, duration, speedMin, speedMax, edges, costs, i + 1, 0)
  {
    var n := |speed|;
    edges, costs := edges0, costs0;
    var j := 0;
    while j < n
      invariant 0 <= j <= n
      invariant Scanned(speed, duration, speedMin, speedMax, edges, costs, i, j)
    {
      if i != j {
        var s := speed[i][j];
        if s >= speedMin && s <= speedMax {
          Push(speed, duration, speedMin, speedMax, edges, costs, i, j);
          edges := edges + [Edge(i + 1, j + 1)];
          costs := costs + [if s > 0 then duration[i][j] else 0];
        }
      }
      j := j + 1;
    }
  }

  /** Appending the pair at the loop position keeps the loop state, one step further on. */
  lemma Push(speed: Matrix<int>, duration: Matrix<int>, speedMin: int, speedMax: int,
             edges: seq<Edge>, costs: seq<int>, i: nat, j: nat)
    requires IsSquare(speed, |speed|) && IsSquare(duration, |speed|) && i < |speed| && j < |speed|
    requires Scanned(speed, duration, speedMin, speedMax, edges, costs, i, j)
    requires Kept(speed, speedMin, speedMax, i, j)
    ensures Scanned(speed, duration, speedMin, speedMax, edges + [Edge(i + 1, j + 1)],
                    costs + [Cost(speed, duration, i, j)], i, j + 1)
  {
    var e := edges + [Edge(i + 1, j + 1)];
    forall a, b | 0 <= a < |speed| && 0 <= b < |speed| && (a < i || (a == i && b < j + 1))
      && Kept(speed, speedMin, speedMax, a, b)
      ensures Edge(a + 1, b + 1) in e
    {
      if a == i && b == j {
        assert e[|edges|] == Edge(a + 1, b + 1);
      } else {
        assert Edge(a + 1, b + 1) in edges;
      }
    }
  }
}
