/** Facility location over points with exact real costs
    (apps/edge-streamcluster/streamcluster.cpp). */
module FacilitySpec {

  // ---------- points and distances ----------

  /** Points: coordinates and weights. */
  datatype Points = Points(dim: nat, coord: seq<seq<real>>, weight: seq<real>)

  ghost predicate PointsOK(P: Points) {
    && |P.weight| == |P.coord|
    && (forall i :: 0 <= i < |P.coord| ==> |P.coord[i]| == P.dim)
    && (forall i :: 0 <= i < |P.weight| ==> P.weight[i] > 0.0)
  }

  /** The squared distance over the first 'n' dimensions. */
  function DistUpTo(p: seq<real>, q: seq<real>, n: nat): (d: real)
    requires n <= |p| && n <= |q|
    ensures d >= 0.0
  {
    if n == 0 then 0.0 else
      var e := p[n - 1] - q[n - 1];
      SquareNonNegative(e);
      DistUpTo(p, q, n - 1) + e * e
  }

  lemma SquareNonNegative(e: real)
    ensures e * e >= 0.0
  {
  }

  function Dist(P: Points, i: nat, j: nat): (d: real)
    requires PointsOK(P) && i < |P.coord| && j < |P.coord|
    ensures d >= 0.0
  {
    DistUpTo(P.coord[i], P.coord[j], P.dim)
  }

  lemma {:induction false} DistSelf(p: seq<real>, n: nat)
    requires n <= |p|
    ensures DistUpTo(p, p, n) == 0.0
  {
    if n > 0 {
      DistSelf(p, n - 1);
    }
  }

  lemma DistSame(P: Points, i: nat)
    requires PointsOK(P) && i < |P.coord|
    ensures Dist(P, i, i) == 0.0
  {
    DistSelf(P.coord[i], P.dim);
  }

  lemma {:induction false} DistSym(p: seq<real>, q: seq<real>, n: nat)
    requires n <= |p| && n <= |q|
    ensures DistUpTo(p, q, n) == DistUpTo(q, p, n)
  {
    if n > 0 {
      DistSym(p, q, n - 1);
    }
  }

  lemma SquareZero(e: real)
    ensures e == 0.0 || e * e > 0.0
  {
    if e > 0.0 {
      PositiveProduct(e, e);
    } else if e < 0.0 {
      PositiveProduct(-e, -e);
    }
  }

  lemma PositiveProduct(a: real, b: real)
    requires a > 0.0 && b > 0.0
    ensures a * b > 0.0
  {
  }

  /** Points at distance 0 are at the same distance from everything. */
  lemma {:induction false} DistZero(p: seq<real>, q: seq<real>, r: seq<real>, n: nat)
    requires n <= |p| && n <= |q| && n <= |r| && DistUpTo(p, q, n) == 0.0
    ensures DistUpTo(r, p, n) == DistUpTo(r, q, n)
  {
    if n > 0 {
      var e := p[n - 1] - q[n - 1];
      SquareNonNegative(e);
      SquareZero(e);
      DistZero(p, q, r, n - 1);
    }
  }

  /** Every coordinate adds the square of its difference; with DistSelf this says what the
      distance is. */
  lemma {:induction false} Pythagoras(p: seq<real>, q: seq<real>, n: nat, k: nat)
    requires k < n <= |p| && n <= |q|
    ensures DistUpTo(p, q, n) == DistUpTo(p, q[k := p[k]], n) + (p[k] - q[k]) * (p[k] - q[k])
    decreases n
  {
    if k < n - 1 {
      Pythagoras(p, q, n - 1, k);
    } else {
      SameBelow(p, q, q[k := p[k]], k);
    }
  }

  lemma {:induction false} SameBelow(p: seq<real>, q: seq<real>, r: seq<real>, n: nat)
    requires n <= |p| && n <= |q| && n <= |r| && q[..n] == r[..n]
    ensures DistUpTo(p, q, n) == DistUpTo(p, r, n)
  {
    if n > 0 {
      assert q[n - 1] == q[..n][n - 1] == r[n - 1];
      assert q[..n - 1] == q[..n][..n - 1] == r[..n - 1];
      SameBelow(p, q, r, n - 1);
    }
  }

  // ---------- solutions ----------

  /** Which points are centers, which center serves a point, and at what cost. */
  datatype Sol = Sol(cost: seq<real>, assign: seq<nat>, center: seq<bool>)

  ghost predicate Shaped(P: Points, S: Sol) {
    && PointsOK(P) && |S.cost| == |S.assign| == |S.center| == |P.coord|
    && forall i :: 0 <= i < |S.assign| ==> S.assign[i] < |P.coord|
  }

  /** What serving 'i' from 'x' would cost. */
  function CostTo(P: Points, i: nat, x: nat): (c: real)
    requires PointsOK(P) && i < |P.coord| && x < |P.coord|
  {
    Dist(P, i, x) * P.weight[i]
  }

  /** A point of weight 1 costs its distance, and a cost grows with the weight. */
  lemma CostScales(P: Points, Q: Points, i: nat, x: nat, t: real)
    requires PointsOK(P) && PointsOK(Q) && i < |P.coord| && x < |P.coord|
    requires Q.coord == P.coord && Q.dim == P.dim && Q.weight[i] == t * P.weight[i]
    ensures CostTo(Q, i, x) == t * CostTo(P, i, x)
    ensures P.weight[i] == 1.0 ==> CostTo(P, i, x) == DistUpTo(P.coord[i], P.coord[x], P.dim)
  {
    var d := DistUpTo(P.coord[i], P.coord[x], P.dim);
    assert CostTo(Q, i, x) == d * (t * P.weight[i]) == t * (d * P.weight[i]);
  }

  /** Every point is served by a center at the cost recorded; centers serve themselves. */
  ghost predicate Solution(P: Points, S: Sol) {
    && Shaped(P, S)
    && (forall i :: 0 <= i < |S.assign| ==> S.center[S.assign[i]] && S.cost[i] == CostTo(P, i, S.assign[i]))
    && (forall i :: 0 <= i < |S.center| && S.center[i] ==> S.assign[i] == i)
  }

  /** Centers among 'a' to 'b', exclusive. */
  function Centers(center: seq<bool>, a: nat, b: nat): (n: nat)
    requires a <= b <= |center|
    ensures n <= b - a
  {
    if a == b then 0 else Centers(center, a, b - 1) + (if center[b - 1] then 1 else 0)
  }

  function CostSum(cost: seq<real>, a: nat, b: nat): real
    requires a <= b <= |cost|
  {
    if a == b then 0.0 else CostSum(cost, a, b - 1) + cost[b - 1]
  }

  /** The price of 'k' centers. */
  function Price(z: real, k: int): real {
    z * k as real
  }

  lemma PriceAdd(z: real, a: int, b: int)
    ensures Price(z, a + b) == Price(z, a) + Price(z, b)
    ensures Price(z, 1) == z && Price(z, 0) == 0.0
  {
  }

  /** What facility location minimizes: 'z' for each center, and all costs. */
  ghost function Total(S: Sol, z: real): real {
    Price(z, Centers(S.center, 0, |S.center|)) + CostSum(S.cost, 0, |S.cost|)
  }

  // ---------- what opening a center at 'x' would bring ----------

  /** 'i' is closer to 'x' than to its center. */
  predicate Switches(P: Points, S: Sol, x: nat, i: nat)
    requires Shaped(P, S) && x < |P.coord| && i < |P.coord|
  {
    CostTo(P, i, x) < S.cost[i]
  }

  /** Savings of points from 'a' to 'b' that switch to 'x', negated. */
  ghost function SwitchSum(P: Points, S: Sol, x: nat, a: nat, b: nat): real
    requires Shaped(P, S) && x < |P.coord| && a <= b <= |P.coord|
  {
    if a == b then 0.0 else
      SwitchSum(P, S, x, a, b - 1) + (if Switches(P, S, x, b - 1) then CostTo(P, b - 1, x) - S.cost[b - 1] else 0.0)
  }

  /** What the other clients of the center 'c' would lose, negated. */
  ghost function LowerSum(P: Points, S: Sol, x: nat, c: nat, a: nat, b: nat): real
    requires Shaped(P, S) && x < |P.coord| && a <= b <= |P.coord|
  {
    if a == b then 0.0 else
      LowerSum(P, S, x, c, a, b - 1)
      + (if !Switches(P, S, x, b - 1) && S.assign[b - 1] == c then S.cost[b - 1] - CostTo(P, b - 1, x) else 0.0)
  }

  /** What closing 'c' would save, if 'x' opens. */
  ghost function Low(P: Points, S: Sol, z: real, x: nat, c: nat): real
    requires Shaped(P, S) && x < |P.coord|
  {
    z + LowerSum(P, S, x, c, 0, |P.coord|)
  }

  ghost predicate Closes(P: Points, S: Sol, z: real, x: nat, c: nat)
    requires Shaped(P, S) && x < |P.coord| && c < |P.coord|
  {
    S.center[c] && Low(P, S, z, x, c) > 0.0
  }

  ghost function CloseSum(P: Points, S: Sol, z: real, x: nat, a: nat, b: nat): real
    requires Shaped(P, S) && x < |P.coord| && a <= b <= |P.coord|
  {
    if a == b then 0.0 else
      CloseSum(P, S, z, x, a, b - 1) + (if Closes(P, S, z, x, b - 1) then Low(P, S, z, x, b - 1) else 0.0)
  }

  ghost function CloseCount(P: Points, S: Sol, z: real, x: nat, a: nat, b: nat): (n: nat)
    requires Shaped(P, S) && x < |P.coord| && a <= b <= |P.coord|
  {
    if a == b then 0 else
      CloseCount(P, S, z, x, a, b - 1) + (if Closes(P, S, z, x, b - 1) then 1 else 0)
  }

  /** The change of the total when 'x' opens, as computed. */
  ghost function OpenCost(P: Points, S: Sol, z: real, x: nat): real
    requires Shaped(P, S) && x < |P.coord|
  {
    z + SwitchSum(P, S, x, 0, |P.coord|) - CloseSum(P, S, z, x, 0, |P.coord|)
  }

  /** 'i' is served by 'x' once it opens. */
  ghost predicate Moves(P: Points, S: Sol, z: real, x: nat, i: nat)
    requires Shaped(P, S) && x < |P.coord| && i < |P.coord|
  {
    Switches(P, S, x, i) || Closes(P, S, z, x, S.assign[i])
  }

  /** 'T' is 'S' after opening 'x' and closing what does not pay any more. */
  ghost predicate Opened(P: Points, S: Sol, z: real, x: nat, T: Sol) {
    && Shaped(P, S) && Shaped(P, T) && x < |P.coord|
    && (forall i :: 0 <= i < |P.coord| ==>
          if Moves(P, S, z, x, i) then T.cost[i] == CostTo(P, i, x) && T.assign[i] == x
          else T.cost[i] == S.cost[i] && T.assign[i] == S.assign[i])
    && (forall i :: 0 <= i < |P.coord| ==> (T.center[i] <==> i == x || (S.center[i] && !Closes(P, S, z, x, i))))
  }

  // ---------- the cost change is exact ----------

  /** Closing the centers 'D': the loss of their clients, negated. */
  ghost function ClosedClients(P: Points, S: Sol, x: nat, D: seq<bool>, n: nat): real
    requires Shaped(P, S) && x < |P.coord| && |D| == |P.coord| && n <= |P.coord|
  {
    if n == 0 then 0.0 else
      ClosedClients(P, S, x, D, n - 1)
      + (if !Switches(P, S, x, n - 1) && D[S.assign[n - 1]] then S.cost[n - 1] - CostTo(P, n - 1, x) else 0.0)
  }

  /** Over those of the first 'c' centers that close, and the first 'n' points. */
  ghost function LowerGrid(P: Points, S: Sol, x: nat, D: seq<bool>, c: nat, n: nat): real
    requires Shaped(P, S) && x < |P.coord| && c <= |D| == |P.coord| && n <= |P.coord|
  {
    if c == 0 then 0.0 else
      LowerGrid(P, S, x, D, c - 1, n) + (if D[c - 1] then LowerSum(P, S, x, c - 1, 0, n) else 0.0)
  }

  lemma {:induction false} GridNone(P: Points, S: Sol, x: nat, D: seq<bool>, c: nat)
    requires Shaped(P, S) && x < |P.coord| && c <= |D| == |P.coord|
    ensures LowerGrid(P, S, x, D, c, 0) == 0.0
  {
    if c > 0 {
      GridNone(P, S, x, D, c - 1);
    }
  }

  /** One more point adds to the sum of its own center only. */
  lemma {:induction false} GridStep(P: Points, S: Sol, x: nat, D: seq<bool>, c: nat, n: nat)
    requires Shaped(P, S) && x < |P.coord| && c <= |D| == |P.coord| && 0 < n <= |P.coord|
    ensures LowerGrid(P, S, x, D, c, n) == LowerGrid(P, S, x, D, c, n - 1)
      + (if !Switches(P, S, x, n - 1) && S.assign[n - 1] < c && D[S.assign[n - 1]] then S.cost[n - 1] - CostTo(P, n - 1, x) else 0.0)
  {
    if c > 0 {
      GridStep(P, S, x, D, c - 1, n);
    }
  }

  lemma {:induction false} GridByClient(P: Points, S: Sol, x: nat, D: seq<bool>, n: nat)
    requires Shaped(P, S) && x < |P.coord| && |D| == |P.coord| && n <= |P.coord|
    ensures LowerGrid(P, S, x, D, |P.coord|, n) == ClosedClients(P, S, x, D, n)
  {
    if n == 0 {
      GridNone(P, S, x, D, |P.coord|);
    } else {
      GridStep(P, S, x, D, |P.coord|, n);
      GridByClient(P, S, x, D, n - 1);
    }
  }

  /** What closing those of the first 'c' centers that are in 'D' would save. */
  ghost function LowSum(P: Points, S: Sol, z: real, x: nat, D: seq<bool>, c: nat): real
    requires Shaped(P, S) && x < |P.coord| && c <= |D| == |P.coord|
  {
    if c == 0 then 0.0 else
      LowSum(P, S, z, x, D, c - 1) + (if D[c - 1] then Low(P, S, z, x, c - 1) else 0.0)
  }

  lemma {:induction false} LowSumSplit(P: Points, S: Sol, z: real, x: nat, D: seq<bool>, c: nat)
    requires Shaped(P, S) && x < |P.coord| && c <= |D| == |P.coord|
    ensures LowSum(P, S, z, x, D, c) == Price(z, Centers(D, 0, c)) + LowerGrid(P, S, x, D, c, |P.coord|)
  {
    hide Price;
    PriceAdd(z, 0, 0);
    if c > 0 {
      LowSumSplit(P, S, z, x, D, c - 1);
      PriceAdd(z, Centers(D, 0, c - 1), 1);
    }
  }

  /** The centers that do close. */
  ghost function Closing(P: Points, S: Sol, z: real, x: nat): (D: seq<bool>)
    requires Shaped(P, S) && x < |P.coord|
    ensures |D| == |P.coord| && forall c :: 0 <= c < |D| ==> (D[c] <==> Closes(P, S, z, x, c))
  {
    seq(|P.coord|, c requires 0 <= c < |P.coord| => Closes(P, S, z, x, c))
  }

  lemma {:induction false} ClosingSums(P: Points, S: Sol, z: real, x: nat, c: nat)
    requires Shaped(P, S) && x < |P.coord| && c <= |P.coord|
    ensures CloseSum(P, S, z, x, 0, c) == LowSum(P, S, z, x, Closing(P, S, z, x), c)
    ensures CloseCount(P, S, z, x, 0, c) == Centers(Closing(P, S, z, x), 0, c)
  {
    hide Closes, Low;
    if c > 0 {
      ClosingSums(P, S, z, x, c - 1);
    }
  }

  lemma {:induction false} CostsAfter(P: Points, S: Sol, z: real, x: nat, T: Sol, n: nat)
    requires Opened(P, S, z, x, T) && n <= |P.coord|
    ensures CostSum(T.cost, 0, n)
            == CostSum(S.cost, 0, n) + SwitchSum(P, S, x, 0, n) - ClosedClients(P, S, x, Closing(P, S, z, x), n)
  {
    if n > 0 {
      CostsAfter(P, S, z, x, T, n - 1);
      assert Moves(P, S, z, x, n - 1) <==> Switches(P, S, x, n - 1) || Closes(P, S, z, x, S.assign[n - 1]);
    }
  }

  lemma {:induction false} CentersAfter(P: Points, S: Sol, z: real, x: nat, T: Sol, n: nat)
    requires Opened(P, S, z, x, T) && n <= |P.coord| && (S.center[x] ==> Closes(P, S, z, x, x))
    ensures Centers(T.center, 0, n) == Centers(S.center, 0, n) + (if x < n then 1 else 0) - CloseCount(P, S, z, x, 0, n)
  {
    if n > 0 {
      CentersAfter(P, S, z, x, T, n - 1);
    }
  }

  lemma SamePlace(P: Points, x: nat, c: nat, i: nat)
    requires PointsOK(P) && x < |P.coord| && c < |P.coord| && i < |P.coord| && Dist(P, x, c) == 0.0
    ensures Dist(P, i, x) == Dist(P, i, c)
  {
    DistZero(P.coord[x], P.coord[c], P.coord[i], P.dim);
  }

  lemma {:induction false} LowerSelf(P: Points, S: Sol, x: nat, c: nat, n: nat)
    requires Solution(P, S) && x < |P.coord| && c < |P.coord| && Dist(P, x, c) == 0.0 && n <= |P.coord|
    ensures LowerSum(P, S, x, c, 0, n) == 0.0
  {
    hide Dist;
    if n > 0 {
      LowerSelf(P, S, x, c, n - 1);
      if S.assign[n - 1] == c {
        SamePlace(P, x, c, n - 1);
      }
    }
  }

  /** A center where 'x' is, be it 'x' itself, closes. */
  lemma SamePlaceCloses(P: Points, S: Sol, z: real, x: nat, c: nat)
    requires Solution(P, S) && z > 0.0 && x < |P.coord| && c < |P.coord| && S.center[c] && Dist(P, x, c) == 0.0
    ensures Closes(P, S, z, x, c)
  {
    LowerSelf(P, S, x, c, |P.coord|);
  }

  lemma ProductZero(d: real, w: real)
    requires w > 0.0 && d >= 0.0
    ensures d * w == 0.0 <==> d == 0.0
    ensures d * w >= 0.0
  {
    if d > 0.0 {
      assert d * w > 0.0;
    }
  }

  /** Opening 'x' gives a solution again. */
  lemma OpenedSolution(P: Points, S: Sol, z: real, x: nat, T: Sol)
    requires Solution(P, S) && z > 0.0 && Opened(P, S, z, x, T)
    ensures Solution(P, T)
  {
    forall i | 0 <= i < |P.coord| ensures T.center[T.assign[i]] && T.cost[i] == CostTo(P, i, T.assign[i]) {
      assert Moves(P, S, z, x, i) || !Moves(P, S, z, x, i);
    }
    forall i | 0 <= i < |P.coord| && T.center[i] ensures T.assign[i] == i {
      if i == x {
        XServesItself(P, S, z, x);
      } else {
        CenterStays(P, S, z, x, i);
      }
    }
  }

  lemma XServesItself(P: Points, S: Sol, z: real, x: nat)
    requires Solution(P, S) && z > 0.0 && x < |P.coord|
    ensures Moves(P, S, z, x, x)
  {
    var a := S.assign[x];
    DistSame(P, x);
    ProductZero(Dist(P, x, a), P.weight[x]);
    if !Switches(P, S, x, x) {
      assert CostTo(P, x, x) == 0.0;
      SamePlaceCloses(P, S, z, x, a);
    }
  }

  lemma CenterStays(P: Points, S: Sol, z: real, x: nat, i: nat)
    requires Solution(P, S) && x < |P.coord| && i < |P.coord| && S.center[i] && !Closes(P, S, z, x, i)
    ensures !Moves(P, S, z, x, i) && S.assign[i] == i
  {
    DistSame(P, i);
    ProductZero(Dist(P, i, x), P.weight[i]);
  }

  /** The total changes by exactly what was computed. */
  lemma OpenedTotal(P: Points, S: Sol, z: real, x: nat, T: Sol)
    requires Solution(P, S) && z > 0.0 && Opened(P, S, z, x, T)
    ensures Total(T, z) == Total(S, z) + OpenCost(P, S, z, x)
    ensures Centers(T.center, 0, |P.coord|) == Centers(S.center, 0, |P.coord|) + 1 - CloseCount(P, S, z, x, 0, |P.coord|)
  {
    hide Price, CostTo, Dist, Closes, SwitchSum;
    var n := |P.coord|;
    if S.center[x] {
      DistSame(P, x);
      SamePlaceCloses(P, S, z, x, x);
    }
    CentersAfter(P, S, z, x, T, n);
    CostsAfter(P, S, z, x, T, n);
    var D := Closing(P, S, z, x);
    ClosingSums(P, S, z, x, n);
    LowSumSplit(P, S, z, x, D, n);
    GridByClient(P, S, x, D, n);
    var a, k := Centers(S.center, 0, n), CloseCount(P, S, z, x, 0, n);
    PriceAdd(z, a, 1);
    PriceAdd(z, a + 1 - k, k);
  }

  // ---------- no other way to open 'x' is cheaper ----------

  /** 'U' comes from 'S' by opening 'x' and closing some centers: each point stays where it
      was, or is served by 'x'. */
  ghost predicate Reopened(P: Points, S: Sol, x: nat, U: Sol) {
    && Shaped(P, S) && Shaped(P, U) && x < |P.coord| && U.center[x]
    && (forall i :: 0 <= i < |P.coord| && i != x && U.center[i] ==> S.center[i])
    && (forall i :: 0 <= i < |P.coord| ==>
          U.center[U.assign[i]] && (U.assign[i] == x || U.assign[i] == S.assign[i]) && U.cost[i] == CostTo(P, i, U.assign[i]))
  }

  /** The centers that 'U' closes; 'x' itself if it was one. */
  function Dropped(S: Sol, x: nat, U: Sol): (D: seq<bool>)
    requires |S.center| == |U.center|
    ensures |D| == |S.center| && forall c :: 0 <= c < |D| ==> (D[c] <==> S.center[c] && (c == x || !U.center[c]))
  {
    seq(|S.center|, c requires 0 <= c < |S.center| => S.center[c] && (c == x || !U.center[c]))
  }

  lemma {:induction false} DroppedCount(P: Points, S: Sol, x: nat, U: Sol, n: nat)
    requires Reopened(P, S, x, U) && n <= |P.coord|
    ensures Centers(U.center, 0, n) == Centers(S.center, 0, n) + (if x < n then 1 else 0) - Centers(Dropped(S, x, U), 0, n)
  {
    if n > 0 {
      DroppedCount(P, S, x, U, n - 1);
    }
  }

  /** Costs are no lower than if every point went where it is cheaper, or had to go. */
  lemma {:induction false} CostsAtLeast(P: Points, S: Sol, x: nat, U: Sol, n: nat)
    requires Solution(P, S) && Reopened(P, S, x, U) && n <= |P.coord|
    ensures CostSum(U.cost, 0, n)
            >= CostSum(S.cost, 0, n) + SwitchSum(P, S, x, 0, n) - ClosedClients(P, S, x, Dropped(S, x, U), n)
  {
    hide CostTo;
    if n > 0 {
      CostsAtLeast(P, S, x, U, n - 1);
      var i := n - 1;
      assert Dropped(S, x, U)[S.assign[i]] ==> U.assign[i] == x;
    }
  }

  /** Centers that would bring a saving close, and no others do. */
  lemma {:induction false} ClosingBest(P: Points, S: Sol, z: real, x: nat, D: seq<bool>, c: nat)
    requires Shaped(P, S) && x < |P.coord| && c <= |D| == |P.coord|
    requires forall j :: 0 <= j < |D| && D[j] ==> S.center[j]
    ensures LowSum(P, S, z, x, D, c) <= CloseSum(P, S, z, x, 0, c)
  {
    hide Low;
    if c > 0 {
      ClosingBest(P, S, z, x, D, c - 1);
    }
  }

  lemma ReopenedTotal(P: Points, S: Sol, z: real, x: nat, U: Sol)
    requires Solution(P, S) && Reopened(P, S, x, U)
    ensures Total(U, z) >= Total(S, z) + OpenCost(P, S, z, x)
  {
    hide Price, CostTo, Dist, Closes, SwitchSum, Solution;
    var n, D := |P.coord|, Dropped(S, x, U);
    DroppedCount(P, S, x, U, n);
    CostsAtLeast(P, S, x, U, n);
    ClosingBest(P, S, z, x, D, n);
    LowSumSplit(P, S, z, x, D, n);
    GridByClient(P, S, x, D, n);
    var a, k := Centers(S.center, 0, n), Centers(D, 0, n);
    PriceAdd(z, a, 1);
    PriceAdd(z, a + 1 - k, k);
  }

  lemma NoneCheaper(P: Points, S: Sol, z: real, x: nat, t: real)
    requires Solution(P, S) && x < |P.coord| && t <= Total(S, z) + OpenCost(P, S, z, x)
    ensures forall U :: Reopened(P, S, x, U) ==> t <= Total(U, z)
  {
    hide Total, Solution, Reopened, OpenCost;
    forall U | Reopened(P, S, x, U) ensures t <= Total(U, z) {
      ReopenedTotal(P, S, z, x, U);
    }
  }
}
