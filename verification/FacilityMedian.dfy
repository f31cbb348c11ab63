/** The cost that streamcluster carries along: through the first solution, local search,
    and the search for the facility cost (streamcluster.cpp:711-837, 1215-1251, 1486-1628). */
module FacilityMedian {
  import opened FacilitySpec
  import opened FacilityBlocks
  import opened Facility

  /** The solution of 'pspeedy', before centers are flagged: 'open' are those it opened.
      Every point is served by the nearest of them. */
  ghost predicate Nearest(P: Points, S: Sol) {
    Solution(P, S)
    && forall i, c :: 0 <= i < |P.coord| && 0 <= c < |P.coord| && S.center[c] ==> S.cost[i] <= CostTo(P, i, c)
  }

  ghost function With(s: Search, open: seq<bool>): Sol
    reads s.cost, s.assign
  {
    Sol(s.cost[..], s.assign[..], open)
  }

  // ---------- one more center (streamcluster.cpp:733-738, 756-764, 785-791) ----------

  /** The points of a block, once 'c' is open. */
  ghost predicate Relaxed(P: Points, S: Sol, c: nat, cost: real, a: nat, i: nat)
    requires Shaped(P, S) && c < |P.coord| && i < |P.coord|
  {
    if CostTo(P, i, c) < S.cost[i] then cost == CostTo(P, i, c) && a == c else cost == S.cost[i] && a == S.assign[i]
  }

  ghost predicate BlockRelaxed(s: Search, S: Sol, c: nat, pid: nat)
    requires s.Ready() && Shaped(s.P, S) && c < s.Num() && pid < s.nproc
    reads s, s.cost, s.assign
  {
    forall i: nat :: i < s.Num() && InBlock(s.lo, pid, i) ==> Relaxed(s.P, S, c, s.cost[i], s.assign[i], i)
  }

  ghost predicate BlockSame(s: Search, S: Sol, pid: nat)
    requires s.Ready() && Shaped(s.P, S) && pid < s.nproc
    reads s, s.cost, s.assign
  {
    forall i: nat :: i < s.Num() && InBlock(s.lo, pid, i) ==> s.cost[i] == S.cost[i] && s.assign[i] == S.assign[i]
  }

  method RelaxBlock(s: Search, c: nat, pid: nat, ghost S: Sol)
    requires s.Ready() && Shaped(s.P, S) && c < s.Num() && pid < s.nproc && BlockSame(s, S, pid)
    modifies s.cost, s.assign
    ensures BlockRelaxed(s, S, c, pid)
    ensures forall i: nat :: i < s.Num() && !InBlock(s.lo, pid, i) ==> s.cost[i] == old(s.cost[i]) && s.assign[i] == old(s.assign[i])
  {
    hide CostTo, PointsOK;
    var k1, k2 := s.lo[pid], s.lo[pid + 1];
    var i := k1;
    while i < k2
      invariant k1 <= i <= k2
      invariant forall j: nat :: k1 <= j < i ==> Relaxed(s.P, S, c, s.cost[j], s.assign[j], j)
      invariant forall j: nat :: i <= j < k2 ==> s.cost[j] == S.cost[j] && s.assign[j] == S.assign[j]
      invariant forall j: nat :: j < s.Num() && !(k1 <= j < k2) ==> s.cost[j] == old(s.cost[j]) && s.assign[j] == old(s.assign[j])
    {
      var d := CostFrom(s.P, i, c);
      if d < s.cost[i] {
        s.cost[i] := d;
        s.assign[i] := c;
      }
      i := i + 1;
    }
  }

  /** The distance the other way around is the same. */
  method CostFrom(P: Points, i: nat, c: nat) returns (d: real)
    requires PointsOK(P) && i < |P.coord| && c < |P.coord|
    ensures d == CostTo(P, i, c)
  {
    DistSym(P.coord[c], P.coord[i], P.dim);
    d := Dist(P, c, i) * P.weight[i];
  }

  method RelaxPhase(s: Search, c: nat, ghost S: Sol)
    requires s.Ready() && Shaped(s.P, S) && c < s.Num() && s.cost[..] == S.cost && s.assign[..] == S.assign
    modifies s.cost, s.assign
    ensures forall i: nat :: i < s.Num() ==> Relaxed(s.P, S, c, s.cost[i], s.assign[i], i)
  {
    hide PointsOK, Relaxed, CostTo;
    var todo := Pids(s.nproc);
    while todo != {}
      invariant forall p :: p in todo ==> p < s.nproc && BlockSame(s, S, p)
      invariant forall p :: 0 <= p < s.nproc && p !in todo ==> BlockRelaxed(s, S, c, p)
    {
      var pid :| pid in todo;
      label L:
      RelaxBlock(s, c, pid, S);
      todo := todo - {pid};
      forall p | 0 <= p < s.nproc && p != pid
        ensures old@L(BlockSame(s, S, p)) ==> BlockSame(s, S, p)
        ensures old@L(BlockRelaxed(s, S, c, p)) ==> BlockRelaxed(s, S, c, p)
      {
        BlocksApart(s.lo, s.Num(), s.nproc, p, pid);
      }
    }
    forall i: nat | i < s.Num() ensures Relaxed(s.P, S, c, s.cost[i], s.assign[i], i) {
      var p := BlockOf(s.lo, s.Num(), s.nproc, i, s.nproc);
      assert BlockRelaxed(s, S, c, p);
    }
  }

  /** Opening a center where the cost is not zero gives a solution with one more. */
  lemma RelaxedNearest(P: Points, S: Sol, c: nat, T: Sol)
    requires Nearest(P, S) && c < |P.coord| && S.cost[c] > 0.0
    requires |T.cost| == |T.assign| == |P.coord| && T.center == S.center[c := true]
    requires forall i: nat :: i < |P.coord| ==> Relaxed(P, S, c, T.cost[i], T.assign[i], i)
    ensures Nearest(P, T) && Centers(T.center, 0, |P.coord|) == Centers(S.center, 0, |P.coord|) + 1
  {
    CostAtSelf(P, c);
    CenterCost(P, S, c);
    forall i | 0 <= i < |P.coord| ensures T.assign[i] < |P.coord| && T.center[T.assign[i]] && T.cost[i] == CostTo(P, i, T.assign[i]) {
      assert Relaxed(P, S, c, T.cost[i], T.assign[i], i);
    }
    forall i | 0 <= i < |P.coord| && T.center[i] ensures T.assign[i] == i {
      assert Relaxed(P, S, c, T.cost[i], T.assign[i], i);
      CostNotNegative(P, i, c);
      CostAtSelf(P, i);
    }
    forall i, d | 0 <= i < |P.coord| && 0 <= d < |P.coord| && T.center[d] ensures T.cost[i] <= CostTo(P, i, d) {
      assert Relaxed(P, S, c, T.cost[i], T.assign[i], i);
    }
    OneMoreCenter(S.center, c, |P.coord|);
  }

  lemma CenterCost(P: Points, S: Sol, c: nat)
    requires Solution(P, S) && c < |P.coord|
    ensures S.center[c] ==> S.cost[c] == 0.0
  {
    CostAtSelf(P, c);
  }

  lemma CostAtSelf(P: Points, i: nat)
    requires PointsOK(P) && i < |P.coord|
    ensures CostTo(P, i, i) == 0.0
  {
    DistSame(P, i);
  }

  lemma CostNotNegative(P: Points, i: nat, c: nat)
    requires PointsOK(P) && i < |P.coord| && c < |P.coord|
    ensures CostTo(P, i, c) >= 0.0
  {
    ProductZero(Dist(P, i, c), P.weight[i]);
  }

  lemma {:induction false} OneMoreCenter(center: seq<bool>, c: nat, n: nat)
    requires c < |center| && !center[c] && n <= |center|
    ensures Centers(center[c := true], 0, n) == Centers(center, 0, n) + (if c < n then 1 else 0)
  {
    if n > 0 {
      OneMoreCenter(center, c, n - 1);
    }
  }

  // ---------- pspeedy (streamcluster.cpp:711-837) ----------

  /** The first center serves all points (streamcluster.cpp:733-743). */
  method FirstCenter(s: Search) returns (ghost open: seq<bool>)
    requires s.Ready() && s.Num() > 0
    modifies s.cost, s.assign
    ensures |open| == s.Num() && Nearest(s.P, With(s, open)) && Centers(open, 0, s.Num()) == 1
  {
    open := seq(s.Num(), i => i == 0);
    var todo := Pids(s.nproc);
    while todo != {}
      invariant forall p :: p in todo ==> p < s.nproc
      invariant forall p :: 0 <= p < s.nproc && p !in todo ==> ToFirst(s, p)
    {
      var pid :| pid in todo;
      label L:
      FirstBlock(s, pid);
      todo := todo - {pid};
      forall p | 0 <= p < s.nproc && p != pid && old@L(ToFirst(s, p)) ensures ToFirst(s, p) {
        BlocksApart(s.lo, s.Num(), s.nproc, p, pid);
      }
    }
    forall i: nat | i < s.Num() ensures s.assign[i] == 0 && s.cost[i] == CostTo(s.P, i, 0) {
      var p := BlockOf(s.lo, s.Num(), s.nproc, i, s.nproc);
      assert ToFirst(s, p);
    }
    FirstNearest(s.P, With(s, open));
  }

  ghost predicate ToFirst(s: Search, pid: nat)
    requires s.Ready() && s.Num() > 0 && pid < s.nproc
    reads s, s.cost, s.assign
  {
    forall i: nat :: i < s.Num() && InBlock(s.lo, pid, i) ==> s.assign[i] == 0 && s.cost[i] == CostTo(s.P, i, 0)
  }

  method FirstBlock(s: Search, pid: nat)
    requires s.Ready() && s.Num() > 0 && pid < s.nproc
    modifies s.cost, s.assign
    ensures ToFirst(s, pid)
    ensures forall i: nat :: i < s.Num() && !InBlock(s.lo, pid, i) ==> s.cost[i] == old(s.cost[i]) && s.assign[i] == old(s.assign[i])
  {
    hide CostTo, PointsOK;
    var k1, k2 := s.lo[pid], s.lo[pid + 1];
    var i := k1;
    while i < k2
      invariant k1 <= i <= k2
      invariant forall j: nat :: k1 <= j < i ==> s.assign[j] == 0 && s.cost[j] == CostTo(s.P, j, 0)
      invariant forall j: nat :: j < s.Num() && !(k1 <= j < k2) ==> s.cost[j] == old(s.cost[j]) && s.assign[j] == old(s.assign[j])
    {
      s.cost[i] := CostTo(s.P, i, 0);
      s.assign[i] := 0;
      i := i + 1;
    }
  }

  lemma FirstNearest(P: Points, S: Sol)
    requires PointsOK(P) && |S.cost| == |S.assign| == |S.center| == |P.coord| > 0
    requires forall i :: 0 <= i < |P.coord| ==> S.assign[i] == 0 && S.cost[i] == CostTo(P, i, 0) && (S.center[i] <==> i == 0)
    ensures Nearest(P, S) && Centers(S.center, 0, |P.coord|) == 1
  {
    FirstOnly(S.center, |P.coord|);
  }

  lemma {:induction false} FirstOnly(center: seq<bool>, n: nat)
    requires 0 < n <= |center| && forall i :: 0 <= i < |center| ==> (center[i] <==> i == 0)
    ensures Centers(center, 0, n) == 1
  {
    if n > 1 {
      FirstOnly(center, n - 1);
    }
  }

  /** The threads' sums, added up (streamcluster.cpp:813-831). */
  method SumCosts(s: Search) returns (total: real)
    requires s.Ready()
    ensures total == CostSum(s.cost[..], 0, s.Num())
  {
    total := 0.0;
    for pid := 0 to s.nproc
      invariant total == CostSum(s.cost[..], 0, s.lo[pid])
    {
      var mytotal := 0.0;
      var i := s.lo[pid];
      while i < s.lo[pid + 1]
        invariant s.lo[pid] <= i <= s.lo[pid + 1] && mytotal == CostSum(s.cost[..], s.lo[pid], i)
      {
        mytotal := mytotal + s.cost[i];
        i := i + 1;
      }
      CostSplit(s.cost[..], 0, s.lo[pid], s.lo[pid + 1]);
      total := total + mytotal;
    }
  }

  /** pspeedy; 'draw' stands for lrand48. The cost returned is that of the solution. */
  method Pspeedy(s: Search, z: real, draw: nat -> real) returns (total: real, k: nat, ghost open: seq<bool>)
    requires s.Ready() && s.Num() > 0 && z > 0.0 && forall i: nat :: draw(i) >= 0.0
    modifies s.cost, s.assign
    ensures |open| == s.Num() && Nearest(s.P, With(s, open)) && k == Centers(open, 0, s.Num())
    ensures total == Total(With(s, open), z)
  {
    hide PointsOK, Nearest, CostTo;
    open := FirstCenter(s);
    k := 1;
    for i := 1 to s.Num()
      invariant |open| == s.Num() && Nearest(s.P, With(s, open)) && k == Centers(open, 0, s.Num())
    {
      var toOpen := draw(i) < s.cost[i] / z;
      if toOpen {
        ghost var S := With(s, open);
        DivPositive(draw(i), s.cost[i], z);
        NearestShaped(s.P, S);
        RelaxPhase(s, i, S);
        open := open[i := true];
        RelaxedNearest(s.P, S, i, With(s, open));
        k := k + 1;
      }
    }
    total := SumCosts(s);
    total := Price(z, k) + total;
  }

  lemma NearestShaped(P: Points, S: Sol)
    requires Nearest(P, S)
    ensures Shaped(P, S)
  {
  }

  lemma DivPositive(d: real, c: real, z: real)
    requires d >= 0.0 && z > 0.0 && d < c / z
    ensures c > 0.0
  {
  }

  // ---------- pFL (streamcluster.cpp:1215-1251) ----------

  /** change/cost > e, with IEEE's answers for a cost of zero. */
  predicate Continues(change: real, cost: real, e: real) {
    if cost == 0.0 then change > 0.0 else change / cost > e
  }

  /** One round: 'iter' looks at feasible points, in the order of this round's shuffle. */
  method Round(s: Search, feasible: seq<nat>, z: real, k0: nat, iter: nat) returns (change: real, k: nat)
    requires s.Ready() && Solution(s.P, s.Snap()) && z > 0.0 && k0 == Centers(s.isCenter[..], 0, s.Num())
    requires |feasible| > 0 && forall i :: 0 <= i < |feasible| ==> feasible[i] < s.Num()
    modifies s.cost, s.assign, s.isCenter, s.centerTable, s.switchMembership, s.workMem, s.myCost
    ensures Solution(s.P, s.Snap()) && k == Centers(s.isCenter[..], 0, s.Num())
    ensures change >= 0.0 && Total(s.Snap(), z) == Total(old(s.Snap()), z) - change
  {
    hide PointsOK, Solution, Total;
    change, k := 0.0, k0;
    for i := 0 to iter
      invariant Solution(s.P, s.Snap()) && k == Centers(s.isCenter[..], 0, s.Num())
      invariant change >= 0.0 && Total(s.Snap(), z) == Total(old(s.Snap()), z) - change
    {
      var x := i % |feasible|;
      var gain;
      gain, k := s.Pgain(feasible[x], z, k);
      change := change + gain;
    }
  }

  /** An order of feasible points. */
  ghost predicate Feasible(f: seq<nat>, n: nat) {
    |f| > 0 && forall i :: 0 <= i < |f| ==> f[i] < n
  }

  /** A solution has a center to pay for. */
  lemma TotalAtLeast(P: Points, S: Sol, z: real)
    requires Solution(P, S) && |P.coord| > 0 && z > 0.0
    ensures Total(S, z) >= z
  {
    SomeCenter(S.center, S.assign[0], |S.center|);
    CostsNotNegative(P, S, |S.cost|);
    PriceAtLeast(z, Centers(S.center, 0, |S.center|));
  }

  lemma {:induction false} SomeCenter(center: seq<bool>, c: nat, n: nat)
    requires c < n <= |center| && center[c]
    ensures Centers(center, 0, n) >= 1
    decreases n
  {
    if c < n - 1 {
      SomeCenter(center, c, n - 1);
    }
  }

  lemma {:induction false} CostsNotNegative(P: Points, S: Sol, n: nat)
    requires Solution(P, S) && n <= |S.cost|
    ensures CostSum(S.cost, 0, n) >= 0.0
    decreases n
  {
    if n > 0 {
      CostsNotNegative(P, S, n - 1);
      CostNotNegative(P, n - 1, S.assign[n - 1]);
    }
  }

  lemma PriceAtLeast(z: real, k: nat)
    requires z > 0.0 && k >= 1
    ensures Price(z, k) >= z
  {
    assert z * (k - 1) as real >= 0.0;
    assert Price(z, k) == z + z * (k - 1) as real;
  }

  /** A round after which the loop goes on has lowered the cost by more than e * z. */
  lemma LowerByOne(before: real, cost: real, change: real, e: real, z: real)
    requires e > 0.0 && z > 0.0 && cost >= z && cost == before - change && Continues(change, cost, e)
    ensures (cost / (e * z)).Floor < (before / (e * z)).Floor && (cost / (e * z)).Floor >= 0
  {
    var u := e * z;
    assert u > 0.0;
    RatioBound(change, cost, e);
    assert e * cost >= u;
    assert change > u;
    Quotients(before, cost, u);
  }

  lemma RatioBound(change: real, cost: real, e: real)
    requires cost > 0.0 && change / cost > e
    ensures change > e * cost
  {
    assert change == change / cost * cost;
  }

  lemma Quotients(before: real, cost: real, u: real)
    requires u > 0.0 && before > cost + u && cost >= 0.0
    ensures cost / u >= 0.0 && before / u > cost / u + 1.0
  {
    var q, q' := before / u, cost / u;
    assert q * u == before && q' * u == cost;
    assert (q' + 1.0) * u == cost + u;
    Smaller(q' + 1.0, q, u);
  }

  lemma Smaller(a: real, b: real, u: real)
    requires u > 0.0 && a * u < b * u
    ensures a < b
  {
    assert (b - a) * u > 0.0;
  }

  /** pFL: the cost it was given was the total, and so is the cost it returns; the last round
      has brought no more than the share 'e'. 'shuffles' are the orders of the rounds. */
  method PFL(s: Search, shuffles: nat -> seq<nat>, z: real, k0: nat, cost0: real, iter: nat, e: real)
    returns (cost: real, k: nat, ghost change: real)
    requires s.Ready() && Solution(s.P, s.Snap()) && z > 0.0 && e > 0.0 && k0 == Centers(s.isCenter[..], 0, s.Num())
    requires cost0 == Total(s.Snap(), z)
    requires forall r: nat :: Feasible(shuffles(r), s.Num())
    modifies s.cost, s.assign, s.isCenter, s.centerTable, s.switchMembership, s.workMem, s.myCost
    ensures Solution(s.P, s.Snap()) && k == Centers(s.isCenter[..], 0, s.Num())
    ensures cost == Total(s.Snap(), z) <= cost0
    ensures !Continues(change, cost, e) && change <= e * cost
  {
    hide PointsOK, Solution, Total, Continues;
    cost, k := cost0, k0;
    var last := cost;
    var r := 0;
    assert Feasible(shuffles(0), s.Num()) && shuffles(0)[0] < s.Num();
    TotalAtLeast(s.P, s.Snap(), z);
    while Continues(last, cost, e)
      invariant Solution(s.P, s.Snap()) && k == Centers(s.isCenter[..], 0, s.Num())
      invariant z <= cost == Total(s.Snap(), z) <= cost0
      decreases (cost / (e * z)).Floor, Continues(last, cost, e)
    {
      ghost var before := cost;
      assert Feasible(shuffles(r), s.Num());
      last, k := Round(s, shuffles(r), z, k, iter);
      cost := cost - last;
      r := r + 1;
      TotalAtLeast(s.P, s.Snap(), z);
      Lower(before, cost, last, e, z);
    }
    change := last;
    Share(change, cost, e);
  }

  lemma Share(change: real, cost: real, e: real)
    requires cost > 0.0 && e > 0.0
    ensures Continues(change, cost, e) <==> change > e * cost
  {
    var q := change / cost;
    assert change == q * cost;
    if change > e * cost {
      Smaller(e, q, cost);
    } else if q > e {
      RatioBound(change, cost, e);
    }
  }

  lemma Lower(before: real, cost: real, change: real, e: real, z: real)
    requires e > 0.0 && z > 0.0 && cost >= z && cost == before - change && change >= 0.0
    ensures 0 <= (cost / (e * z)).Floor <= (before / (e * z)).Floor
    ensures Continues(change, cost, e) ==> (cost / (e * z)).Floor < (before / (e * z)).Floor
  {
    var u := e * z;
    assert u > 0.0;
    assert before / u * u == before && cost / u * u == cost;
    assert before / u >= cost / u >= 0.0;
    if Continues(change, cost, e) {
      LowerByOne(before, cost, change, e, z);
    }
  }

  // ---------- pkmedian (streamcluster.cpp:1486-1628) ----------

  /** The price of centers changes: the cost follows. */
  lemma PriceChange(S: Sol, z: real, z1: real)
    ensures Total(S, z1) == Total(S, z) + Price(z1 - z, Centers(S.center, 0, |S.center|))
  {
    var k := Centers(S.center, 0, |S.center|) as real;
    assert (z1 - z) * k == z1 * k - z * k;
  }

  /** The centers found by pspeedy are flagged (streamcluster.cpp:1569-1573). */
  method FlagCenters(s: Search, ghost open: seq<bool>)
    requires s.Ready() && |open| == s.Num() && Solution(s.P, With(s, open))
    requires forall i :: 0 <= i < s.Num() ==> !s.isCenter[i]
    modifies s.isCenter
    ensures s.isCenter[..] == open
  {
    hide PointsOK, CostTo;
    for i := 0 to s.Num()
      invariant forall j :: 0 <= j < i ==> s.isCenter[s.assign[j]]
      invariant forall j :: 0 <= j < s.Num() && s.isCenter[j] ==> open[j]
    {
      s.isCenter[s.assign[i]] := true;
    }
    forall j | 0 <= j < s.Num() ensures s.isCenter[j] == open[j] {
      assert open[j] ==> s.assign[j] == j;
    }
  }

  /** One turn of the search for the price (streamcluster.cpp:1580-1607). */
  method Turn(s: Search, rough: nat -> seq<nat>, fine: nat -> seq<nat>, kmin: nat, kmax: nat, iter: nat,
              z0: real, k0: nat, cost0: real, lo0: real, hi0: real)
    returns (z: real, k: nat, cost: real, loz: real, hiz: real)
    requires s.Ready() && Solution(s.P, s.Snap()) && z0 > 0.0 && k0 == Centers(s.isCenter[..], 0, s.Num())
    requires cost0 == Total(s.Snap(), z0) && 0.0 <= lo0 <= z0 <= hi0
    requires forall r: nat :: Feasible(rough(r), s.Num()) && Feasible(fine(r), s.Num())
    modifies s.cost, s.assign, s.isCenter, s.centerTable, s.switchMembership, s.workMem, s.myCost
    ensures Solution(s.P, s.Snap()) && k == Centers(s.isCenter[..], 0, s.Num())
    ensures cost == Total(s.Snap(), z) && z > 0.0 && 0.0 <= loz <= z <= hiz
    ensures kmin <= k <= kmax ==> z == z0 && loz == lo0 && hiz == hi0
    ensures k > kmax ==> loz == z0 <= z
    ensures k < kmin && k <= kmax ==> z <= z0 == hiz && loz == lo0
    ensures k >= kmin ==> hiz == hi0
    ensures !(kmin <= k <= kmax) ==> z - loz == hiz - z
    ensures lo0 <= loz && hiz <= hi0
  {
    hide PointsOK, Solution, Total, Price;
    z, loz, hiz := z0, lo0, hi0;
    ghost var change;
    cost, k, change := PFL(s, rough, z, k0, cost0, iter, 0.1);
    if (10 * k <= 11 * kmax && 10 * k >= 9 * kmin) || (k <= kmax + 2 && k + 2 >= kmin) {
      cost, k, change := PFL(s, fine, z, k, cost, iter, 0.001);
    }
    if k > kmax {
      loz := z;
      z := (hiz + loz) / 2.0;
      PriceChange(s.Snap(), loz, z);
      cost := cost + Price(z - loz, k);
    }
    if k < kmin {
      hiz := z;
      z := (hiz + loz) / 2.0;
      PriceChange(s.Snap(), hiz, z);
      cost := cost + Price(z - hiz, k);
    }
  }

  /** A price that was tried, and the solution found at it. */
  datatype Visit = Visit(price: real, sol: Sol)

  function Count(v: Visit): nat {
    Centers(v.sol.center, 0, |v.sol.center|)
  }

  /** At the price 'loz' too many centers were found, unless it is zero, and at 'hiz' too few,
      unless it is the price the search started from. */
  ghost predicate Bracket(P: Points, seen: seq<Visit>, kmin: nat, kmax: nat, hi: real, loz: real, hiz: real) {
    && (forall v :: v in seen ==> Solution(P, v.sol))
    && (loz == 0.0 || exists v :: v in seen && v.price == loz && Count(v) > kmax)
    && (hiz == hi || exists v :: v in seen && v.price == hiz && Count(v) < kmin)
  }

  lemma Visited(P: Points, seen: seq<Visit>, kmin: nat, kmax: nat, hi: real, lo0: real, hi0: real, v: Visit, loz: real, hiz: real)
    requires Bracket(P, seen, kmin, kmax, hi, lo0, hi0) && Solution(P, v.sol)
    requires loz == lo0 || (loz == v.price && Count(v) > kmax)
    requires hiz == hi0 || (hiz == v.price && Count(v) < kmin)
    ensures Bracket(P, seen + [v], kmin, kmax, hi, loz, hiz)
  {
    var all := seen + [v];
    assert v in all && forall w :: w in seen ==> w in all;
  }

  /** The search ends when the number of centers is right, or the prices have met. */
  predicate Ends(k: nat, kmin: nat, kmax: nat, loz: real, hiz: real) {
    kmin <= k <= kmax || loz >= 0.999 * hiz
  }

  /** Points that serve themselves: the centers of an assignment. */
  function Heads(assign: seq<nat>, n: nat): nat
    requires n <= |assign|
  {
    if n == 0 then 0 else Heads(assign, n - 1) + (if assign[n - 1] == n - 1 then 1 else 0)
  }

  lemma {:induction false} HeadsAreCenters(P: Points, S: Sol, n: nat)
    requires Solution(P, S) && n <= |P.coord|
    ensures Heads(S.assign, n) == Centers(S.center, 0, n)
  {
    if n > 0 {
      HeadsAreCenters(P, S, n - 1);
      assert S.center[S.assign[n - 1]];
    }
  }

  lemma {:induction false} AllHeads(assign: seq<nat>, n: nat)
    requires n <= |assign| && forall i :: 0 <= i < |assign| ==> assign[i] == i
    ensures Heads(assign, n) == n
  {
    if n > 0 {
      AllHeads(assign, n - 1);
    }
  }

  /** Every point for itself. */
  ghost predicate AllAlone(s: Search)
    requires s.Ready()
    reads s, s.cost, s.assign
  {
    forall i: nat :: i < s.Num() ==> s.assign[i] == i && s.cost[i] == 0.0
  }

  /** No more points than 'kmax' (streamcluster.cpp:1531-1542). */
  method Alone(s: Search)
    requires s.Ready()
    modifies s.cost, s.assign
    ensures AllAlone(s)
  {
    for pid := 0 to s.nproc
      invariant forall i: nat :: i < s.lo[pid] ==> s.assign[i] == i && s.cost[i] == 0.0
    {
      var kk := s.lo[pid];
      while kk < s.lo[pid + 1]
        invariant s.lo[pid] <= kk <= s.lo[pid + 1]
        invariant forall i: nat :: i < kk ==> s.assign[i] == i && s.cost[i] == 0.0
      {
        s.assign[kk], s.cost[kk] := kk, 0.0;
        kk := kk + 1;
      }
    }
  }

  /** With all points open this is a solution; its total is the price of the centers. */
  lemma AloneSolution(s: Search, z: real)
    requires s.Ready() && AllAlone(s)
    ensures var S := With(s, seq(s.Num(), i => true)); Nearest(s.P, S) && Total(S, z) == Price(z, s.Num())
  {
    var open := seq(s.Num(), i => true);
    AllOpen(open, s.Num());
    NoCost(s.cost[..], s.Num());
    forall i | 0 <= i < s.Num() ensures CostTo(s.P, i, i) == 0.0 {
      CostAtSelf(s.P, i);
    }
    forall i, c | 0 <= i < s.Num() && 0 <= c < s.Num() ensures CostTo(s.P, i, c) >= 0.0 {
      CostNotNegative(s.P, i, c);
    }
  }

  lemma {:induction false} AllOpen(open: seq<bool>, n: nat)
    requires n <= |open| && forall i :: 0 <= i < |open| ==> open[i]
    ensures Centers(open, 0, n) == n
  {
    if n > 0 {
      AllOpen(open, n - 1);
    }
  }

  lemma {:induction false} NoCost(cost: seq<real>, n: nat)
    requires n <= |cost| && forall i :: 0 <= i < |cost| ==> cost[i] == 0.0
    ensures CostSum(cost, 0, n) == 0.0
  {
    if n > 0 {
      NoCost(cost, n - 1);
    }
  }

  /** pkmedian. Random numbers and shuffles are given; there are 'tries' of them for the first
      solutions, and of turns, and 'done' says that this was enough. 'k0' is what the static
      'k' holds from an earlier call. With more points than 'kmax' the cost is that of the
      solution. Otherwise it leaves out the price of the centers, and the count handed out
      is the earlier one: so it is the number of centers just when that is. */
  method Pkmedian(s: Search, kmin: nat, kmax: nat, iter: nat, tries: nat, draws: (nat, nat) -> real,
                  rough: (nat, nat) -> seq<nat>, fine: (nat, nat) -> seq<nat>, hi: real, k0: nat)
    returns (cost: real, k: nat, z: real, done: bool, ghost loz: real, ghost hiz: real, ghost seen: seq<Visit>)
    requires s.Ready() && hi >= 0.0 && (s.Num() > kmax ==> hi > 0.0) && forall i: nat, j: nat :: draws(i, j) >= 0.0
    requires s.Num() > kmax ==> forall t: nat, r: nat :: Feasible(rough(t, r), s.Num()) && Feasible(fine(t, r), s.Num())
    requires forall i :: 0 <= i < s.Num() ==> !s.isCenter[i]
    modifies s.cost, s.assign, s.isCenter, s.centerTable, s.switchMembership, s.workMem, s.myCost
    ensures s.Num() > kmax ==> Solution(s.P, s.Snap()) && cost == Total(s.Snap(), z)
    ensures s.Num() <= kmax ==> AllAlone(s) && s.isCenter[..] == old(s.isCenter[..]) && done && k == k0
                                && cost == Total(With(s, seq(s.Num(), i => true)), z) - Price(z, s.Num())
    ensures z >= 0.0 && (s.Num() > kmax ==> z > 0.0)
    ensures s.Num() > kmax && done ==> 0.0 <= loz <= z <= hiz && Ends(k, kmin, kmax, loz, hiz)
    ensures kmin <= kmax ==> Bracket(s.P, seen, kmin, kmax, hi, loz, hiz)
    ensures k == Heads(s.assign[..], s.Num()) <==> s.Num() > kmax || k0 == s.Num()
  {
    hide PointsOK, Solution, Total, Nearest;
    seen := [];
    if s.Num() <= kmax {
      Alone(s);
      cost, k, z, done, loz, hiz := 0.0, k0, hi / 2.0, true, 0.0, hi;
      AloneSolution(s, z);
      AllHeads(s.assign[..], s.Num());
    } else {
      cost, k, z, done, loz, hiz, seen := ManyPoints(s, kmin, kmax, iter, tries, draws, rough, fine, hi);
      HeadsAreCenters(s.P, s.Snap(), s.Num());
    }
  }

  /** The static count is zero at first: a first call with few points reports no centers. */
  method FirstCallFewPoints(s: Search, kmin: nat, kmax: nat, draws: (nat, nat) -> real, hi: real) returns (k: nat)
    requires s.Ready() && 0 < s.Num() <= kmax && hi >= 0.0 && forall i: nat, j: nat :: draws(i, j) >= 0.0
    requires forall i :: 0 <= i < s.Num() ==> !s.isCenter[i]
    modifies s.cost, s.assign, s.isCenter, s.centerTable, s.switchMembership, s.workMem, s.myCost
    ensures k == 0 && Heads(s.assign[..], s.Num()) == s.Num() > 0
  {
    hide Solution, Total, Nearest;
    var cost, z, done;
    ghost var loz, hiz, seen;
    cost, k, z, done, loz, hiz, seen := Pkmedian(s, kmin, kmax, 1, 1, draws, (t, r) => [0], (t, r) => [0], hi, 0);
    AllHeads(s.assign[..], s.Num());
    assert k == 0;
  }

  /** From the first solution to the last (streamcluster.cpp:1544-1625). */
  method ManyPoints(s: Search, kmin: nat, kmax: nat, iter: nat, tries: nat, draws: (nat, nat) -> real,
                    rough: (nat, nat) -> seq<nat>, fine: (nat, nat) -> seq<nat>, hi: real)
    returns (cost: real, k: nat, z: real, done: bool, ghost loz: real, ghost hiz: real, ghost seen: seq<Visit>)
    requires s.Ready() && s.Num() > kmax && hi > 0.0 && forall i: nat, j: nat :: draws(i, j) >= 0.0
    requires forall t: nat, r: nat :: Feasible(rough(t, r), s.Num()) && Feasible(fine(t, r), s.Num())
    requires forall i :: 0 <= i < s.Num() ==> !s.isCenter[i]
    modifies s.cost, s.assign, s.isCenter, s.centerTable, s.switchMembership, s.workMem, s.myCost
    ensures Solution(s.P, s.Snap()) && k == Centers(s.isCenter[..], 0, s.Num())
    ensures z > 0.0 && cost == Total(s.Snap(), z)
    ensures done ==> 0.0 <= loz <= z <= hiz && Ends(k, kmin, kmax, loz, hiz)
    ensures kmin <= kmax ==> Bracket(s.P, seen, kmin, kmax, hi, loz, hiz)
  {
    hide PointsOK, Solution, Total, Nearest, Bracket;
    var high, low := hi, 0.0;
    z := (high + low) / 2.0;
    ghost var open;
    cost, k, open := Pspeedy(s, z, (j: nat) => draws(0, j));
    seen := [];
    StartBracket(s.P, kmin, kmax, hi);
    var i: nat, t: nat := 0, 1;
    while k < kmin && t < tries
      invariant |open| == s.Num() && Nearest(s.P, With(s, open)) && k == Centers(open, 0, s.Num())
      invariant cost == Total(With(s, open), z) && 0.0 < z <= high && low == 0.0
      invariant forall j :: 0 <= j < s.Num() ==> !s.isCenter[j]
      invariant Bracket(s.P, seen, kmin, kmax, hi, low, high)
      decreases tries - t
    {
      if i >= SP {
        NearestSolution(s.P, With(s, open));
        Visited(s.P, seen, kmin, kmax, hi, low, high, Visit(z, With(s, open)), low, z);
        seen := seen + [Visit(z, With(s, open))];
        high := z;
        z := (high + low) / 2.0;
        i := 0;
      }
      cost, k, open := Pspeedy(s, z, (j: nat) => draws(t, j));
      i, t := i + 1, t + 1;
    }
    NearestSolution(s.P, With(s, open));
    FlagCenters(s, open);
    assert s.Snap() == With(s, open);
    var enough := k >= kmin;
    t, done := 0, false;
    while enough && !done && t < tries
      invariant Solution(s.P, s.Snap()) && k == Centers(s.isCenter[..], 0, s.Num())
      invariant z > 0.0 && 0.0 <= low <= z <= high && cost == Total(s.Snap(), z)
      invariant done ==> Ends(k, kmin, kmax, low, high)
      invariant kmin <= kmax ==> Bracket(s.P, seen, kmin, kmax, hi, low, high)
      decreases tries - t
    {
      ghost var z0, lo0, hi0 := z, low, high;
      z, k, cost, low, high := Turn(s, (r: nat) => rough(t, r), (r: nat) => fine(t, r), kmin, kmax, iter, z, k, cost, low, high);
      if kmin <= kmax {
        Visited(s.P, seen, kmin, kmax, hi, lo0, hi0, Visit(z0, s.Snap()), low, high);
      }
      seen := seen + [Visit(z0, s.Snap())];
      done := Ends(k, kmin, kmax, low, high);
      t := t + 1;
    }
    loz, hiz := low, high;
  }

  lemma StartBracket(P: Points, kmin: nat, kmax: nat, hi: real)
    ensures Bracket(P, [], kmin, kmax, hi, 0.0, hi)
  {
  }

  /** SP (streamcluster.cpp:54) */
  const SP := 1

  lemma NearestSolution(P: Points, S: Sol)
    requires Nearest(P, S)
    ensures Solution(P, S)
  {
  }
}
