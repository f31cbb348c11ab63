/** The local search step of streamcluster: 'pgain' over threads that share arrays and
    meet at barriers (apps/edge-streamcluster/streamcluster.cpp:960-1169). */
module Facility {
  import opened FacilitySpec
  import opened FacilityBlocks

  /** CACHE_LINE / sizeof(double) (streamcluster.cpp:60, 983) */
  const CL := 4

  class Search {
    const P: Points
    const nproc: nat
    /** The blocks of the threads: from lo[pid] to lo[pid + 1]. */
    const lo: seq<nat>
    const cost: array<real>
    const assign: array<nat>
    const isCenter: array<bool>
    const centerTable: array<nat>
    const switchMembership: array<bool>
    /** 'work_mem', row by row: one for each thread, and 'gl_lower'. */
    const workMem: array<seq<real>>
    /** 'cost_of_opening_x' of each thread. */
    const myCost: array<real>

    ghost predicate Ready()
      reads this
    {
      && PointsOK(P) && Bounds(lo, Num(), nproc)
      && cost.Length == assign.Length == isCenter.Length == centerTable.Length == switchMembership.Length == Num()
      && myCost.Length == nproc && workMem.Length == nproc + 1
      && cost != myCost && isCenter != switchMembership && assign != centerTable
    }

    function Num(): nat {
      |P.coord|
    }

    /** The shared arrays, and the blocks of the threads (streamcluster.cpp:967-971, 2027-2029). */
    constructor (P: Points, nproc: nat)
      requires PointsOK(P) && nproc > 0
      ensures Ready() && this.P == P && this.nproc == nproc
      ensures forall p :: 0 <= p <= nproc ==> p < |lo| && lo[p] == Lo(|P.coord|, nproc, p)
      ensures forall i :: 0 <= i < |P.coord| ==> !isCenter[i]
      ensures fresh(cost) && fresh(assign) && fresh(isCenter) && fresh(centerTable) && fresh(switchMembership)
      ensures fresh(workMem) && fresh(myCost)
    {
      var n := |P.coord|;
      this.P, this.nproc := P, nproc;
      var blocks := AllBlocks(n, nproc);
      lo := blocks;
      cost := new real[n];
      assign := new nat[n];
      isCenter := new bool[n](_ => false);
      centerTable := new nat[n];
      switchMembership := new bool[n];
      workMem := new seq<real>[nproc + 1];
      myCost := new real[nproc];
    }

    ghost function Snap(): Sol
      reads this, cost, assign, isCenter
    {
      Sol(cost[..], assign[..], isCenter[..])
    }

    /** The solution 'S', with 'k' centers, while threads look at 'x'. */
    ghost predicate Working(S: Sol, k: nat)
      reads this, cost, assign, isCenter
    {
      && Ready() && Solution(P, S) && Snap() == S
      && |S.center| == |S.cost| == |S.assign| == Num() && k == Centers(S.center, 0, Num())
    }

    /** The rows of the working memory, but for the first one, have place for 'k' centers
        and two more numbers. */
    ghost predicate Rows(stride: nat, k: nat)
      requires Ready()
      reads this, workMem
    {
      stride >= k + 2 && forall p :: 0 <= p <= nproc ==> |workMem[p]| == stride
    }

    // ---------- the table of centers (streamcluster.cpp:1007-1041) ----------

    /** The centers of a block, numbered from its start. */
    ghost predicate Counted(S: Sol, pid: nat)
      requires Ready() && |S.center| == Num() && pid < nproc
      reads this, centerTable, workMem
    {
      && |workMem[pid]| > 0 && workMem[pid][0] == Centers(S.center, lo[pid], lo[pid + 1]) as real
      && forall i: nat :: InBlock(lo, pid, i) && S.center[i] ==> centerTable[i] == Centers(S.center, lo[pid], i)
    }

    method CountCenters(pid: nat, ghost S: Sol, ghost k: nat, ghost stride: nat)
      requires Working(S, k) && pid < nproc && Rows(stride, k)
      modifies centerTable, workMem
      ensures Counted(S, pid) && Rows(stride, k)
      ensures forall i: nat :: i < Num() && !InBlock(lo, pid, i) ==> centerTable[i] == old(centerTable[i])
      ensures forall p :: 0 <= p <= nproc && p != pid ==> workMem[p] == old(workMem[p])
    {
      hide Solution, PointsOK, Centers;
      var count := CountBlock(lo[pid], lo[pid + 1], S);
      workMem[pid] := workMem[pid][0 := count as real];
    }

    /** The loop of a thread (streamcluster.cpp:1007-1013). */
    method CountBlock(k1: nat, k2: nat, ghost S: Sol) returns (count: nat)
      requires Ready() && isCenter[..] == S.center && k1 <= k2 <= Num()
      requires centerTable.Length == isCenter.Length == Num()
      modifies centerTable
      ensures count == Centers(S.center, k1, k2)
      ensures forall i :: k1 <= i < k2 && S.center[i] ==> centerTable[i] == Centers(S.center, k1, i)
      ensures forall i :: 0 <= i < Num() && !(k1 <= i < k2) ==> centerTable[i] == old(centerTable[i])
    {
      hide Ready, PointsOK, Bounds;
      ghost var center := S.center;
      count := 0;
      var i := k1;
      while i < k2
        invariant k1 <= i <= k2 && count == Centers(center, k1, i)
        invariant forall j :: k1 <= j < i && center[j] ==> centerTable[j] == Centers(center, k1, j)
        invariant forall j :: 0 <= j < |center| && !(k1 <= j < k2) ==> centerTable[j] == old(centerTable[j])
      {
        if isCenter[i] {
          centerTable[i] := count;
          count := count + 1;
        }
        i := i + 1;
      }
    }

    /** Every thread counts its centers, in any order. */
    method CountPhase(ghost S: Sol, ghost k: nat, ghost stride: nat)
      requires Working(S, k) && Rows(stride, k)
      modifies centerTable, workMem
      ensures Rows(stride, k) && forall p :: 0 <= p < nproc ==> Counted(S, p)
    {
      hide Solution, PointsOK;
      var todo := Pids(nproc);
      while todo != {}
        invariant forall p :: p in todo ==> p < nproc
        invariant Rows(stride, k) && forall p :: 0 <= p < nproc && p !in todo ==> Counted(S, p)
      {
        var pid :| pid in todo;
        label L:
        CountCenters(pid, S, k, stride);
        todo := todo - {pid};
        forall p | 0 <= p < nproc && p != pid && old@L(Counted(S, p)) ensures Counted(S, p) {
          BlocksApart(lo, Num(), nproc, p, pid);
        }
      }
    }

    /** The main thread turns counts into offsets (streamcluster.cpp:1019-1026). */
    method PrefixPhase(ghost S: Sol, ghost k: nat, ghost stride: nat)
      requires Working(S, k) && Rows(stride, k) && forall p :: 0 <= p < nproc ==> Counted(S, p)
      modifies workMem
      ensures Rows(stride, k) && forall p :: 0 <= p < nproc ==> Offset(S, p)
    {
      hide Solution, PointsOK;
      var accum := 0;
      for p := 0 to nproc
        invariant accum == Centers(S.center, 0, lo[p]) && Rows(stride, k)
        invariant forall q :: 0 <= q < p ==> Offset(S, q)
        invariant forall q :: p <= q < nproc ==> Counted(S, q)
      {
        assert Counted(S, p);
        CentersSplit(S.center, 0, lo[p], lo[p + 1]);
        var tmp := workMem[p][0].Floor;
        assert tmp == Centers(S.center, lo[p], lo[p + 1]);
        label L:
        workMem[p] := workMem[p][0 := accum as real];
        accum := accum + tmp;
        assert Offset(S, p);
        forall q | 0 <= q < nproc && q != p
          ensures old@L(Offset(S, q)) ==> Offset(S, q)
          ensures old@L(Counted(S, q)) ==> Counted(S, q)
        {
        }
      }
    }

    /** The row of 'pid' begins with the number of centers before its block; the table
        counts from there. */
    ghost predicate Offset(S: Sol, pid: nat)
      requires Ready() && |S.center| == Num() && pid < nproc
      reads this, centerTable, workMem
    {
      && |workMem[pid]| > 0 && workMem[pid][0] == Centers(S.center, 0, lo[pid]) as real
      && forall i: nat :: InBlock(lo, pid, i) && S.center[i] ==> centerTable[i] == Centers(S.center, lo[pid], i)
    }

    /** The centers of a block have their final numbers, and the row is clear. */
    ghost predicate Indexed(S: Sol, pid: nat)
      requires Ready() && |S.center| == Num() && pid < nproc
      reads this, centerTable, switchMembership, workMem
    {
      && (forall i: nat :: InBlock(lo, pid, i) && S.center[i] ==> centerTable[i] == Centers(S.center, 0, i))
      && (forall i: nat :: InBlock(lo, pid, i) ==> !switchMembership[i])
      && AllZero(workMem[pid])
    }

    /** The offset of the block is added to the numbers of its centers. */
    method AddOffset(pid: nat, ghost S: Sol, ghost k: nat)
      requires Working(S, k) && pid < nproc && Offset(S, pid)
      modifies centerTable
      ensures forall i: nat :: InBlock(lo, pid, i) && S.center[i] ==> centerTable[i] == Centers(S.center, 0, i)
      ensures forall i: nat :: i < Num() && !InBlock(lo, pid, i) ==> centerTable[i] == old(centerTable[i])
    {
      hide Solution, PointsOK;
      var k1, k2 := lo[pid], lo[pid + 1];
      var i := k1;
      while i < k2
        invariant k1 <= i <= k2
        invariant forall j :: k1 <= j < i && S.center[j] ==> centerTable[j] == Centers(S.center, 0, j)
        invariant forall j :: i <= j < k2 && S.center[j] ==> centerTable[j] == Centers(S.center, k1, j)
        invariant forall j :: 0 <= j < Num() && !(k1 <= j < k2) ==> centerTable[j] == old(centerTable[j])
        modifies centerTable
      {
        if isCenter[i] {
          CentersSplit(S.center, 0, k1, i);
          centerTable[i] := centerTable[i] + workMem[pid][0].Floor;
        }
        i := i + 1;
      }
    }

    /** Offsets are added, the working memory is cleared (streamcluster.cpp:1032-1041). */
    method IndexCenters(pid: nat, ghost S: Sol, ghost k: nat, stride: nat)
      requires Working(S, k) && Rows(stride, k) && pid < nproc && Offset(S, pid)
      modifies centerTable, switchMembership, workMem
      ensures Indexed(S, pid) && Rows(stride, k)
      ensures forall i: nat :: i < Num() && !InBlock(lo, pid, i) ==> centerTable[i] == old(centerTable[i])
      ensures forall i: nat :: i < Num() && !InBlock(lo, pid, i) ==> switchMembership[i] == old(switchMembership[i])
      ensures forall p :: 0 <= p < nproc && p != pid ==> workMem[p] == old(workMem[p])
      ensures if pid == 0 then AllZero(workMem[nproc]) else workMem[nproc] == old(workMem[nproc])
    {
      hide Solution, PointsOK, Centers;
      AddOffset(pid, S, k);
      forall j | lo[pid] <= j < lo[pid + 1] {
        switchMembership[j] := false;
      }
      workMem[pid] := seq(stride, _ => 0.0);
      if pid == 0 {
        workMem[nproc] := seq(stride, _ => 0.0);
      }
    }

    method IndexPhase(ghost S: Sol, ghost k: nat, stride: nat)
      requires Working(S, k) && Rows(stride, k) && forall p :: 0 <= p < nproc ==> Offset(S, p)
      modifies centerTable, switchMembership, workMem
      ensures Rows(stride, k) && forall p :: 0 <= p < nproc ==> Indexed(S, p)
    {
      hide Solution, PointsOK;
      var todo := Pids(nproc);
      while todo != {}
        invariant forall p :: p in todo ==> p < nproc
        invariant Rows(stride, k) && forall p :: p in todo ==> Offset(S, p)
        invariant forall p :: 0 <= p < nproc && p !in todo ==> Indexed(S, p)
      {
        var pid :| pid in todo;
        label L:
        IndexCenters(pid, S, k, stride);
        todo := todo - {pid};
        forall p | 0 <= p < nproc && p != pid
          ensures old@L(Offset(S, p)) ==> Offset(S, p)
          ensures old@L(Indexed(S, p)) ==> Indexed(S, p)
        {
          BlocksApart(lo, Num(), nproc, p, pid);
        }
      }
    }

    // ---------- the gain of opening 'x' (streamcluster.cpp:1047-1078) ----------

    /** Centers are numbered in order. */
    ghost predicate TableOK(S: Sol)
      requires Ready() && |S.center| == Num()
      reads this, centerTable
    {
      forall i :: 0 <= i < Num() && S.center[i] ==> centerTable[i] == Centers(S.center, 0, i)
    }

    lemma WholeTable(S: Sol)
      requires Ready() && |S.center| == Num() && forall p :: 0 <= p < nproc ==> Indexed(S, p)
      ensures TableOK(S)
    {
      forall i | 0 <= i < Num() && S.center[i] ensures centerTable[i] == Centers(S.center, 0, i) {
        var p := BlockOf(lo, Num(), nproc, i, nproc);
        assert Indexed(S, p);
      }
    }

    /** What a thread found out about its block. */
    ghost predicate Gained(S: Sol, x: nat, pid: nat)
      requires Ready() && Shaped(P, S) && x < Num() && pid < nproc
      reads this, switchMembership, workMem, myCost
    {
      && lo[pid] <= lo[pid + 1] <= Num()
      && (forall i: nat :: i < Num() && InBlock(lo, pid, i) ==> (switchMembership[i] <==> Switches(P, S, x, i)))
      && RowIs(S, x, workMem[pid], lo[pid], lo[pid + 1])
      && myCost[pid] == SwitchSum(P, S, x, lo[pid], lo[pid + 1])
    }

    /** The row holds the 'lower' sums of all centers over points 'a' to 'b'. */
    ghost predicate RowIs(S: Sol, x: nat, row: seq<real>, a: nat, b: nat)
      requires Shaped(P, S) && x < Num() && a <= b <= Num()
    {
      forall c :: 0 <= c < Num() && S.center[c] ==>
        Centers(S.center, 0, c) < |row| && row[Centers(S.center, 0, c)] == LowerSum(P, S, x, c, a, b)
    }

    lemma RowZero(S: Sol, x: nat, row: seq<real>, a: nat)
      requires Shaped(P, S) && x < Num() && a <= Num() && AllZero(row) && |row| >= Centers(S.center, 0, Num())
      ensures RowIs(S, x, row, a, a)
    {
      forall c | 0 <= c < Num() && S.center[c] ensures Centers(S.center, 0, c) < |row| {
        CentersApart(S.center, c, Num());
      }
    }

    /** One point more: only the sum of its own center changes, if any. */
    lemma RowStep(S: Sol, x: nat, row: seq<real>, a: nat, b: nat)
      requires Shaped(P, S) && x < Num() && a <= b < Num() && RowIs(S, x, row, a, b) && S.center[S.assign[b]]
      ensures Switches(P, S, x, b) ==> RowIs(S, x, row, a, b + 1)
      ensures !Switches(P, S, x, b) ==>
                var t := Centers(S.center, 0, S.assign[b]);
                t < |row| && RowIs(S, x, row[t := row[t] + (S.cost[b] - CostTo(P, b, x))], a, b + 1)
    {
      hide CostTo;
      if !Switches(P, S, x, b) {
        var m := S.assign[b];
        var t := Centers(S.center, 0, m);
        forall c | 0 <= c < Num() && S.center[c] && c != m ensures Centers(S.center, 0, c) != t {
          if c < m {
            CentersApart(S.center, c, m);
          } else {
            CentersApart(S.center, m, c);
          }
        }
      }
    }

    method GainBlock(pid: nat, x: nat, ghost S: Sol, ghost k: nat, ghost stride: nat)
      requires Working(S, k) && Rows(stride, k) && pid < nproc && x < Num() && TableOK(S) && AllZero(workMem[pid])
      requires forall i: nat :: i < Num() && InBlock(lo, pid, i) ==> !switchMembership[i]
      modifies switchMembership, workMem, myCost
      ensures Rows(stride, k) && Gained(S, x, pid)
      ensures forall i: nat :: i < Num() && !InBlock(lo, pid, i) ==> switchMembership[i] == old(switchMembership[i])
      ensures forall p :: 0 <= p <= nproc && p != pid ==> workMem[p] == old(workMem[p])
      ensures forall p :: 0 <= p < nproc && p != pid ==> myCost[p] == old(myCost[p])
    {
      hide PointsOK, CostTo, RowIs, Solution;
      SolutionShaped(P, S);
      var k1, k2 := lo[pid], lo[pid + 1];
      var i := k1;
      var costOfOpening := 0.0;
      RowZero(S, x, workMem[pid], k1);
      while i < k2
        invariant k1 <= i <= k2 && costOfOpening == SwitchSum(P, S, x, k1, i)
        invariant forall j :: k1 <= j < i ==> (switchMembership[j] <==> Switches(P, S, x, j))
        invariant forall j :: 0 <= j < Num() && !(k1 <= j < i) ==> switchMembership[j] == old(switchMembership[j])
        invariant Rows(stride, k) && RowIs(S, x, workMem[pid], k1, i)
        invariant forall p :: 0 <= p <= nproc && p != pid ==> workMem[p] == old(workMem[p])
        modifies switchMembership, workMem
      {
        ServedBy(P, S, i);
        var xCost := CostTo(P, i, x);
        var currentCost := cost[i];
        RowStep(S, x, workMem[pid], k1, i);
        if xCost < currentCost {
          switchMembership[i] := true;
          costOfOpening := costOfOpening + (xCost - currentCost);
        } else {
          var t := centerTable[assign[i]];
          workMem[pid] := workMem[pid][t := workMem[pid][t] + (currentCost - xCost)];
        }
        i := i + 1;
      }
      myCost[pid] := costOfOpening;
    }

    /** A thread's row and flags are as the phase needs them. */
    ghost predicate Blank(pid: nat)
      requires Ready() && pid < nproc
      reads this, switchMembership, workMem
    {
      AllZero(workMem[pid]) && forall i: nat :: i < Num() && InBlock(lo, pid, i) ==> !switchMembership[i]
    }

    method GainPhase(x: nat, ghost S: Sol, ghost k: nat, ghost stride: nat)
      requires Working(S, k) && Rows(stride, k) && x < Num() && TableOK(S) && forall p :: 0 <= p < nproc ==> Blank(p)
      modifies switchMembership, workMem, myCost
      ensures Rows(stride, k) && Shaped(P, S) && forall p :: 0 <= p < nproc ==> Gained(S, x, p)
    {
      hide Solution, PointsOK, RowIs, Switches;
      SolutionShaped(P, S);
      var todo := Pids(nproc);
      while todo != {}
        invariant forall p :: p in todo ==> p < nproc && Blank(p)
        invariant Rows(stride, k) && forall p :: 0 <= p < nproc && p !in todo ==> Gained(S, x, p)
      {
        var pid :| pid in todo;
        label L:
        GainBlock(pid, x, S, k, stride);
        todo := todo - {pid};
        forall p | 0 <= p < nproc && p != pid
          ensures old@L(Blank(p)) ==> Blank(p)
          ensures old@L(Gained(S, x, p)) ==> Gained(S, x, p)
        {
          BlocksApart(lo, Num(), nproc, p, pid);
        }
      }
    }

    // ---------- which centers to close (streamcluster.cpp:1087-1107) ----------

    /** 'gl_lower' holds what closing each center of 'a' to 'b' would save. */
    ghost predicate GlobalIs(S: Sol, z: real, x: nat, row: seq<real>, a: nat, b: nat)
      requires Shaped(P, S) && x < Num()
    {
      forall c :: a <= c < b && c < Num() && S.center[c] ==>
        Centers(S.center, 0, c) < |row| && row[Centers(S.center, 0, c)] == Low(P, S, z, x, c)
    }

    /** The thread's row says how many of its centers close, and what that brings. */
    ghost predicate Closed(S: Sol, z: real, x: nat, stride: nat, pid: nat)
      requires Ready() && Shaped(P, S) && x < Num() && pid < nproc && stride >= 2
      reads this, workMem
    {
      && lo[pid] <= lo[pid + 1] <= Num() && |workMem[pid]| == stride
      && workMem[pid][stride - 2] == CloseCount(P, S, z, x, lo[pid], lo[pid + 1]) as real
      && workMem[pid][stride - 1] ==
           SwitchSum(P, S, x, lo[pid], lo[pid + 1]) - CloseSum(P, S, z, x, lo[pid], lo[pid + 1])
      && GlobalIs(S, z, x, workMem[nproc], lo[pid], lo[pid + 1])
    }

    /** All threads' savings for one center (streamcluster.cpp:1089-1093). */
    method Aggregate(z: real, x: nat, c: nat, ghost S: Sol, ghost k: nat, ghost stride: nat) returns (low: real)
      requires Working(S, k) && Rows(stride, k) && Shaped(P, S) && TableOK(S) && x < Num() && c < Num() && S.center[c]
      requires forall p :: 0 <= p < nproc ==> RowOf(S, x, p)
      ensures low == Low(P, S, z, x, c)
    {
      hide Solution, PointsOK, Switches;
      low := z;
      for p := 0 to nproc
        invariant low == z + LowerSum(P, S, x, c, 0, lo[p])
      {
        assert RowOf(S, x, p);
        LowerSplit(P, S, x, c, 0, lo[p], lo[p + 1]);
        low := low + workMem[p][centerTable[c]];
      }
    }

    ghost predicate RowOf(S: Sol, x: nat, p: nat)
      requires Ready() && Shaped(P, S) && x < Num() && p < nproc
      reads this, workMem
    {
      RowIs(S, x, workMem[p], lo[p], lo[p + 1])
    }

    method CloseBlock(pid: nat, z: real, x: nat, ghost S: Sol, ghost k: nat, stride: nat)
      requires Working(S, k) && Rows(stride, k) && Shaped(P, S) && TableOK(S) && x < Num() && pid < nproc
      requires forall p :: 0 <= p < nproc ==> RowOf(S, x, p)
      requires myCost[pid] == SwitchSum(P, S, x, lo[pid], lo[pid + 1])
      modifies workMem, myCost
      ensures Rows(stride, k) && (forall p :: 0 <= p < nproc ==> RowOf(S, x, p)) && Closed(S, z, x, stride, pid)
      ensures forall p :: 0 <= p < nproc && p != pid ==> workMem[p] == old(workMem[p]) && myCost[p] == old(myCost[p])
      ensures forall a, b :: 0 <= a <= b <= Num() && old(GlobalIs(S, z, x, workMem[nproc], a, b)) ==> GlobalIs(S, z, x, workMem[nproc], a, b)
    {
      hide Solution, PointsOK, Switches, RowIs, Low, GlobalIs;
      var k1, k2 := lo[pid], lo[pid + 1];
      var i := k1;
      var closing := 0;
      var costOfOpening := myCost[pid];
      GlobalNone(S, z, x, workMem[nproc], k1);
      while i < k2
        invariant k1 <= i <= k2 && Rows(stride, k) && closing == CloseCount(P, S, z, x, k1, i)
        invariant costOfOpening == SwitchSum(P, S, x, k1, k2) - CloseSum(P, S, z, x, k1, i)
        invariant GlobalIs(S, z, x, workMem[nproc], k1, i)
        invariant forall p :: 0 <= p < nproc ==> workMem[p] == old(workMem[p])
        invariant forall a, b :: 0 <= a <= b <= Num() && old(GlobalIs(S, z, x, workMem[nproc], a, b)) ==> GlobalIs(S, z, x, workMem[nproc], a, b)
        modifies workMem
      {
        if isCenter[i] {
          assert forall p :: 0 <= p < nproc ==> RowOf(S, x, p) by {
            forall p | 0 <= p < nproc ensures RowOf(S, x, p) {
              assert old(RowOf(S, x, p));
            }
          }
          var low := Aggregate(z, x, i, S, k, stride);
          CentersApart(S.center, i, Num());
          GlobalStep(S, z, x, workMem[nproc], k1, i);
          GlobalKept(S, z, x, workMem[nproc], i);
          workMem[nproc] := workMem[nproc][centerTable[i] := low];
          if low > 0.0 {
            closing := closing + 1;
            costOfOpening := costOfOpening - low;
          }
        } else {
          GlobalSkip(S, z, x, workMem[nproc], k1, i);
        }
        i := i + 1;
      }
      RowTail(S, x, workMem[pid], k, stride, closing as real, costOfOpening, k1, k2);
      assert old(RowOf(S, x, pid));
      workMem[pid] := workMem[pid][stride - 2 := closing as real][stride - 1 := costOfOpening];
      myCost[pid] := costOfOpening;
      forall p | 0 <= p < nproc ensures RowOf(S, x, p) {
        assert old(RowOf(S, x, p));
      }
    }

    lemma GlobalNone(S: Sol, z: real, x: nat, row: seq<real>, a: nat)
      requires Shaped(P, S) && x < Num()
      ensures GlobalIs(S, z, x, row, a, a)
    {
    }

    lemma GlobalSkip(S: Sol, z: real, x: nat, row: seq<real>, a: nat, b: nat)
      requires Shaped(P, S) && x < Num() && b < Num() && GlobalIs(S, z, x, row, a, b) && !S.center[b]
      ensures GlobalIs(S, z, x, row, a, b + 1)
    {
    }

    lemma GlobalStep(S: Sol, z: real, x: nat, row: seq<real>, a: nat, b: nat)
      requires Shaped(P, S) && x < Num() && b < Num() && GlobalIs(S, z, x, row, a, b) && S.center[b]
      requires Centers(S.center, 0, b) < |row|
      ensures GlobalIs(S, z, x, row[Centers(S.center, 0, b) := Low(P, S, z, x, b)], a, b + 1)
    {
      hide Low;
      forall c | a <= c < b && S.center[c] ensures Centers(S.center, 0, c) != Centers(S.center, 0, b) {
        CentersApart(S.center, c, b);
      }
    }

    /** Writing the right number harms no other entry. */
    lemma GlobalKept(S: Sol, z: real, x: nat, row: seq<real>, i: nat)
      requires Shaped(P, S) && x < Num() && i < Num() && S.center[i] && Centers(S.center, 0, i) < |row|
      ensures var row1 := row[Centers(S.center, 0, i) := Low(P, S, z, x, i)];
              forall a, b :: 0 <= a <= b <= Num() && GlobalIs(S, z, x, row, a, b) ==> GlobalIs(S, z, x, row1, a, b)
    {
      hide Low;
      forall c | 0 <= c < Num() && S.center[c] && c != i ensures Centers(S.center, 0, c) != Centers(S.center, 0, i) {
        if c < i {
          CentersApart(S.center, c, i);
        } else {
          CentersApart(S.center, i, c);
        }
      }
    }

    /** The last two numbers of a row are not for centers. */
    lemma RowTail(S: Sol, x: nat, row: seq<real>, k: nat, stride: nat, u: real, v: real, a: nat, b: nat)
      requires Shaped(P, S) && x < Num() && a <= b <= Num() && |row| == stride >= k + 2 && k == Centers(S.center, 0, Num())
      ensures RowIs(S, x, row, a, b) ==> RowIs(S, x, row[stride - 2 := u][stride - 1 := v], a, b)
    {
      forall c | 0 <= c < Num() && S.center[c] ensures Centers(S.center, 0, c) < k {
        CentersApart(S.center, c, Num());
      }
    }

    method ClosePhase(z: real, x: nat, ghost S: Sol, ghost k: nat, stride: nat)
      requires Working(S, k) && Rows(stride, k) && Shaped(P, S) && TableOK(S) && x < Num()
      requires forall p :: 0 <= p < nproc ==> RowOf(S, x, p) && myCost[p] == SwitchSum(P, S, x, lo[p], lo[p + 1])
      modifies workMem, myCost
      ensures Rows(stride, k) && forall p :: 0 <= p < nproc ==> Closed(S, z, x, stride, p)
    {
      hide Solution, PointsOK, Switches, RowIs, Low, GlobalIs;
      var todo := Pids(nproc);
      while todo != {}
        invariant forall p :: p in todo ==> p < nproc && myCost[p] == SwitchSum(P, S, x, lo[p], lo[p + 1])
        invariant Rows(stride, k) && forall p :: 0 <= p < nproc ==> RowOf(S, x, p)
        invariant forall p :: 0 <= p < nproc && p !in todo ==> Closed(S, z, x, stride, p)
      {
        var pid :| pid in todo;
        label L:
        CloseBlock(pid, z, x, S, k, stride);
        todo := todo - {pid};
        forall p | 0 <= p < nproc && p != pid && old@L(Closed(S, z, x, stride, p)) ensures Closed(S, z, x, stride, p) {
        }
      }
    }

    /** The main thread adds up (streamcluster.cpp:1114-1121). */
    method AddUp(z: real, x: nat, ghost S: Sol, ghost k: nat, stride: nat) returns (glClose: nat, glCost: real)
      requires Working(S, k) && Rows(stride, k) && Shaped(P, S) && x < Num()
      requires forall p :: 0 <= p < nproc ==> Closed(S, z, x, stride, p)
      ensures glCost == OpenCost(P, S, z, x) && glClose == CloseCount(P, S, z, x, 0, Num())
    {
      hide Solution, PointsOK, Switches, Low, GlobalIs, Closes;
      glClose, glCost := 0, z;
      for p := 0 to nproc
        invariant glClose == CloseCount(P, S, z, x, 0, lo[p])
        invariant glCost == z + SwitchSum(P, S, x, 0, lo[p]) - CloseSum(P, S, z, x, 0, lo[p])
      {
        assert Closed(S, z, x, stride, p);
        SwitchSplit(P, S, x, 0, lo[p], lo[p + 1]);
        CloseSplit(P, S, z, x, 0, lo[p], lo[p + 1]);
        ghost var n := CloseCount(P, S, z, x, lo[p], lo[p + 1]);
        assert workMem[p][stride - 2].Floor == n;
        glClose := glClose + workMem[p][stride - 2].Floor;
        glCost := glCost + workMem[p][stride - 1];
      }
    }

    lemma WholeGlobal(S: Sol, z: real, x: nat, stride: nat)
      requires Ready() && Shaped(P, S) && x < Num() && stride >= 2
      requires forall p :: 0 <= p < nproc ==> Closed(S, z, x, stride, p)
      ensures GlobalIs(S, z, x, workMem[nproc], 0, Num())
    {
      hide Low;
      forall c | 0 <= c < Num() && S.center[c]
        ensures Centers(S.center, 0, c) < |workMem[nproc]| && workMem[nproc][Centers(S.center, 0, c)] == Low(P, S, z, x, c)
      {
        var p := BlockOf(lo, Num(), nproc, c, nproc);
        assert Closed(S, z, x, stride, p);
      }
    }

    lemma WholeSwitch(S: Sol, x: nat)
      requires Ready() && Shaped(P, S) && x < Num() && forall p :: 0 <= p < nproc ==> Gained(S, x, p)
      ensures forall i: nat :: i < Num() ==> (switchMembership[i] <==> Switches(P, S, x, i))
    {
      hide RowIs;
      forall i: nat | i < Num() ensures switchMembership[i] <==> Switches(P, S, x, i) {
        var p := BlockOf(lo, Num(), nproc, i, nproc);
        assert Gained(S, x, p);
      }
    }

    // ---------- opening 'x' (streamcluster.cpp:1128-1151) ----------

    /** The points of the block are as they should be after opening 'x'. */
    ghost predicate Applied(S: Sol, z: real, x: nat, pid: nat)
      requires Ready() && Shaped(P, S) && x < Num() && pid < nproc
      reads this, cost, assign, isCenter
    {
      forall i: nat :: i < Num() && InBlock(lo, pid, i) ==> PointDone(S, z, x, i)
    }

    ghost predicate PointDone(S: Sol, z: real, x: nat, i: nat)
      requires Ready() && Shaped(P, S) && x < Num() && i < Num()
      reads this, cost, assign, isCenter
    {
      && (if Moves(P, S, z, x, i) then cost[i] == CostTo(P, i, x) && assign[i] == x
          else cost[i] == S.cost[i] && assign[i] == S.assign[i])
      && (isCenter[i] <==> i == x || (S.center[i] && !Closes(P, S, z, x, i)))
    }

    /** The points of the block are untouched. */
    ghost predicate Untouched(S: Sol, pid: nat)
      requires Ready() && Shaped(P, S) && pid < nproc
      reads this, cost, assign, isCenter
    {
      forall i: nat :: i < Num() && InBlock(lo, pid, i) ==>
        cost[i] == S.cost[i] && assign[i] == S.assign[i] && isCenter[i] == S.center[i]
    }

    /** What the last phase reads, and no thread changes. */
    ghost predicate Decided(S: Sol, z: real, x: nat)
      requires Ready() && Shaped(P, S) && x < Num()
      reads this, centerTable, switchMembership, workMem
    {
      && TableOK(S) && GlobalIs(S, z, x, workMem[nproc], 0, Num())
      && forall i: nat :: i < Num() ==> (switchMembership[i] <==> Switches(P, S, x, i))
    }

    method ApplyBlock(pid: nat, z: real, x: nat, ghost S: Sol)
      requires Ready() && Solution(P, S) && Shaped(P, S) && x < Num() && pid < nproc && Decided(S, z, x) && Untouched(S, pid)
      modifies cost, assign, isCenter
      ensures Applied(S, z, x, pid)
      ensures forall i: nat :: i < Num() && !InBlock(lo, pid, i) ==>
                cost[i] == old(cost[i]) && assign[i] == old(assign[i]) && isCenter[i] == old(isCenter[i])
    {
      hide Solution, PointsOK, Switches, Low, GlobalIs, TableOK, Closes, Moves;
      AssignBlock(pid, z, x, S);
      CenterBlock(pid, z, x, S);
    }

    method AssignBlock(pid: nat, z: real, x: nat, ghost S: Sol)
      requires Ready() && Solution(P, S) && Shaped(P, S) && x < Num() && pid < nproc && Decided(S, z, x) && Untouched(S, pid)
      modifies cost, assign
      ensures forall j: nat :: j < Num() && InBlock(lo, pid, j) ==> AssignDone(S, z, x, j)
      ensures forall j: nat :: j < Num() && !InBlock(lo, pid, j) ==> cost[j] == old(cost[j]) && assign[j] == old(assign[j])
    {
      hide Solution, PointsOK, Switches, Low, GlobalIs, Closes;
      var k1, k2 := lo[pid], lo[pid + 1];
      var i := k1;
      while i < k2
        invariant k1 <= i <= k2
        invariant forall j: nat :: k1 <= j < i ==> AssignDone(S, z, x, j)
        invariant forall j: nat :: i <= j < k2 ==> cost[j] == S.cost[j] && assign[j] == S.assign[j]
        invariant forall j: nat :: j < Num() && !(k1 <= j < k2) ==> cost[j] == old(cost[j]) && assign[j] == old(assign[j])
        modifies cost, assign
      {
        ServedBy(P, S, i);
        GlobalAt(S, z, x, workMem[nproc], assign[i]);
        var closeCenter := workMem[nproc][centerTable[assign[i]]] > 0.0;
        label L:
        if switchMembership[i] || closeCenter {
          cost[i] := CostTo(P, i, x);
          assign[i] := x;
        }
        assert AssignDone(S, z, x, i);
        forall j: nat | k1 <= j < i ensures AssignDone(S, z, x, j) {
          assert old@L(AssignDone(S, z, x, j));
        }
        i := i + 1;
      }
    }

    ghost predicate AssignDone(S: Sol, z: real, x: nat, i: nat)
      requires Ready() && Shaped(P, S) && x < Num() && i < Num()
      reads this, cost, assign
    {
      if Moves(P, S, z, x, i) then cost[i] == CostTo(P, i, x) && assign[i] == x
      else cost[i] == S.cost[i] && assign[i] == S.assign[i]
    }

    method CenterBlock(pid: nat, z: real, x: nat, ghost S: Sol)
      requires Ready() && Shaped(P, S) && x < Num() && pid < nproc && Decided(S, z, x)
      requires forall j: nat :: j < Num() && InBlock(lo, pid, j) ==> isCenter[j] == S.center[j]
      modifies isCenter
      ensures forall j: nat :: j < Num() && InBlock(lo, pid, j) ==>
                (isCenter[j] <==> j == x || (S.center[j] && !Closes(P, S, z, x, j)))
      ensures forall j: nat :: j < Num() && !InBlock(lo, pid, j) ==> isCenter[j] == old(isCenter[j])
    {
      hide Solution, PointsOK, Switches, Low, GlobalIs, Closes;
      var k1, k2 := lo[pid], lo[pid + 1];
      var i := k1;
      while i < k2
        invariant k1 <= i <= k2
        invariant forall j: nat :: k1 <= j < i ==> (isCenter[j] <==> S.center[j] && !Closes(P, S, z, x, j))
        invariant forall j: nat :: i <= j < k2 ==> isCenter[j] == S.center[j]
        invariant forall j: nat :: j < Num() && !(k1 <= j < k2) ==> isCenter[j] == old(isCenter[j])
        modifies isCenter
      {
        if isCenter[i] {
          GlobalAt(S, z, x, workMem[nproc], i);
          if workMem[nproc][centerTable[i]] > 0.0 {
            isCenter[i] := false;
          }
        }
        i := i + 1;
      }
      if k1 <= x < k2 {
        isCenter[x] := true;
      }
    }

    lemma GlobalAt(S: Sol, z: real, x: nat, row: seq<real>, c: nat)
      requires Shaped(P, S) && x < Num() && c < Num() && S.center[c] && GlobalIs(S, z, x, row, 0, Num())
      ensures Centers(S.center, 0, c) < |row| && (row[Centers(S.center, 0, c)] > 0.0 <==> Closes(P, S, z, x, c))
    {
    }

    method ApplyPhase(z: real, x: nat, ghost S: Sol)
      requires Ready() && Solution(P, S) && Snap() == S && Shaped(P, S) && x < Num() && Decided(S, z, x)
      modifies cost, assign, isCenter
      ensures Opened(P, S, z, x, Snap())
    {
      hide Solution, PointsOK, Switches, Low, GlobalIs, Moves, Closes, TableOK;
      var todo := Pids(nproc);
      while todo != {}
        invariant forall p :: p in todo ==> p < nproc && Untouched(S, p)
        invariant forall p :: 0 <= p < nproc && p !in todo ==> Applied(S, z, x, p)
      {
        var pid :| pid in todo;
        label L:
        ApplyBlock(pid, z, x, S);
        todo := todo - {pid};
        forall p | 0 <= p < nproc && p != pid
          ensures old@L(Untouched(S, p)) ==> Untouched(S, p)
          ensures old@L(Applied(S, z, x, p)) ==> Applied(S, z, x, p)
        {
          BlocksApart(lo, Num(), nproc, p, pid);
        }
      }
      forall i: nat | i < Num() ensures PointDone(S, z, x, i) {
        var p := BlockOf(lo, Num(), nproc, i, nproc);
        assert Applied(S, z, x, p);
      }
      AssignInRange(S, z, x);
    }

    lemma AssignInRange(S: Sol, z: real, x: nat)
      requires Ready() && Shaped(P, S) && x < Num() && forall i: nat :: i < Num() ==> PointDone(S, z, x, i)
      ensures Opened(P, S, z, x, Snap())
    {
      hide Switches, Low, Closes, Moves, PointsOK;
      var T := Snap();
      forall i | 0 <= i < Num()
        ensures if Moves(P, S, z, x, i) then T.cost[i] == CostTo(P, i, x) && T.assign[i] == x
                else T.cost[i] == S.cost[i] && T.assign[i] == S.assign[i]
        ensures T.center[i] <==> i == x || (S.center[i] && !Closes(P, S, z, x, i))
        ensures T.assign[i] < Num()
      {
        assert PointDone(S, z, x, i);
      }
    }

    // ---------- pgain (streamcluster.cpp:960-1169) ----------

    /** Memory for 'k' centers and two more numbers, of cache lines (streamcluster.cpp:981-995). */
    method Allocate(k: nat) returns (stride: nat)
      requires Ready()
      modifies workMem
      ensures Rows(stride, k)
    {
      stride := k + 2;
      if stride % CL != 0 {
        stride := CL * (stride / CL + 1);
      }
      for p := 0 to nproc + 1
        invariant forall q :: 0 <= q < p ==> |workMem[q]| == stride
      {
        workMem[p] := Malloc(stride);
      }
    }

    /** What is computed does not depend on what memory held before. */
    method Malloc(n: nat) returns (row: seq<real>)
      ensures |row| == n
    {
      row := seq(n, _ => 0.0);
    }

    /** From the table of centers to the decision, barrier by barrier. */
    method Evaluate(x: nat, z: real, k: nat, ghost S: Sol) returns (glClose: nat, glCost: real)
      requires Working(S, k) && x < Num()
      modifies centerTable, switchMembership, workMem, myCost
      ensures Shaped(P, S) && Decided(S, z, x)
      ensures glCost == OpenCost(P, S, z, x) && glClose == CloseCount(P, S, z, x, 0, Num())
    {
      hide Solution, PointsOK, Switches, Low, GlobalIs, TableOK, Closes, RowIs, AllZero;
      SolutionShaped(P, S);
      var stride := Allocate(k);
      CountPhase(S, k, stride);
      PrefixPhase(S, k, stride);
      IndexPhase(S, k, stride);
      WholeTable(S);
      forall p | 0 <= p < nproc ensures Blank(p) {
        assert Indexed(S, p);
      }
      GainPhase(x, S, k, stride);
      WholeSwitch(S, x);
      forall p | 0 <= p < nproc ensures RowOf(S, x, p) && myCost[p] == SwitchSum(P, S, x, lo[p], lo[p + 1]) {
        assert Gained(S, x, p);
      }
      ClosePhase(z, x, S, k, stride);
      WholeGlobal(S, z, x, stride);
      glClose, glCost := AddUp(z, x, S, k, stride);
    }

    /** pgain: the gain is what the total drops by, exactly; 'x' opens if that is more
        than nothing. */
    method Pgain(x: nat, z: real, numcenters: nat) returns (gain: real, k: nat)
      requires Ready() && Solution(P, Snap()) && x < Num() && z > 0.0 && numcenters == Centers(isCenter[..], 0, Num())
      modifies cost, assign, isCenter, centerTable, switchMembership, workMem, myCost
      ensures Solution(P, Snap()) && k == Centers(isCenter[..], 0, Num())
      ensures gain >= 0.0 && Total(Snap(), z) == Total(old(Snap()), z) - gain
      ensures gain > 0.0 ==> Opened(P, old(Snap()), z, x, Snap()) && gain == -OpenCost(P, old(Snap()), z, x)
      ensures gain == 0.0 ==> Snap() == old(Snap()) && OpenCost(P, old(Snap()), z, x) >= 0.0
      ensures forall U :: Reopened(P, old(Snap()), x, U) ==> Total(Snap(), z) <= Total(U, z)
    {
      hide Solution, PointsOK, Switches, Low, GlobalIs, TableOK, Closes, Opened, Total, Decided, Reopened;
      ghost var S := Snap();
      SolutionShaped(P, S);
      var glClose, glCost := Evaluate(x, z, numcenters, S);
      k := numcenters;
      if glCost < 0.0 {
        ApplyPhase(z, x, S);
        OpenedSolution(P, S, z, x, Snap());
        OpenedTotal(P, S, z, x, Snap());
        k := numcenters + 1 - glClose;
      } else {
        glCost := 0.0;
      }
      gain := -glCost;
      NoneCheaper(P, S, z, x, Total(Snap(), z));
    }
  }

  lemma SolutionShaped(P: Points, S: Sol)
    requires Solution(P, S)
    ensures Shaped(P, S)
  {
  }

  lemma ServedBy(P: Points, S: Sol, i: nat)
    requires Solution(P, S) && i < |P.coord|
    ensures S.assign[i] < |P.coord| && S.center[S.assign[i]]
  {
  }

  predicate AllZero(row: seq<real>) {
    forall t :: 0 <= t < |row| ==> row[t] == 0.0
  }
}
