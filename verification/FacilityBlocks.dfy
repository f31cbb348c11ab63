/** Sums over the blocks that threads work on (streamcluster.cpp:716-720, 967-971). */
module FacilityBlocks {
  import opened FacilitySpec

  /** 'n' blocks of 'b' points. */
  function Times(b: nat, n: nat): nat {
    if n == 0 then 0 else Times(b, n - 1) + b
  }

  lemma {:induction false} TimesIs(b: nat, n: nat)
    ensures Times(b, n) == b * n
  {
    if n > 0 {
      TimesIs(b, n - 1);
      assert b * n == b * (n - 1) + b;
    }
  }

  lemma {:induction false} TimesMono(b: nat, m: nat, n: nat)
    requires m <= n
    ensures Times(b, m) <= Times(b, n)
  {
    if m < n {
      TimesMono(b, m, n - 1);
    }
  }

  lemma BlocksFit(num: nat, nproc: nat, pid: nat)
    requires pid <= nproc && nproc > 0
    ensures Times(num / nproc, pid) <= num
  {
    TimesMono(num / nproc, pid, nproc);
    TimesIs(num / nproc, nproc);
  }

  /** Where the block of thread 'pid' begins: bsize * pid; the last block ends the points. */
  function Lo(num: nat, nproc: nat, pid: nat): (r: nat)
    requires nproc > 0
    ensures r <= num
  {
    if pid >= nproc then num else
      BlocksFit(num, nproc, pid);
      Times(num / nproc, pid)
  }

  lemma BlockSizes(num: nat, nproc: nat, pid: nat)
    requires pid < nproc
    ensures Lo(num, nproc, pid) <= Lo(num, nproc, pid + 1) <= num
    ensures Lo(num, nproc, 0) == 0
  {
    BlocksFit(num, nproc, pid);
  }

  /** The bounds as the threads compute them (streamcluster.cpp:968-971). */
  method Block(num: nat, nproc: nat, pid: nat) returns (k1: nat, k2: nat)
    requires pid < nproc
    ensures k1 == Lo(num, nproc, pid) && k2 == Lo(num, nproc, pid + 1) && k1 <= k2 <= num
  {
    var bsize := num / nproc;
    TimesIs(bsize, pid);
    BlockSizes(num, nproc, pid);
    k1 := bsize * pid;
    k2 := k1 + bsize;
    if pid == nproc - 1 {
      k2 := num;
    }
  }

  /** Blocks do not overlap. */
  lemma {:induction false} BlockOrder(num: nat, nproc: nat, p: nat, q: nat)
    requires p <= q <= nproc && nproc > 0
    ensures Lo(num, nproc, p) <= Lo(num, nproc, q)
  {
    if p < q {
      BlockOrder(num, nproc, p, q - 1);
      BlockSizes(num, nproc, q - 1);
    }
  }

  /** The bounds of all blocks. */
  ghost predicate Bounds(lo: seq<nat>, num: nat, nproc: nat) {
    && nproc > 0 && |lo| == nproc + 1 && lo[0] == 0 && lo[nproc] == num
    && forall p, q :: 0 <= p <= q <= nproc ==> lo[p] <= lo[q]
  }

  method AllBlocks(num: nat, nproc: nat) returns (lo: seq<nat>)
    requires nproc > 0
    ensures Bounds(lo, num, nproc) && forall p :: 0 <= p <= nproc ==> lo[p] == Lo(num, nproc, p)
  {
    lo := [];
    var k1, k2 := 0, 0;
    BlockSizes(num, nproc, 0);
    for pid := 0 to nproc
      invariant |lo| == pid && forall p :: 0 <= p < pid ==> lo[p] == Lo(num, nproc, p)
      invariant k2 == Lo(num, nproc, pid)
    {
      k1, k2 := Block(num, nproc, pid);
      lo := lo + [k1];
    }
    lo := lo + [num];
    forall p, q | 0 <= p <= q <= nproc ensures lo[p] <= lo[q] {
      BlockOrder(num, nproc, p, q);
    }
  }

  predicate InBlock(lo: seq<nat>, pid: nat, i: nat)
    requires pid + 1 < |lo|
  {
    lo[pid] <= i < lo[pid + 1]
  }

  /** Every point is in exactly one block. */
  lemma {:induction false} BlockOf(lo: seq<nat>, num: nat, nproc: nat, i: nat, n: nat) returns (pid: nat)
    requires Bounds(lo, num, nproc) && 0 < n <= nproc && i < lo[n]
    ensures pid < n && InBlock(lo, pid, i)
  {
    if i >= lo[n - 1] {
      pid := n - 1;
    } else {
      pid := BlockOf(lo, num, nproc, i, n - 1);
    }
  }

  lemma BlocksApart(lo: seq<nat>, num: nat, nproc: nat, p: nat, q: nat)
    requires Bounds(lo, num, nproc) && p < nproc && q < nproc && p != q
    ensures forall i: nat :: InBlock(lo, p, i) ==> !InBlock(lo, q, i)
  {
  }

  // ---------- sums add up ----------

  lemma {:induction false} CentersSplit(center: seq<bool>, a: nat, b: nat, c: nat)
    requires a <= b <= c <= |center|
    ensures Centers(center, a, c) == Centers(center, a, b) + Centers(center, b, c)
  {
    if b < c {
      CentersSplit(center, a, b, c - 1);
    }
  }

  /** Centers get different numbers. */
  lemma CentersApart(center: seq<bool>, i: nat, j: nat)
    requires i < j <= |center| && center[i]
    ensures Centers(center, 0, i) < Centers(center, 0, j) <= Centers(center, 0, |center|)
  {
    CentersSplit(center, 0, i + 1, j);
    CentersSplit(center, 0, j, |center|);
  }

  lemma {:induction false} CostSplit(cost: seq<real>, a: nat, b: nat, c: nat)
    requires a <= b <= c <= |cost|
    ensures CostSum(cost, a, c) == CostSum(cost, a, b) + CostSum(cost, b, c)
  {
    if b < c {
      CostSplit(cost, a, b, c - 1);
    }
  }

  lemma {:induction false} LowerSplit(P: Points, S: Sol, x: nat, k: nat, a: nat, b: nat, c: nat)
    requires Shaped(P, S) && x < |P.coord| && a <= b <= c <= |P.coord|
    ensures LowerSum(P, S, x, k, a, c) == LowerSum(P, S, x, k, a, b) + LowerSum(P, S, x, k, b, c)
  {
    if b < c {
      LowerSplit(P, S, x, k, a, b, c - 1);
    }
  }

  lemma {:induction false} SwitchSplit(P: Points, S: Sol, x: nat, a: nat, b: nat, c: nat)
    requires Shaped(P, S) && x < |P.coord| && a <= b <= c <= |P.coord|
    ensures SwitchSum(P, S, x, a, c) == SwitchSum(P, S, x, a, b) + SwitchSum(P, S, x, b, c)
  {
    if b < c {
      SwitchSplit(P, S, x, a, b, c - 1);
    }
  }

  lemma {:induction false} CloseSplit(P: Points, S: Sol, z: real, x: nat, a: nat, b: nat, c: nat)
    requires Shaped(P, S) && x < |P.coord| && a <= b <= c <= |P.coord|
    ensures CloseSum(P, S, z, x, a, c) == CloseSum(P, S, z, x, a, b) + CloseSum(P, S, z, x, b, c)
    ensures CloseCount(P, S, z, x, a, c) == CloseCount(P, S, z, x, a, b) + CloseCount(P, S, z, x, b, c)
  {
    if b < c {
      CloseSplit(P, S, z, x, a, b, c - 1);
    }
  }

  /** All thread ids. */
  function Pids(n: nat): (s: set<nat>)
    ensures forall p :: p in s <==> 0 <= p < n
  {
    if n == 0 then {} else Pids(n - 1) + {n - 1}
  }
}
