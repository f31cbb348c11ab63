/** table.sort (apps/lua/ltablib.c:225-421): quicksort in place, with any comparison
    function. */
module LuaSort {

  /** Intervals up to this size never use random pivots. */
  const RANLIMIT := 100

  function Pow2(n: nat): (r: nat)
    ensures r > 0
  {
    if n == 0 then 1 else 2 * Pow2(n - 1)
  }

  /** The comparison: it may answer differently every time it is called. */
  type Less<!V> = (nat, V, V) -> bool

  /** It always answers the same, and is a strict weak order. */
  ghost predicate Strict<V(!new)>(less: Less<V>) {
    && (forall n, x, y :: less(n, x, y) == less(0, x, y))
    && (forall x :: !less(0, x, x))
    && (forall x, y, z :: less(0, x, y) && less(0, y, z) ==> less(0, x, z))
    && (forall x, y, z :: !less(0, x, y) && !less(0, y, z) ==> !less(0, x, z))
  }

  /** 'x' may come before 'y'. */
  ghost predicate Le<V>(less: Less<V>, x: V, y: V) {
    !less(0, y, x)
  }

  lemma LeTrans<V(!new)>(less: Less<V>, x: V, y: V, z: V)
    requires Strict(less) && Le(less, x, y) && Le(less, y, z)
    ensures Le(less, x, z)
  {
  }

  ghost predicate Sorted<V>(less: Less<V>, s: seq<V>, lo: int, up: int) {
    forall i, j :: 0 <= lo <= i <= j <= up < |s| ==> Le(less, s[i], s[j])
  }

  /** 't' is 's' with the elements from 'lo' to 'up' rearranged. */
  ghost predicate Rearranged<V>(s: seq<V>, t: seq<V>, lo: int, up: int) {
    && |s| == |t|
    && (forall i :: 0 <= i < |s| && !(lo <= i <= up) ==> t[i] == s[i])
    && multiset(t) == multiset(s)
  }

  lemma SwapRearranged<V>(s: seq<V>, t: seq<V>, i: int, j: int, lo: int, up: int)
    requires 0 <= lo <= i <= up < |s| && lo <= j <= up && t == s[i := s[j]][j := s[i]]
    ensures Rearranged(s, t, lo, up)
  {
  }

  lemma SwapNothing<V>(s: seq<V>, lo: int, up: int)
    ensures Rearranged(s, s, lo, up)
  {
  }

  lemma RearrangedTrans<V>(s: seq<V>, t: seq<V>, u: seq<V>, lo: int, up: int, lo1: int, up1: int)
    requires Rearranged(s, t, lo, up) && Rearranged(t, u, lo1, up1) && lo <= lo1 && up1 <= up
    ensures Rearranged(s, u, lo, up)
  {
  }

  /** What holds of all elements of an interval still does after rearranging. */
  lemma RearrangedWithin<V>(s: seq<V>, t: seq<V>, lo: int, up: int, k: int) returns (m: int)
    requires Rearranged(s, t, lo, up) && 0 <= lo <= k <= up < |s|
    ensures lo <= m <= up && s[m] == t[k]
  {
    Middle(s, t, lo, up);
    assert t[k] in multiset(t[lo..up + 1]) by {
      assert t[lo..up + 1][k - lo] == t[k];
    }
    assert t[k] in s[lo..up + 1];
    var i :| 0 <= i < |s[lo..up + 1]| && s[lo..up + 1][i] == t[k];
    m := lo + i;
  }

  lemma Middle<V>(s: seq<V>, t: seq<V>, lo: int, up: int)
    requires Rearranged(s, t, lo, up) && 0 <= lo <= up < |s|
    ensures multiset(t[lo..up + 1]) == multiset(s[lo..up + 1])
  {
    Parts(s, lo, up);
    Parts(t, lo, up);
    assert s[..lo] == t[..lo] && s[up + 1..] == t[up + 1..];
    Cancel(multiset(s), multiset(s[..lo]), multiset(s[lo..up + 1]), multiset(s[up + 1..]));
    Cancel(multiset(t), multiset(t[..lo]), multiset(t[lo..up + 1]), multiset(t[up + 1..]));
  }

  lemma Cancel<V>(m: multiset<V>, A: multiset<V>, B: multiset<V>, C: multiset<V>)
    requires m == A + B + C
    ensures B == m - A - C
  {
  }

  lemma Parts<V>(s: seq<V>, lo: int, up: int)
    requires 0 <= lo <= up < |s|
    ensures multiset(s) == multiset(s[..lo]) + multiset(s[lo..up + 1]) + multiset(s[up + 1..])
  {
    assert s == s[..lo] + s[lo..up + 1] + s[up + 1..];
  }

  class Sorter<V(==, !new)> {
    const a: array<V>
    const less: Less<V>
    /** How often the comparison was called. */
    var calls: nat

    constructor (a: array<V>, less: Less<V>)
      ensures this.a == a && this.less == less
    {
      this.a, this.less, calls := a, less, 0;
    }

    /** sort_comp (ltablib.c:287-300) */
    method Comp(x: V, y: V) returns (r: bool)
      modifies this
      ensures Strict(less) ==> r == less(0, x, y)
    {
      r := less(calls, x, y);
      calls := calls + 1;
    }

    /** set2: two elements change places. */
    method Swap(i: nat, j: nat)
      requires i < a.Length && j < a.Length
      modifies a
      ensures a[..] == old(a[..])[i := old(a[j])][j := old(a[i])]
    {
      a[i], a[j] := a[j], a[i];
    }

    /** With a strict weak order, the elements from 'lo' to 'i', exclusive, are not above the pivot. */
    ghost predicate Small(s: seq<V>, lo: nat, i: int, pivot: V)
      requires i <= |s|
    {
      Strict(less) ==> forall k :: lo <= k < i ==> Le(less, s[k], pivot)
    }

    /** And those after 'j' up to 'up' are not below it. */
    ghost predicate Large(s: seq<V>, j: int, up: nat, pivot: V)
      requires -1 <= j && up < |s|
    {
      Strict(less) ==> forall k :: j < k <= up ==> Le(less, pivot, s[k])
    }

    /** Where the search of 'partition' from below stops (ltablib.c:315-321). */
    method SearchUp(i0: nat, lo: nat, up: nat, pivot: V) returns (ok: bool, i: nat)
      requires lo <= i0 < up - 1 && up < a.Length && Small(a[..], lo, i0 + 1, pivot)
      modifies this
      ensures ok ==> i0 < i <= up - 1 && Small(a[..], lo, i, pivot)
      ensures Strict(less) && pivot == a[up - 1] ==> ok
      ensures ok && Strict(less) ==> Le(less, pivot, a[i])
    {
      hide Strict;
      PivotItself(pivot);
      i := i0 + 1;
      ok := true;
      var smaller := Comp(a[i], pivot);
      while smaller
        invariant i0 < i <= up - 1 && (Strict(less) ==> smaller == less(0, a[i], pivot))
        invariant Small(a[..], lo, i, pivot)
        decreases up - i, smaller
      {
        if i == up - 1 {
          return false, i;
        }
        Before(a[i], pivot);
        i := i + 1;
        smaller := Comp(a[i], pivot);
      }
    }

    lemma Before(x: V, y: V)
      requires Strict(less) ==> less(0, x, y)
      ensures Strict(less) ==> Le(less, x, y)
    {
    }

    /** And from above (ltablib.c:322-328). It never looks below both 'i' - 1 and the place
        where it began. */
    method SearchDown(j0: nat, i: nat, lo: nat, up: nat, pivot: V) returns (ok: bool, j: nat)
      requires lo < i <= up - 1 && lo < j0 <= up - 1 && up < a.Length
      requires Small(a[..], lo, i, pivot) && Large(a[..], j0 - 1, up, pivot)
      modifies this
      ensures lo <= j < j0 && (Strict(less) ==> ok)
      ensures ok ==> Large(a[..], j, up, pivot) && (Strict(less) ==> Le(less, a[j], pivot))
    {
      hide Strict;
      j := j0 - 1;
      ok := true;
      var larger := Comp(pivot, a[j]);
      while larger
        invariant lo <= j < j0 && (j < j0 - 1 ==> j >= i - 1) && (Strict(less) ==> larger == less(0, pivot, a[j]))
        invariant Large(a[..], j, up, pivot)
        decreases j, larger
      {
        if j < i {
          return false, j;
        }
        AtLeast(pivot, a[j]);
        j := j - 1;
        larger := Comp(pivot, a[j]);
      }
    }

    lemma AtLeast(x: V, y: V)
      requires Strict(less) ==> less(0, x, y)
      ensures Strict(less) ==> Le(less, x, y)
    {
    }

    /** What 'partition' leaves: the pivot at 'p', and both sides of it. */
    ghost predicate Parted(s: seq<V>, lo: int, p: int, up: int)
      requires 0 <= lo <= p <= up < |s|
    {
      && (forall k :: lo <= k < p ==> Le(less, s[k], s[p]))
      && (forall k :: p < k <= up ==> Le(less, s[p], s[k]))
    }

    /** partition (ltablib.c:310-339). With a strict weak order it does not fail; with any
        comparison it stays within bounds and only moves elements around. */
    method Partition(lo: nat, up: nat) returns (ok: bool, p: nat)
      requires lo + 2 < up < a.Length
      requires Strict(less) ==> Le(less, a[lo], a[up - 1]) && Le(less, a[up - 1], a[up])
      modifies this, a
      ensures Rearranged(old(a[..]), a[..], lo, up) && (Strict(less) ==> ok)
      ensures ok ==> lo < p < up && (Strict(less) ==> Parted(a[..], lo, p, up))
    {
      hide Strict, Le, Parted, Rearranged, Small, Large;
      ghost var s := a[..];
      SwapNothing(s, lo, up);
      var pivot := a[up - 1];
      AtEnds(s, lo, up);
      var i, j := lo, up - 1;
      p := 0;
      while true
        invariant lo <= i <= j <= up - 1 && i < up - 1 && lo < j && Rearranged(s, a[..], lo, up) && a[up - 1] == pivot
        invariant Small(a[..], lo, i + 1, pivot) && Large(a[..], j - 1, up, pivot)
        decreases up - i
      {
        ok, i := SearchUp(i, lo, up, pivot);
        if !ok {
          return;
        }
        ok, j := SearchDown(j, i, lo, up, pivot);
        if !ok {
          return;
        }
        ghost var t := a[..];
        if j < i {
          Swap(up - 1, i);
          SwapRearranged(t, a[..], up - 1, i, lo, up);
          RearrangedTrans(s, t, a[..], lo, up, lo, up);
          PivotPlaced(t, a[..], lo, i, j, up);
          p := i;
          return;
        }
        Swap(i, j);
        SwapRearranged(t, a[..], i, j, lo, up);
        RearrangedTrans(s, t, a[..], lo, up, lo, up);
        StillParted(t, a[..], lo, i, j, up, pivot);
      }
    }

    /** The ends and the pivot are where they should be. */
    lemma AtEnds(s: seq<V>, lo: nat, up: nat)
      requires lo + 2 < up < |s| && (Strict(less) ==> Le(less, s[lo], s[up - 1]) && Le(less, s[up - 1], s[up]))
      ensures Small(s, lo, lo + 1, s[up - 1]) && Large(s, up - 2, up, s[up - 1])
    {
      PivotItself(s[up - 1]);
    }

    /** Everything below 'i' is small, the rest is large: the pivot belongs at 'i'. */
    lemma PivotPlaced(t: seq<V>, u: seq<V>, lo: nat, i: nat, j: nat, up: nat)
      requires lo < i < up < |t| && lo <= j < i && u == t[up - 1 := t[i]][i := t[up - 1]]
      requires Small(t, lo, i, t[up - 1]) && Large(t, j, up, t[up - 1])
      ensures Strict(less) ==> Parted(u, lo, i, up)
    {
    }

    lemma StillParted(t: seq<V>, u: seq<V>, lo: nat, i: nat, j: nat, up: nat, pivot: V)
      requires lo <= i <= j < up < |t| && u == t[i := t[j]][j := t[i]]
      requires Strict(less) ==> Le(less, pivot, t[i]) && Le(less, t[j], pivot)
      requires Small(t, lo, i, pivot) && Large(t, j, up, pivot)
      ensures Small(u, lo, i + 1, pivot) && Large(u, j - 1, up, pivot)
    {
    }

    lemma PivotItself(x: V)
      ensures Strict(less) ==> Le(less, x, x)
    {
    }

    // ---------- auxsort (ltablib.c:357-408) ----------

    /** All but the elements from 'lo' to 'up' are where they belong among 'lo0' to 'up0'. */
    ghost predicate Outer(s: seq<V>, lo0: int, lo: int, up: int, up0: int) {
      forall i, j :: 0 <= lo0 <= i <= j <= up0 < |s| && (i < lo || j > up) ==> Le(less, s[i], s[j])
    }

    lemma OuterKept(s: seq<V>, t: seq<V>, lo0: int, lo: int, up: int, up0: int)
      requires Outer(s, lo0, lo, up, up0) && Rearranged(s, t, lo, up) && 0 <= lo0 <= lo && up <= up0 < |s|
      ensures Outer(t, lo0, lo, up, up0)
    {
      forall i, j | lo0 <= i <= j <= up0 && (i < lo || j > up) ensures Le(less, t[i], t[j]) {
        var i1, j1 := i, j;
        if lo <= i <= up {
          i1 := RearrangedWithin(s, t, lo, up, i);
        }
        if lo <= j <= up {
          j1 := RearrangedWithin(s, t, lo, up, j);
        }
        assert Le(less, s[i1], s[j1]);
      }
    }

    /** After sorting the lower part of a partition, only the upper part is left. */
    lemma LowerDone(s: seq<V>, t: seq<V>, lo0: int, lo: int, p: int, up: int, up0: int)
      requires Strict(less) && 0 <= lo0 <= lo <= p <= up <= up0 < |s|
      requires Outer(s, lo0, lo, up, up0) && Parted(s, lo, p, up) && Rearranged(s, t, lo, p - 1) && Sorted(less, t, lo, p - 1)
      ensures Outer(t, lo0, p + 1, up, up0)
    {
      WiderRearranged(s, t, lo, p - 1, lo, up);
      OuterKept(s, t, lo0, lo, up, up0);
      forall i, j | lo0 <= i <= j <= up0 && (i < p + 1 || j > up) ensures Le(less, t[i], t[j]) {
        if lo <= i <= p && j <= up {
          LowSide(s, t, lo, p, up, i);
          if j > p {
            LeTrans(less, t[i], t[p], t[j]);
          }
        }
      }
    }

    lemma LowSide(s: seq<V>, t: seq<V>, lo: int, p: int, up: int, i: int)
      requires Strict(less) && 0 <= lo <= p <= up < |s| && Parted(s, lo, p, up) && Rearranged(s, t, lo, p - 1) && lo <= i <= p
      ensures Le(less, t[i], t[p]) && forall j :: p <= j <= up ==> Le(less, t[p], t[j])
    {
      if i < p {
        var m := RearrangedWithin(s, t, lo, p - 1, i);
      }
    }

    lemma UpperDone(s: seq<V>, t: seq<V>, lo0: int, lo: int, p: int, up: int, up0: int)
      requires Strict(less) && 0 <= lo0 <= lo <= p <= up <= up0 < |s|
      requires Outer(s, lo0, lo, up, up0) && Parted(s, lo, p, up) && Rearranged(s, t, p + 1, up) && Sorted(less, t, p + 1, up)
      ensures Outer(t, lo0, lo, p - 1, up0)
    {
      WiderRearranged(s, t, p + 1, up, lo, up);
      OuterKept(s, t, lo0, lo, up, up0);
      forall i, j | lo0 <= i <= j <= up0 && (i < lo || j > p - 1) ensures Le(less, t[i], t[j]) {
        if lo <= i && p <= j <= up {
          HighSide(s, t, lo, p, up, j);
          if i < p {
            LeTrans(less, t[i], t[p], t[j]);
          }
        }
      }
    }

    lemma HighSide(s: seq<V>, t: seq<V>, lo: int, p: int, up: int, j: int)
      requires Strict(less) && 0 <= lo <= p <= up < |s| && Parted(s, lo, p, up) && Rearranged(s, t, p + 1, up) && p <= j <= up
      ensures Le(less, t[p], t[j]) && forall i :: lo <= i <= p ==> Le(less, t[i], t[p])
    {
      if j > p {
        var m := RearrangedWithin(s, t, p + 1, up, j);
      }
    }

    lemma WiderRearranged(s: seq<V>, t: seq<V>, lo: int, up: int, lo1: int, up1: int)
      requires Rearranged(s, t, lo, up) && lo1 <= lo && up <= up1
      ensures Rearranged(s, t, lo1, up1)
    {
    }

    /** The first, the middle and the last element get in order (ltablib.c:362-368). */
    method SortEnds(lo: nat, up: nat)
      requires lo < up < a.Length
      modifies this, a
      ensures Rearranged(old(a[..]), a[..], lo, up) && (Strict(less) ==> Le(less, a[lo], a[up]))
    {
      hide Rearranged;
      ghost var s := a[..];
      SwapNothing(s, lo, up);
      var swap := Comp(a[up], a[lo]);
      if swap {
        Swap(lo, up);
        SwapRearranged(s, a[..], lo, up, lo, up);
      }
    }

    method SortMiddle(lo: nat, p: nat, up: nat)
      requires lo < p < up < a.Length && (Strict(less) ==> Le(less, a[lo], a[up]))
      modifies this, a
      ensures Rearranged(old(a[..]), a[..], lo, up)
      ensures Strict(less) ==> Le(less, a[lo], a[p]) && Le(less, a[p], a[up])
    {
      hide Rearranged;
      ghost var s := a[..];
      SwapNothing(s, lo, up);
      var swap := Comp(a[p], a[lo]);
      if swap {
        Swap(p, lo);
        SwapRearranged(s, a[..], p, lo, lo, up);
      } else {
        swap := Comp(a[up], a[p]);
        if swap {
          Swap(p, up);
          SwapRearranged(s, a[..], p, up, lo, up);
        }
      }
    }

    /** choosePivot (ltablib.c:346-351): in the second or third quarter */
    method ChoosePivot(lo: nat, up: nat, rnd: nat) returns (p: nat)
      requires up >= lo + 4
      ensures lo + (up - lo) / 4 <= p <= up - (up - lo) / 4
    {
      var r4 := (up - lo) / 4;
      p := rnd % (r4 * 2) + (lo + r4);
    }

    /** The pivot is chosen, and in order with both ends (ltablib.c:362-388); 'done' when
        there are at most three elements. */
    method Prepare(lo: nat, up: nat, rnd: nat) returns (done: bool, p: nat)
      requires lo < up < a.Length
      modifies this, a
      ensures Rearranged(old(a[..]), a[..], lo, up)
      ensures !done ==> up - lo >= 3 && lo < p < up && (Strict(less) ==> Le(less, a[lo], a[p]) && Le(less, a[p], a[up]))
      ensures done && Strict(less) ==> Sorted(less, a[..], lo, up)
    {
      hide Rearranged, Strict, Le;
      ghost var s := a[..];
      SortEnds(lo, up);
      ghost var t := a[..];
      done, p := true, lo;
      if up - lo == 1 {
        TwoSorted(lo, up);
        return;
      }
      if up - lo < RANLIMIT || rnd == 0 {
        p := (lo + up) / 2;
      } else {
        p := ChoosePivot(lo, up, rnd);
      }
      SortMiddle(lo, p, up);
      RearrangedTrans(s, t, a[..], lo, up, lo, up);
      if up - lo == 2 {
        ThreeSorted(lo, up);
      } else {
        done := false;
      }
    }

    /** One turn of the loop of auxsort, up to the partition (ltablib.c:362-393). */
    method Divide(lo: nat, up: nat, rnd: nat) returns (ok: bool, done: bool, p: nat)
      requires lo < up < a.Length
      modifies this, a
      ensures Rearranged(old(a[..]), a[..], lo, up) && (Strict(less) ==> ok)
      ensures ok && !done ==> up - lo >= 3 && lo < p < up && (Strict(less) ==> Parted(a[..], lo, p, up))
      ensures ok && done && Strict(less) ==> Sorted(less, a[..], lo, up)
    {
      hide Rearranged, Strict, Parted, Sorted, Le;
      ghost var s := a[..];
      ok := true;
      done, p := Prepare(lo, up, rnd);
      if done {
        return;
      }
      ghost var t := a[..];
      Swap(p, up - 1);
      SwapRearranged(t, a[..], p, up - 1, lo, up);
      RearrangedTrans(s, t, a[..], lo, up, lo, up);
      t := a[..];
      ok, p := Partition(lo, up);
      RearrangedTrans(s, t, a[..], lo, up, lo, up);
    }

    lemma TwoSorted(lo: nat, up: nat)
      requires up == lo + 1 < a.Length && (Strict(less) ==> Le(less, a[lo], a[up]))
      ensures Strict(less) ==> Sorted(less, a[..], lo, up)
    {
    }

    lemma ThreeSorted(lo: nat, up: nat)
      requires up == lo + 2 < a.Length
      requires Strict(less) ==> Le(less, a[lo], a[lo + 1]) && Le(less, a[lo + 1], a[up])
      ensures Strict(less) ==> Sorted(less, a[..], lo, up)
    {
    }

    lemma OuterStart(s: seq<V>, lo: int, up: int)
      ensures Outer(s, lo, lo, up, up)
    {
    }

    /** The turn's rearrangement is one of the whole. */
    lemma Advance(s: seq<V>, t: seq<V>, u: seq<V>, lo0: int, lo: int, up: int, up0: int)
      requires Rearranged(s, t, lo0, up0) && Rearranged(t, u, lo, up) && 0 <= lo0 <= lo && up <= up0 < |s|
      ensures Rearranged(s, u, lo0, up0)
      ensures Outer(t, lo0, lo, up, up0) ==> Outer(u, lo0, lo, up, up0)
    {
      RearrangedTrans(s, t, u, lo0, up0, lo, up);
      if Outer(t, lo0, lo, up, up0) {
        OuterKept(t, u, lo0, lo, up, up0);
      }
    }

    lemma Narrow(s: seq<V>, t: seq<V>, u: seq<V>, lo: int, up: int, lo0: int, up0: int)
      requires Rearranged(s, t, lo0, up0) && Rearranged(t, u, lo, up) && lo0 <= lo && up <= up0
      ensures Rearranged(s, u, lo0, up0)
    {
      RearrangedTrans(s, t, u, lo0, up0, lo, up);
    }

    lemma AllDone(s: seq<V>, lo0: int, lo: int, up: int, up0: int)
      requires 0 <= lo0 <= lo && up <= up0 < |s| && Outer(s, lo0, lo, up, up0) && Sorted(less, s, lo, up)
      ensures Sorted(less, s, lo0, up0)
    {
    }

    lemma NothingLeft(s: seq<V>, lo0: int, lo: int, up: int, up0: int)
      requires Strict(less) && 0 <= lo0 <= lo && up <= up0 < |s| && up <= lo && Outer(s, lo0, lo, up, up0)
      ensures Sorted(less, s, lo0, up0)
    {
    }

    ghost function Deeper(depth: nat, d: nat): nat {
      if depth < d + 1 then d + 1 else depth
    }

    lemma DeeperFits(depth: nat, d: nat, m: nat, size: nat)
      requires (depth == 0 || Pow2(depth) <= size) && (d == 0 || Pow2(d) <= m) && 2 * m <= size && size >= 4
      ensures Pow2(Deeper(depth, d)) <= size
    {
      assert Pow2(d + 1) == 2 * Pow2(d);
    }

    /** auxsort: with a strict weak order it sorts; with any comparison it ends, keeps the
        elements, stays within bounds, and nests at most log2 of their number deep. */
    method AuxSort(lo0: nat, up0: nat, rnd0: nat, randoms: nat -> nat) returns (ok: bool, ghost depth: nat)
      requires lo0 <= up0 + 1 && up0 < a.Length
      modifies this, a
      ensures Rearranged(old(a[..]), a[..], lo0, up0)
      ensures Strict(less) ==> ok && Sorted(less, a[..], lo0, up0)
      ensures depth == 0 || Pow2(depth) <= up0 - lo0 + 1
      decreases up0 + 1 - lo0
    {
      hide Rearranged, Strict, Parted, Sorted, Outer, Le;
      ghost var s := a[..];
      SwapNothing(s, lo0, up0);
      OuterStart(s, lo0, up0);
      depth := 0;
      var lo, up, rnd := lo0, up0, rnd0;
      while lo < up
        invariant lo0 <= lo <= up + 1 && up <= up0
        invariant Rearranged(s, a[..], lo0, up0) && (Strict(less) ==> Outer(a[..], lo0, lo, up, up0))
        invariant depth == 0 || Pow2(depth) <= up0 - lo0 + 1
        decreases up - lo
      {
        ghost var t := a[..];
        var done, p;
        ok, done, p := Divide(lo, up, rnd);
        Advance(s, t, a[..], lo0, lo, up, up0);
        if !ok {
          return;
        }
        if done {
          if Strict(less) {
            AllDone(a[..], lo0, lo, up, up0);
          }
          return;
        }
        t := a[..];
        var n;
        ghost var d;
        if p - lo < up - p {
          ok, d := AuxSort(lo, p - 1, rnd, randoms);
          DeeperFits(depth, d, p - lo, up0 - lo0 + 1);
          Narrow(s, t, a[..], lo, p - 1, lo0, up0);
          depth := Deeper(depth, d);
          if !ok {
            return;
          }
          if Strict(less) {
            LowerDone(t, a[..], lo0, lo, p, up, up0);
          }
          n := p - lo;
          lo := p + 1;
        } else {
          ok, d := AuxSort(p + 1, up, rnd, randoms);
          DeeperFits(depth, d, up - p, up0 - lo0 + 1);
          Narrow(s, t, a[..], p + 1, up, lo0, up0);
          depth := Deeper(depth, d);
          if !ok {
            return;
          }
          if Strict(less) {
            UpperDone(t, a[..], lo0, lo, p, up, up0);
          }
          n := up - p;
          up := p - 1;
        }
        if (up - lo) / 128 > n {
          rnd := randoms(calls);
        }
      }
      if Strict(less) {
        NothingLeft(a[..], lo0, lo, up, up0);
      }
      ok := true;
    }
  }
}
