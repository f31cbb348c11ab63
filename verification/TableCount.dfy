/** Counting the integer keys of a table before a rehash (apps/lua/ltable.c:243-298). */
module TableCount {
  import opened TableChains
  import opened TableSizes

  /** Indices of the array part that are in use. */
  ghost function Used(a: seq<Val>): set<int> {
    set i | 1 <= i <= |a| && UsedAt(a, i)
  }

  predicate UsedAt(a: seq<Val>, i: int) {
    1 <= i <= |a| && a[i - 1] != Nil
  }

  /** Positive integers within reach of an array part. */
  predicate ArrayIndex(k: Val) {
    k.Int? && 0 < k.i <= MAXASIZE
  }

  ghost function Between(K: set<int>, lo: int, hi: int): set<int> {
    set k | k in K && lo < k <= hi
  }

  lemma BetweenStep(K: set<int>, lo: int, i: int)
    requires lo < i
    ensures |Between(K, lo, i)| == |Between(K, lo, i - 1)| + (if i in K then 1 else 0)
  {
    if i in K {
      assert Between(K, lo, i) == Between(K, lo, i - 1) + {i};
    } else {
      assert Between(K, lo, i) == Between(K, lo, i - 1);
    }
  }

  /** numusearray (ltable.c:259-282) */
  method NumUseArray(arr: array<Val>, nums: array<nat>) returns (ause: nat)
    requires nums.Length == MAXABITS + 1 && arr.Length <= MAXASIZE && arr as object != nums
    requires forall i :: 0 <= i < nums.Length ==> nums[i] == 0
    modifies nums
    ensures Counts(nums[..], Used(arr[..])) && ause == |Used(arr[..])|
  {
    hide Used, Between, Slice, Counts;
    ghost var U := Used(arr[..]);
    ause := 0;
    var i, lg, ttlg := 1, 0, 1;
    NoneBetween(U, 0);
    Pow2At31();
    while lg <= MAXABITS
      invariant lg <= MAXABITS + 1 && ttlg == Pow2(lg)
      invariant i == 1 + Least(Low(lg), arr.Length)
      invariant forall j :: 0 <= j < lg ==> nums[j] == |Slice(U, j)|
      invariant forall j :: lg <= j < nums.Length ==> nums[j] == 0
      invariant ause == |Between(U, 0, i - 1)|
    {
      var lim := ttlg;
      if lim > arr.Length {
        lim := arr.Length;
        if i > lim {
          break;
        }
      }
      LowLess(lg);
      ghost var i0 := i - 1;
      var lc;
      i, lc := CountSliceOf(arr, i, lim);
      nums[lg] := nums[lg] + lc;
      WholeSlice(arr[..], i0, lim, lg);
      ause := ause + lc;
      lg := lg + 1;
      ttlg := ttlg * 2;
    }
    forall j | 0 <= j <= MAXABITS ensures nums[..][j] == |Slice(U, j)| {
      if lg <= j {
        NoSlice(arr[..], lg, j);
      }
    }
    CountsAre(nums[..], U);
    AllBetween(arr[..], i - 1);
  }

  /** Elements in use among 'i' to 'lim' (ltable.c:273-277). */
  method CountSliceOf(arr: array<Val>, i: nat, lim: nat) returns (next: nat, lc: nat)
    requires 1 <= i <= lim + 1 && lim <= arr.Length
    ensures next == lim + 1 && lc == |Between(Used(arr[..]), i - 1, lim)|
  {
    ghost var U := Used(arr[..]);
    lc := 0;
    next := i;
    NoneBetween(U, i - 1);
    while next <= lim
      invariant i <= next <= lim + 1
      invariant lc == |Between(U, i - 1, next - 1)|
    {
      BetweenStep(U, i - 1, next);
      if arr[next - 1] != Nil {
        lc := lc + 1;
      }
      next := next + 1;
    }
  }

  lemma NoneBetween(K: set<int>, i: int)
    ensures Between(K, i, i) == {}
  {
  }

  lemma WholeSlice(a: seq<Val>, i0: nat, lim: nat, lg: nat)
    requires i0 == Least(Low(lg), |a|) && lim == Least(Pow2(lg), |a|) && Low(lg) < Pow2(lg)
    ensures var U := Used(a);
            && Between(U, i0, lim) == Slice(U, lg)
            && |Between(U, 0, lim)| == |Between(U, 0, i0)| + |Between(U, i0, lim)|
  {
    var U := Used(a);
    assert Between(U, 0, lim) == Between(U, 0, i0) + Between(U, i0, lim);
  }

  lemma NoSlice(a: seq<Val>, lg: nat, j: nat)
    requires lg <= j && |a| <= Low(lg)
    ensures Slice(Used(a), j) == {}
  {
    if 0 < lg < j {
      Pow2Mono(lg - 1, j - 1);
    }
  }

  lemma AllBetween(a: seq<Val>, n: nat)
    requires n >= |a|
    ensures Between(Used(a), 0, n) == Used(a)
  {
  }

  lemma CountsAre(nums: seq<nat>, K: set<int>)
    requires |nums| == MAXABITS + 1 && forall j :: 0 <= j <= MAXABITS ==> nums[j] == |Slice(K, j)|
    ensures Counts(nums, K)
  {
  }

  function Least(a: nat, b: nat): nat {
    if a < b then a else b
  }

  lemma LowLess(lg: nat)
    ensures Low(lg) < Pow2(lg)
  {
    if lg > 0 {
      Pow2Mono(lg - 1, lg);
    }
  }

  /** Integer keys of entries, and all keys of entries, of the nodes from 'i' on. */
  ghost function NodeKeys(ns: seq<Node>, i: nat): set<Val> {
    set j | i <= j < |ns| && ns[j].val != Nil :: ns[j].key
  }

  ghost function IntKeys(ks: set<Val>): set<int> {
    set k | k in ks && ArrayIndex(k) :: k.i
  }

  /** countint (ltable.c:243-251) */
  method CountInt(key: Val, nums: array<nat>, ghost K: set<int>) returns (c: nat)
    requires Counts(nums[..], K) && (ArrayIndex(key) ==> key.i !in K)
    modifies nums
    ensures Counts(nums[..], K + IntKeys({key})) && c == |IntKeys({key})| <= 1
  {
    if ArrayIndex(key) {
      var l := CeilLog2(key.i);
      CountOneMore(nums[..], K, key.i, l);
      ghost var was := nums[..];
      nums[l] := nums[l] + 1;
      assert nums[..] == was[l := was[l] + 1];
      assert IntKeys({key}) == {key.i};
      c := 1;
    } else {
      assert IntKeys({key}) == {};
      assert K + {} == K;
      c := 0;
    }
  }

  /** numusehash (ltable.c:285-298): 'ause' counts integer keys, 'totaluse' all keys. */
  method NumUseHash(node: array<Node>, nums: array<nat>, ghost K: set<int>) returns (totaluse: nat, ause: nat)
    requires Distinct(node[..]) && node as object != nums && Counts(nums[..], K)
    requires forall j :: 0 <= j < node.Length ==> (node[j].key == Nil ==> node[j].val == Nil)
    requires forall j :: 0 <= j < node.Length && node[j].val != Nil && ArrayIndex(node[j].key) ==> node[j].key.i !in K
    modifies nums
    ensures var ks := NodeKeys(node[..], 0);
            Counts(nums[..], K + IntKeys(ks)) && totaluse == |ks| && ause == |IntKeys(ks)|
  {
    hide Counts, IntKeys, NodeKeys, Distinct;
    totaluse, ause := 0, 0;
    var i := node.Length;
    ghost var ns := node[..];
    NoNodeKeys(ns);
    assert K + {} == K;
    while i > 0
      invariant 0 <= i <= node.Length
      invariant var ks := NodeKeys(ns, i);
                Counts(nums[..], K + IntKeys(ks)) && totaluse == |ks| && ause == |IntKeys(ks)|
    {
      i := i - 1;
      var n := node[i];
      if n.val != Nil {
        assert ns[i] == n;
        NodeKeysStep(ns, i);
        IntKeysStep(NodeKeys(ns, i + 1), n.key);
        if ArrayIndex(n.key) {
          NotCounted(ns, i);
        }
        var c := CountInt(n.key, nums, K + IntKeys(NodeKeys(ns, i + 1)));
        assert K + IntKeys(NodeKeys(ns, i + 1)) + IntKeys({n.key}) == K + IntKeys(NodeKeys(ns, i));
        ause := ause + c;
        totaluse := totaluse + 1;
      } else {
        NodeKeysSkip(ns, i);
      }
    }
  }

  lemma NoNodeKeys(ns: seq<Node>)
    ensures NodeKeys(ns, |ns|) == {} && IntKeys({}) == {}
  {
  }

  lemma NodeKeysSkip(ns: seq<Node>, i: nat)
    requires i < |ns| && ns[i].val == Nil
    ensures NodeKeys(ns, i) == NodeKeys(ns, i + 1)
  {
  }

  lemma NodeKeysStep(ns: seq<Node>, i: nat)
    requires Distinct(ns) && i < |ns| && ns[i].val != Nil && ns[i].key != Nil
    ensures NodeKeys(ns, i) == NodeKeys(ns, i + 1) + {ns[i].key} && ns[i].key !in NodeKeys(ns, i + 1)
  {
  }

  lemma IntKeysStep(ks: set<Val>, k: Val)
    requires k !in ks
    ensures IntKeys(ks + {k}) == IntKeys(ks) + IntKeys({k})
    ensures IntKeys(ks) !! IntKeys({k})
  {
  }

  lemma NotCounted(ns: seq<Node>, i: nat)
    requires Distinct(ns) && i < |ns| && ns[i].val != Nil && ns[i].key != Nil && ArrayIndex(ns[i].key)
    ensures ns[i].key.i !in IntKeys(NodeKeys(ns, i + 1))
  {
  }
}
