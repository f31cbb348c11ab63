/** How big the array part of a table should be (apps/lua/ltable.c:211-240,
    apps/lua/lobject.c:65-80). */
module TableSizes {
  import opened TableChains

  const MAXABITS := 31
  const MAXASIZE := 0x8000_0000
  const UINT := 0x1_0000_0000

  function Pow2(i: nat): (r: nat)
    ensures r > 0
  {
    if i == 0 then 1 else 2 * Pow2(i - 1)
  }

  lemma {:induction false} Pow2Mono(i: nat, j: nat)
    requires i <= j
    ensures Pow2(i) <= Pow2(j) && (i < j ==> 2 * Pow2(i) <= Pow2(j))
  {
    if i < j {
      Pow2Mono(i, j - 1);
    }
  }

  lemma Pow2Add8(i: nat)
    ensures Pow2(i + 8) == 256 * Pow2(i)
  {
    assert Pow2(i + 8) == 2 * Pow2(i + 7) == 4 * Pow2(i + 6) == 8 * Pow2(i + 5) == 16 * Pow2(i + 4);
    assert Pow2(i + 4) == 2 * Pow2(i + 3) == 4 * Pow2(i + 2) == 8 * Pow2(i + 1) == 16 * Pow2(i);
  }

  lemma Pow2At31()
    ensures Pow2(31) == MAXASIZE && Pow2(8) == 256
  {
    Pow2Add8(0);
    Pow2Add8(8);
    Pow2Add8(16);
    assert Pow2(31) == 2 * Pow2(30) == 4 * Pow2(29) == 8 * Pow2(28) == 16 * Pow2(27);
    assert Pow2(27) == 2 * Pow2(26) == 4 * Pow2(25) == 8 * Pow2(24);
  }

  /** The table 'log_2' of luaO_ceillog2: ceil(log2(x + 1)). */
  function Log2Table(x: nat): nat
    requires x < 256
  {
    if x < 1 then 0 else if x < 2 then 1 else if x < 4 then 2 else if x < 8 then 3
    else if x < 16 then 4 else if x < 32 then 5 else if x < 64 then 6 else if x < 128 then 7 else 8
  }

  lemma Log2TableOK(x: nat)
    requires x < 256
    ensures x < Pow2(Log2Table(x)) && (x > 0 ==> Log2Table(x) > 0 && Pow2(Log2Table(x) - 1) <= x)
  {
    assert Pow2(0) == 1 && Pow2(1) == 2 && Pow2(2) == 4 && Pow2(3) == 8;
    assert Pow2(4) == 16 && Pow2(5) == 32;
    assert Pow2(6) == 64 && Pow2(7) == 128 && Pow2(8) == 256;
  }

  /** 'l' is the logarithm of 'x', rounded up. */
  ghost predicate CeilLog(x: nat, l: nat) {
    x <= Pow2(l) && (l > 0 ==> Pow2(l - 1) < x)
  }

  lemma {:induction false} Pow2Sum(i: nat, j: nat)
    ensures Pow2(i + j) == Pow2(i) * Pow2(j)
  {
    if j > 0 {
      Pow2Sum(i, j - 1);
      assert Pow2(i + j) == 2 * Pow2(i + (j - 1));
      assert Pow2(i) * Pow2(j) == 2 * (Pow2(i) * Pow2(j - 1));
    }
  }

  /** luaO_ceillog2 (lobject.c:65-80) */
  method CeilLog2(x: nat) returns (l: nat)
    requires x > 0
    ensures CeilLog(x, l)
  {
    var y := x - 1;
    l := 0;
    while y >= 256
      invariant y * Pow2(l) <= x - 1 < (y + 1) * Pow2(l)
      invariant l > 0 ==> y > 0
    {
      ShiftEight(x - 1, y, l);
      l := l + 8;
      y := y / 256;
    }
    Log2TableOK(y);
    CeilLogSum(x, y, l, Log2Table(y));
    l := l + Log2Table(y);
  }

  lemma ShiftEight(x: nat, y: nat, l: nat)
    requires y * Pow2(l) <= x < (y + 1) * Pow2(l)
    ensures (y / 256) * Pow2(l + 8) <= x < (y / 256 + 1) * Pow2(l + 8)
  {
    Pow2Add8(l);
    var q, p := y / 256, Pow2(l);
    assert 256 * q <= y && y + 1 <= 256 * (q + 1);
    assert (256 * q) * p <= y * p by {
      MulMono(256 * q, y, p);
    }
    assert (y + 1) * p <= (256 * (q + 1)) * p by {
      MulMono(y + 1, 256 * (q + 1), p);
    }
    assert q * (256 * p) == (256 * q) * p && (q + 1) * (256 * p) == (256 * (q + 1)) * p;
  }

  lemma MulMono(a: nat, b: nat, p: nat)
    requires a <= b
    ensures a * p <= b * p
  {
    assert b * p == a * p + (b - a) * p;
  }

  lemma CeilLogSum(x: nat, y: nat, l: nat, t: nat)
    requires x > 0 && y * Pow2(l) <= x - 1 < (y + 1) * Pow2(l)
    requires y < Pow2(t) && (y > 0 ==> t > 0 && Pow2(t - 1) <= y) && (y == 0 ==> t == 0 && l == 0)
    ensures CeilLog(x, l + t)
  {
    var a, b := Pow2(l), Pow2(t);
    Pow2Sum(l, t);
    MulMono(y + 1, b, a);
    MulComm(a, b);
    assert x <= Pow2(l + t);
    if t > 0 {
      var c := Pow2(t - 1);
      Pow2Sum(l, t - 1);
      MulMono(c, y, a);
      MulComm(a, c);
      assert Pow2(l + (t - 1)) < x;
    }
  }

  lemma MulComm(a: nat, b: nat)
    ensures a * b == b * a
  {
  }

  // ---------- counting keys by slices ----------

  /** Keys of 'K' between 1 and 'n'. */
  ghost function UpTo(K: set<int>, n: int): set<int> {
    set k | k in K && 1 <= k <= n
  }

  ghost function Count(K: set<int>, n: int): nat {
    |UpTo(K, n)|
  }

  /** The lower end, exclusive, of the i-th slice. */
  function Low(i: nat): nat {
    if i == 0 then 0 else Pow2(i - 1)
  }

  ghost function Slice(K: set<int>, i: nat): set<int> {
    set k | k in K && Low(i) < k <= Pow2(i)
  }

  /** 'nums' counts the keys of 'K', slice by slice. */
  ghost predicate Counts(nums: seq<nat>, K: set<int>) {
    |nums| == MAXABITS + 1 && forall i :: 0 <= i <= MAXABITS ==> nums[i] == |Slice(K, i)|
  }

  lemma CountSlice(K: set<int>, i: nat)
    ensures Count(K, Pow2(i)) == Count(K, Low(i)) + |Slice(K, i)|
  {
    if i > 0 {
      Pow2Mono(i - 1, i);
    }
    assert UpTo(K, Pow2(i)) == UpTo(K, Low(i)) + Slice(K, i);
  }

  lemma {:induction false} CountAtMost(K: set<int>, n: nat)
    ensures Count(K, n) <= n
  {
    if n > 0 {
      CountAtMost(K, n - 1);
      assert UpTo(K, n) <= UpTo(K, n - 1) + {n};
      SizeMono(UpTo(K, n), UpTo(K, n - 1) + {n});
    } else {
      assert UpTo(K, 0) == {};
    }
  }

  lemma {:induction false} SizeMono(a: set<int>, b: set<int>)
    requires a <= b
    ensures |a| <= |b|
  {
    assert b == a + (b - a);
  }

  lemma CountMono(K: set<int>, m: int, n: int)
    requires m <= n
    ensures Count(K, m) <= Count(K, n)
  {
    SizeMono(UpTo(K, m), UpTo(K, n));
  }

  /** One more key belongs to the slice of its logarithm. */
  lemma CountOneMore(nums: seq<nat>, K: set<int>, k: int, l: nat)
    requires Counts(nums, K) && 1 <= k <= MAXASIZE && k !in K && CeilLog(k, l)
    ensures l <= MAXABITS && Counts(nums[l := nums[l] + 1], K + {k})
  {
    Pow2At31();
    if l > MAXABITS {
      Pow2Mono(31, l - 1);
    }
    forall i | 0 <= i <= MAXABITS ensures |Slice(K + {k}, i)| == |Slice(K, i)| + (if i == l then 1 else 0) {
      SliceOneMore(K, k, l, i);
    }
  }

  lemma SliceOneMore(K: set<int>, k: int, l: nat, i: nat)
    requires k >= 1 && k !in K && CeilLog(k, l)
    ensures |Slice(K + {k}, i)| == |Slice(K, i)| + (if i == l then 1 else 0)
  {
    if i == l {
      assert Slice(K + {k}, i) == Slice(K, i) + {k};
    } else {
      if i < l {
        Pow2Mono(i, l - 1);
      } else {
        Pow2Mono(l, i - 1);
      }
      assert Slice(K + {k}, i) == Slice(K, i);
    }
  }

  lemma NoneUpTo0(K: set<int>)
    ensures Count(K, 0) == 0 && BestBelow(K, 0, 0)
  {
    assert UpTo(K, 0) == {};
  }

  /** 'n' is the largest power of two such that more than half of 1..n are keys, or 0. */
  ghost predicate BestSize(K: set<int>, n: nat) {
    BestBelow(K, n, MAXABITS + 1)
  }

  /** Of the powers of two below the i-th. */
  ghost predicate BestBelow(K: set<int>, n: nat, i: nat) {
    && (n == 0 || exists j: nat :: j < i && IsPow2(j, n) && Count(K, n) > n / 2)
    && (forall j :: 0 <= j < i && Pow2(j) > n ==> Count(K, Pow2(j)) <= Pow2(j) / 2)
  }

  ghost predicate IsPow2(i: nat, n: nat) {
    i <= MAXABITS && n == Pow2(i)
  }

  lemma BestTaken(K: set<int>, n: nat, i: nat)
    requires BestBelow(K, n, i) && i <= MAXABITS && Count(K, Pow2(i)) > Pow2(i) / 2
    ensures BestBelow(K, Pow2(i), i + 1)
  {
    assert IsPow2(i, Pow2(i));
    forall j | 0 <= j < i + 1 ensures Pow2(j) <= Pow2(i) {
      Pow2Mono(j, i);
    }
  }

  lemma BestEnd(K: set<int>, n: nat, i: nat)
    requires BestBelow(K, n, i) && (i > MAXABITS || Count(K, MAXASIZE) <= Pow2(i) / 2) && i <= MAXABITS + 1
    ensures BestSize(K, n) && n <= MAXASIZE
  {
    Pow2At31();
    forall j | 0 <= j <= MAXABITS && Pow2(j) > n ensures Count(K, Pow2(j)) <= Pow2(j) / 2 {
      if j >= i {
        Pow2Mono(i, j);
        Pow2Mono(j, 31);
        CountMono(K, Pow2(j), MAXASIZE);
      }
    }
    if n > 0 {
      var j: nat :| j < i && IsPow2(j, n) && Count(K, n) > n / 2;
      Pow2Mono(j, 31);
    }
  }

  /** A slice without keys cannot make a size better. */
  lemma EmptySlice(K: set<int>, i: nat)
    requires |Slice(K, i)| == 0
    ensures Count(K, Pow2(i)) <= Pow2(i) / 2
  {
    CountSlice(K, i);
    CountAtMost(K, Low(i));
  }

  /** computesizes (ltable.c:219-240): early exit, empty slices and the wrap of 'twotoi'
      included. */
  method ComputeSizes(nums: seq<nat>, pna: nat, ghost K: set<int>) returns (optimal: nat, na: nat)
    requires Counts(nums, K) && pna == Count(K, MAXASIZE)
    ensures BestSize(K, optimal) && na == Count(K, optimal) && optimal <= MAXASIZE
  {
    hide BestBelow, Count, Slice;
    var a := 0;
    na, optimal := 0, 0;
    var i, twotoi := 0, 1;
    NoneUpTo0(K);
    while twotoi > 0 && pna > twotoi / 2
      invariant i <= MAXABITS + 1 && twotoi == (if i <= MAXABITS then Pow2(i) else 0)
      invariant a == Count(K, Low(i)) && na == Count(K, optimal)
      invariant BestBelow(K, optimal, i)
      decreases MAXABITS + 1 - i
    {
      CountSlice(K, i);
      if nums[i] > 0 {
        a := a + nums[i];
        if a > twotoi / 2 {
          BestTaken(K, optimal, i);
          optimal := twotoi;
          na := a;
        } else {
          BestKept(K, optimal, i);
        }
      } else {
        EmptySlice(K, i);
        BestKept(K, optimal, i);
      }
      Doubles(i);
      twotoi := twotoi * 2 % UINT;
      i := i + 1;
    }
    BestEnd(K, optimal, i);
  }

  lemma BestKept(K: set<int>, n: nat, i: nat)
    requires BestBelow(K, n, i) && Count(K, Pow2(i)) <= Pow2(i) / 2
    ensures BestBelow(K, n, i + 1)
  {
  }

  lemma Doubles(i: nat)
    requires i <= MAXABITS
    ensures Pow2(i) * 2 % UINT == (if i + 1 <= MAXABITS then Pow2(i + 1) else 0)
  {
    Pow2At31();
    if i < MAXABITS {
      Pow2Mono(i + 1, 31);
    }
  }
}
