/** What a Lua table means: a map from keys to values. */
module TableSpec {
  import opened TableChains
  import opened TableSizes
  import opened TableCount

  const MAXHBITS := MAXABITS - 1

  predicate Integral(r: real) {
    r.Floor as real == r && -0x8000_0000_0000_0000 <= r.Floor < 0x8000_0000_0000_0000
  }

  /** Floats with integral values are the same keys as integers. */
  function Norm(k: Val): Val {
    if k.Flt? && Integral(k.r) then Int(k.r.Floor) else k
  }

  predicate InArray(k: Val, n: nat) {
    k.Int? && 1 <= k.i <= n
  }

  ghost function Lookup(a: seq<Val>, ns: seq<Node>, k: Val): Val {
    if InArray(k, |a|) then a[k.i - 1] else ValueOf(ns, k)
  }

  /** Keys fit to be in a node: of this table, with an array part of size 'n'. */
  predicate KeyOK(k: Val, n: nat) {
    Norm(k) == k && k != NaN && !InArray(k, n)
  }

  /** luaV_rawequalobj (lvm.c:407-450): numbers are equal as integers, too. */
  predicate RawEqual(x: Val, y: Val) {
    if x.Int? && y.Flt? then Integral(y.r) && x.i == y.r.Floor
    else if x.Flt? && y.Int? then Integral(x.r) && x.r.Floor == y.i
    else x == y && x != NaN
  }

  /** The same key to a program: an integer, of 64 bits, is the same as the float with its value
      (section 3.4.3 of the Lua 5.3 Reference Manual). */
  predicate SameKey(x: Val, y: Val) {
    match (x, y)
    case (Int(i), Flt(r)) => -0x8000_0000_0000_0000 <= i <= 0x7fff_ffff_ffff_ffff && r == i as real
    case (Flt(r), Int(i)) => -0x8000_0000_0000_0000 <= i <= 0x7fff_ffff_ffff_ffff && r == i as real
    case _ => x == y
  }

  lemma NormSame(x: Val, y: Val)
    ensures Norm(x) == Norm(y) <==> SameKey(x, y)
  {
    if x.Flt? && y.Flt? && Integral(x.r) && Integral(y.r) && x.r.Floor == y.r.Floor {
      assert x.r == y.r;
    }
    if x.Int? && y.Flt? && Integral(y.r) {
      assert y.r.Floor as real == y.r;
      assert x.i == y.r.Floor <==> y.r == x.i as real;
    }
    if x.Flt? && y.Int? && Integral(x.r) {
      assert x.r.Floor as real == x.r;
      assert y.i == x.r.Floor <==> x.r == y.i as real;
    }
  }

  /** What a traversal takes for the same key; NaN is none. */
  lemma RawEqualSame(x: Val, y: Val)
    ensures RawEqual(x, y) <==> SameKey(x, y) && x != NaN
  {
    NormSame(x, y);
  }

  /** The keys of nodes are equal to a key just when they are what it is normalized to. */
  lemma RawEqualNorm(x: Val, n: nat, y: Val)
    requires KeyOK(x, n)
    ensures RawEqual(x, y) <==> x == Norm(y)
  {
    if x.Flt? && y.Flt? && Integral(y.r) {
      assert y.r.Floor as real == y.r;
    }
  }

  /** The node that 'n' links lead to from node 'i', or -1. */
  function Hop(ns: seq<Node>, i: nat, n: nat): (j: int)
    requires i < |ns|
    ensures -1 <= j < |ns|
  {
    if n == 0 then i
    else
      var p := Hop(ns, i, n - 1);
      if p < 0 || ns[p].next == 0 || !(0 <= p + ns[p].next < |ns|) then -1 else p + ns[p].next
  }

  /** A node with the key that 'k' is normalized to lies on the chain from the main position
      of 'k' itself on. */
  ghost predicate OnChain(h: Hash, ns: seq<Node>, k: Val)
    requires |ns| > 0
  {
    exists n: nat :: KeyAfter(ns, Main(h, k, |ns|), n, Norm(k))
  }

  predicate KeyAfter(ns: seq<Node>, i: nat, n: nat, k: Val)
    requires i < |ns|
  {
    var p := Hop(ns, i, n);
    0 <= p && ns[p].key == k
  }

  lemma {:induction false} LeadsHop(ns: seq<Node>, ord: seq<nat>, m: nat, p: nat)
    requires Chained(ns, ord) && Leads(ns, ord, m, p)
    ensures ord[m] < |ns| && Hop(ns, ord[m], p - m) == ord[p]
    decreases p - m
  {
    if p > m {
      LeadsHop(ns, ord, m, p - 1);
      LinkAt(ns, ord, p - 1);
    }
  }

  lemma {:induction false} HopEnds(ns: seq<Node>, i: nat, n: nat, m: nat)
    requires i < |ns| && n < m && (Hop(ns, i, n) < 0 || ns[Hop(ns, i, n)].next == 0)
    ensures Hop(ns, i, m) == -1
    decreases m
  {
    if n < m - 1 {
      HopEnds(ns, i, n, m - 1);
    }
  }

  lemma HopStart(ns: seq<Node>, i: nat)
    requires i < |ns|
    ensures Hop(ns, i, 0) == i
  {
  }

  lemma HopOn(ns: seq<Node>, i: nat, n: nat, j: nat)
    requires i < |ns| && j < |ns| && Hop(ns, i, n) >= 0 && ns[Hop(ns, i, n)].next != 0
    requires j == Hop(ns, i, n) + ns[Hop(ns, i, n)].next
    ensures Hop(ns, i, n + 1) == j
  {
  }

  /** A walk that ends without the key does not meet it. */
  lemma NotAfter(ns: seq<Node>, i: nat, n: nat, k: Val)
    requires i < |ns| && Hop(ns, i, n) >= 0 && ns[Hop(ns, i, n)].next == 0
    requires forall m :: 0 <= m < n ==> !KeyAfter(ns, i, m, k)
    requires !KeyAfter(ns, i, n, k)
    ensures forall m: nat :: !KeyAfter(ns, i, m, k)
  {
    forall m: nat ensures !KeyAfter(ns, i, m, k) {
      if m > n {
        HopEnds(ns, i, n, m);
      }
    }
  }

  /** Normalized keys are on the chain just when some node holds them. */
  lemma ChainHas(h: Hash, ns: seq<Node>, ord: seq<nat>, k: Val)
    requires Hashed(h, ns, ord) && k != Nil && Norm(k) == k
    ensures OnChain(h, ns, k) <==> HasKey(ns, k)
  {
    if HasKey(ns, k) {
      var i :| 0 <= i < |ns| && ns[i].key == k;
      var p := PlaceOf(ns, ord, i);
      var m := Home(h, ns, ord, p);
      LeadsHop(ns, ord, m, p);
      assert KeyAfter(ns, Main(h, k, |ns|), p - m, Norm(k));
    }
  }

  /** With one node, 5.0 leads to the entry of 5, under any hash. */
  lemma FloatFound(h: Hash, v: Val)
    ensures var ns := [Node(Int(5), v, 0)];
            Hashed(h, ns, [0]) && KeysOK(ns, 0) && Norm(Flt(5.0)) == Int(5) && OnChain(h, ns, Flt(5.0))
  {
    var ns := [Node(Int(5), v, 0)];
    assert HomeAt(h, ns, [0], 0, 0);
    assert HasHome(h, ns, [0], 0);
    assert Norm(Flt(5.0)) == Int(5);
    assert KeyAfter(ns, Main(h, Flt(5.0), 1), 0, Int(5));
  }

  /** With two nodes, and main positions that differ, it leads to none. */
  lemma FloatMissed(v: Val)
    ensures var h: Hash := (k, n) => if k == Int(5) then 0 else 1;
            var ns := [Node(Int(5), v, 0), Node(Nil, Nil, 0)];
            Hashed(h, ns, [0]) && KeysOK(ns, 0) && Norm(Flt(5.0)) == Int(5) && HasKey(ns, Int(5)) && !OnChain(h, ns, Flt(5.0))
  {
    var h: Hash := (k, n) => if k == Int(5) then 0 else 1;
    var ns := [Node(Int(5), v, 0), Node(Nil, Nil, 0)];
    assert HomeAt(h, ns, [0], 0, 0);
    assert HasHome(h, ns, [0], 0);
    assert Norm(Flt(5.0)) == Int(5);
    assert Main(h, Flt(5.0), 2) == 1;
    assert ns[0].key == Int(5);
    forall n: nat ensures !KeyAfter(ns, 1, n, Int(5)) {
      if n > 0 {
        HopEnds(ns, 1, 0, n);
      }
    }
  }

  ghost predicate KeysOK(ns: seq<Node>, n: nat) {
    forall i :: 0 <= i < |ns| ==> KeyOK(ns[i].key, n)
  }

  ghost function ArrayKeys(a: seq<Val>): set<Val> {
    Ints(Used(a))
  }

  /** The keys that have a value. */
  ghost function LiveKeys(a: seq<Val>, ns: seq<Node>): set<Val> {
    ArrayKeys(a) + NodeKeys(ns, 0)
  }

  ghost function Contents(a: seq<Val>, ns: seq<Node>): map<Val, Val> {
    map k | k in LiveKeys(a, ns) :: Lookup(a, ns, k)
  }

  lemma ContentsKeys(a: seq<Val>, ns: seq<Node>)
    ensures Contents(a, ns).Keys == LiveKeys(a, ns)
  {
  }

  lemma LiveIff(a: seq<Val>, ns: seq<Node>, k: Val)
    requires Distinct(ns) && KeysOK(ns, |a|) && k != Nil && forall i :: 0 <= i < |ns| && ns[i].key == Nil ==> ns[i].val == Nil
    ensures k in LiveKeys(a, ns) <==> Lookup(a, ns, k) != Nil
  {
    if InArray(k, |a|) {
      assert UsedAt(a, k.i) <==> Lookup(a, ns, k) != Nil;
      assert forall j :: 0 <= j < |ns| ==> KeyOK(ns[j].key, |a|);
      assert k in ArrayKeys(a) <==> k.i in Used(a);
    } else if HasKey(ns, k) {
      var i :| 0 <= i < |ns| && ns[i].key == k;
      ValueAt(ns, i);
    }
  }

  // ---------- values under the changes of luaH_newkey ----------

  lemma ReuseValues(ns: seq<Node>, mp: nat, k: Val, x: Val)
    requires Distinct(ns) && mp < |ns| && ns[mp].val == Nil && !HasKey(ns, k) && k != Nil && x != Nil
    requires Distinct(Reuse(ns, mp, k))
    ensures ValueOf(Reuse(ns, mp, k), x) == ValueOf(ns, x)
  {
    var n1 := Reuse(ns, mp, k);
    if HasKey(ns, x) {
      var i :| 0 <= i < |ns| && ns[i].key == x;
      ValueAt(ns, i);
      if i != mp {
        ValueAt(n1, i);
      }
    } else if x == k {
      ValueAt(n1, mp);
    }
  }

  lemma ChainValues(ns: seq<Node>, mp: nat, f: nat, k: Val, x: Val)
    requires Distinct(ns) && mp < |ns| && f < |ns| && mp != f && ns[f] == Node(Nil, Nil, 0) && !HasKey(ns, k) && k != Nil
    requires Distinct(Chain(ns, mp, f, k)) && x != Nil
    ensures ValueOf(Chain(ns, mp, f, k), x) == ValueOf(ns, x)
  {
    var n1 := Chain(ns, mp, f, k);
    if HasKey(ns, x) {
      var i :| 0 <= i < |ns| && ns[i].key == x;
      ValueAt(ns, i);
      assert n1[i].key == x && n1[i].val == ns[i].val;
      ValueAt(n1, i);
    } else if x == k {
      ValueAt(n1, f);
    } else {
      assert forall i :: 0 <= i < |n1| ==> n1[i].key != x;
    }
  }

  lemma MoveValues(ns: seq<Node>, prev: nat, mp: nat, f: nat, k: Val, x: Val)
    requires Distinct(ns) && prev < |ns| && mp < |ns| && f < |ns| && prev != mp && prev != f && mp != f
    requires ns[f] == Node(Nil, Nil, 0) && !HasKey(ns, k) && k != Nil && x != Nil && Distinct(Move(ns, prev, mp, f, k))
    ensures ValueOf(Move(ns, prev, mp, f, k), x) == ValueOf(ns, x)
  {
    hide Move;
    MoveAt(ns, prev, mp, f, k);
    var n1 := Move(ns, prev, mp, f, k);
    if HasKey(ns, x) {
      var i :| 0 <= i < |ns| && ns[i].key == x;
      ValueAt(ns, i);
      ValueAt(n1, if i == mp then f else i);
    } else if x == k {
      ValueAt(n1, mp);
    } else {
      assert forall i :: 0 <= i < |n1| ==> n1[i].key != x;
    }
  }

  /** Writing to the value of a node. */
  function WithValue(ns: seq<Node>, i: nat, v: Val): seq<Node>
    requires i < |ns|
  {
    ns[i := ns[i].(val := v)]
  }

  lemma StoreHashed(h: Hash, ns: seq<Node>, ord: seq<nat>, i: nat, v: Val)
    requires Hashed(h, ns, ord) && i < |ns| && ns[i].key != Nil
    ensures Hashed(h, WithValue(ns, i, v), ord)
  {
    var n1 := WithValue(ns, i, v);
    assert forall j :: 0 <= j < |ns| ==> n1[j].key == ns[j].key && n1[j].next == ns[j].next;
    assert Chained(n1, ord);
    forall p | 0 <= p < |ord| ensures HasHome(h, n1, ord, p) {
      var m := Home(h, ns, ord, p);
      assert HomeAt(h, n1, ord, m, p);
    }
  }

  lemma StoreValues(ns: seq<Node>, i: nat, v: Val, x: Val)
    requires Distinct(ns) && i < |ns| && ns[i].key != Nil && x != Nil
    ensures ValueOf(WithValue(ns, i, v), x) == if x == ns[i].key then v else ValueOf(ns, x)
  {
    var n1 := WithValue(ns, i, v);
    assert forall j :: 0 <= j < |ns| ==> n1[j].key == ns[j].key;
    assert Distinct(n1);
    ValueAt(n1, i);
    if x != ns[i].key && HasKey(ns, x) {
      var j :| 0 <= j < |ns| && ns[j].key == x;
      ValueAt(ns, j);
      ValueAt(n1, j);
    }
  }

  // ---------- nodes in use ----------

  ghost function Elems(s: seq<nat>): set<nat> {
    set x | x in s
  }

  lemma {:induction false} NoDupSize(s: seq<nat>)
    requires NoDup(s)
    ensures |Elems(s)| == |s|
  {
    if s != [] {
      var t := s[..|s| - 1];
      var x := s[|s| - 1];
      assert s == t + [x];
      assert NoDup(t) && x !in t by {
        assert forall i :: 0 <= i < |t| ==> t[i] == s[i];
      }
      NoDupSize(t);
      assert Elems(s) == Elems(t) + {x};
    }
  }

  ghost function Indices(n: nat): set<nat> {
    if n == 0 then {} else Indices(n - 1) + {n - 1}
  }

  lemma {:induction false} IndicesAre(n: nat)
    ensures |Indices(n)| == n && forall x: nat :: x in Indices(n) <==> x < n
  {
    if n > 0 {
      IndicesAre(n - 1);
    }
  }

  lemma InRange(ns: seq<Node>, ord: seq<nat>)
    requires Chained(ns, ord)
    ensures NoDup(ord)
    ensures forall i :: i in ord ==> i < |ns|
    ensures forall i :: 0 <= i < |ns| ==> (ns[i].key != Nil <==> i in ord)
  {
  }

  /** There are as many nodes in use as nodes just when no node is free. */
  lemma FullWhen(ns: seq<Node>, ord: seq<nat>)
    requires Chained(ns, ord)
    ensures |ord| <= |ns|
    ensures |ord| == |ns| <==> forall i :: 0 <= i < |ns| ==> ns[i].key != Nil
  {
    hide Chained;
    InRange(ns, ord);
    NoDupSize(ord);
    IndicesAre(|ns|);
    var A, B := Elems(ord), Indices(|ns|);
    assert A <= B;
    SubsetSize(A, B);
    if forall i :: 0 <= i < |ns| ==> ns[i].key != Nil {
      assert A == B;
    } else {
      var i :| 0 <= i < |ns| && ns[i].key == Nil;
      assert i in B && i !in A;
    }
  }

  lemma SubsetSize(A: set<nat>, B: set<nat>)
    requires A <= B
    ensures |A| <= |B| && (|A| == |B| ==> A == B)
  {
    assert B == A + (B - A);
  }

  // ---------- how many keys go where ----------

  ghost function Inside(S: set<Val>, n: nat): set<Val> {
    set k | k in S && InArray(k, n)
  }

  ghost function Outside(S: set<Val>, n: nat): set<Val> {
    set k | k in S && !InArray(k, n)
  }

  lemma Split(S: set<Val>, n: nat)
    ensures |S| == |Inside(S, n)| + |Outside(S, n)|
  {
    assert S == Inside(S, n) + Outside(S, n);
  }

  lemma InsideOne(T: set<Val>, k: Val, n: nat)
    requires k !in T && n <= MAXASIZE
    ensures |Inside(T + {k}, n)| == |Inside(T, n)| + (if InArray(k, n) then 1 else 0)
  {
    if InArray(k, n) {
      assert Inside(T + {k}, n) == Inside(T, n) + {k};
    } else {
      assert Inside(T + {k}, n) == Inside(T, n);
    }
  }

  lemma CountOne(T: set<Val>, k: Val, n: nat)
    requires k !in T && n <= MAXASIZE
    ensures Count(IntKeys(T + {k}), n) == Count(IntKeys(T), n) + (if InArray(k, n) then 1 else 0)
  {
    IntKeysStep(T, k);
    var I := IntKeys({k});
    if InArray(k, n) {
      assert I == {k.i};
      assert UpTo(IntKeys(T) + I, n) == UpTo(IntKeys(T), n) + {k.i};
      assert k.i !in IntKeys(T);
    } else {
      assert UpTo(IntKeys(T) + I, n) == UpTo(IntKeys(T), n);
    }
  }

  lemma {:induction false} InsideCount(S: set<Val>, n: nat)
    requires n <= MAXASIZE
    ensures |Inside(S, n)| == Count(IntKeys(S), n)
    decreases |S|
  {
    if S == {} {
      assert Inside(S, n) == {} && UpTo(IntKeys(S), n) == {};
    } else {
      var k :| k in S;
      var T := S - {k};
      assert T + {k} == S;
      InsideCount(T, n);
      InsideOne(T, k, n);
      CountOne(T, k, n);
    }
  }

  lemma LiveSize(a: seq<Val>, ns: seq<Node>)
    requires KeysOK(ns, |a|) && |a| <= MAXASIZE
    ensures |LiveKeys(a, ns)| == |Used(a)| + |NodeKeys(ns, 0)|
    ensures IntKeys(LiveKeys(a, ns)) == Used(a) + IntKeys(NodeKeys(ns, 0))
  {
    ArraySize(a);
    assert ArrayKeys(a) !! NodeKeys(ns, 0) by {
      forall k | k in NodeKeys(ns, 0) ensures k !in ArrayKeys(a) {
        var j :| 0 <= j < |ns| && ns[j].val != Nil && ns[j].key == k;
        assert KeyOK(ns[j].key, |a|);
      }
    }
    forall i | i in Used(a) ensures i in IntKeys(LiveKeys(a, ns)) {
      assert Int(i) in ArrayKeys(a);
    }
  }

  ghost function Ints(U: set<int>): set<Val> {
    set i | i in U :: Int(i)
  }

  lemma {:induction false} IntsSize(U: set<int>, n: nat)
    ensures |Ints(UpTo(U, n))| == |UpTo(U, n)|
  {
    hide UpTo, Ints;
    if n == 0 {
      NoInts(U);
    } else {
      IntsSize(U, n - 1);
      UpToStep(U, n);
      if n in U {
        IntsStep(UpTo(U, n - 1), n);
      }
    }
  }

  lemma NoInts(U: set<int>)
    ensures |Ints(UpTo(U, 0))| == |UpTo(U, 0)| == 0
  {
    assert UpTo(U, 0) == {} && Ints({}) == {};
  }

  lemma UpToStep(U: set<int>, n: nat)
    requires n > 0
    ensures UpTo(U, n) == if n in U then UpTo(U, n - 1) + {n} else UpTo(U, n - 1)
    ensures n !in UpTo(U, n - 1)
  {
  }

  lemma IntsStep(U: set<int>, n: int)
    requires n !in U
    ensures |Ints(U + {n})| == |Ints(U)| + 1
  {
    assert Ints(U + {n}) == Ints(U) + {Int(n)};
  }

  lemma ArraySize(a: seq<Val>)
    ensures |ArrayKeys(a)| == |Used(a)|
  {
    IntsSize(Used(a), |a|);
    assert UpTo(Used(a), |a|) == Used(a);
  }

  /** The sizes that 'rehash' asks for: what does not go to the array part fits in the
      hash part (ltable.c:395-412). */
  lemma RehashFits(live: set<Val>, ek: Val, asize: nat, totaluse: nat, na: nat)
    requires asize <= MAXASIZE && ek !in live
    requires totaluse == |live| + 1 && na == Count(IntKeys(live) + IntKeys({ek}), asize)
    ensures totaluse - na == |Outside(live + {ek}, asize)| >= 0
    ensures |Outside(live, asize)| == |Outside(live + {ek}, asize)| - (if InArray(ek, asize) then 0 else 1)
  {
    var S := live + {ek};
    IntKeysStep(live, ek);
    InsideCount(S, asize);
    Split(S, asize);
    if InArray(ek, asize) {
      assert Outside(S, asize) == Outside(live, asize);
    } else {
      assert Outside(S, asize) == Outside(live, asize) + {ek};
    }
  }

  /** With these keys, the hash part next to the best array part needs too many nodes. */
  ghost predicate Overflows(S: set<Val>) {
    exists asize: nat :: BestSize(IntKeys(S), asize) && TooMany(|Outside(S, asize)|)
  }

  ghost predicate TooMany(n: nat) {
    exists l: nat :: CeilLog(n, l) && l > MAXHBITS
  }

  /** That takes more than 2^30 nodes. */
  lemma TooManyMeans(n: nat)
    ensures TooMany(n) <==> n > 0x4000_0000
  {
    Pow2At31();
    assert Pow2(31) == 2 * Pow2(30);
    if TooMany(n) {
      var l: nat :| CeilLog(n, l) && l > MAXHBITS;
      Pow2Mono(30, l - 1);
    }
    if n > 0x4000_0000 {
      var l := HasCeil(n);
      if l <= 30 {
        Pow2Mono(l, 30);
      }
      assert CeilLog(n, l) && l > MAXHBITS;
    }
  }

  lemma HasCeil(n: nat) returns (l: nat)
    ensures CeilLog(n, l)
  {
    l := 0;
    while Pow2(l) < n
      invariant l > 0 ==> Pow2(l - 1) < n
      decreases n - Pow2(l)
    {
      l := l + 1;
    }
  }

  /** Fewer keys never overflow. */
  lemma OverflowNeeds(S: set<Val>)
    requires Overflows(S)
    ensures |S| > 0x4000_0000
  {
    var asize: nat :| BestSize(IntKeys(S), asize) && TooMany(|Outside(S, asize)|);
    TooManyMeans(|Outside(S, asize)|);
    Split(S, asize);
  }

  lemma OverflowAt(S: set<Val>, asize: nat)
    requires BestSize(IntKeys(S), asize) && TooMany(|Outside(S, asize)|)
    ensures Overflows(S)
  {
  }

  // ---------- inserting all keys again ----------

  /** (a, ns) were the parts of a table. */
  ghost predicate WasTable(a: seq<Val>, ns: seq<Node>) {
    && Distinct(ns) && KeysOK(ns, |a|) && |a| <= MAXASIZE
    && forall i :: 0 <= i < |ns| && ns[i].key == Nil ==> ns[i].val == Nil
  }

  lemma WasValid(h: Hash, a: seq<Val>, ns: seq<Node>, ord: seq<nat>)
    requires Hashed(h, ns, ord) && KeysOK(ns, |a|) && |a| <= MAXASIZE
    ensures WasTable(a, ns)
  {
  }

  lemma LiveKeyOK(a: seq<Val>, ns: seq<Node>, k: Val)
    requires WasTable(a, ns) && k in LiveKeys(a, ns)
    ensures k != Nil && k != NaN && Norm(k) == k
  {
    if k in NodeKeys(ns, 0) {
      var j :| 0 <= j < |ns| && ns[j].val != Nil && ns[j].key == k;
      assert KeyOK(ns[j].key, |a|);
    }
  }

  lemma OutsideStep(P: set<Val>, live: set<Val>, k: Val, n: nat)
    requires P <= live && k in live && k !in P
    ensures |Outside(P + {k}, n)| == |Outside(P, n)| + (if InArray(k, n) then 0 else 1)
    ensures !InArray(k, n) ==> |Outside(P, n)| < |Outside(live, n)|
  {
    if InArray(k, n) {
      assert Outside(P + {k}, n) == Outside(P, n);
    } else {
      assert Outside(P + {k}, n) == Outside(P, n) + {k};
      ValsMono(Outside(P + {k}, n), Outside(live, n));
    }
  }

  lemma ValsMono(A: set<Val>, B: set<Val>)
    requires A <= B
    ensures |A| <= |B|
  {
    assert B == A + (B - A);
  }

  lemma ArrayLive(a: seq<Val>, ns: seq<Node>, i: nat)
    requires i < |a| && a[i] != Nil
    ensures Int(i + 1) in LiveKeys(a, ns) && Lookup(a, ns, Int(i + 1)) == a[i]
  {
    assert i + 1 in Used(a);
  }

  lemma ArrayDead(a: seq<Val>, ns: seq<Node>, i: nat)
    requires i < |a| && a[i] == Nil && WasTable(a, ns)
    ensures Int(i + 1) !in LiveKeys(a, ns)
  {
    forall j | 0 <= j < |ns| ensures ns[j].key != Int(i + 1) {
      assert KeyOK(ns[j].key, |a|);
    }
  }

  lemma NodeLive(a: seq<Val>, ns: seq<Node>, P0: set<Val>, j: nat)
    requires WasTable(a, ns) && j < |ns| && ns[j].val != Nil && forall k :: k in P0 ==> InArray(k, |a|)
    ensures ns[j].key in LiveKeys(a, ns) && Lookup(a, ns, ns[j].key) == ns[j].val
    ensures ns[j].key !in P0 + NodeKeys(ns, j + 1) && NodeKeys(ns, j) == NodeKeys(ns, j + 1) + {ns[j].key}
  {
    assert KeyOK(ns[j].key, |a|);
    ValueAt(ns, j);
    NodeKeysStep(ns, j);
  }

  /** The nodes of a table without entries. */
  lemma NoNodes(h: Hash, ns: seq<Node>, n: nat)
    requires |ns| > 0 && forall i :: 0 <= i < |ns| ==> ns[i] == Node(Nil, Nil, 0)
    ensures Hashed(h, ns, []) && KeysOK(ns, n) && forall x :: x != Nil ==> ValueOf(ns, x) == Nil
  {
  }

  /** What 'rehash' counts. */
  lemma RehashFacts(a: seq<Val>, ns: seq<Node>, ek: Val)
    requires WasTable(a, ns) && KeyOK(ek, |a|) && ek != Nil && !HasKey(ns, ek)
    ensures var ks := NodeKeys(ns, 0);
            var live := LiveKeys(a, ns);
            var K := Used(a) + IntKeys(ks) + IntKeys({ek});
            && (forall j :: 0 <= j < |ns| && ns[j].val != Nil && ArrayIndex(ns[j].key) ==> ns[j].key.i !in Used(a))
            && (ArrayIndex(ek) ==> ek.i !in Used(a) + IntKeys(ks))
            && |live| == |Used(a)| + |ks| && ek !in live && IntKeys(live) == Used(a) + IntKeys(ks)
            && K == IntKeys(live + {ek}) && Count(K, MAXASIZE) == |Used(a)| + |IntKeys(ks)| + |IntKeys({ek})|
  {
    hide LiveKeys, Used, Count;
    var ks := NodeKeys(ns, 0);
    var live := LiveKeys(a, ns);
    LiveSize(a, ns);
    forall j | 0 <= j < |ns| && ns[j].val != Nil && ArrayIndex(ns[j].key) ensures ns[j].key.i !in Used(a) {
      NotUsed(a, ns[j].key);
    }
    NotUsed(a, ek);
    NotLive(a, ns, ek);
    IntKeysStep(live, ek);
    CountAll(a, ks, ek);
  }

  lemma NotUsed(a: seq<Val>, k: Val)
    requires KeyOK(k, |a|)
    ensures k.Int? ==> k.i !in Used(a)
  {
  }

  lemma NotLive(a: seq<Val>, ns: seq<Node>, ek: Val)
    requires KeyOK(ek, |a|) && !HasKey(ns, ek)
    ensures ek !in LiveKeys(a, ns) && ek !in NodeKeys(ns, 0)
  {
  }

  lemma CountAll(a: seq<Val>, ks: set<Val>, ek: Val)
    requires |a| <= MAXASIZE && ek !in ks && (forall k :: k in ks ==> KeyOK(k, |a|)) && KeyOK(ek, |a|)
    ensures Count(Used(a) + IntKeys(ks) + IntKeys({ek}), MAXASIZE) == |Used(a)| + |IntKeys(ks)| + |IntKeys({ek})|
  {
    var K := Used(a) + IntKeys(ks) + IntKeys({ek});
    IntKeysStep(ks, ek);
    assert Used(a) !! IntKeys(ks) && Used(a) !! IntKeys({ek});
    assert UpTo(K, MAXASIZE) == K;
  }

  // ---------- the map ----------

  lemma NoEntries(a: seq<Val>, ns: seq<Node>)
    requires a == [] && forall i :: 0 <= i < |ns| ==> ns[i] == Node(Nil, Nil, 0)
    ensures Contents(a, ns) == map[]
  {
    assert LiveKeys(a, ns) == {};
  }

  lemma NilNotLive(a: seq<Val>, ns: seq<Node>)
    requires WasTable(a, ns)
    ensures Nil !in LiveKeys(a, ns)
  {
  }

  lemma MapSame(a0: seq<Val>, n0: seq<Node>, a: seq<Val>, n: seq<Node>)
    requires WasTable(a0, n0) && WasTable(a, n) && forall x :: x != Nil ==> Lookup(a, n, x) == Lookup(a0, n0, x)
    ensures Contents(a, n) == Contents(a0, n0)
  {
    hide WasTable, LiveKeys, Lookup;
    forall x ensures x in LiveKeys(a, n) <==> x in LiveKeys(a0, n0) {
      LiveAgain(a, n, x);
      LiveAgain(a0, n0, x);
    }
    assert Nil !in LiveKeys(a, n) by {
      LiveAgain(a, n, Nil);
    }
    assert LiveKeys(a, n) == LiveKeys(a0, n0);
  }

  lemma LiveAgain(a: seq<Val>, n: seq<Node>, x: Val)
    requires WasTable(a, n)
    ensures x in LiveKeys(a, n) <==> x != Nil && Lookup(a, n, x) != Nil
  {
    if x == Nil {
      NilNotLive(a, n);
    } else {
      LiveIff(a, n, x);
    }
  }

  lemma MapAssigned(a0: seq<Val>, n0: seq<Node>, a: seq<Val>, n: seq<Node>, k: Val, v: Val)
    requires WasTable(a0, n0) && WasTable(a, n) && k != Nil
    requires forall x :: x != Nil ==> Lookup(a, n, x) == if x == k then v else Lookup(a0, n0, x)
    ensures Contents(a, n) == if v == Nil then Contents(a0, n0) - {k} else Contents(a0, n0)[k := v]
  {
    hide WasTable, LiveKeys, Lookup;
    forall x ensures x in LiveKeys(a, n) <==> (if x == k then v != Nil else x in LiveKeys(a0, n0)) {
      LiveAgain(a, n, x);
      LiveAgain(a0, n0, x);
    }
    LiveAgain(a, n, Nil);
    LiveAgain(a0, n0, Nil);
  }
}
