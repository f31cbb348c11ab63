/** The hash part of a Lua table (apps/lua/ltable.c): nodes chained by relative 'next'
    fields, with Brent's variation. */
module TableChains {

  /** Keys and values. 'Flt' is a float other than NaN; everything else is an 'Obj'. */
  datatype Val = Nil | Int(i: int) | Flt(r: real) | NaN | Obj(id: nat)

  /** 'next' is the distance to the next node of the chain, or 0. */
  datatype Node = Node(key: Val, val: Val, next: int)

  /** The main position of a key in a table of a given size: any function will do. */
  type Hash = (Val, nat) -> nat

  function Main(h: Hash, k: Val, size: nat): (p: nat)
    requires size > 0
    ensures p < size
  {
    h(k, size) % size
  }

  ghost predicate NoDup(s: seq<nat>) {
    forall i, j :: 0 <= i < j < |s| ==> s[i] != s[j]
  }

  /** 'ord' lists the nodes in use: one chain after the other, each in its order. */
  ghost predicate Chained(ns: seq<Node>, ord: seq<nat>) {
    && NoDup(ord)
    && (forall p :: 0 <= p < |ord| ==> ord[p] < |ns|)
    && (forall i :: 0 <= i < |ns| ==> (ns[i].key != Nil <==> i in ord))
    && (forall i :: 0 <= i < |ns| && ns[i].key == Nil ==> ns[i] == Node(Nil, Nil, 0))
    && (forall p {:trigger ns[ord[p]]} :: 0 <= p < |ord| && ns[ord[p]].next != 0 ==>
          p + 1 < |ord| && ord[p] + ns[ord[p]].next == ord[p + 1])
  }

  /** The chain leads from the 'm'-th to the 'p'-th node in use. */
  ghost predicate Leads(ns: seq<Node>, ord: seq<nat>, m: nat, p: nat)
    requires Chained(ns, ord)
  {
    m <= p < |ord| && forall r {:trigger ns[ord[r]]} :: m <= r < p ==> ns[ord[r]].next != 0
  }

  /** The main position of the key of the 'p'-th node is the 'm'-th: it holds a key of its
      own, and the chain leads from there. */
  ghost predicate HomeAt(h: Hash, ns: seq<Node>, ord: seq<nat>, m: nat, p: nat)
    requires Chained(ns, ord)
  {
    && Leads(ns, ord, m, p)
    && Main(h, ns[ord[p]].key, |ns|) == ord[m]
    && Main(h, ns[ord[m]].key, |ns|) == ord[m]
  }

  ghost predicate Housed(h: Hash, ns: seq<Node>, ord: seq<nat>)
    requires Chained(ns, ord)
  {
    forall p :: 0 <= p < |ord| ==> HasHome(h, ns, ord, p)
  }

  ghost predicate HasHome(h: Hash, ns: seq<Node>, ord: seq<nat>, p: nat)
    requires Chained(ns, ord)
  {
    exists m :: HomeAt(h, ns, ord, m, p)
  }

  lemma Home(h: Hash, ns: seq<Node>, ord: seq<nat>, p: nat) returns (m: nat)
    requires Chained(ns, ord) && Housed(h, ns, ord) && p < |ord|
    ensures HomeAt(h, ns, ord, m, p)
  {
    assert HasHome(h, ns, ord, p);
    m :| HomeAt(h, ns, ord, m, p);
  }

  ghost predicate Distinct(ns: seq<Node>) {
    forall i, j :: 0 <= i < j < |ns| && ns[i].key != Nil ==> ns[i].key != ns[j].key
  }

  ghost predicate Hashed(h: Hash, ns: seq<Node>, ord: seq<nat>) {
    |ns| > 0 && Chained(ns, ord) && Housed(h, ns, ord) && Distinct(ns)
  }

  ghost predicate HasKey(ns: seq<Node>, k: Val) {
    exists i :: 0 <= i < |ns| && ns[i].key == k
  }

  /** What the nodes hold under the key 'k'. */
  ghost function ValueOf(ns: seq<Node>, k: Val): (v: Val)
  {
    if exists i :: 0 <= i < |ns| && ns[i].key == k then
      var i :| 0 <= i < |ns| && ns[i].key == k;
      ns[i].val
    else Nil
  }

  lemma ValueAt(ns: seq<Node>, i: nat)
    requires Distinct(ns) && i < |ns| && ns[i].key != Nil
    ensures ValueOf(ns, ns[i].key) == ns[i].val
  {
  }

  // ---------- searching a chain ----------

  /** A key that is stored is found from its main position on: as long as the search,
      now at the 'q'-th node, has not met it, it lies ahead. */
  ghost predicate Ahead(ns: seq<Node>, ord: seq<nat>, k: Val, q: nat)
    requires Chained(ns, ord)
  {
    forall p :: 0 <= p < |ord| && ns[ord[p]].key == k ==> Leads(ns, ord, q, p)
  }

  lemma StartAhead(h: Hash, ns: seq<Node>, ord: seq<nat>, k: Val, q: nat)
    requires Hashed(h, ns, ord) && q < |ord| && ord[q] == Main(h, k, |ns|)
    ensures Ahead(ns, ord, k, q)
  {
    forall p | 0 <= p < |ord| && ns[ord[p]].key == k ensures Leads(ns, ord, q, p) {
      var m := Home(h, ns, ord, p);
      assert m == q;
    }
  }

  lemma StartSearch(h: Hash, ns: seq<Node>, ord: seq<nat>, k: Val) returns (q: nat)
    requires Hashed(h, ns, ord) && ns[Main(h, k, |ns|)].key != Nil
    ensures Chained(ns, ord) && q < |ord| && ord[q] == Main(h, k, |ns|) && Ahead(ns, ord, k, q)
  {
    assert Main(h, k, |ns|) in ord;
    q :| q < |ord| && ord[q] == Main(h, k, |ns|);
    StartAhead(h, ns, ord, k, q);
  }

  lemma NodeIn(ns: seq<Node>, ord: seq<nat>, q: nat)
    requires Chained(ns, ord) && q < |ord|
    ensures ord[q] < |ns| && ns[ord[q]].key != Nil
  {
    assert ord[q] in ord;
  }

  lemma PlaceOf(ns: seq<Node>, ord: seq<nat>, i: nat) returns (q: nat)
    requires Chained(ns, ord) && i < |ns| && ns[i].key != Nil
    ensures q < |ord| && ord[q] == i
  {
    q :| q < |ord| && ord[q] == i;
  }

  lemma HomeLeads(h: Hash, ns: seq<Node>, ord: seq<nat>, m: nat, p: nat)
    requires Chained(ns, ord) && HomeAt(h, ns, ord, m, p)
    ensures Leads(ns, ord, m, p) && Main(h, ns[ord[p]].key, |ns|) == ord[m]
  {
  }

  lemma LeadsOn(ns: seq<Node>, ord: seq<nat>, m: nat, p: nat)
    requires Chained(ns, ord) && Leads(ns, ord, m, p)
    ensures ord[m] < |ns| && (m < p ==> ns[ord[m]].next != 0 && ord[m] + ns[ord[m]].next == ord[m + 1])
  {
    if m < p {
      LinkAt(ns, ord, m);
    }
  }

  lemma LeadsFurther(ns: seq<Node>, ord: seq<nat>, m: nat, r: nat, p: nat)
    requires Chained(ns, ord) && Leads(ns, ord, m, p) && m <= r < p
    ensures ord[r] < |ns| && ns[ord[r]].next != 0 && ord[r] + ns[ord[r]].next == ord[r + 1]
  {
    LinkAt(ns, ord, r);
  }

  lemma NextAhead(ns: seq<Node>, ord: seq<nat>, k: Val, q: nat)
    requires Chained(ns, ord) && Ahead(ns, ord, k, q) && q < |ord| && ns[ord[q]].key != k && ns[ord[q]].next != 0
    ensures Ahead(ns, ord, k, q + 1)
  {
    forall p | 0 <= p < |ord| && ns[ord[p]].key == k ensures Leads(ns, ord, q + 1, p) {
      assert Leads(ns, ord, q, p);
    }
  }

  lemma EndOfChain(ns: seq<Node>, ord: seq<nat>, k: Val, q: nat)
    requires Chained(ns, ord) && Ahead(ns, ord, k, q) && q < |ord| && ns[ord[q]].key != k && ns[ord[q]].next == 0
    requires k != Nil
    ensures !HasKey(ns, k)
  {
    forall i | 0 <= i < |ns| ensures ns[i].key != k {
      if ns[i].key != Nil {
        var p :| 0 <= p < |ord| && ord[p] == i;
        assert ns[ord[p]] == ns[i];
      }
    }
  }

  /** A key whose main position is not in use is not stored. */
  lemma FreeMain(h: Hash, ns: seq<Node>, ord: seq<nat>, k: Val)
    requires Hashed(h, ns, ord) && k != Nil && ns[Main(h, k, |ns|)].key == Nil
    ensures !HasKey(ns, k)
  {
    forall i | 0 <= i < |ns| ensures ns[i].key != k {
      if ns[i].key != Nil {
        var p :| 0 <= p < |ord| && ord[p] == i;
        var m := Home(h, ns, ord, p);
        assert ord[m] in ord;
      }
    }
  }

  // ---------- what luaH_newkey does to the nodes ----------

  /** The main position is free, or its value is gone: the new key takes it over, links
      and all (ltable.c:506). */
  function Reuse(ns: seq<Node>, mp: nat, k: Val): seq<Node>
    requires mp < |ns|
  {
    ns[mp := ns[mp].(key := k)]
  }

  lemma ReuseChained(ns: seq<Node>, ord: seq<nat>, mp: nat, k: Val)
    requires Chained(ns, ord) && k != Nil && mp < |ns| && ns[mp].key == Nil
    ensures Chained(Reuse(ns, mp, k), ord + [mp])
  {
    var n1, o1 := Reuse(ns, mp, k), ord + [mp];
    InUse(ns, ord, mp);
    assert forall i :: i in o1 <==> i in ord || i == mp;
    forall p | 0 <= p < |o1| && n1[o1[p]].next != 0 ensures p + 1 < |o1| && o1[p] + n1[o1[p]].next == o1[p + 1] {
      LinkAt(ns, ord, p);
    }
  }

  lemma ReuseFree(h: Hash, ns: seq<Node>, ord: seq<nat>, mp: nat, k: Val)
    requires Hashed(h, ns, ord) && k != Nil && !HasKey(ns, k) && mp == Main(h, k, |ns|) && ns[mp].key == Nil
    ensures Hashed(h, Reuse(ns, mp, k), ord + [mp])
  {
    hide NoDup;
    var n1, o1 := Reuse(ns, mp, k), ord + [mp];
    ReuseChained(ns, ord, mp, k);
    InUse(ns, ord, mp);
    forall p | 0 <= p < |o1| ensures HasHome(h, n1, o1, p) {
      if p < |ord| {
        var m := Home(h, ns, ord, p);
        assert HomeAt(h, n1, o1, m, p);
      } else {
        assert HomeAt(h, n1, o1, p, p);
      }
    }
  }

  lemma ReuseDead(h: Hash, ns: seq<Node>, ord: seq<nat>, mp: nat, k: Val)
    requires Hashed(h, ns, ord) && k != Nil && !HasKey(ns, k) && mp == Main(h, k, |ns|) && ns[mp].key != Nil
    ensures Hashed(h, Reuse(ns, mp, k), ord)
  {
    var n1 := Reuse(ns, mp, k);
    assert forall i :: 0 <= i < |ns| ==> n1[i].next == ns[i].next && (n1[i].key == Nil <==> ns[i].key == Nil);
    assert Chained(n1, ord);
    forall p | 0 <= p < |ord| ensures HasHome(h, n1, ord, p) {
      var m := Home(h, ns, ord, p);
      if ord[p] == mp {
        assert HomeAt(h, n1, ord, p, p);
      } else {
        assert HomeAt(h, n1, ord, m, p);
      }
    }
  }

  /** The colliding node is in its main position: the new key goes to the free node 'f',
      second in the chain (ltable.c:497-503). */
  function Chain(ns: seq<Node>, mp: nat, f: nat, k: Val): seq<Node>
    requires mp < |ns| && f < |ns|
  {
    var link := if ns[mp].next != 0 then mp + ns[mp].next - f else ns[f].next;
    ns[f := Node(k, ns[f].val, link)][mp := ns[mp].(next := f - mp)]
  }

  /** 'f' comes right after the 'q'-th node. */
  function Insert(ord: seq<nat>, q: nat, f: nat): (o: seq<nat>)
    requires q < |ord|
    ensures |o| == |ord| + 1
    ensures forall p :: 0 <= p < |o| ==> o[p] == (if p <= q then ord[p] else if p == q + 1 then f else ord[p - 1])
  {
    ord[..q + 1] + [f] + ord[q + 1..]
  }

  lemma InsertIn(ord: seq<nat>, q: nat, f: nat)
    requires q < |ord| && NoDup(ord) && f !in ord
    ensures NoDup(Insert(ord, q, f))
    ensures forall i :: i in Insert(ord, q, f) <==> i in ord || i == f
  {
    var o := Insert(ord, q, f);
    forall i | i in ord || i == f ensures i in o {
      if i == f {
        assert o[q + 1] == f;
      } else {
        var p :| 0 <= p < |ord| && ord[p] == i;
        assert o[if p <= q then p else p + 1] == i;
      }
    }
    forall i | i in o ensures i in ord || i == f {
      var p :| 0 <= p < |o| && o[p] == i;
    }
  }

  lemma LinkAt(ns: seq<Node>, ord: seq<nat>, p: nat)
    requires Chained(ns, ord) && p < |ord| && ns[ord[p]].next != 0
    ensures p + 1 < |ord| && ord[p] + ns[ord[p]].next == ord[p + 1]
  {
  }

  lemma ChainLink(ns: seq<Node>, ord: seq<nat>, q: nat, f: nat, k: Val, p: nat)
    requires Chained(ns, ord) && q < |ord| && f < |ns| && ns[f].key == Nil && p <= |ord| && ord[q] < |ns|
    requires var o1 := Insert(ord, q, f);
             o1[p] < |ns| && Chain(ns, ord[q], f, k)[o1[p]].next != 0
    ensures var o1 := Insert(ord, q, f);
            p + 1 < |o1| && o1[p] + Chain(ns, ord[q], f, k)[o1[p]].next == o1[p + 1]
  {
    hide Chained, NoDup;
    InUse(ns, ord, f);
    var n1, o1 := Chain(ns, ord[q], f, k), Insert(ord, q, f);
    if p < q {
      Apart(ns, ord, p, q);
      LinkAt(ns, ord, p);
    } else if p > q + 1 {
      Apart(ns, ord, p - 1, q);
      LinkAt(ns, ord, p - 1);
    } else if p == q + 1 {
      LinkAt(ns, ord, q);
    }
  }

  lemma ChainChained(ns: seq<Node>, ord: seq<nat>, q: nat, f: nat, k: Val)
    requires Chained(ns, ord) && k != Nil && q < |ord| && f < |ns| && ns[f].key == Nil
    ensures Chained(Chain(ns, ord[q], f, k), Insert(ord, q, f))
  {
    InUse(ns, ord, f);
    InsertIn(ord, q, f);
    var n1, o1 := Chain(ns, ord[q], f, k), Insert(ord, q, f);
    forall p | 0 <= p < |o1| ensures o1[p] < |n1| {
    }
    forall p | 0 <= p < |o1| && n1[o1[p]].next != 0 ensures p + 1 < |o1| && o1[p] + n1[o1[p]].next == o1[p + 1] {
      ChainLink(ns, ord, q, f, k, p);
    }
  }

  lemma ChainOK(h: Hash, ns: seq<Node>, ord: seq<nat>, q: nat, f: nat, k: Val)
    requires Hashed(h, ns, ord) && k != Nil && !HasKey(ns, k)
    requires q < |ord| && ord[q] == Main(h, k, |ns|) == Main(h, ns[ord[q]].key, |ns|)
    requires f < |ns| && ns[f].key == Nil
    ensures Hashed(h, Chain(ns, ord[q], f, k), Insert(ord, q, f))
  {
    hide NoDup;
    var n1, o1 := Chain(ns, ord[q], f, k), Insert(ord, q, f);
    ChainChained(ns, ord, q, f, k);
    forall p | 0 <= p < |o1| ensures HasHome(h, n1, o1, p) {
      ChainHome(h, ns, ord, q, f, k, p);
    }
  }

  /** Links before the new node, and after it, still lead on. */
  lemma LinkAfterChain(ns: seq<Node>, ord: seq<nat>, q: nat, f: nat, k: Val, m: nat, p0: nat, r: nat)
    requires Chained(ns, ord) && q < |ord| && f < |ns| && ns[f].key == Nil && m <= p0 < |ord|
    requires forall i :: m <= i < p0 ==> ord[i] < |ns| && ns[ord[i]].next != 0
    requires (if m <= q then m else m + 1) <= r < (if p0 <= q then p0 else p0 + 1)
    requires ord[q] < |ns|
    ensures r < |Insert(ord, q, f)| && Insert(ord, q, f)[r] < |ns| && Chain(ns, ord[q], f, k)[Insert(ord, q, f)[r]].next != 0
  {
    hide Chained, Distinct;
    InUse(ns, ord, f);
    if r != q && r != q + 1 {
      var r0 := if r <= q then r else r - 1;
      assert Insert(ord, q, f)[r] == ord[r0] && ns[ord[r0]].next != 0;
      Apart(ns, ord, r0, q);
    } else if r == q + 1 {
      assert ns[ord[q]].next != 0;
      LinkNotSelf(ns, ord, q, f);
    }
  }

  lemma ChainHome(h: Hash, ns: seq<Node>, ord: seq<nat>, q: nat, f: nat, k: Val, p: nat)
    requires Hashed(h, ns, ord) && k != Nil
    requires q < |ord| && ord[q] == Main(h, k, |ns|) == Main(h, ns[ord[q]].key, |ns|)
    requires f < |ns| && ns[f].key == Nil && p <= |ord|
    requires Chained(Chain(ns, ord[q], f, k), Insert(ord, q, f))
    ensures HasHome(h, Chain(ns, ord[q], f, k), Insert(ord, q, f), p)
  {
    hide Chained, Housed, Distinct;
    var n1, o1 := Chain(ns, ord[q], f, k), Insert(ord, q, f);
    InUse(ns, ord, f);
    if p == q + 1 {
      assert n1[o1[q]].next != 0;
      assert HomeAt(h, n1, o1, q, p);
    } else {
      var p0 := if p <= q then p else p - 1;
      var m := Home(h, ns, ord, p0);
      var m1 := if m <= q then m else m + 1;
      forall r | m1 <= r < p ensures n1[o1[r]].next != 0 {
        LinkAfterChain(ns, ord, q, f, k, m, p0, r);
      }
      Apart(ns, ord, p0, q);
      Apart(ns, ord, m, q);
      assert HomeAt(h, n1, o1, m1, p);
    }
  }

  lemma InUse(ns: seq<Node>, ord: seq<nat>, f: nat)
    requires Chained(ns, ord) && f < |ns| && ns[f].key == Nil
    ensures ns[f] == Node(Nil, Nil, 0) && f !in ord && forall r :: 0 <= r < |ord| ==> ord[r] < |ns| && ord[r] != f
  {
    assert f !in ord;
  }

  lemma Apart(ns: seq<Node>, ord: seq<nat>, r: nat, q: nat)
    requires Chained(ns, ord) && r < |ord| && q < |ord|
    ensures ord[r] == ord[q] <==> r == q
  {
  }

  lemma LinkNotSelf(ns: seq<Node>, ord: seq<nat>, q: nat, f: nat)
    requires Chained(ns, ord) && q < |ord| && ns[ord[q]].next != 0 && f < |ns| && ns[f].key == Nil
    ensures ord[q] + ns[ord[q]].next != f
  {
    assert ord[q + 1] in ord;
  }

  /** The colliding node is out of its main position: it moves to the free node 'f', and
      the new key takes its place (ltable.c:484-496). 'prev' is the node before it. */
  function Move(ns: seq<Node>, prev: nat, mp: nat, f: nat, k: Val): seq<Node>
    requires prev < |ns| && mp < |ns| && f < |ns|
  {
    var link := if ns[mp].next != 0 then ns[mp].next + (mp - f) else 0;
    ns[prev := ns[prev].(next := f - prev)][f := ns[mp].(next := link)][mp := Node(k, Nil, 0)]
  }

  /** 'f' takes the place of the 'q'-th node, which ends the list, alone in its chain. */
  function Replace(ord: seq<nat>, q: nat, f: nat): (o: seq<nat>)
    requires q < |ord|
    ensures |o| == |ord| + 1
    ensures forall p :: 0 <= p < |o| ==> o[p] == (if p == |ord| then ord[q] else if p == q then f else ord[p])
  {
    ord[q := f] + [ord[q]]
  }

  lemma ReplaceAt(ord: seq<nat>, q: nat, f: nat)
    requires q < |ord|
    ensures var o := Replace(ord, q, f);
            |o| == |ord| + 1 && forall p :: 0 <= p < |o| ==> o[p] == (if p == |ord| then ord[q] else if p == q then f else ord[p])
  {
  }

  lemma ReplaceIn(ord: seq<nat>, q: nat, f: nat)
    requires q < |ord| && NoDup(ord) && f !in ord
    ensures NoDup(Replace(ord, q, f))
    ensures forall i :: i in Replace(ord, q, f) <==> i in ord || i == f
  {
    var o := Replace(ord, q, f);
    forall i | i in ord || i == f ensures i in o {
      if i == f {
        assert o[q] == f;
      } else {
        var p :| 0 <= p < |ord| && ord[p] == i;
        assert o[if p == q then |ord| else p] == i;
      }
    }
    forall i | i in o ensures i in ord || i == f {
      var p :| 0 <= p < |o| && o[p] == i;
    }
  }

  lemma MoveLink(ns: seq<Node>, ord: seq<nat>, q: nat, f: nat, k: Val, p: nat)
    requires Chained(ns, ord) && 0 < q < |ord| && f < |ns| && ns[f].key == Nil && p <= |ord|
    requires ord[q] < |ns| && ord[q - 1] < |ns| && ns[ord[q - 1]].next != 0
    requires var o1 := Replace(ord, q, f);
             o1[p] < |ns| && Move(ns, ord[q - 1], ord[q], f, k)[o1[p]].next != 0
    ensures var o1 := Replace(ord, q, f);
            p + 1 < |o1| && o1[p] + Move(ns, ord[q - 1], ord[q], f, k)[o1[p]].next == o1[p + 1]
  {
    hide Chained, NoDup;
    InUse(ns, ord, f);
    Apart(ns, ord, q - 1, q);
    var n1, o1 := Move(ns, ord[q - 1], ord[q], f, k), Replace(ord, q, f);
    if p < |ord| {
      Apart(ns, ord, p, q);
      Apart(ns, ord, p, q - 1);
      if p == q {
        LinkAt(ns, ord, q);
      } else if p != q - 1 {
        LinkAt(ns, ord, p);
      }
    }
  }

  lemma MoveAt(ns: seq<Node>, prev: nat, mp: nat, f: nat, k: Val)
    requires prev < |ns| && mp < |ns| && f < |ns| && prev != mp && prev != f && mp != f && ns[f] == Node(Nil, Nil, 0)
    ensures var n1 := Move(ns, prev, mp, f, k);
            && |n1| == |ns| && n1[mp] == Node(k, Nil, 0) && n1[f].key == ns[mp].key && n1[f].val == ns[mp].val
            && n1[prev].key == ns[prev].key && n1[prev].val == ns[prev].val
            && forall i :: 0 <= i < |ns| && i != prev && i != mp && i != f ==> n1[i] == ns[i]
  {
  }

  lemma MoveUses(ns: seq<Node>, ord: seq<nat>, q: nat, f: nat, k: Val, i: nat)
    requires Chained(ns, ord) && k != Nil && 0 < q < |ord| && f < |ns| && ns[f].key == Nil && i < |ns|
    requires ord[q] < |ns| && ord[q - 1] < |ns| && ord[q - 1] != ord[q]
    ensures var n1 := Move(ns, ord[q - 1], ord[q], f, k);
            && (n1[i].key != Nil <==> i in Replace(ord, q, f))
            && (n1[i].key == Nil ==> n1[i] == Node(Nil, Nil, 0))
  {
    hide Move, Replace, NoDup;
    InUse(ns, ord, f);
    NodeIn(ns, ord, q);
    NodeIn(ns, ord, q - 1);
    MoveAt(ns, ord[q - 1], ord[q], f, k);
    ReplaceMembers(ns, ord, q, f);
    assert ord[q] in ord && ord[q - 1] in ord;
    assert ns[i].key != Nil <==> i in ord;
  }

  lemma ReplaceMembers(ns: seq<Node>, ord: seq<nat>, q: nat, f: nat)
    requires Chained(ns, ord) && q < |ord| && f < |ns| && ns[f].key == Nil
    ensures NoDup(Replace(ord, q, f))
    ensures forall i :: i in Replace(ord, q, f) <==> i in ord || i == f
  {
    InUse(ns, ord, f);
    ReplaceIn(ord, q, f);
  }

  lemma MoveChained(ns: seq<Node>, ord: seq<nat>, q: nat, f: nat, k: Val)
    requires Chained(ns, ord) && k != Nil && 0 < q < |ord| && ns[ord[q - 1]].next != 0 && f < |ns| && ns[f].key == Nil
    ensures Chained(Move(ns, ord[q - 1], ord[q], f, k), Replace(ord, q, f))
  {
    InUse(ns, ord, f);
    Apart(ns, ord, q - 1, q);
    var n1, o1 := Move(ns, ord[q - 1], ord[q], f, k), Replace(ord, q, f);
    hide Move, Replace, NoDup;
    ReplaceAt(ord, q, f);
    MoveAt(ns, ord[q - 1], ord[q], f, k);
    ReplaceMembers(ns, ord, q, f);
    forall i | 0 <= i < |n1| ensures (n1[i].key != Nil <==> i in o1) && (n1[i].key == Nil ==> n1[i] == Node(Nil, Nil, 0)) {
      MoveUses(ns, ord, q, f, k, i);
    }
    forall p | 0 <= p < |o1| ensures o1[p] < |n1| {
    }
    forall p | 0 <= p < |o1| && n1[o1[p]].next != 0 ensures p + 1 < |o1| && o1[p] + n1[o1[p]].next == o1[p + 1] {
      MoveLink(ns, ord, q, f, k, p);
    }
    ChainedWhen(n1, o1);
  }

  lemma ChainedWhen(ns: seq<Node>, ord: seq<nat>)
    requires NoDup(ord) && (forall p :: 0 <= p < |ord| ==> ord[p] < |ns|)
    requires forall i :: 0 <= i < |ns| ==> (ns[i].key != Nil <==> i in ord) && (ns[i].key == Nil ==> ns[i] == Node(Nil, Nil, 0))
    requires forall p {:trigger ns[ord[p]]} :: 0 <= p < |ord| && ns[ord[p]].next != 0 ==>
               p + 1 < |ord| && ord[p] + ns[ord[p]].next == ord[p + 1]
    ensures Chained(ns, ord)
  {
  }

  lemma MoveOK(h: Hash, ns: seq<Node>, ord: seq<nat>, q: nat, f: nat, k: Val)
    requires Hashed(h, ns, ord) && k != Nil && !HasKey(ns, k)
    requires 0 < q < |ord| && ns[ord[q - 1]].next != 0
    requires ord[q] == Main(h, k, |ns|) != Main(h, ns[ord[q]].key, |ns|)
    requires f < |ns| && ns[f].key == Nil
    ensures Hashed(h, Move(ns, ord[q - 1], ord[q], f, k), Replace(ord, q, f))
  {
    hide NoDup, Housed;
    var mp := ord[q];
    var n1, o1 := Move(ns, ord[q - 1], mp, f, k), Replace(ord, q, f);
    MoveChained(ns, ord, q, f, k);
    forall p | 0 <= p < |o1| ensures HasHome(h, n1, o1, p) {
      MoveHome(h, ns, ord, q, f, k, p);
    }
    HomesHouse(h, n1, o1);
    MoveDistinct(ns, ord[q - 1], mp, f, k);
  }

  lemma HomesHouse(h: Hash, ns: seq<Node>, ord: seq<nat>)
    requires Chained(ns, ord) && forall p :: 0 <= p < |ord| ==> HasHome(h, ns, ord, p)
    ensures Housed(h, ns, ord)
  {
  }

  lemma MoveDistinct(ns: seq<Node>, prev: nat, mp: nat, f: nat, k: Val)
    requires Distinct(ns) && !HasKey(ns, k) && prev < |ns| && mp < |ns| && f < |ns| && ns[f].key == Nil && k != Nil
    requires prev != f && mp != f && prev != mp
    ensures Distinct(Move(ns, prev, mp, f, k))
  {
    var n1 := Move(ns, prev, mp, f, k);
    assert forall i :: 0 <= i < |n1| ==> n1[i].key == (if i == mp then k else if i == f then ns[mp].key else ns[i].key);
  }

  lemma MoveHome(h: Hash, ns: seq<Node>, ord: seq<nat>, q: nat, f: nat, k: Val, p: nat)
    requires Hashed(h, ns, ord) && k != Nil
    requires 0 < q < |ord| && ns[ord[q - 1]].next != 0
    requires ord[q] == Main(h, k, |ns|) != Main(h, ns[ord[q]].key, |ns|)
    requires f < |ns| && ns[f].key == Nil && p <= |ord|
    requires Chained(Move(ns, ord[q - 1], ord[q], f, k), Replace(ord, q, f))
    ensures HasHome(h, Move(ns, ord[q - 1], ord[q], f, k), Replace(ord, q, f), p)
  {
    hide Chained, Housed, Distinct;
    var mp := ord[q];
    InUse(ns, ord, f);
    var n1, o1 := Move(ns, ord[q - 1], mp, f, k), Replace(ord, q, f);
    Apart(ns, ord, q, q - 1);
    if p == |ord| {
      assert HomeAt(h, n1, o1, p, p);
    } else {
      var m := Home(h, ns, ord, p);
      Apart(ns, ord, p, q);
      Apart(ns, ord, m, q);
      assert m != q;
      forall r | m <= r < p ensures n1[o1[r]].next != 0 {
        assert ns[ord[r]].next != 0;
        Apart(ns, ord, r, q);
        Apart(ns, ord, r, q - 1);
        if r == q {
          LinkNotSelf(ns, ord, q, f);
        }
      }
      assert HomeAt(h, n1, o1, m, p);
    }
  }
}
