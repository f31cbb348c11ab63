/** What writes, allocation and freeing do to the object graph and to the colours. */
module GcMutator {
  import opened GcHeap
  import opened GcProofs

  /** Objects that no barrier and no sweep has found dead. */
  ghost function LiveSet(m: Marks, currentwhite: bool): set<Id> {
    set x | x in m && m[x] != White(!currentwhite)
  }

  lemma AllLive(m: Marks, b: bool)
    requires OneWhite(m, b)
    ensures LiveSet(m, b) == m.Keys
  {
    assert forall x :: x in m ==> m[x] != White(!b);
  }

  lemma IntactFull(h: Heap, L: set<Id>)
    requires Intact(h, L)
    ensures Full(h, L)
  {
  }

  /** The objects that survive the cycle, after a change to the graph. */
  lemma Refit(h: Heap, L: set<Id>, A: set<Id>)
    requires Intact(h, L) && A <= L
    ensures Closed(h, Closure(h, A)) && A <= Closure(h, A) <= L
  {
    IntactFull(h, L);
    FullClosed(h, L);
    assert L <= h.objs.Keys;
    ClosureClosed(h, A, L);
  }

  // ---------- writing to an object ----------

  function WithShape(h: Heap, o: Id, s: Shape): Heap {
    h.(objs := h.objs[o := s])
  }

  /** All that 's' mentions directly is in 'L'. */
  ghost predicate ShapeIn(s: Shape, L: set<Id>) {
    && (forall v :: v in s.slots ==> ValIn(v, L))
    && (forall e :: e in s.entries ==> ValIn(e.key, L) && ValIn(e.val, L))
  }

  lemma IntactShape(h: Heap, L: set<Id>, o: Id)
    requires Intact(h, L) && o in L
    ensures o in h.objs && ShapeOK(h.objs[o]) && ShapeIn(h.objs[o], L)
    ensures forall c :: c in h.objs[o].upvals ==> c in h.cells && ValIn(h.cells[c], L)
  {
    var s := h.objs[o];
    forall v | v in s.slots && v.Ref? ensures v.id in L {
      assert Is(v, v.id) && Mentions(h, o, v.id);
    }
    forall e | e in s.entries ensures ValIn(e.key, L) && ValIn(e.val, L) {
      if e.key.Ref? {
        assert Is(e.key, e.key.id) && Mentions(h, o, e.key.id);
      }
      if e.val.Ref? {
        assert Is(e.val, e.val.id) && Mentions(h, o, e.val.id);
      }
    }
    forall c | c in s.upvals && h.cells[c].Ref? ensures h.cells[c].id in L {
      assert Is(h.cells[c], h.cells[c].id) && Mentions(h, o, h.cells[c].id);
    }
  }

  lemma WriteIntact(h: Heap, L: set<Id>, o: Id, s: Shape)
    requires Intact(h, L) && o in L && o in h.objs && s.kind == h.objs[o].kind && s.upvals == h.objs[o].upvals
    requires ShapeOK(s) && ShapeIn(s, L)
    ensures Intact(WithShape(h, o, s), L)
  {
    var h1 := WithShape(h, o, s);
    assert forall x :: IsRoot(h1, x) ==> IsRoot(h, x);
    IntactShape(h, L, o);
    forall p | p in L ensures forall x :: Mentions(h1, p, x) ==> x in L {
      forall x | Mentions(h1, p, x) ensures x in L {
        if p != o {
          assert Mentions(h, p, x);
        }
      }
    }
  }

  /** Nothing but 'o' is touched by a write to 'o'. */
  lemma WriteTri(h: Heap, m: Marks, l: Lists, o: Id, s: Shape)
    requires Tri(h, m, l, {}) && !l.stopped && o in h.objs && s.kind == h.objs[o].kind
    ensures Tri(WithShape(h, o, s), m, l, if m[o] == Black then {o} else {})
  {
    var h1 := WithShape(h, o, s);
    forall x | x in m && m[x] == Black && x != o ensures BlackOK(h1, m, x) {
      assert BlackOK(h, m, x);
      forall y | Strong(h1, x, y) ensures y in Marked(m) {
        assert Strong(h, x, y);
      }
    }
    forall x | x in m && m[x] == Gray ensures Queued(h1.objs[x].kind) && Covered(h1, m, l, x) {
      assert Covered(h, m, l, x);
    }
  }

  /** All that 'o' refers to is marked, but for values of 'vs'. */
  ghost predicate StrongBut(h: Heap, o: Id, M: set<Id>, vs: set<Val>)
    requires o in h.objs
  {
    Blackens(h.objs[o].kind) && forall x :: Strong(h, o, x) ==> x in M || Ref(x) in vs
  }

  /** 's' is 'old', with values of 'vs' added. */
  ghost predicate Adds(was: Shape, s: Shape, vs: set<Val>) {
    && s.kind == was.kind && s.upvals == was.upvals
    && (forall v :: v in s.slots ==> v in was.slots || v in vs)
    && (forall e :: e in s.entries ==>
          e in was.entries || ((e.key in vs || exists d :: d in was.entries && d.key == e.key) && e.val in vs))
  }

  lemma WriteStrong(h: Heap, m: Marks, o: Id, s: Shape, vs: set<Val>)
    requires o in h.objs && BlackOK(h, m, o) && Adds(h.objs[o], s, vs)
    ensures StrongBut(WithShape(h, o, s), o, Marked(m), vs)
  {
  }

  // ---------- closed upvalues and roots ----------

  function WithCell(h: Heap, c: nat, v: Val): Heap {
    h.(cells := h.cells[c := v])
  }

  lemma CellIntact(h: Heap, L: set<Id>, c: nat, v: Val)
    requires Intact(h, L) && ValIn(v, L)
    ensures Intact(WithCell(h, c, v), L)
  {
    var h1 := WithCell(h, c, v);
    assert forall x :: IsRoot(h1, x) ==> IsRoot(h, x);
    forall p | p in L ensures forall x :: Mentions(h1, p, x) ==> x in L {
      forall x | Mentions(h1, p, x) ensures x in L {
        if !Is(v, x) {
          assert Mentions(h, p, x);
        }
      }
    }
  }

  /** Black functions that share the upvalue 'c'. */
  ghost function Sharing(h: Heap, m: Marks, c: nat): set<Id> {
    set x | x in m && x in h.objs && m[x] == Black && c in h.objs[x].upvals
  }

  lemma CellTri(h: Heap, m: Marks, l: Lists, c: nat, v: Val)
    requires Tri(h, m, l, {}) && !l.stopped
    ensures Tri(WithCell(h, c, v), m, l, Sharing(h, m, c))
    ensures forall x :: x in Sharing(h, m, c) ==> StrongBut(WithCell(h, c, v), x, Marked(m), {v})
  {
    var h1 := WithCell(h, c, v);
    forall x | x in m && m[x] == Black ensures StrongBut(h1, x, Marked(m), {v}) {
      assert BlackOK(h, m, x);
      forall y | Strong(h1, x, y) && Ref(y) != v ensures y in Marked(m) {
        assert Strong(h, x, y);
      }
    }
    forall x | x in m && m[x] == Black && x !in Sharing(h, m, c) ensures BlackOK(h1, m, x) {
      assert BlackOK(h, m, x);
      forall y | Strong(h1, x, y) ensures y in Marked(m) {
        assert Strong(h, x, y);
      }
    }
    forall x | x in m && m[x] == Gray ensures Queued(h1.objs[x].kind) && Covered(h1, m, l, x) {
      assert Covered(h, m, l, x);
    }
  }

  /** Once the new value is marked, all is well. */
  lemma CellDone(h: Heap, m0: Marks, m: Marks, l: Lists, but: set<Id>, v: Val)
    requires Tri(h, m, l, but) && Marked(m0) <= Marked(m) && ValIn(v, Marked(m))
    requires forall x :: x in but ==> x in m && m[x] == Black && x in h.objs && StrongBut(h, x, Marked(m0), {v})
    ensures Tri(h, m, l, {})
  {
    forall x | x in m && m[x] == Black ensures BlackOK(h, m, x) {
    }
  }

  function WithRoots(h: Heap, rs: seq<Val>): Heap {
    h.(roots := rs)
  }

  lemma RootsIntact(h: Heap, L: set<Id>, rs: seq<Val>)
    requires Intact(h, L) && forall v :: v in rs ==> ValIn(v, L)
    ensures Intact(WithRoots(h, rs), L)
  {
    var h1 := WithRoots(h, rs);
    assert IsRoot(h, h.mainthread);
    forall x | IsRoot(h1, x) ensures x in L {
    }
    forall p | p in L ensures forall x :: Mentions(h1, p, x) ==> x in L {
      forall x | Mentions(h1, p, x) ensures x in L {
        assert Mentions(h, p, x);
      }
    }
  }

  lemma RootsIn(h: Heap, L: set<Id>)
    requires Intact(h, L)
    ensures forall v :: v in h.roots ==> ValIn(v, L)
  {
    forall v | v in h.roots && v.Ref? ensures v.id in L {
      assert Is(v, v.id) && IsRoot(h, v.id);
    }
  }

  lemma RootsTri(h: Heap, m: Marks, l: Lists, rs: seq<Val>)
    requires Tri(h, m, l, {}) && !l.stopped
    ensures Tri(WithRoots(h, rs), m, l, {})
  {
    var h1 := WithRoots(h, rs);
    forall x | x in m && m[x] == Black ensures BlackOK(h1, m, x) {
      assert BlackOK(h, m, x);
      forall y | Strong(h1, x, y) ensures y in Marked(m) {
        assert Strong(h, x, y);
      }
    }
    forall x | x in m && m[x] == Gray ensures Queued(h1.objs[x].kind) && Covered(h1, m, l, x) {
      assert Covered(h, m, l, x);
    }
  }

  // ---------- allocation ----------

  /** A new object refers to nothing but upvalues that exist already. */
  ghost predicate Fresh(h: Heap, L: set<Id>, s: Shape) {
    && ShapeOK(s) && s.entries == [] && (forall v :: v in s.slots ==> v.Plain?)
    && (forall c :: c in s.upvals ==> c in h.cells && ValIn(h.cells[c], L))
  }

  lemma NewIntact(h: Heap, L: set<Id>, x: Id, s: Shape)
    requires Intact(h, L) && x !in h.objs && Fresh(h, L, s)
    ensures Intact(WithShape(h, x, s), L + {x})
  {
    var h1 := WithShape(h, x, s);
    assert forall y :: IsRoot(h1, y) ==> IsRoot(h, y);
    forall p | p in L + {x}
      ensures p in h1.objs && ShapeOK(h1.objs[p])
      ensures forall y :: Mentions(h1, p, y) ==> y in L + {x}
    {
      forall y | Mentions(h1, p, y) ensures y in L + {x} {
        if p != x {
          assert Mentions(h, p, y);
        } else {
          assert s.entries == [];
          if exists v :: v in s.slots && Is(v, y) {
            assert false;
          }
        }
      }
    }
  }

  lemma NewTri(h: Heap, m: Marks, l: Lists, x: Id, s: Shape, c: Color)
    requires Tri(h, m, l, {}) && !l.stopped && x !in h.objs && c.White?
    ensures Tri(WithShape(h, x, s), m[x := c], l, {})
    ensures Marked(m[x := c]) == Marked(m)
  {
    var h1 := WithShape(h, x, s);
    var m1 := m[x := c];
    assert Marked(m1) == Marked(m);
    forall y | y in m1 && m1[y] == Black ensures BlackOK(h1, m1, y) {
      assert BlackOK(h, m, y);
      forall z | Strong(h1, y, z) ensures z in Marked(m1) {
        assert Strong(h, y, z);
      }
    }
    forall y | y in m1 && m1[y] == Gray ensures Queued(h1.objs[y].kind) && Covered(h1, m1, l, y) {
      assert Covered(h, m, l, y);
    }
  }

  lemma NewLists(m: Marks, l: Lists, x: Id, c: Color)
    requires ListsOK(m, l) && x !in m
    ensures ListsOK(m[x := c], l)
  {
  }

  // ---------- freeing ----------

  function Without(h: Heap, x: Id): Heap {
    h.(objs := h.objs - {x})
  }

  lemma FreeRefs(h: Heap, x: Id, p: Id, y: Id)
    requires p in h.objs && p != x
    ensures Strong(Without(h, x), p, y) <==> Strong(h, p, y)
    ensures Mentions(Without(h, x), p, y) <==> Mentions(h, p, y)
  {
  }

  lemma FreeIntact(h: Heap, L: set<Id>, x: Id)
    requires Intact(h, L) && x !in L
    ensures Intact(Without(h, x), L)
  {
    hide Mentions;
    var h1 := Without(h, x);
    assert forall y :: IsRoot(h1, y) ==> IsRoot(h, y);
    assert IsRoot(h, h.mainthread);
    forall p | p in L ensures forall y :: Mentions(h1, p, y) ==> y in L {
      forall y | Mentions(h1, p, y) ensures y in L {
        FreeRefs(h, x, p, y);
      }
    }
  }

  lemma FreeClosed(h: Heap, L: set<Id>, S: set<Id>, x: Id)
    requires Intact(h, L) && Closed(h, S) && S <= L && x !in L
    ensures Closed(Without(h, x), S)
  {
    var h1 := Without(h, x);
    assert forall y :: IsRoot(h1, y) ==> IsRoot(h, y);
    forall o | o in S && o in h1.objs ensures StrongIn(h1, o, S) && EntriesIn(h1, o, S) {
      assert StrongIn(h, o, S) && EntriesIn(h, o, S);
      forall y | Strong(h1, o, y) ensures y in S {
        assert Strong(h, o, y);
      }
      IntactShape(h, L, o);
      forall e | e in h.objs[o].entries && h.objs[o].kind == Ephemeron ensures EntryIn(h1, e, S) {
        assert EntryIn(h, e, S);
      }
    }
  }

  // ---------- barriers ----------

  lemma StrongButMarked(h: Heap, o: Id, m: Marks, vs: set<Val>, v: Val)
    requires o in h.objs && StrongBut(h, o, Marked(m), vs + {v}) && (v.Ref? ==> v.id in m && !IsWhite(m, v.id))
    ensures StrongBut(h, o, Marked(m), vs)
    ensures vs == {} ==> BlackOK(h, m, o)
  {
  }

  lemma FinishStrong(h: Heap, m0: Marks, m: Marks, l: Lists, o: Id, v: Val)
    requires Tri(h, m, l, {o}) && o in m && m[o] == Black && o in h.objs && StrongBut(h, o, Marked(m0), {v})
    requires Marked(m0) <= Marked(m) && ValIn(v, Marked(m))
    ensures Tri(h, m, l, {})
  {
  }

  lemma NotGrayListed(m: Marks, l: Lists, o: Id)
    requires ListsOK(m, l) && o in m && m[o] == Black
    ensures o !in Listed(l)
  {
  }

  // ---------- the writes of the mutator ----------

  lemma AddsIn(h: Heap, L: set<Id>, o: Id, s: Shape, vs: set<Val>)
    requires Intact(h, L) && o in L && o in h.objs && Adds(h.objs[o], s, vs) && forall v :: v in vs ==> ValIn(v, L)
    ensures ShapeIn(s, L) && s.kind == h.objs[o].kind && s.upvals == h.objs[o].upvals
  {
    IntactShape(h, L, o);
  }

  lemma BlackWas(h: Heap, m: Marks, l: Lists, o: Id)
    requires Tri(h, m, l, {}) && o in m && m[o] == Black
    ensures BlackOK(h, m, o)
  {
  }

  lemma SlotAdds(s: Shape, i: nat, v: Val)
    requires i < |s.slots|
    ensures Adds(s, s.(slots := s.slots[i := v]), {v})
  {
  }

  lemma SlotStrong(h: Heap, o: Id, i: nat, v: Val)
    requires o in h.objs && i < |h.objs[o].slots| && h.objs[o].slots[i] == v
    ensures v.Ref? ==> Strong(h, o, v.id)
  {
    assert v in h.objs[o].slots;
    assert v.Ref? ==> Is(v, v.id);
  }

  /** The node 'j' holds 'e', or one more node does. */
  function Put(s: Shape, j: nat, e: Entry): Shape
    requires j <= |s.entries|
  {
    s.(entries := if j < |s.entries| then s.entries[j := e] else s.entries + [e])
  }

  lemma PutAdds(s: Shape, j: nat, e: Entry)
    requires j <= |s.entries| && (j < |s.entries| ==> s.entries[j].key == e.key)
    ensures Adds(s, Put(s, j, e), {e.key, e.val})
  {
  }

  lemma RemoveAdds(s: Shape, j: nat)
    requires j < |s.entries|
    ensures Adds(s, s.(entries := s.entries[..j] + s.entries[j + 1..]), {})
  {
  }

  lemma LiveNew(m: Marks, b: bool, x: Id)
    ensures LiveSet(m[x := White(b)], b) == LiveSet(m, b) + {x}
    ensures x !in m ==> Marked(m[x := White(b)]) == Marked(m)
  {
  }

  /** 'allgc' holds each object of 'K' once, but for the main thread. */
  ghost predicate AllGc(s: seq<Id>, u: seq<Id>, K: set<Id>, main: Id) {
    NoDup(s + u) && forall x :: x in s + u <==> x in K && x != main
  }

  lemma NewListed(s: seq<Id>, u: seq<Id>, K: set<Id>, main: Id, x: Id)
    requires AllGc(s, u, K, main) && x !in K && x != main
    ensures AllGc([x] + s, u, K + {x}, main)
    ensures s == [] ==> AllGc(s, [x] + u, K + {x}, main)
  {
    NoDupInsert([], x, s + u);
    assert [] + [x] + (s + u) == [x] + s + u;
    assert [] + (s + u) == s + u;
    if s == [] {
      assert [] + ([x] + u) == [x] + s + u;
    }
  }

  /** While sweeping, what is not alive is dead, and has yet to be swept. */
  ghost predicate SweepOK(m: Marks, s: seq<Id>, u: seq<Id>, alive: set<Id>, b: bool) {
    && (forall x :: x in s && x in m ==> m[x] == White(b))
    && (forall x :: x in m && x !in alive ==> x in u && m[x] == White(!b))
  }

  ghost predicate AllWhite(m: Marks, b: bool) {
    forall x :: x in m ==> m[x] == White(b)
  }

  lemma NewWhite(m: Marks, s: seq<Id>, u: seq<Id>, alive: set<Id>, a1: set<Id>, b: bool, x: Id)
    requires alive + {x} <= a1
    ensures SweepOK(m, s, u, alive, b) ==> SweepOK(m[x := White(b)], [x] + s, u, a1, b)
    ensures SweepOK(m, s, u, alive, b) && s == [] ==> SweepOK(m[x := White(b)], s, [x] + u, a1, b)
    ensures AllWhite(m, b) ==> AllWhite(m[x := White(b)], b)
  {
  }

  lemma SweepMore(m: Marks, s: seq<Id>, u: seq<Id>, alive: set<Id>, a1: set<Id>, b: bool)
    requires alive <= a1
    ensures SweepOK(m, s, u, alive, b) ==> SweepOK(m, s, u, a1, b)
  {
  }

  // ---------- sweeping ----------

  lemma SweepHead(m: Marks, s: seq<Id>, u: seq<Id>, alive: set<Id>, b: bool, K: set<Id>, main: Id)
    requires SweepOK(m, s, u, alive, b) && AllGc(s, u, K, main) && m.Keys == K && u != [] && alive <= LiveSet(m, b)
    ensures var x := u[0];
            && x in m
            && if m[x] == White(!b) then
                 && x !in alive && AllGc(s, u[1..], K - {x}, main) && SweepOK(m - {x}, s, u[1..], alive, b)
               else
                 && AllGc(s + [x], u[1..], K, main) && SweepOK(m[x := White(b)], s + [x], u[1..], alive, b)
  {
    var x := u[0];
    assert s + [x] + u[1..] == s + u;
    NoDupInsert(s, x, u[1..]);
    assert x in s + u;
    forall y | y in s + u[1..] ensures y in s + u {
      assert y in s || y in u[1..];
    }
    forall y | y in u && y != x ensures y in u[1..] {
      var i :| 0 <= i < |u| && u[i] == y;
      assert u[1..][i - 1] == y;
    }
    assert forall y :: y in s + [x] ==> y in s || y == x;
  }

  lemma EnterFacts(m: Marks, s: seq<Id>, alive: set<Id>, b: bool, K: set<Id>, main: Id)
    requires AllGc(s, [], K, main) && m.Keys == K && main in alive
    requires forall x :: x in m && x !in alive ==> m[x] == White(!b)
    ensures AllGc([], s, K, main) && SweepOK(m, [], s, alive, b)
  {
    assert s + [] == s && [] + s == s;
  }

  lemma LiveSame(m: Marks, b: bool, x: Id)
    requires x in m
    ensures m[x] == White(!b) ==> x !in LiveSet(m, b) && LiveSet(m - {x}, b) == LiveSet(m, b)
    ensures m[x] != White(!b) ==> LiveSet(m[x := White(b)], b) == LiveSet(m, b)
  {
  }

  lemma AllSwept(m: Marks, s: seq<Id>, u: seq<Id>, alive: set<Id>, b: bool, K: set<Id>, main: Id)
    requires SweepOK(m, s, u, alive, b) && AllGc(s, u, K, main) && m.Keys == K && u == [] && main in K
    ensures AllWhite(m[main := White(b)], b) && K <= alive
  {
    assert s + u == s;
  }

  /** Freeing a dead object makes no difference to what is reachable. */
  lemma FreeReachable(h: Heap, L: set<Id>, x: Id)
    requires Intact(h, L) && x !in L
    ensures ReachableSet(Without(h, x)) == ReachableSet(h)
  {
    var h1 := Without(h, x);
    FreeIntact(h, L, x);
    Refit(h, L, {});
    Refit(h1, L, {});
    FreeClosed(h, L, ReachableSet(h), x);
    ClosureLeast(h1, {}, ReachableSet(h));
    FreeBack(h, L, ReachableSet(h1), x);
    ClosureLeast(h, {}, ReachableSet(h1));
  }

  lemma FreeBack(h: Heap, L: set<Id>, S: set<Id>, x: Id)
    requires Intact(h, L) && x !in L && S <= L && Closed(Without(h, x), S)
    ensures Closed(h, S)
  {
    var h1 := Without(h, x);
    assert forall y :: IsRoot(h, y) ==> IsRoot(h1, y);
    forall o | o in S && o in h.objs ensures StrongIn(h, o, S) && EntriesIn(h, o, S) {
      assert o in h1.objs;
      assert StrongIn(h1, o, S) && EntriesIn(h1, o, S);
      forall y | Strong(h, o, y) ensures y in S {
        FreeRefs(h, x, o, y);
      }
      IntactShape(h, L, o);
      forall e | e in h.objs[o].entries && h.objs[o].kind == Ephemeron ensures EntryIn(h, e, S) {
        assert EntryIn(h1, e, S);
      }
    }
  }

  // ---------- the phases ----------

  lemma StartMarks(h: Heap, m: Marks, b: bool)
    requires AllWhite(m, b) && m.Keys == h.objs.Keys
    ensures OneWhite(m, b) && Marked(m) == {} && GrayOK(m, [])
    ensures var l := Lists(false, false, [], [], [], [], [], []);
            Tri(h, m, l, {}) && ListsOK(m, l) && EphOK(h, l)
    ensures LiveSet(m, b) == m.Keys
  {
  }

  /** The main thread is on the gray list. */
  lemma MainGray(h: Heap, m: Marks, l: Lists)
    requires Tri(h, m, l, {}) && Intact(h, h.objs.Keys) && h.mainthread in Marked(m)
    requires !l.stopped && l.again == []
    ensures l.gray != []
  {
    var x := h.mainthread;
    assert x in m && (m[x] == Black ==> BlackOK(h, m, x));
    assert Covered(h, m, l, x);
  }

  lemma RootAlive(h: Heap, S: set<Id>)
    requires Closed(h, S)
    ensures h.mainthread in S
  {
    assert IsRoot(h, h.mainthread);
  }

  lemma StopWorld(h: Heap, m: Marks, l: Lists)
    requires Tri(h, m, l, {}) && ListsOK(m, l) && !l.stopped && !l.inside && l.eph == [] && l.next == [] && l.allweak == []
    ensures var l' := l.(stopped := true); Tri(h, m, l', {}) && ListsOK(m, l') && EphOK(h, l')
  {
    var l' := l.(stopped := true);
    assert Listed(l') == Listed(l);
    forall x | x in m && m[x] == Gray ensures Covered(h, m, l', x) {
      assert Covered(h, m, l, x);
    }
  }

  /** What is added to a set from its closure does not change the closure. */
  lemma ClosureWithin(h: Heap, b: set<Id>, b1: set<Id>)
    requires b <= b1 <= Closure(h, b) && Closed(h, Closure(h, b))
    ensures Closure(h, b1) == Closure(h, b)
  {
    ClosureLeast(h, b1, Closure(h, b));
    forall x | x in Closure(h, b) ensures x in Closure(h, b1) {
      assert InEvery(h, b, x);
      assert InEvery(h, b1, x);
    }
  }

  lemma LiveMarked(m: Marks, b: bool, alive: set<Id>)
    requires Marked(m) == alive && forall x :: x in m && x !in alive ==> m[x] == White(!b)
    ensures LiveSet(m, b) == alive
  {
  }

  lemma ClosedReaches(h: Heap, S: set<Id>)
    requires Closed(h, S)
    ensures forall x :: Reachable(h, x) ==> x in S
  {
    forall x | Reachable(h, x) ensures x in S {
      assert InEvery(h, {}, x);
    }
  }

  lemma ClosureReaches(h: Heap, B: set<Id>)
    ensures forall x :: x in h.objs && Reachable(h, x) ==> x in Closure(h, B)
    ensures ReachableSet(h) <= Closure(h, B)
  {
    forall x | x in h.objs && Reachable(h, x) ensures x in Closure(h, B) {
      assert InEvery(h, {}, x);
      assert InEvery(h, B, x);
    }
  }

  lemma AddsClosed(h: Heap, L: set<Id>, S: set<Id>, o: Id, s: Shape, vs: set<Val>)
    requires Intact(h, L) && Closed(h, S) && S <= L && o in h.objs && Adds(h.objs[o], s, vs)
    requires forall v :: v in vs ==> ValIn(v, S)
    ensures Closed(WithShape(h, o, s), S)
  {
    var h1 := WithShape(h, o, s);
    var was := h.objs[o];
    assert forall x :: IsRoot(h1, x) ==> IsRoot(h, x);
    forall p | p in S && p in h1.objs ensures StrongIn(h1, p, S) && EntriesIn(h1, p, S) {
      assert StrongIn(h, p, S) && EntriesIn(h, p, S);
      forall x | Strong(h1, p, x) ensures x in S {
        if p != o {
          assert Strong(h, p, x);
        } else {
          AddsStrong(h, S, o, s, vs, x);
        }
      }
      if s.kind == Ephemeron && p == o {
        forall e | e in s.entries ensures EntryIn(h1, e, S) {
          if e in was.entries {
            assert EntryIn(h, e, S);
          } else if e.key !in vs {
            var d :| d in was.entries && d.key == e.key;
            assert EntryIn(h, d, S);
          }
        }
      } else if h.objs[p].kind == Ephemeron {
        forall e | e in h.objs[p].entries ensures EntryIn(h1, e, S) {
          assert EntryIn(h, e, S);
        }
      }
    }
  }

  lemma AddsStrong(h: Heap, S: set<Id>, o: Id, s: Shape, vs: set<Val>, x: Id)
    requires o in h.objs && Adds(h.objs[o], s, vs) && StrongIn(h, o, S) && Strong(WithShape(h, o, s), o, x)
    requires forall v :: v in vs ==> ValIn(v, S)
    ensures x in S
  {
    if !Strong(h, o, x) && s.kind == Tab && (exists e :: e in s.entries && (Is(e.key, x) || Is(e.val, x))) {
      var e :| e in s.entries && (Is(e.key, x) || Is(e.val, x));
      if e !in h.objs[o].entries && e.key !in vs {
        var d :| d in h.objs[o].entries && d.key == e.key;
        assert Is(e.key, x) ==> Is(d.key, x);
      }
    }
  }
}
