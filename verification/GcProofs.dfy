/** Proofs about marking. */
module GcProofs {
  import opened GcHeap

  /** The objects of 'L' are well-formed and mention only each other. */
  ghost predicate Intact(h: Heap, L: set<Id>) {
    && (forall x :: IsRoot(h, x) ==> x in L)
    && h.mainthread in h.objs && h.objs[h.mainthread].kind == Thread
    && (forall o :: o in L ==>
          && o in h.objs && ShapeOK(h.objs[o])
          && (forall c :: c in h.objs[o].upvals ==> c in h.cells)
          && (forall x :: Mentions(h, o, x) ==> x in L))
  }

  lemma StrBlack(h: Heap, m: Marks, o: Id)
    requires o in h.objs && h.objs[o].kind == Str && ShapeOK(h.objs[o])
    ensures BlackOK(h, m, o)
  {
  }

  /** What a userdata refers to. */
  lemma UdataRefs(h: Heap, o: Id)
    requires o in h.objs && h.objs[o].kind == Udata && ShapeOK(h.objs[o])
    ensures var u := h.objs[o].slots;
            && |u| == 2
            && (forall x :: Strong(h, o, x) <==> Is(u[0], x) || Is(u[1], x))
  {
    var u := h.objs[o].slots;
    assert u[0] in u && u[1] in u;
  }

  /** Turning the userdata black in between disturbs nothing. */
  lemma UdataGray(h: Heap, S: set<Id>, m1: Marks, g1: seq<Id>, m2: Marks, g2: seq<Id>, m3: Marks, o: Id)
    requires Grew(h, S, m1, g1, m2, g2) && GrayOK(m1, g1) && o in m1 && m1[o] == Gray && m3 == m2[o := Black]
    ensures Marked(m3) == Marked(m2) && Whites(m3) == Whites(m2) && GrayOK(m3, g2)
  {
    GrewMarked(h, S, m1, g1, m2, g2);
    assert m2[o] == Gray;
  }

  lemma UdataBlack(h: Heap, S: set<Id>, m0: Marks, g0: seq<Id>, m1: Marks, m2: Marks, g2: seq<Id>, m3: Marks,
                   m4: Marks, g4: seq<Id>, o: Id)
    requires o in h.objs && h.objs[o].kind == Udata && ShapeOK(h.objs[o]) && o in S
    requires IsWhite(m0, o) && GrayOK(m0, g0) && m1 == m0[o := Gray]
    requires Grew(h, S, m1, g0, m2, g2) && m3 == m2[o := Black] && Grew(h, S, m3, g2, m4, g4)
    requires var u := h.objs[o].slots;
             ValIn(u[0], Marked(m2)) && ValIn(u[1], Marked(m4))
    ensures Grew(h, S, m0, g0, m4, g4)
  {
    UdataGray(h, S, m1, g0, m2, g2, m3, o);
    GrewMarked(h, S, m3, g2, m4, g4);
    UdataRefs(h, o);
    assert o !in g0;
    assert BlackOK(h, m4, o);
    forall x | x in m0 && m0[x].White? && m4[x] != m0[x]
      ensures x in S && ((m4[x] == Gray && x in g4 && x in h.objs && Queued(h.objs[x].kind)) || (m4[x] == Black && BlackOK(h, m4, x)))
    {
      if x != o {
        if m2[x] != m1[x] {
          assert m4[x] == m2[x];
          if m2[x] == Gray {
            SuffixIn(g2, g4, x);
          } else {
            BlackKept(h, m2, m4, x);
          }
        }
      }
    }
    assert g4[|g4| - |g0|..] == g4[|g4| - |g2|..][|g2| - |g0|..];
    forall x | x in g4 ensures x in g0 || (IsWhite(m0, x) && m4[x] == Gray) {
      if x !in g0 && x in g2 {
        assert IsWhite(m1, x) && m2[x] == Gray;
      }
    }
  }

  lemma GrayFirst(h: Heap, S: set<Id>, m: Marks, g: seq<Id>, o: Id)
    requires IsWhite(m, o) && o in S && GrayOK(m, g) && o in h.objs && Queued(h.objs[o].kind)
    ensures Grew(h, S, m, g, m[o := Gray], [o] + g)
  {
    assert o !in g;
    assert ([o] + g)[1..] == g;
    assert ([o] + g)[0] == o;
  }

  /** A strong reference stays among the intact objects and in a closed set. */
  lemma Child(h: Heap, L: set<Id>, S: set<Id>, o: Id, x: Id)
    requires Intact(h, L) && Closed(h, S) && o in L && o in S && Strong(h, o, x)
    ensures x in L && x in S
  {
    assert Mentions(h, o, x);
  }

  lemma UdataChildren(h: Heap, L: set<Id>, S: set<Id>, o: Id)
    requires Intact(h, L) && Closed(h, S) && o in L && o in S && h.objs[o].kind == Udata
    ensures var u := h.objs[o].slots;
            |u| == 2 && ValIn(u[0], L) && ValIn(u[0], S) && ValIn(u[1], L) && ValIn(u[1], S)
  {
    UdataRefs(h, o);
    var u := h.objs[o].slots;
    if u[0].Ref? {
      Child(h, L, S, o, u[0].id);
    }
    if u[1].Ref? {
      Child(h, L, S, o, u[1].id);
    }
  }

  lemma GrayKept(m: Marks, g: seq<Id>, m': Marks)
    requires GrayOK(m, g) && Marked(m) <= Marked(m')
    ensures GrayOK(m', g)
  {
    forall x | x in g ensures x in m' && !m'[x].White? {
      assert x in Marked(m);
    }
  }

  /** Colouring a white object. */
  lemma Coloured(m: Marks, o: Id, c: Color)
    requires o in m && !c.White?
    ensures Marked(m[o := c]) == Marked(m) + {o} && Whites(m[o := c]) == Whites(m) - {o}
  {
  }

  lemma GrewBlack(h: Heap, S: set<Id>, m: Marks, g: seq<Id>, o: Id)
    requires IsWhite(m, o) && o in S && BlackOK(h, m[o := Black], o)
    ensures Grew(h, S, m, g, m[o := Black], g)
  {
  }

  lemma StringBlack(h: Heap, m: Marks, o: Id)
    requires o in h.objs && h.objs[o].kind == Str && Intact(h, h.objs.Keys)
    ensures BlackOK(h, m, o)
  {
    StrBlack(h, m, o);
  }

  lemma UdataOK(h: Heap, L: set<Id>, o: Id)
    requires Intact(h, L) && o in L
    ensures ShapeOK(h.objs[o])
  {
  }

  // ---------- the tri-colour invariant ----------

  /** The lists of the collector. While the last step of marking runs, and the mutator
      does not, 'stopped' is set. Inside the atomic phase 'saved' is the 'grayagain'
      list it started with, and 'next' what is left of a pass over the ephemerons. */
  datatype Lists = Lists(stopped: bool, inside: bool, gray: seq<Id>, again: seq<Id>, saved: seq<Id>,
                         eph: seq<Id>, next: seq<Id>, allweak: seq<Id>)

  /** Nothing in the nodes of 'o' waits to be marked. */
  ghost predicate ValsMarked(h: Heap, o: Id, M: set<Id>)
    requires o in h.objs
  {
    forall e :: e in h.objs[o].entries ==> ValIn(e.val, M) && StrIn(h, e.key, M)
  }

  ghost predicate KeysAlive(h: Heap, o: Id, M: set<Id>)
    requires o in h.objs
  {
    forall e :: e in h.objs[o].entries ==> KeyIn(h, e.key, M)
  }

  /** Nothing is left to do for the gray object 'x' in this cycle. */
  ghost predicate Settled(h: Heap, m: Marks, allweak: seq<Id>, x: Id)
    requires x in h.objs
  {
    && StrongIn(h, x, Marked(m))
    && (h.objs[x].kind == Ephemeron ==>
          ValsMarked(h, x, Marked(m)) && (x in allweak || KeysAlive(h, x, Marked(m))))
  }

  /** Gray objects that wait for the atomic phase. */
  function Rest(l: Lists): seq<Id> {
    if l.inside then l.saved else l.again
  }

  /** The gray object 'x' will be visited again, or need not be. */
  ghost predicate Covered(h: Heap, m: Marks, l: Lists, x: Id)
    requires x in h.objs
  {
    if l.stopped then
      || x in l.gray || x in Rest(l)
      || ((x in l.eph || x in l.next) && StrongIn(h, x, Marked(m)))
      || Settled(h, m, l.allweak, x)
    else
      x in l.gray || x in l.again
  }

  /** Black objects refer to marked ones only, gray objects are covered; 'but' is the
      object being traversed. */
  ghost predicate Tri(h: Heap, m: Marks, l: Lists, but: set<Id>) {
    && m.Keys == h.objs.Keys
    && (forall x :: x in m && m[x] == Black && x !in but ==> BlackOK(h, m, x))
    && (forall x :: x in m && m[x] == Gray && x !in but ==> Queued(h.objs[x].kind) && Covered(h, m, l, x))
  }

  /** All lists threaded through the objects' 'gclist' fields, and in use. */
  function Listed(l: Lists): seq<Id> {
    l.gray + Waiting(l)
  }

  function Waiting(l: Lists): seq<Id> {
    Rest(l) + (l.eph + (l.next + l.allweak))
  }

  /** The objects on the lists are gray, and each is there once: the one 'gclist' field
      of an object is enough. */
  ghost predicate ListsOK(m: Marks, l: Lists) {
    && NoDup(Listed(l))
    && (forall x :: x in Listed(l) ==> x in m && m[x] == Gray)
  }

  lemma SettledKept(h: Heap, m: Marks, m': Marks, allweak: seq<Id>, x: Id)
    requires x in h.objs && Settled(h, m, allweak, x) && Marked(m) <= Marked(m')
    ensures Settled(h, m', allweak, x)
  {
  }

  /** Marking more keeps the invariant. */
  lemma GrewTri(h: Heap, S: set<Id>, m: Marks, g: seq<Id>, m': Marks, g': seq<Id>, l: Lists, but: set<Id>)
    requires Grew(h, S, m, g, m', g') && Tri(h, m, l, but) && l.gray == g && GrayOK(m, g)
    ensures Tri(h, m', l.(gray := g'), but)
  {
    GrewMarked(h, S, m, g, m', g');
    forall x | x in m' && m'[x] == Black && x !in but ensures BlackOK(h, m', x) {
      if m[x] == m'[x] {
        BlackKept(h, m, m', x);
      }
    }
    forall x | x in m' && m'[x] == Gray && x !in but
      ensures Queued(h.objs[x].kind) && Covered(h, m', l.(gray := g'), x)
    {
      if m[x] == m'[x] {
        assert Covered(h, m, l, x);
        if x in g {
          SuffixIn(g, g', x);
        } else if l.stopped && Settled(h, m, l.allweak, x) {
          SettledKept(h, m, m', l.allweak, x);
        }
      }
    }
  }

  lemma GrewLists(h: Heap, S: set<Id>, m: Marks, g: seq<Id>, m': Marks, g': seq<Id>, l: Lists)
    requires Grew(h, S, m, g, m', g') && ListsOK(m, l) && l.gray == g && GrayOK(m, g)
    ensures ListsOK(m', l.(gray := g'))
  {
    var rest := Waiting(l);
    var l' := l.(gray := g');
    assert forall x :: x in g ==> x in Listed(l);
    assert forall x :: x in rest ==> x in Listed(l);
    forall x | x in Listed(l') ensures x in m' && m'[x] == Gray {
      assert x in g' || x in rest;
      if x in g' && x !in g {
        assert IsWhite(m, x) && m'[x] == Gray;
      }
    }
    NoDupParts(g, rest);
    assert NoDup(g');
    forall x | x in g' ensures x !in rest {
      if x in g {
        NoDupApart(g, rest, x);
      } else {
        GrayNew(m, m', g, g', x);
      }
    }
    NoDupJoin(g', rest);
  }

  lemma NoDupParts(a: seq<Id>, b: seq<Id>)
    requires NoDup(a + b)
    ensures NoDup(a) && NoDup(b)
  {
    forall i, j | 0 <= i < j < |a| ensures a[i] != a[j] {
      assert (a + b)[i] != (a + b)[j];
    }
    forall i, j | 0 <= i < j < |b| ensures b[i] != b[j] {
      assert (a + b)[|a| + i] != (a + b)[|a| + j];
    }
  }

  lemma NoDupApart(a: seq<Id>, b: seq<Id>, x: Id)
    requires NoDup(a + b) && x in a
    ensures x !in b
  {
    var i :| 0 <= i < |a| && a[i] == x;
    forall j | 0 <= j < |b| ensures b[j] != x {
      assert (a + b)[i] != (a + b)[|a| + j];
    }
  }

  lemma NoDupJoin(a: seq<Id>, b: seq<Id>)
    requires NoDup(a) && NoDup(b) && forall x :: x in a ==> x !in b
    ensures NoDup(a + b)
  {
    forall i, j | 0 <= i < j < |a + b| ensures (a + b)[i] != (a + b)[j] {
      if i < |a| <= j {
        assert a[i] in a && b[j - |a|] in b;
      }
    }
  }

  /** Nothing new was marked, nothing new is gray. */
  lemma GrewNothing(h: Heap, S: set<Id>, m: Marks, g: seq<Id>, m': Marks, g': seq<Id>)
    requires Grew(h, S, m, g, m', g') && NoDup(g) && Whites(m') == Whites(m)
    ensures g' == g
  {
    if |g'| > |g| {
      GrewMore(h, S, m, g, m', g');
    }
  }

  lemma GrewMore(h: Heap, S: set<Id>, m: Marks, g: seq<Id>, m': Marks, g': seq<Id>)
    requires Grew(h, S, m, g, m', g') && NoDup(g) && |g'| > |g|
    ensures Whites(m') != Whites(m)
  {
    var x := g'[0];
    assert x in g';
    FirstNew(g, g');
    assert x in Whites(m) && x !in Whites(m');
  }

  lemma FirstNew(g: seq<Id>, g': seq<Id>)
    requires |g| < |g'| && g'[|g'| - |g|..] == g && NoDup(g')
    ensures g'[0] !in g
  {
    forall i | 0 <= i < |g| ensures g[i] != g'[0] {
      assert g'[|g'| - |g|..][i] == g'[|g'| - |g| + i];
    }
  }

  lemma GrayNew(m: Marks, m': Marks, g: seq<Id>, g': seq<Id>, x: Id)
    requires m.Keys == m'.Keys && forall x :: x in g' ==> x in g || (IsWhite(m, x) && m'[x] == Gray)
    requires x in g' && x !in g
    ensures IsWhite(m, x)
  {
  }

  // ---------- what each kind of object refers to ----------

  lemma TableRefs(h: Heap, L: set<Id>, S: set<Id>, o: Id)
    requires Intact(h, L) && Closed(h, S) && o in L && o in S && h.objs[o].kind == Tab
    ensures forall v :: v in h.objs[o].slots ==> ValIn(v, L) && ValIn(v, S)
    ensures forall e :: e in h.objs[o].entries ==> ValIn(e.key, L) && ValIn(e.key, S) && ValIn(e.val, L) && ValIn(e.val, S)
  {
    forall v | v in h.objs[o].slots && v.Ref? ensures v.id in L && v.id in S {
      assert Is(v, v.id);
      Child(h, L, S, o, v.id);
    }
    forall e | e in h.objs[o].entries ensures ValIn(e.key, L) && ValIn(e.key, S) && ValIn(e.val, L) && ValIn(e.val, S) {
      if e.key.Ref? {
        assert Is(e.key, e.key.id);
        Child(h, L, S, o, e.key.id);
      }
      if e.val.Ref? {
        assert Is(e.val, e.val.id);
        Child(h, L, S, o, e.val.id);
      }
    }
  }

  lemma TableDone(h: Heap, L: set<Id>, o: Id, M: set<Id>)
    requires Intact(h, L) && o in L && h.objs[o].kind == Tab
    requires forall v :: v in h.objs[o].slots ==> ValIn(v, M)
    requires var es := h.objs[o].entries; forall j :: 0 <= j < |es| ==> ValIn(es[j].key, M) && ValIn(es[j].val, M)
    ensures StrongIn(h, o, M)
  {
  }

  lemma FunctionRefs(h: Heap, L: set<Id>, S: set<Id>, o: Id)
    requires Intact(h, L) && Closed(h, S) && o in L && o in S && h.objs[o].kind == Func
    ensures forall v :: v in h.objs[o].slots ==> ValIn(v, L) && ValIn(v, S)
    ensures forall c :: c in h.objs[o].upvals ==> c in h.cells && ValIn(h.cells[c], L) && ValIn(h.cells[c], S)
  {
    forall v | v in h.objs[o].slots && v.Ref? ensures v.id in L && v.id in S {
      assert Is(v, v.id);
      Child(h, L, S, o, v.id);
    }
    forall c | c in h.objs[o].upvals ensures c in h.cells && ValIn(h.cells[c], L) && ValIn(h.cells[c], S) {
      if h.cells[c].Ref? {
        assert Is(h.cells[c], h.cells[c].id);
        Child(h, L, S, o, h.cells[c].id);
      }
    }
  }

  lemma FunctionDone(h: Heap, L: set<Id>, o: Id, M: set<Id>)
    requires Intact(h, L) && o in L && h.objs[o].kind == Func
    requires forall v :: v in h.objs[o].slots ==> ValIn(v, M)
    requires var u := h.objs[o].upvals; forall j :: 0 <= j < |u| ==> ValIn(h.cells[u[j]], M)
    ensures StrongIn(h, o, M)
  {
  }

  lemma ThreadRefs(h: Heap, L: set<Id>, S: set<Id>, o: Id)
    requires Intact(h, L) && Closed(h, S) && o in L && o in S
    ensures forall v :: v in h.objs[o].slots ==> ValIn(v, L) && ValIn(v, S)
  {
    forall v | v in h.objs[o].slots && v.Ref? ensures v.id in L && v.id in S {
      assert Is(v, v.id);
      Child(h, L, S, o, v.id);
    }
  }

  lemma ThreadDone(h: Heap, L: set<Id>, o: Id, M: set<Id>)
    requires Intact(h, L) && o in L && h.objs[o].kind == Thread
    requires forall v :: v in h.objs[o].slots ==> ValIn(v, M)
    ensures StrongIn(h, o, M)
  {
  }

  lemma EphemeronRefs(h: Heap, L: set<Id>, S: set<Id>, o: Id)
    requires Intact(h, L) && Closed(h, S) && o in L && o in S && h.objs[o].kind == Ephemeron
    ensures |h.objs[o].slots| >= 1
    ensures forall v :: v in h.objs[o].slots ==> ValIn(v, L) && ValIn(v, S)
    ensures forall e :: e in h.objs[o].entries ==>
              ValIn(e.key, L) && ValIn(e.val, L) && EntryIn(h, e, S)
  {
    ThreadRefs(h, L, S, o);
    forall e | e in h.objs[o].entries ensures ValIn(e.key, L) && ValIn(e.val, L) && EntryIn(h, e, S) {
      if e.key.Ref? {
        assert Is(e.key, e.key.id) && Mentions(h, o, e.key.id);
      }
      if e.val.Ref? {
        assert Is(e.val, e.val.id) && Mentions(h, o, e.val.id);
      }
      assert EntriesIn(h, o, S);
    }
  }

  lemma EphemeronSlots(h: Heap, L: set<Id>, S: set<Id>, o: Id)
    requires Intact(h, L) && Closed(h, S) && o in L && o in S && o in h.objs && h.objs[o].kind == Ephemeron
    ensures |h.objs[o].slots| >= 1
    ensures forall v :: v in h.objs[o].slots[1..] ==> ValIn(v, L) && ValIn(v, S)
  {
    EphemeronRefs(h, L, S, o);
  }

  lemma AllKept(vs: seq<Val>, M: set<Id>, M': set<Id>)
    requires M <= M' && forall v :: v in vs ==> ValIn(v, M)
    ensures forall v :: v in vs ==> ValIn(v, M')
  {
  }

  /** What the flags of 'traverseephemeron' say of the nodes traversed so far. */
  ghost predicate NodesDone(h: Heap, es: seq<Entry>, M: set<Id>, marked: bool, hasclears: bool, hasww: bool) {
    && (hasww ==> hasclears)
    && forall e :: e in es ==>
         && (!marked ==> EntryIn(h, e, M))
         && (!hasclears ==> KeyIn(h, e.key, M))
         && (!hasww ==> ValIn(e.val, M))
         && StrIn(h, e.key, M)
  }

  lemma NoNodes(h: Heap, M: set<Id>)
    ensures NodesDone(h, [], M, false, false, false)
  {
  }

  lemma NodeStep(h: Heap, es: seq<Entry>, e: Entry, m: Marks, m': Marks, marked: bool, hasclears: bool, hasww: bool,
                 m1: bool, cleared: bool, ww: bool)
    requires NodesDone(h, es, Marked(m), marked, hasclears, hasww)
    requires Marked(m) <= Marked(m') && m.Keys == m'.Keys == h.objs.Keys
    requires !m1 ==> EntryIn(h, e, Marked(m')) && forall x :: x in m' && m'[x] != m[x] ==> h.objs[x].kind == Str
    requires (ww ==> cleared) && (!cleared ==> KeyIn(h, e.key, Marked(m)) && ValIn(e.val, Marked(m')))
    requires (!ww ==> ValIn(e.val, Marked(m'))) && StrIn(h, e.key, Marked(m'))
    ensures NodesDone(h, es + [e], Marked(m'), marked || m1, hasclears || cleared, hasww || ww)
  {
    hide EntryIn;
    forall f | f in es && !marked && !m1 ensures EntryIn(h, f, Marked(m')) {
      EntryKept(h, f, m, m');
    }
  }

  lemma AllNodes(h: Heap, o: Id, M: set<Id>, marked: bool, hasclears: bool, hasww: bool)
    requires o in h.objs && NodesDone(h, h.objs[o].entries, M, marked, hasclears, hasww)
    ensures !marked ==> EntriesIn(h, o, M)
    ensures !hasww ==> ValsMarked(h, o, M)
    ensures !hasclears ==> !hasww && KeysAlive(h, o, M)
  {
  }

  lemma ValOrWhite(h: Heap, L: set<Id>, S: set<Id>, o: Id, e: Entry, m: Marks)
    requires Intact(h, L) && Closed(h, S) && o in L && o in S && h.objs[o].kind == Ephemeron && e in h.objs[o].entries
    requires m.Keys == L
    ensures e.val.Ref? && !IsWhite(m, e.val.id) ==> ValIn(e.val, Marked(m))
  {
    EphemeronRefs(h, L, S, o);
  }

  /** Only strings changed colour: entries that were in order stay so. */
  lemma EntryKept(h: Heap, e: Entry, m: Marks, m': Marks)
    requires EntryIn(h, e, Marked(m)) && Marked(m) <= Marked(m') && m.Keys == m'.Keys == h.objs.Keys
    requires forall x :: x in m' && m'[x] != m[x] ==> h.objs[x].kind == Str
    ensures EntryIn(h, e, Marked(m'))
  {
  }

  lemma ClearedStays(h: Heap, e: Entry, m: Marks, m': Marks)
    requires !KeyIn(h, e.key, Marked(m)) && m.Keys == m'.Keys == h.objs.Keys
    requires forall x :: x in m' && m'[x] != m[x] ==> h.objs[x].kind == Str
    ensures EntryIn(h, e, Marked(m'))
  {
  }

  lemma KeyAliveIn(h: Heap, L: set<Id>, S: set<Id>, o: Id, e: Entry, M: set<Id>)
    requires Intact(h, L) && Closed(h, S) && o in L && o in S && h.objs[o].kind == Ephemeron && e in h.objs[o].entries
    requires M <= S && KeyIn(h, e.key, M)
    ensures ValIn(e.val, S) && ValIn(e.val, L)
  {
    EphemeronRefs(h, L, S, o);
  }

  // ---------- visiting the first gray object ----------

  /** The first gray object leaves the list, black. */
  lemma PopFirst(h: Heap, m: Marks, l: Lists)
    requires Tri(h, m, l, {}) && ListsOK(m, l) && l.gray != []
    ensures var o := l.gray[0];
            var m' := m[o := Black];
            var l' := l.(gray := l.gray[1..]);
            && o in h.objs && m[o] == Gray && Queued(h.objs[o].kind) && o !in Listed(l')
            && Tri(h, m', l', {o}) && ListsOK(m', l')
            && Marked(m') == Marked(m) && Whites(m') == Whites(m)
  {
    var o := l.gray[0];
    var m' := m[o := Black];
    var l' := l.(gray := l.gray[1..]);
    assert o in Listed(l);
    assert Marked(m') == Marked(m);
    assert Listed(l') == Listed(l)[1..];
    forall x | x in Listed(l') ensures x != o && x in Listed(l) {
      var i :| 0 <= i < |Listed(l')| && Listed(l')[i] == x;
      assert Listed(l)[0] != Listed(l)[i + 1];
    }
    forall i, j | 0 <= i < j < |Listed(l')| ensures Listed(l')[i] != Listed(l')[j] {
      assert Listed(l)[i + 1] != Listed(l)[j + 1];
    }
    forall x | x in m' && m'[x] == Gray && x !in {o} ensures Queued(h.objs[x].kind) && Covered(h, m', l', x) {
      assert Covered(h, m, l, x);
    }
  }

  lemma FinishBlack(h: Heap, m: Marks, l: Lists, o: Id)
    requires Tri(h, m, l, {o}) && o in m && m[o] == Black && BlackOK(h, m, o)
    ensures Tri(h, m, l, {})
  {
  }

  lemma FinishGray(h: Heap, m: Marks, l: Lists, o: Id)
    requires Tri(h, m, l, {o}) && o in m && m[o] == Gray && Queued(h.objs[o].kind) && Covered(h, m, l, o)
    ensures Tri(h, m, l, {})
  {
  }

  /** Turning the visited object gray again. */
  lemma Regray(h: Heap, m: Marks, l: Lists, o: Id, g: seq<Id>)
    requires Tri(h, m, l, {o}) && o in m && m[o] == Black && GrayOK(m, g) && ListsOK(m, l) && o !in Listed(l)
    ensures Tri(h, m[o := Gray], l, {o}) && GrayOK(m[o := Gray], g) && ListsOK(m[o := Gray], l)
    ensures Marked(m[o := Gray]) == Marked(m) && Whites(m[o := Gray]) == Whites(m)
  {
    var m' := m[o := Gray];
    assert Marked(m') == Marked(m);
    forall x | x in m' && m'[x] == Gray && x !in {o} ensures Queued(h.objs[x].kind) && Covered(h, m', l, x) {
      assert Covered(h, m, l, x);
    }
  }

  /** Longer lists cover more. */
  lemma Relist(h: Heap, m: Marks, l: Lists, l': Lists, but: set<Id>)
    requires Tri(h, m, l, but)
    requires l'.stopped == l.stopped && l'.inside == l.inside && l'.gray == l.gray && l'.saved == l.saved
    requires forall x :: x in l.again ==> x in l'.again
    requires forall x :: x in l.eph || x in l.next ==> x in l'.eph || x in l'.next
    requires forall x :: x in l.allweak ==> x in l'.allweak
    ensures Tri(h, m, l', but)
  {
    forall x | x in m && m[x] == Gray && x !in but ensures Covered(h, m, l', x) {
      assert Covered(h, m, l, x);
    }
  }

  /** 'l1' is 'l' with 'o' on one more list. */
  ghost predicate Joined(l: Lists, l1: Lists, o: Id) {
    exists a, b :: Listed(l) == a + b && Listed(l1) == a + [o] + b
  }

  lemma JoinedAt(l: Lists, l1: Lists, o: Id, a: seq<Id>, b: seq<Id>)
    requires Listed(l) == a + b && Listed(l1) == a + [o] + b
    ensures Joined(l, l1, o)
  {
  }

  lemma JoinAgain(l: Lists, o: Id)
    requires !l.inside
    ensures Joined(l, l.(again := [o] + l.again), o)
  {
    JoinedAt(l, l.(again := [o] + l.again), o, l.gray, Waiting(l));
  }

  lemma JoinEph(l: Lists, o: Id)
    ensures Joined(l, l.(eph := [o] + l.eph), o)
  {
    JoinedAt(l, l.(eph := [o] + l.eph), o, l.gray + Rest(l), l.eph + (l.next + l.allweak));
  }

  lemma JoinAllweak(l: Lists, o: Id)
    ensures Joined(l, l.(allweak := [o] + l.allweak), o)
  {
    JoinedAt(l, l.(allweak := [o] + l.allweak), o, l.gray + (Rest(l) + (l.eph + l.next)), l.allweak);
  }

  /** A gray object joins a list. */
  lemma Join(m: Marks, l: Lists, l1: Lists, o: Id)
    requires ListsOK(m, l) && o in m && m[o] == Gray && o !in Listed(l) && Joined(l, l1, o)
    ensures ListsOK(m, l1)
  {
    var a, b :| Listed(l) == a + b && Listed(l1) == a + [o] + b;
    NoDupInsert(a, o, b);
    forall x | x in Listed(l1) ensures x in m && m[x] == Gray {
      if x != o {
        assert x in a || x in b;
        assert x in Listed(l);
      }
    }
  }

  /** An object leaves a list. */
  lemma Leave(m: Marks, l: Lists, l1: Lists, o: Id)
    requires ListsOK(m, l1) && Joined(l, l1, o)
    ensures ListsOK(m, l) && o in m && m[o] == Gray && o !in Listed(l)
  {
    var a, b :| Listed(l) == a + b && Listed(l1) == a + [o] + b;
    NoDupInsert(a, o, b);
    assert o in Listed(l1);
    forall x | x in Listed(l) ensures x in m && m[x] == Gray {
      assert x in a || x in b;
      assert x in Listed(l1);
    }
  }

  lemma PushAgain(m: Marks, l: Lists, o: Id)
    requires ListsOK(m, l) && o in m && m[o] == Gray && o !in Listed(l)
    ensures ListsOK(m, l.(again := [o] + l.again))
  {
    if l.inside {
      SameListed(m, l, l.(again := [o] + l.again));
    } else {
      JoinAgain(l, o);
      Join(m, l, l.(again := [o] + l.again), o);
    }
  }

  lemma PushWeak(m: Marks, l: Lists, o: Id)
    requires ListsOK(m, l) && o in m && m[o] == Gray && o !in Listed(l)
    ensures ListsOK(m, l.(eph := [o] + l.eph)) && ListsOK(m, l.(allweak := [o] + l.allweak))
  {
    JoinEph(l, o);
    Join(m, l, l.(eph := [o] + l.eph), o);
    JoinAllweak(l, o);
    Join(m, l, l.(allweak := [o] + l.allweak), o);
  }

  /** Only ephemerons are on the lists of weak tables. */
  ghost predicate EphOK(h: Heap, l: Lists) {
    forall x :: x in l.eph || x in l.next || x in l.allweak ==> x in h.objs && h.objs[x].kind == Ephemeron
  }

  /** Strings never wait on the gray list. */
  lemma OnlyStrings(h: Heap, S: set<Id>, m: Marks, g: seq<Id>, m': Marks, g': seq<Id>)
    requires Grew(h, S, m, g, m', g') && NoDup(g) && m.Keys == h.objs.Keys
    requires forall x :: x in m' && m'[x] != m[x] ==> h.objs[x].kind == Str
    ensures g' == g
  {
    if |g'| > |g| {
      var x := g'[0];
      assert x in g';
      FirstNew(g, g');
    }
  }

  lemma NoDupInsert(a: seq<Id>, o: Id, b: seq<Id>)
    ensures NoDup(a + [o] + b) <==> NoDup(a + b) && o !in a + b
  {
    var s, t := a + b, a + [o] + b;
    assert forall i :: 0 <= i < |s| ==> s[i] == t[if i < |a| then i else i + 1];
    assert t[|a|] == o;
    if NoDup(t) {
      forall i, j | 0 <= i < j < |s| ensures s[i] != s[j] {
        assert t[if i < |a| then i else i + 1] != t[if j < |a| then j else j + 1];
      }
      forall i | 0 <= i < |s| ensures s[i] != o {
        assert t[if i < |a| then i else i + 1] != t[|a|];
      }
    }
    if NoDup(s) && o !in s {
      forall i, j | 0 <= i < j < |t| ensures t[i] != t[j] {
        if i == |a| {
          assert t[j] == s[j - 1];
        } else if j == |a| {
          assert t[i] == s[i];
        } else {
          assert s[if i < |a| then i else i - 1] != s[if j < |a| then j else j - 1];
        }
      }
    }
  }

  /** Marking never puts a marked object on the gray list. */
  lemma NotGrown(h: Heap, S: set<Id>, m: Marks, g: seq<Id>, m': Marks, g': seq<Id>, o: Id)
    requires Grew(h, S, m, g, m', g') && o in m && !m[o].White? && o !in g
    ensures o !in g' && o in m' && m'[o] == m[o]
  {
  }

  lemma EphemeronDone(h: Heap, L: set<Id>, o: Id, M: set<Id>)
    requires Intact(h, L) && o in L && h.objs[o].kind == Ephemeron
    requires forall v :: v in h.objs[o].slots[1..] ==> ValIn(v, M)
    requires |h.objs[o].slots| >= 1 && ValIn(h.objs[o].slots[0], M)
    ensures StrongIn(h, o, M)
  {
    var s := h.objs[o].slots;
    forall v | v in s ensures ValIn(v, M) {
      var i :| 0 <= i < |s| && s[i] == v;
      if i > 0 {
        assert s[1..][i - 1] == v;
      }
    }
  }

  lemma BlackWhen(h: Heap, m: Marks, o: Id)
    requires o in h.objs && Blackens(h.objs[o].kind) && StrongIn(h, o, Marked(m))
    ensures BlackOK(h, m, o)
  {
  }

  lemma ListedGray(m: Marks, l: Lists)
    requires ListsOK(m, l)
    ensures GrayOK(m, l.gray) && NoDup(l.gray)
  {
    NoDupParts(l.gray, Waiting(l));
    assert forall x :: x in l.gray ==> x in Listed(l);
  }

  lemma NotListed(l: Lists, o: Id)
    ensures o !in Listed(l) <==> o !in l.gray && o !in Waiting(l)
  {
  }

  lemma SameListed(m: Marks, l: Lists, l': Lists)
    requires ListsOK(m, l) && Listed(l') == Listed(l)
    ensures ListsOK(m, l')
  {
  }

  lemma TailGray(m: Marks, g: seq<Id>)
    requires GrayOK(m, g) && g != []
    ensures GrayOK(m, g[1..])
  {
  }

  /** Either something was marked or nothing changed on the gray list. */
  lemma GrewProgress(h: Heap, S: set<Id>, m: Marks, g: seq<Id>, m': Marks, g': seq<Id>)
    requires Grew(h, S, m, g, m', g') && NoDup(g)
    ensures Whites(m') <= Whites(m)
    ensures Whites(m') < Whites(m) || g' == g
  {
    GrewWhites(h, S, m, g, m', g');
    if Whites(m') == Whites(m) {
      GrewNothing(h, S, m, g, m', g');
    }
  }

  lemma GrewWhites(h: Heap, S: set<Id>, m: Marks, g: seq<Id>, m': Marks, g': seq<Id>)
    requires Grew(h, S, m, g, m', g')
    ensures Whites(m') <= Whites(m)
  {
    GrewMarked(h, S, m, g, m', g');
  }

  /** Where a traversed ephemeron goes (lgc.c:423-428). */
  ghost predicate Relinked(h: Heap, m: Marks, l: Lists, l1: Lists, o: Id)
    requires o in h.objs
  {
    || (!l.stopped && l1 == l.(again := [o] + l.again))
    || (l.stopped && l1 == l.(eph := [o] + l.eph))
    || (l.stopped && ValsMarked(h, o, Marked(m)) && l1 == l.(allweak := [o] + l.allweak))
    || (l.stopped && ValsMarked(h, o, Marked(m)) && KeysAlive(h, o, Marked(m)) && l1 == l)
  }

  lemma EphemeronVisited(h: Heap, S: set<Id>, m0: Marks, l0: Lists, m: Marks, l: Lists, o: Id)
    requires Intact(h, h.objs.Keys) && GrayOK(m0, l0.gray) && Grew(h, S, m0, l0.gray, m, l.gray)
    requires Tri(h, m0, l0, {o}) && ListsOK(m0, l0) && o !in Listed(l0)
    requires o in h.objs && o in m0 && m0[o] == Gray && h.objs[o].kind == Ephemeron && (l0.stopped || !l0.inside)
    requires |h.objs[o].slots| >= 1 && ValIn(h.objs[o].slots[0], Marked(m0))
    requires forall v :: v in h.objs[o].slots[1..] ==> ValIn(v, Marked(m))
    requires Relinked(h, m, l0.(gray := l.gray), l, o)
    ensures Tri(h, m, l, {}) && ListsOK(m, l)
  {
    hide Intact, Grew, GrayOK, Tri, ListsOK, StrongIn, Strong, Listed;
    var l1 := l0.(gray := l.gray);
    GrewTri(h, S, m0, l0.gray, m, l.gray, l0, {o});
    GrewLists(h, S, m0, l0.gray, m, l.gray, l0);
    GrewMarked(h, S, m0, l0.gray, m, l.gray);
    NotListed(l0, o);
    NotGrown(h, S, m0, l0.gray, m, l.gray, o);
    NotListed(l1, o);
    EphemeronDone(h, h.objs.Keys, o, Marked(m));
    Relist(h, m, l1, l, {o});
    PushAgain(m, l1, o);
    PushWeak(m, l1, o);
    FinishGray(h, m, l, o);
  }

  lemma EntriesKept(h: Heap, o: Id, m: Marks, m': Marks)
    requires o in h.objs && EntriesIn(h, o, Marked(m)) && Marked(m) <= Marked(m') && m.Keys == m'.Keys == h.objs.Keys
    requires forall x :: x in m' && m'[x] != m[x] ==> h.objs[x].kind == Str
    ensures EntriesIn(h, o, Marked(m'))
  {
    forall e | e in h.objs[o].entries && h.objs[o].kind == Ephemeron ensures EntryIn(h, e, Marked(m')) {
      EntryKept(h, e, m, m');
    }
  }

  /** A pass over the ephemerons begins. */
  lemma NextAll(h: Heap, m: Marks, l: Lists)
    requires Tri(h, m, l, {}) && ListsOK(m, l) && EphOK(h, l) && l.next == []
    ensures var l' := l.(next := l.eph, eph := []);
            Tri(h, m, l', {}) && ListsOK(m, l') && EphOK(h, l')
  {
    var l' := l.(next := l.eph, eph := []);
    assert Listed(l') == Listed(l);
    Relist(h, m, l, l', {});
  }

  /** The pass goes on with the first ephemeron left. */
  lemma NextFirst(h: Heap, m: Marks, l: Lists)
    requires Tri(h, m, l, {}) && ListsOK(m, l) && EphOK(h, l) && l.next != [] && l.stopped
    ensures var w := l.next[0];
            var l' := l.(next := l.next[1..]);
            && Tri(h, m, l', {w}) && ListsOK(m, l') && EphOK(h, l')
            && w !in Listed(l') && w in h.objs && w in m && m[w] == Gray && h.objs[w].kind == Ephemeron
            && (Intact(h, h.objs.Keys) ==> |h.objs[w].slots| >= 1 && ValIn(h.objs[w].slots[0], Marked(m)))
  {
    var w := l.next[0];
    var l' := l.(next := l.next[1..]);
    JoinedAt(l', l, w, l.gray + (Rest(l) + l.eph), l.next[1..] + l.allweak);
    Leave(m, l', l, w);
    NotListed(l', w);
    assert w in l.next;
    forall x | x in m && m[x] == Gray && x !in {w} ensures Covered(h, m, l', x) {
      assert Covered(h, m, l, x);
    }
    assert Covered(h, m, l, w);
    assert StrongIn(h, w, Marked(m));
    if Intact(h, h.objs.Keys) {
      var v := h.objs[w].slots[0];
      if v.Ref? {
        assert v in h.objs[w].slots && Is(v, v.id);
        assert Strong(h, w, v.id);
      }
    }
  }

  lemma RootRefs(h: Heap, L: set<Id>, S: set<Id>, running: Id)
    requires Intact(h, L) && Closed(h, S) && running in L && running in S
    ensures forall v :: v in [Ref(h.mainthread), Ref(running)] + h.roots ==> ValIn(v, L) && ValIn(v, S)
  {
    assert IsRoot(h, h.mainthread);
    forall v | v in h.roots && v.Ref? ensures v.id in L && v.id in S {
      assert Is(v, v.id);
      assert IsRoot(h, v.id);
    }
  }

  // ---------- clearing ephemerons ----------

  function Ids(l: seq<Id>): set<Id> {
    set x | x in l
  }

  function Kept(h: Heap, es: seq<Entry>, M: set<Id>): seq<Entry> {
    if es == [] then [] else
      var rest := Kept(h, es[..|es| - 1], M);
      var e := es[|es| - 1];
      if KeyIn(h, e.key, M) then rest + [e] else rest
  }

  /** The ephemerons of 'T' without the entries whose keys are dead. */
  function Cleared(h: Heap, T: set<Id>, M: set<Id>): Heap {
    h.(objs := map x | x in h.objs ::
      if x in T && h.objs[x].kind == Ephemeron then h.objs[x].(entries := Kept(h, h.objs[x].entries, M)) else h.objs[x])
  }

  lemma {:induction false} KeptIn(h: Heap, es: seq<Entry>, M: set<Id>, e: Entry)
    ensures e in Kept(h, es, M) <==> e in es && KeyIn(h, e.key, M)
  {
    if es != [] {
      var t := es[..|es| - 1];
      KeptIn(h, t, M, e);
      assert es == t + [es[|es| - 1]];
    }
  }

  lemma {:induction false} KeptAll(h: Heap, es: seq<Entry>, M: set<Id>)
    requires forall e :: e in es ==> KeyIn(h, e.key, M)
    ensures Kept(h, es, M) == es
  {
    if es != [] {
      var t := es[..|es| - 1];
      assert es == t + [es[|es| - 1]];
      KeptAll(h, t, M);
    }
  }

  /** What counts as alive does not depend on entries. */
  lemma {:induction false} KeptSame(h: Heap, h1: Heap, es: seq<Entry>, M: set<Id>)
    requires h.objs.Keys == h1.objs.Keys && forall x :: x in h.objs ==> h.objs[x].kind == h1.objs[x].kind
    ensures Kept(h, es, M) == Kept(h1, es, M)
  {
    if es != [] {
      KeptSame(h, h1, es[..|es| - 1], M);
    }
  }

  lemma ClearedNone(h: Heap, M: set<Id>)
    ensures Cleared(h, {}, M) == h
  {
    assert Cleared(h, {}, M).objs == h.objs;
  }

  lemma ClearedOne(h0: Heap, h1: Heap, T: set<Id>, M: set<Id>, o: Id)
    requires h1 == Cleared(h0, T, M) && o in h0.objs && h0.objs[o].kind == Ephemeron
    ensures o in h1.objs && h1.objs[o].kind == Ephemeron
    ensures h1.(objs := h1.objs[o := h1.objs[o].(entries := Kept(h1, h1.objs[o].entries, M))]) == Cleared(h0, T + {o}, M)
  {
    var es := h0.objs[o].entries;
    KeptSame(h0, h1, h1.objs[o].entries, M);
    if o in T {
      forall e | e in Kept(h0, es, M) ensures KeyIn(h0, e.key, M) {
        KeptIn(h0, es, M, e);
      }
      KeptAll(h0, Kept(h0, es, M), M);
    }
    assert h1.objs[o := h1.objs[o].(entries := Kept(h1, h1.objs[o].entries, M))] == Cleared(h0, T + {o}, M).objs;
  }

  function WithEntries(h: Heap, o: Id, es: seq<Entry>): Heap
    requires o in h.objs
  {
    h.(objs := h.objs[o := h.objs[o].(entries := es)])
  }

  /** Dropping entries disturbs nothing. */
  lemma FewerRefs(h: Heap, o: Id, es: seq<Entry>, x: Id, y: Id)
    requires o in h.objs && x in h.objs && forall e :: e in es ==> e in h.objs[o].entries
    ensures Strong(WithEntries(h, o, es), x, y) ==> Strong(h, x, y)
    ensures Mentions(WithEntries(h, o, es), x, y) ==> Mentions(h, x, y)
  {
  }

  lemma FewerIntact(h: Heap, o: Id, es: seq<Entry>, L: set<Id>)
    requires o in h.objs && Intact(h, L) && ShapeOK(h.objs[o].(entries := es)) && forall e :: e in es ==> e in h.objs[o].entries
    ensures Intact(WithEntries(h, o, es), L)
  {
    var h1 := WithEntries(h, o, es);
    assert forall x :: IsRoot(h1, x) ==> IsRoot(h, x);
    forall x | x in L
      ensures x in h1.objs && ShapeOK(h1.objs[x]) && (forall c :: c in h1.objs[x].upvals ==> c in h1.cells)
      ensures forall y :: Mentions(h1, x, y) ==> y in L
    {
      forall y | Mentions(h1, x, y) ensures y in L {
        FewerRefs(h, o, es, x, y);
      }
    }
  }

  lemma FewerClosed(h: Heap, o: Id, es: seq<Entry>, S: set<Id>)
    requires o in h.objs && Closed(h, S) && forall e :: e in es ==> e in h.objs[o].entries
    ensures Closed(WithEntries(h, o, es), S)
  {
    var h1 := WithEntries(h, o, es);
    assert forall x :: IsRoot(h1, x) ==> IsRoot(h, x);
    forall x | x in S && x in h1.objs ensures StrongIn(h1, x, S) && EntriesIn(h1, x, S) {
      assert StrongIn(h, x, S) && EntriesIn(h, x, S);
      forall y | Strong(h1, x, y) ensures y in S {
        FewerRefs(h, o, es, x, y);
      }
      if h1.objs[x].kind == Ephemeron {
        forall e | e in h1.objs[x].entries ensures EntryIn(h1, e, S) {
          assert e in h.objs[x].entries && EntryIn(h, e, S);
        }
      }
    }
  }

  lemma EphemeronShape(h: Heap, L: set<Id>, o: Id, es: seq<Entry>)
    requires Intact(h, L) && o in L && o in h.objs && h.objs[o].kind == Ephemeron
    ensures ShapeOK(h.objs[o].(entries := es))
  {
  }

  lemma GraySame(h: Heap, S: set<Id>, m: Marks, g: seq<Id>, m': Marks, g': seq<Id>)
    requires Grew(h, S, m, g, m', g') && m' == m && NoDup(g)
    ensures g' == g
  {
    GrewNothing(h, S, m, g, m', g');
  }

  // ---------- the atomic phase ----------

  /** What was put off until the atomic phase is now 'saved'. */
  lemma EnterAtomic(h: Heap, m: Marks, l: Lists)
    requires Tri(h, m, l, {}) && ListsOK(m, l) && EphOK(h, l) && l.stopped && !l.inside
    ensures var l' := l.(inside := true, saved := l.again);
            Tri(h, m, l', {}) && ListsOK(m, l') && EphOK(h, l')
  {
    var l' := l.(inside := true, saved := l.again);
    assert Listed(l') == Listed(l);
    forall x | x in m && m[x] == Gray ensures Covered(h, m, l', x) {
      assert Covered(h, m, l, x);
    }
  }

  /** It becomes the gray list (lgc.c:999). */
  lemma TakeAgain(h: Heap, m: Marks, l: Lists)
    requires Tri(h, m, l, {}) && ListsOK(m, l) && EphOK(h, l) && l.stopped && l.inside && l.gray == []
    ensures var l' := l.(gray := l.saved, saved := []);
            Tri(h, m, l', {}) && ListsOK(m, l') && EphOK(h, l') && GrayOK(m, l'.gray)
  {
    var l' := l.(gray := l.saved, saved := []);
    assert Listed(l') == Listed(l);
    forall x | x in m && m[x] == Gray ensures Covered(h, m, l', x) {
      assert Covered(h, m, l, x);
    }
    ListedGray(m, l');
  }

  /** When nothing is left to do, the marked objects form a closed set. */
  lemma MarkedClosed(h: Heap, m: Marks, l: Lists)
    requires Tri(h, m, l, {}) && l.stopped && l.inside && l.gray == [] && l.saved == [] && l.next == []
    requires forall x :: x in l.eph && x in h.objs ==> EntriesIn(h, x, Marked(m))
    requires forall x :: IsRoot(h, x) ==> x in Marked(m)
    ensures Closed(h, Marked(m))
  {
    var M := Marked(m);
    forall o | o in M && o in h.objs ensures StrongIn(h, o, M) && EntriesIn(h, o, M) {
      if m[o] == Black {
        assert BlackOK(h, m, o);
      } else {
        assert m[o] == Gray && Covered(h, m, l, o);
      }
    }
  }

  lemma ClosureLeast(h: Heap, B: set<Id>, S: set<Id>)
    requires Closed(h, S) && B <= S
    ensures Closure(h, B) <= S
  {
    forall x | x in Closure(h, B) ensures x in S {
      assert InEvery(h, B, x);
    }
  }

  lemma WeakLists(h: Heap, m: Marks, l: Lists)
    requires EphOK(h, l) && ListsOK(m, l)
    ensures forall x :: x in l.eph || x in l.allweak ==> x in h.objs && h.objs[x].kind == Ephemeron && x in Marked(m)
  {
    forall x | x in l.eph || x in l.allweak ensures x in Marked(m) {
      assert x in Listed(l);
    }
  }

  /** Ephemerons that are on no list have no dead keys. */
  lemma ClearedAll(h: Heap, m: Marks, l: Lists)
    requires Tri(h, m, l, {}) && l.stopped && l.inside && l.gray == [] && l.saved == [] && l.next == []
    requires forall x :: x in l.eph || x in l.allweak ==> x in Marked(m)
    ensures Cleared(Cleared(h, Ids(l.eph), Marked(m)), Ids(l.allweak), Marked(m)) == Cleared(h, Marked(m), Marked(m))
  {
    hide Kept, Tri, Marked;
    var M := Marked(m);
    var h1 := Cleared(h, Ids(l.eph), M);
    var h2 := Cleared(h1, Ids(l.allweak), M);
    forall x | x in h.objs ensures h2.objs[x] == Cleared(h, M, M).objs[x] {
      ClearedAt(h, m, l, x);
    }
    assert h2.objs == Cleared(h, M, M).objs;
  }

  lemma ClearedAt(h: Heap, m: Marks, l: Lists, x: Id)
    requires Tri(h, m, l, {}) && l.stopped && l.inside && l.gray == [] && l.saved == [] && l.next == [] && x in h.objs
    requires x in l.eph || x in l.allweak ==> x in Marked(m)
    ensures var M := Marked(m);
            Cleared(Cleared(h, Ids(l.eph), M), Ids(l.allweak), M).objs[x] == Cleared(h, M, M).objs[x]
  {
    hide Kept, StrongIn;
    var M := Marked(m);
    if h.objs[x].kind == Ephemeron {
      var es := h.objs[x].entries;
      var h1 := Cleared(h, Ids(l.eph), M);
      KeptSame(h, h1, h1.objs[x].entries, M);
      KeptTwice(h, es, M);
      if x !in l.eph && x !in l.allweak && x in M {
        KeptAll(h, es, M);
      }
    }
  }

  lemma ClearedKinds(h: Heap, T: set<Id>, M: set<Id>)
    ensures Cleared(h, T, M).objs.Keys == h.objs.Keys && Cleared(h, T, M).cells == h.cells && Cleared(h, T, M).roots == h.roots
    ensures forall x :: x in h.objs ==> Cleared(h, T, M).objs[x].kind == h.objs[x].kind
  {
  }

  lemma KeptTwice(h: Heap, es: seq<Entry>, M: set<Id>)
    ensures Kept(h, Kept(h, es, M), M) == Kept(h, es, M)
  {
    forall e | e in Kept(h, es, M) ensures KeyIn(h, e.key, M) {
      KeptIn(h, es, M, e);
    }
    KeptAll(h, Kept(h, es, M), M);
  }

  /** After clearing, live objects mention live objects only. */
  lemma AliveIntact(h: Heap, M: set<Id>)
    requires Intact(h, h.objs.Keys) && Closed(h, M) && M <= h.objs.Keys
    ensures Intact(Cleared(h, M, M), M) && Closed(Cleared(h, M, M), M)
  {
    var h1 := Cleared(h, M, M);
    forall x | IsRoot(h1, x) ensures x in M {
      assert IsRoot(h, x);
    }
    forall o | o in M
      ensures o in h1.objs && ShapeOK(h1.objs[o])
      ensures forall c :: c in h1.objs[o].upvals ==> c in h1.cells
      ensures forall x :: Mentions(h1, o, x) ==> x in M
    {
      forall x | Mentions(h1, o, x) ensures x in M {
        AliveMentions(h, M, o, x);
      }
    }
    FullClosed(h1, M);
  }

  lemma AliveMentions(h: Heap, M: set<Id>, o: Id, x: Id)
    requires Intact(h, h.objs.Keys) && Closed(h, M) && M <= h.objs.Keys && o in M
    requires Mentions(Cleared(h, M, M), o, x)
    ensures x in M
  {
    var h1 := Cleared(h, M, M);
    assert StrongIn(h, o, M) && EntriesIn(h, o, M);
    if h.objs[o].kind == Ephemeron {
      if Strong(h1, o, x) {
        assert Strong(h, o, x);
      } else {
        var e :| e in h1.objs[o].entries && (Is(e.key, x) || Is(e.val, x));
        KeptIn(h, h.objs[o].entries, M, e);
        assert EntryIn(h, e, M);
      }
    } else {
      NotTable(h, o);
      assert Mentions(h, o, x) && Strong(h, o, x);
    }
  }

  lemma NotTable(h: Heap, o: Id)
    requires o in h.objs && ShapeOK(h.objs[o])
    ensures h.objs[o].kind == Tab || h.objs[o].kind == Ephemeron || h.objs[o].entries == []
  {
  }

  lemma OthersDie(m: Marks, b: bool)
    requires OneWhite(m, b)
    ensures forall x :: x in m && x !in Marked(m) ==> m[x] == White(b)
  {
  }
}
