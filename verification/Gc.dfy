/** The incremental collector of apps/lua/lgc.c: marking, the atomic phase, sweeping,
    and the barriers that the mutator goes through. */
module Gc {
  import opened GcHeap
  import opened GcProofs
  import opened GcMutator
  import opened GcWeak

  /** GCSpropagate .. GCSpause (lgc.h:39-46), and GCSinsideatomic. */
  datatype Phase = Propagate | Atomic | SwpAllGc | SwpFinObj | SwpToBeFnz | SwpEnd | CallFin | Pause | InsideAtomic

  /** The sizes of a string header, of a step, and of a sweep step (lgc.c:39-42,
      lgc.h:30-33), on 64-bit machines. */
  const TSTRING := 24
  const GCSTEPSIZE := 100 * TSTRING
  const GCSWEEPCOST := (TSTRING + 4) / 4
  const GCSWEEPMAX: nat := GCSTEPSIZE / GCSWEEPCOST / 4

  function Num(p: Phase): nat {
    match p
    case Propagate => 0
    case Atomic => 1
    case SwpAllGc => 2
    case SwpFinObj => 3
    case SwpToBeFnz => 4
    case SwpEnd => 5
    case CallFin => 6
    case Pause => 7
    case InsideAtomic => 8
  }

  class Collector {
    var objs: map<Id, Shape>
    var cells: map<nat, Val>
    var roots: seq<Val>
    const mainthread: Id
    var mark: Marks
    var currentwhite: bool
    var gcstate: Phase
    var gray: seq<Id>
    var grayagain: seq<Id>
    var ephemeron: seq<Id>
    var allweak: seq<Id>
    /** 'allgc', split where 'sweepgc' points. */
    var swept: seq<Id>
    var unswept: seq<Id>
    /** Everything reachable when the cycle began, or allocated since. */
    ghost var alive: set<Id>
    /** The last step of marking runs: 'singlestep' in state GCSatomic (lgc.c:1062-1069). */
    ghost var stopped: bool
    /** The local 'grayagain' of 'atomic' and the local 'next' of 'convergeephemerons'. */
    var saved: seq<Id>
    var next: seq<Id>

    ghost function L(): Lists
      reads this
    {
      Lists(stopped, gcstate == InsideAtomic, gray, grayagain, saved, ephemeron, next, allweak)
    }

    ghost function H(): Heap
      reads this
    {
      Heap(objs, cells, roots, mainthread)
    }

    /** What marking relies on. */
    ghost predicate Ready()
      reads this
    {
      && mark.Keys == objs.Keys
      && Intact(H(), objs.Keys)
      && Closed(H(), alive)
      && GrayOK(mark, gray)
      && Marked(mark) <= alive <= objs.Keys
      && OneWhite(mark, currentwhite)
    }

    // ---------- marking (lgc.c:80-104, 235-283) ----------

    /** reallymarkobject (lgc.c:235-283) */
    method ReallyMarkObject(o: Id)
      requires Ready() && o in objs && o in alive && IsWhite(mark, o)
      modifies this`mark, this`gray
      ensures Ready() && Grew(H(), alive, old(mark), old(gray), mark, gray) && o in Marked(mark)
      decreases Whites(mark), 1
    {
      hide Intact, Closed, Grew, BlackOK, GrayOK;
      if objs[o].kind == Udata {
        MarkUdata(o);
      } else {
        ghost var m0, g0 := mark, gray;
        Coloured(mark, o, Gray);
        Coloured(mark, o, Black);
        mark := mark[o := Gray];
        if objs[o].kind == Str {
          StringBlack(H(), m0[o := Black], o);
          GrewBlack(H(), alive, m0, g0, o);
          mark := mark[o := Black];
          assert mark == m0[o := Black];
        } else {
          GrayFirst(H(), alive, m0, g0, o);
          gray := [o] + gray;
        }
        GrewMarked(H(), alive, m0, g0, mark, gray);
      }
    }

    /** A userdata is black at once; its metatable and user value are marked now. */
    method MarkUdata(o: Id)
      requires Ready() && o in objs && o in alive && IsWhite(mark, o) && objs[o].kind == Udata
      modifies this`mark, this`gray
      ensures Ready() && Grew(H(), alive, old(mark), old(gray), mark, gray) && o in Marked(mark)
      decreases Whites(mark), 0
    {
      hide Intact, Closed, Grew, BlackOK, GrayOK;
      ghost var m0, g0 := mark, gray;
      UdataChildren(H(), objs.Keys, alive, o);
      var u := objs[o].slots;
      Coloured(mark, o, Gray);
      mark := mark[o := Gray];
      GrayKept(m0, g0, mark);
      ghost var m1 := mark;
      MarkOne(u[0]);
      ghost var m2, g2 := mark, gray;
      mark := mark[o := Black];
      UdataGray(H(), alive, m1, g0, m2, g2, mark, o);
      ghost var m3 := mark;
      GrewMarked(H(), alive, m1, g0, m2, g2);
      MarkOne(u[1]);
      UdataOK(H(), objs.Keys, o);
      UdataBlack(H(), alive, m0, g0, m1, m2, g2, m3, mark, gray, o);
      GrewMarked(H(), alive, m3, g2, mark, gray);
    }

    /** markvalue (lgc.c:83-84) */
    method MarkOne(v: Val)
      requires Ready() && ValIn(v, objs.Keys) && ValIn(v, alive)
      modifies this`mark, this`gray
      ensures Ready() && Grew(H(), alive, old(mark), old(gray), mark, gray) && ValIn(v, Marked(mark))
      ensures !(v.Ref? && IsWhite(old(mark), v.id)) ==> mark == old(mark)
      decreases Whites(mark), 2
    {
      hide OneWhite, Intact, Closed, Grew, BlackOK, GrayOK;
      GrewSame(H(), alive, mark, gray);
      if v.Ref? && IsWhite(mark, v.id) {
        ReallyMarkObject(v.id);
      }
    }

    /** Marks a sequence of values, as the traversal loops do; tells whether some value
        was white. */
    method MarkAll(vs: seq<Val>) returns (any: bool)
      requires Ready() && forall v :: v in vs ==> ValIn(v, objs.Keys) && ValIn(v, alive)
      modifies this`mark, this`gray
      ensures Ready() && Grew(H(), alive, old(mark), old(gray), mark, gray)
      ensures forall v :: v in vs ==> ValIn(v, Marked(mark))
      ensures if any then Whites(mark) < Whites(old(mark)) else mark == old(mark)
    {
      hide OneWhite, Intact, Closed, Grew, BlackOK, GrayOK, Whites, Marked;
      GrewSame(H(), alive, mark, gray);
      any := false;
      for i := 0 to |vs|
        invariant Ready() && Grew(H(), alive, old(mark), old(gray), mark, gray)
        invariant forall j :: 0 <= j < i ==> ValIn(vs[j], Marked(mark))
        invariant if any then Whites(mark) < Whites(old(mark)) else mark == old(mark)
      {
        ghost var m, g := mark, gray;
        var white := MarkNext(vs[i]);
        any := any || white;
        GrewTrans(H(), alive, old(mark), old(gray), m, g, mark, gray);
      }
    }

    /** One value of a sequence; tells whether it was white. */
    method MarkNext(v: Val) returns (white: bool)
      requires Ready() && ValIn(v, objs.Keys) && ValIn(v, alive)
      modifies this`mark, this`gray
      ensures Ready() && Grew(H(), alive, old(mark), old(gray), mark, gray) && ValIn(v, Marked(mark))
      ensures Marked(old(mark)) <= Marked(mark)
      ensures if white then Whites(mark) < Whites(old(mark)) else mark == old(mark)
    {
      hide OneWhite, Intact, Closed, Grew, BlackOK, GrayOK;
      white := v.Ref? && IsWhite(mark, v.id);
      if white {
        assert v.id in Whites(mark);
      }
      MarkOne(v);
      GrewMarked(H(), alive, old(mark), old(gray), mark, gray);
    }

    // ---------- traversing (lgc.c:356-552) ----------

    /** traversestrongtable (lgc.c:433-448), after its metatable. */
    method TraverseStrongTable(o: Id)
      requires Ready() && o in objs && o in alive && objs[o].kind == Tab
      modifies this`mark, this`gray
      ensures Ready() && Grew(H(), alive, old(mark), old(gray), mark, gray)
      ensures StrongIn(H(), o, Marked(mark))
    {
      hide OneWhite, Intact, Closed, Grew, BlackOK, GrayOK, Strong;
      TableRefs(H(), objs.Keys, alive, o);
      var s := objs[o];
      var _ := MarkAll(s.slots);
      var i := 0;
      while i < |s.entries|
        invariant 0 <= i <= |s.entries|
        invariant Ready() && Grew(H(), alive, old(mark), old(gray), mark, gray)
        invariant forall v :: v in s.slots ==> ValIn(v, Marked(mark))
        invariant forall j :: 0 <= j < i ==> ValIn(s.entries[j].key, Marked(mark)) && ValIn(s.entries[j].val, Marked(mark))
      {
        ghost var m, g := mark, gray;
        assert s.entries[i] in s.entries;
        var _ := MarkAll([s.entries[i].key, s.entries[i].val]);
        assert s.entries[i].key in [s.entries[i].key, s.entries[i].val];
        assert s.entries[i].val in [s.entries[i].key, s.entries[i].val];
        GrewMarked(H(), alive, m, g, mark, gray);
        GrewTrans(H(), alive, old(mark), old(gray), m, g, mark, gray);
        i := i + 1;
      }
      TableDone(H(), objs.Keys, o, Marked(mark));
    }

    /** traverseLclosure, traverseCclosure, traverseproto (lgc.c:479-527). */
    method TraverseFunction(o: Id)
      requires Ready() && o in objs && o in alive && objs[o].kind == Func
      modifies this`mark, this`gray
      ensures Ready() && Grew(H(), alive, old(mark), old(gray), mark, gray)
      ensures StrongIn(H(), o, Marked(mark))
    {
      hide OneWhite, Intact, Closed, Grew, BlackOK, GrayOK, Strong;
      FunctionRefs(H(), objs.Keys, alive, o);
      var s := objs[o];
      var _ := MarkAll(s.slots);
      for i := 0 to |s.upvals|
        invariant Ready() && Grew(H(), alive, old(mark), old(gray), mark, gray)
        invariant forall v :: v in s.slots ==> ValIn(v, Marked(mark))
        invariant forall j :: 0 <= j < i ==> ValIn(cells[s.upvals[j]], Marked(mark))
      {
        ghost var m, g := mark, gray;
        assert s.upvals[i] in s.upvals;
        MarkOne(cells[s.upvals[i]]);
        GrewMarked(H(), alive, m, g, mark, gray);
        GrewTrans(H(), alive, old(mark), old(gray), m, g, mark, gray);
      }
      FunctionDone(H(), objs.Keys, o, Marked(mark));
    }

    /** traversethread (lgc.c:530-552) */
    method TraverseThread(o: Id)
      requires Ready() && o in objs && o in alive && objs[o].kind == Thread
      modifies this`mark, this`gray
      ensures Ready() && Grew(H(), alive, old(mark), old(gray), mark, gray)
      ensures StrongIn(H(), o, Marked(mark))
    {
      hide OneWhite, Intact, Closed, Grew, BlackOK, GrayOK, Strong;
      ThreadRefs(H(), objs.Keys, alive, o);
      var _ := MarkAll(objs[o].slots);
      ThreadDone(H(), objs.Keys, o, Marked(mark));
    }

    /** iscleared (lgc.c:139-146): strings are marked, and never cleared. */
    method IsCleared(v: Val) returns (cleared: bool)
      requires Ready() && ValIn(v, objs.Keys) && StrIn(H(), v, alive)
      modifies this`mark, this`gray
      ensures Ready() && Grew(H(), alive, old(mark), old(gray), mark, gray)
      ensures cleared <==> !KeyIn(H(), v, Marked(old(mark)))
      ensures cleared <==> v.Ref? && !IsStr(H(), v) && v.id !in Marked(old(mark))
      ensures StrIn(H(), v, Marked(mark))
      ensures StrIn(H(), v, Marked(old(mark))) ==> mark == old(mark)
      ensures forall x :: x in mark && mark[x] != old(mark)[x] ==> objs[x].kind == Str
    {
      hide OneWhite, Intact, Closed, Grew, BlackOK, GrayOK;
      GrewSame(H(), alive, mark, gray);
      if !v.Ref? {
        return false;
      } else if objs[v.id].kind == Str {
        if IsWhite(mark, v.id) {
          MarkString(v.id);
        }
        return false;
      } else {
        return IsWhite(mark, v.id);
      }
    }

    /** A string is black as soon as it is marked (lgc.c:239-248). */
    method MarkString(o: Id)
      requires Ready() && o in objs && o in alive && IsWhite(mark, o) && objs[o].kind == Str
      modifies this`mark, this`gray
      ensures Ready() && Grew(H(), alive, old(mark), old(gray), mark, gray) && mark == old(mark)[o := Black]
    {
      hide Intact, Closed, Grew, BlackOK, GrayOK;
      Coloured(mark, o, Black);
      StringBlack(H(), mark[o := Black], o);
      GrewBlack(H(), alive, mark, gray, o);
      mark := mark[o := Black];
      GrewMarked(H(), alive, old(mark), old(gray), mark, gray);
    }

    /** traverseephemeron (lgc.c:394-430): true if a value was marked. */
    method TraverseEphemeron(o: Id) returns (marked: bool)
      requires Ready() && o in objs && o in alive && objs[o].kind == Ephemeron
      modifies this`mark, this`gray, this`grayagain, this`ephemeron, this`allweak
      ensures Ready() && Grew(H(), alive, old(mark), old(gray), mark, gray)
      ensures forall v :: v in objs[o].slots[1..] ==> ValIn(v, Marked(mark))
      ensures !marked ==> forall x :: x in mark && mark[x] != old(mark)[x] ==> objs[x].kind == Str
      ensures !marked ==> EntriesIn(H(), o, Marked(mark))
      ensures marked ==> Whites(mark) < Whites(old(mark))
      ensures gcstate == Propagate ==>
                grayagain == [o] + old(grayagain) && ephemeron == old(ephemeron) && allweak == old(allweak)
      ensures gcstate != Propagate ==>
                && grayagain == old(grayagain)
                && ((ephemeron == [o] + old(ephemeron) && allweak == old(allweak))
                    || (ephemeron == old(ephemeron) && ValsMarked(H(), o, Marked(mark))
                        && (allweak == [o] + old(allweak)
                            || (allweak == old(allweak) && KeysAlive(H(), o, Marked(mark))))))
    {
      hide OneWhite, Intact, Closed, Grew, BlackOK, GrayOK, Strong, EntriesIn, ValsMarked, KeysAlive;
      EphemeronSlots(H(), objs.Keys, alive, o);
      ghost var m0, g0 := mark, gray;
      marked := MarkAll(objs[o].slots[1..]);
      ghost var m, g := mark, gray;
      GrewMarked(H(), alive, m0, g0, m, g);
      var hasclears, hasww, m1 := TraverseNodes(o);
      GrewMarked(H(), alive, m, g, mark, gray);
      GrewTrans(H(), alive, m0, g0, m, g, mark, gray);
      AllKept(objs[o].slots[1..], Marked(m), Marked(mark));
      marked := marked || m1;
      if gcstate == Propagate {
        grayagain := [o] + grayagain;
      } else if hasww {
        ephemeron := [o] + ephemeron;
      } else if hasclears {
        allweak := [o] + allweak;
      }
    }

    /** The nodes of an ephemeron (lgc.c:408-421). */
    method TraverseNodes(o: Id) returns (hasclears: bool, hasww: bool, marked: bool)
      requires Ready() && o in objs && o in alive && objs[o].kind == Ephemeron
      modifies this`mark, this`gray
      ensures Ready() && Grew(H(), alive, old(mark), old(gray), mark, gray)
      ensures !marked ==> forall x :: x in mark && mark[x] != old(mark)[x] ==> objs[x].kind == Str
      ensures !marked ==> EntriesIn(H(), o, Marked(mark))
      ensures marked ==> Whites(mark) < Whites(old(mark))
      ensures !hasww ==> ValsMarked(H(), o, Marked(mark))
      ensures !hasclears ==> !hasww && KeysAlive(H(), o, Marked(mark))
    {
      hide OneWhite, Intact, Closed, Grew, BlackOK, GrayOK, Strong, EntryIn, KeyIn, StrIn, NodesDone;
      var s := objs[o];
      ghost var m0, g0 := mark, gray;
      GrewSame(H(), alive, mark, gray);
      NoNodes(H(), Marked(mark));
      hasclears, hasww, marked := false, false, false;
      var i := 0;
      while i < |s.entries|
        invariant 0 <= i <= |s.entries|
        invariant Ready() && Grew(H(), alive, m0, g0, mark, gray)
        invariant !marked ==> forall x :: x in mark && mark[x] != m0[x] ==> objs[x].kind == Str
        invariant NodesDone(H(), s.entries[..i], Marked(mark), marked, hasclears, hasww)
        invariant marked ==> Whites(mark) < Whites(m0)
      {
        ghost var m, g := mark, gray;
        var e := s.entries[i];
        assert s.entries[..i + 1] == s.entries[..i] + [e];
        GrewMarked(H(), alive, m0, g0, m, g);
        var cleared, m1 := TraverseEntry(o, e);
        GrewMarked(H(), alive, m, g, mark, gray);
        GrewTrans(H(), alive, m0, g0, m, g, mark, gray);
        var ww := cleared && e.val.Ref? && IsWhite(mark, e.val.id);
        ValOrWhite(H(), objs.Keys, alive, o, e, mark);
        NodeStep(H(), s.entries[..i], e, m, mark, marked, hasclears, hasww, m1, cleared, ww);
        hasclears := hasclears || cleared;
        hasww := hasww || ww;
        marked := marked || m1;
        i := i + 1;
      }
      assert s.entries[..i] == s.entries;
      AllNodes(H(), o, Marked(mark), marked, hasclears, hasww);
    }

    /** One node of an ephemeron (lgc.c:412-420). */
    method TraverseEntry(ghost o: Id, e: Entry) returns (cleared: bool, marked: bool)
      requires Ready() && o in objs && o in alive && objs[o].kind == Ephemeron && e in objs[o].entries
      modifies this`mark, this`gray
      ensures Ready() && Grew(H(), alive, old(mark), old(gray), mark, gray)
      ensures cleared <==> !KeyIn(H(), e.key, Marked(old(mark)))
      ensures cleared ==> !marked
      ensures !cleared ==> ValIn(e.val, Marked(mark))
      ensures StrIn(H(), e.key, Marked(mark))
      ensures !marked ==> forall x :: x in mark && mark[x] != old(mark)[x] ==> objs[x].kind == Str
      ensures !marked ==> EntryIn(H(), e, Marked(mark))
      ensures marked ==> Whites(mark) < Whites(old(mark))
    {
      hide OneWhite, Intact, Closed, Grew, BlackOK, GrayOK, Strong;
      EphemeronRefs(H(), objs.Keys, alive, o);
      cleared := IsCleared(e.key);
      marked := false;
      ghost var m, g := mark, gray;
      GrewMarked(H(), alive, old(mark), old(gray), m, g);
      if cleared {
        ClearedStays(H(), e, old(mark), mark);
      } else if e.val.Ref? && IsWhite(mark, e.val.id) {
        marked := true;
        KeyAliveIn(H(), objs.Keys, alive, o, e, Marked(mark));
        ReallyMarkObject(e.val.id);
        assert e.val.id in Whites(old(mark)) && e.val.id !in Whites(mark);
        GrewMarked(H(), alive, m, g, mark, gray);
        GrewTrans(H(), alive, old(mark), old(gray), m, g, mark, gray);
      }
    }

    // ---------- propagating (lgc.c:559-623) ----------

    /** The marking invariant between steps: three colours, and every gray object on a
        list or already dealt with. */
    ghost predicate Marking()
      reads this
    {
      && Ready()
      && Tri(H(), mark, L(), {})
      && ListsOK(mark, L())
      && EphOK(H(), L())
    }

    /** 'o' has just left the gray list, and is black. */
    ghost predicate Visiting(o: Id)
      reads this
    {
      && Ready()
      && Tri(H(), mark, L(), {o})
      && ListsOK(mark, L())
      && EphOK(H(), L())
      && o in objs && o in alive && mark[o] == Black && Queued(objs[o].kind) && o !in Listed(L())
    }

    /** propagatemark (lgc.c:559-600) */
    method PropagateMark()
      requires Marking() && gray != [] && (stopped <==> gcstate != Propagate)
      modifies this`mark, this`gray, this`grayagain, this`ephemeron, this`allweak
      ensures Marking()
      ensures Marked(old(mark)) <= Marked(mark) && Whites(mark) <= Whites(old(mark))
      ensures Whites(mark) < Whites(old(mark)) || |gray| < |old(gray)|
      ensures gcstate == Propagate ==> ephemeron == old(ephemeron) && allweak == old(allweak)
    {
      hide Intact, Closed, Grew, BlackOK, GrayOK, Tri, ListsOK, StrongIn, Strong;
      var o := gray[0];
      PopFirst(H(), mark, L());
      GrayKept(mark, gray, mark[o := Black]);
      TailGray(mark[o := Black], gray);
      assert o in Marked(mark);
      mark := mark[o := Black];
      gray := gray[1..];
      if objs[o].kind == Tab || objs[o].kind == Func {
        VisitBlack(o);
      } else if objs[o].kind == Thread {
        VisitThread(o);
      } else {
        VisitEphemeron(o);
      }
    }

    /** A table with strong keys and values, or a function (lgc.c:565-582, 590-595). */
    method VisitBlack(o: Id)
      requires Visiting(o) && (objs[o].kind == Tab || objs[o].kind == Func)
      modifies this`mark, this`gray
      ensures Marking()
      ensures Marked(old(mark)) <= Marked(mark) && Whites(mark) <= Whites(old(mark))
      ensures Whites(mark) < Whites(old(mark)) || gray == old(gray)
    {
      hide OneWhite, Intact, Closed, Grew, BlackOK, GrayOK, Tri, ListsOK, StrongIn, Strong;
      ghost var m, g, l := mark, gray, L();
      if objs[o].kind == Tab {
        TraverseStrongTable(o);
      } else {
        TraverseFunction(o);
      }
      GrewTri(H(), alive, m, g, mark, gray, l, {o});
      GrewLists(H(), alive, m, g, mark, gray, l);
      NotListed(l, o);
      NotGrown(H(), alive, m, g, mark, gray, o);
      BlackWhen(H(), mark, o);
      FinishBlack(H(), mark, L(), o);
      GrewMarked(H(), alive, m, g, mark, gray);
      ListedGray(m, l);
      GrewProgress(H(), alive, m, g, mark, gray);
    }

    /** 'o' is gray, on no list, and its turn has come. */
    ghost predicate Reviewing(o: Id)
      reads this
    {
      && Ready()
      && Tri(H(), mark, L(), {o})
      && ListsOK(mark, L())
      && EphOK(H(), L())
      && o in objs && o in alive && mark[o] == Gray && o !in Listed(L())
    }

    /** black2gray (lgc.c:75) */
    method BlackToGray(o: Id)
      requires Visiting(o)
      modifies this`mark
      ensures Reviewing(o)
      ensures Marked(mark) == Marked(old(mark)) && Whites(mark) == Whites(old(mark))
    {
      hide Intact, Closed, Grew, BlackOK, GrayOK, Tri, ListsOK, EphOK, Listed, StrongIn;
      ListedGray(mark, L());
      GcProofs.Regray(H(), mark, L(), o, gray);
      mark := mark[o := Gray];
    }

    /** Threads are never black: they wait on 'grayagain' (lgc.c:583-589). */
    method VisitThread(o: Id)
      requires Visiting(o) && objs[o].kind == Thread
      modifies this`mark, this`gray, this`grayagain
      ensures Marking()
      ensures Marked(old(mark)) <= Marked(mark) && Whites(mark) <= Whites(old(mark))
      ensures Whites(mark) < Whites(old(mark)) || gray == old(gray)
    {
      hide Visiting, Reviewing, Marking;
      BlackToGray(o);
      LinkAgain(o);
      RevisitThread(o);
    }

    /** linkgclist(o, g->grayagain) (lgc.c:113) */
    method LinkAgain(o: Id)
      requires Reviewing(o)
      modifies this`grayagain
      ensures Ready() && Tri(H(), mark, L(), {o}) && ListsOK(mark, L()) && EphOK(H(), L())
      ensures o in objs && o in alive && mark[o] == Gray && o !in gray && o in grayagain
    {
      hide OneWhite, Intact, Closed, BlackOK, GrayOK, Tri, ListsOK, StrongIn, Strong, Listed;
      PushAgain(mark, L(), o);
      NotListed(L(), o);
      Relist(H(), mark, L(), L().(again := [o] + grayagain), {o});
      grayagain := [o] + grayagain;
    }

    method RevisitThread(o: Id)
      requires Ready() && Tri(H(), mark, L(), {o}) && ListsOK(mark, L()) && EphOK(H(), L())
      requires o in objs && o in alive && mark[o] == Gray && o !in gray && o in grayagain && objs[o].kind == Thread
      modifies this`mark, this`gray
      ensures Marking()
      ensures Marked(old(mark)) <= Marked(mark) && Whites(mark) <= Whites(old(mark))
      ensures Whites(mark) < Whites(old(mark)) || gray == old(gray)
    {
      hide OneWhite, Intact, Closed, Grew, BlackOK, GrayOK, Tri, ListsOK, StrongIn, Strong, Listed;
      ghost var m, g, l := mark, gray, L();
      TraverseThread(o);
      GrewTri(H(), alive, m, g, mark, gray, l, {o});
      GrewLists(H(), alive, m, g, mark, gray, l);
      NotGrown(H(), alive, m, g, mark, gray, o);
      FinishGray(H(), mark, L(), o);
      GrewMarked(H(), alive, m, g, mark, gray);
      ListedGray(m, l);
      GrewProgress(H(), alive, m, g, mark, gray);
    }

    /** An ephemeron stays gray (lgc.c:454-463). */
    method VisitEphemeron(o: Id)
      requires Visiting(o) && objs[o].kind == Ephemeron && (stopped <==> gcstate != Propagate)
      modifies this`mark, this`gray, this`grayagain, this`ephemeron, this`allweak
      ensures Marking()
      ensures Marked(old(mark)) <= Marked(mark) && Whites(mark) <= Whites(old(mark))
      ensures Whites(mark) < Whites(old(mark)) || gray == old(gray)
      ensures gcstate == Propagate ==> ephemeron == old(ephemeron) && allweak == old(allweak)
    {
      hide OneWhite, Intact, Closed, Grew, BlackOK, GrayOK, Tri, ListsOK, StrongIn, Strong, Listed;
      ghost var l0, m0, g0 := L(), mark, gray;
      NotListed(L(), o);
      ListedGray(mark, L());
      EphemeronRefs(H(), objs.Keys, alive, o);
      MarkOne(objs[o].slots[0]);
      GrewTri(H(), alive, m0, g0, mark, gray, l0, {o});
      GrewLists(H(), alive, m0, g0, mark, gray, l0);
      GrewMarked(H(), alive, m0, g0, mark, gray);
      NotGrown(H(), alive, m0, g0, mark, gray, o);
      GrewProgress(H(), alive, m0, g0, mark, gray);
      NotListed(L(), o);
      BlackToGray(o);
      var _ := RevisitEphemeron(o);
    }

    /** The gray ephemeron 'o', on no list, is traversed (lgc.c:454-463, 616). */
    method RevisitEphemeron(o: Id) returns (marked: bool)
      requires Reviewing(o) && objs[o].kind == Ephemeron && (stopped <==> gcstate != Propagate)
      requires ValIn(objs[o].slots[0], Marked(mark))
      modifies this`mark, this`gray, this`grayagain, this`ephemeron, this`allweak
      ensures Marking()
      ensures Marked(old(mark)) <= Marked(mark) && Whites(mark) <= Whites(old(mark))
      ensures Whites(mark) < Whites(old(mark)) || gray == old(gray)
      ensures marked ==> Whites(mark) < Whites(old(mark))
      ensures !marked ==>
                && EntriesIn(H(), o, Marked(mark)) && gray == old(gray)
                && forall x :: x in mark && mark[x] != old(mark)[x] ==> objs[x].kind == Str
      ensures gcstate != Propagate ==> ephemeron == old(ephemeron) || ephemeron == [o] + old(ephemeron)
      ensures gcstate == Propagate ==> ephemeron == old(ephemeron) && allweak == old(allweak)
    {
      hide OneWhite, Intact, Closed, Grew, BlackOK, GrayOK, Tri, ListsOK, StrongIn, Strong;
      ghost var l1, m1, g1 := L(), mark, gray;
      EphemeronSlots(H(), objs.Keys, alive, o);
      marked := TraverseEphemeron(o);
      EphemeronVisited(H(), alive, m1, l1, mark, L(), o);
      GrewMarked(H(), alive, m1, g1, mark, gray);
      ListedGray(m1, l1);
      GrewProgress(H(), alive, m1, g1, mark, gray);
      if !marked {
        OnlyStrings(H(), alive, m1, g1, mark, gray);
      }
    }

    /** propagateall (lgc.c:603-605) */
    method PropagateAll()
      requires Marking() && stopped && gcstate != Propagate
      modifies this`mark, this`gray, this`grayagain, this`ephemeron, this`allweak
      ensures Marking() && gray == []
      ensures Marked(old(mark)) <= Marked(mark) && Whites(mark) <= Whites(old(mark))
    {
      hide OneWhite, Ready, Tri, ListsOK, EphOK;
      while gray != []
        invariant Marking()
        invariant Marked(old(mark)) <= Marked(mark) && Whites(mark) <= Whites(old(mark))
        decreases Whites(mark), |gray|
      {
        PropagateMark();
      }
    }

    // ---------- the atomic phase (lgc.c:608-651, 982-1026) ----------

    /** Inside the atomic phase, with nothing left on the gray list. */
    ghost predicate Converging()
      reads this
    {
      Marking() && gcstate == InsideAtomic && stopped && gray == [] && saved == []
    }

    /** Every ephemeron that waits has its entries in order. */
    ghost predicate Converged()
      reads this
      requires Marking()
    {
      forall x :: x in ephemeron ==> EntriesIn(H(), x, Marked(mark))
    }

    /** One pass over the ephemerons (lgc.c:610-621); true if something was marked. */
    method ConvergePass() returns (changed: bool)
      requires Converging() && next == []
      modifies this`mark, this`gray, this`grayagain, this`ephemeron, this`allweak, this`next
      ensures Converging() && next == []
      ensures Marked(old(mark)) <= Marked(mark)
      ensures if changed then Whites(mark) < Whites(old(mark)) else Whites(mark) <= Whites(old(mark)) && Converged()
    {
      hide OneWhite, Intact, Closed, GrayOK, Tri, ListsOK, StrongIn, Strong, EntriesIn, Listed;
      NextAll(H(), mark, L());
      next := ephemeron;
      ephemeron := [];
      changed := false;
      while next != []
        invariant Converging()
        invariant Marked(old(mark)) <= Marked(mark)
        invariant if changed then Whites(mark) < Whites(old(mark)) else Whites(mark) <= Whites(old(mark)) && Converged()
        decreases |next|
      {
        var marked := ConvergeOne();
        changed := changed || marked;
      }
    }

    /** The next ephemeron leaves the list. */
    method TakeNext() returns (w: Id)
      requires Converging() && next != []
      modifies this`next
      ensures Reviewing(w) && objs[w].kind == Ephemeron && |next| < |old(next)|
      ensures |objs[w].slots| >= 1 && ValIn(objs[w].slots[0], Marked(mark))
    {
      hide OneWhite, Intact, Closed, GrayOK, Tri, ListsOK, StrongIn, Strong, EntriesIn, Listed;
      w := next[0];
      NextFirst(H(), mark, L());
      next := next[1..];
    }

    /** The next ephemeron, and all it leads to (lgc.c:614-620). */
    method ConvergeOne() returns (marked: bool)
      requires Converging() && next != []
      modifies this`mark, this`gray, this`grayagain, this`ephemeron, this`allweak, this`next
      ensures Converging() && |next| < |old(next)|
      ensures Marked(old(mark)) <= Marked(mark)
      ensures if marked then Whites(mark) < Whites(old(mark)) else Whites(mark) <= Whites(old(mark))
      ensures !marked && old(Converged()) ==> Converged()
    {
      hide OneWhite, Intact, Closed, GrayOK, Tri, ListsOK, Listed, StrongIn, EntriesIn;
      ghost var m0, e0 := mark, ephemeron;
      var w := TakeNext();
      marked := RevisitEphemeron(w);
      if marked {
        PropagateAll();
      } else if old(Converged()) {
        StillConverged(w, m0, e0);
      }
    }

    lemma StillConverged(w: Id, m0: Marks, e0: seq<Id>)
      requires Marking() && m0.Keys == objs.Keys && Marked(m0) <= Marked(mark)
      requires forall x :: x in mark && mark[x] != m0[x] ==> objs[x].kind == Str
      requires forall x :: x in e0 ==> x in objs && EntriesIn(H(), x, Marked(m0))
      requires w in objs && EntriesIn(H(), w, Marked(mark)) && (ephemeron == e0 || ephemeron == [w] + e0)
      ensures Converged()
    {
      hide OneWhite, Intact, Closed, GrayOK, Tri, ListsOK, StrongIn, Strong, EntriesIn, Listed;
      forall x | x in ephemeron ensures EntriesIn(H(), x, Marked(mark)) {
        if x != w {
          EntriesKept(H(), x, m0, mark);
        }
      }
    }

    /** convergeephemerons (lgc.c:608-623): every pass but the last marks something. */
    method ConvergeEphemerons()
      requires Converging() && next == []
      modifies this`mark, this`gray, this`grayagain, this`ephemeron, this`allweak, this`next
      ensures Converging() && next == [] && Converged()
      ensures Marked(old(mark)) <= Marked(mark)
    {
      hide OneWhite, Marking, EntriesIn;
      var changed := true;
      while changed
        invariant Converging() && next == []
        invariant !changed ==> Converged()
        invariant Marked(old(mark)) <= Marked(mark)
        decreases Whites(mark), changed
      {
        changed := ConvergePass();
      }
    }

    /** The roots are marked again: nothing watches their changes (lgc.c:991-994). */
    method MarkRoots(running: Id)
      requires Marking() && running in alive && running in objs
      modifies this`mark, this`gray
      ensures Marking()
      ensures Marked(old(mark)) <= Marked(mark)
      ensures running in Marked(mark) && forall x :: IsRoot(H(), x) ==> x in Marked(mark)
    {
      hide OneWhite, Closed, Grew, GrayOK, Tri, ListsOK;
      ghost var m, l := mark, L();
      var vs := [Ref(mainthread), Ref(running)] + roots;
      RootRefs(H(), objs.Keys, alive, running);
      var _ := MarkAll(vs);
      GrewTri(H(), alive, m, l.gray, mark, gray, l, {});
      GrewLists(H(), alive, m, l.gray, mark, gray, l);
      GrewMarked(H(), alive, m, l.gray, mark, gray);
      assert vs[0] == Ref(mainthread) && vs[1] == Ref(running);
      assert vs[0] in vs && vs[1] in vs;
      forall x | IsRoot(H(), x) ensures x in Marked(mark) {
        if x != mainthread {
          var v :| v in roots && Is(v, x);
          assert v in vs;
          assert ValIn(v, Marked(mark));
        }
      }
    }

    /** clearkeys (lgc.c:639-651) */
    method ClearKeys(l: seq<Id>)
      requires Clearing() && (forall x :: x in l ==> x in objs && objs[x].kind == Ephemeron && x in Marked(mark))
      modifies this`objs, this`mark, this`gray
      ensures Clearing() && mark == old(mark)
      ensures H() == Cleared(old(H()), Ids(l), Marked(mark))
    {
      hide OneWhite, Clearing, Kept;
      ghost var h0, m0 := H(), mark;
      ClearedNone(h0, Marked(mark));
      for i := 0 to |l|
        invariant Clearing() && mark == m0
        invariant H() == Cleared(h0, Ids(l[..i]), Marked(mark))
      {
        ghost var h1 := H();
        assert Ids(l[..i + 1]) == Ids(l[..i]) + {l[i]};
        assert l[i] in l;
        ClearedOne(h0, h1, Ids(l[..i]), Marked(mark), l[i]);
        ClearTable(l[i]);
      }
      assert l[..|l|] == l;
    }

    ghost predicate Clearing()
      reads this
    {
      Ready() && gray == [] && Closed(H(), Marked(mark))
    }

    method ClearTable(o: Id)
      requires Clearing() && o in objs && objs[o].kind == Ephemeron && o in Marked(mark)
      modifies this`objs, this`mark, this`gray
      ensures Clearing() && mark == old(mark)
      ensures o in old(objs) && H() == WithEntries(old(H()), o, Kept(old(H()), old(objs)[o].entries, Marked(mark)))
    {
      hide OneWhite, Intact, Closed, GrayOK, Kept;
      ghost var h1 := H();
      var kept := KeptEntries(o);
      objs := objs[o := objs[o].(entries := kept)];
      assert objs.Keys == h1.objs.Keys;
      forall e | e in kept ensures e in h1.objs[o].entries {
        KeptIn(h1, h1.objs[o].entries, Marked(mark), e);
      }
      EphemeronShape(h1, objs.Keys, o, kept);
      FewerIntact(h1, o, kept, objs.Keys);
      FewerClosed(h1, o, kept, alive);
      FewerClosed(h1, o, kept, Marked(mark));
    }

    /** The entries of 'o' whose keys are alive. */
    method KeptEntries(o: Id) returns (kept: seq<Entry>)
      requires Clearing() && o in objs && objs[o].kind == Ephemeron && o in Marked(mark)
      modifies this`mark, this`gray
      ensures Clearing() && mark == old(mark)
      ensures kept == Kept(H(), objs[o].entries, Marked(mark))
    {
      hide OneWhite, Intact, Closed, GrayOK, Grew;
      var es := objs[o].entries;
      kept := [];
      EphemeronRefs(H(), objs.Keys, Marked(mark), o);
      for i := 0 to |es|
        invariant Clearing() && mark == old(mark)
        invariant kept == Kept(H(), es[..i], Marked(mark))
      {
        assert es[..i + 1] == es[..i] + [es[i]];
        assert es[i] in es;
        ghost var m, g := mark, gray;
        var cleared := IsCleared(es[i].key);
        if mark == m {
          GraySame(H(), alive, m, g, mark, gray);
        }
        if !cleared {
          kept := kept + [es[i]];
        }
      }
      assert es[..|es|] == es;
    }

    /** The white of objects that died before the last atomic phase. */
    predicate Otherwhite(c: Color)
      reads this
    {
      c == White(!currentwhite)
    }

    /** 'grayagain' is put aside (lgc.c:986-989). */
    method EnterInside()
      requires Marking() && gcstate == Atomic && stopped
      modifies this`saved, this`gcstate
      ensures Marking() && gcstate == InsideAtomic && saved == grayagain
    {
      hide OneWhite, Intact, Closed, GrayOK, Tri, ListsOK, EphOK, Listed;
      EnterAtomic(H(), mark, L());
      gcstate := InsideAtomic;
      saved := grayagain;
    }

    /** It becomes the gray list (lgc.c:999). */
    method TakeSaved()
      requires Marking() && gcstate == InsideAtomic && stopped && gray == []
      modifies this`saved, this`gray
      ensures Marking() && saved == []
    {
      hide OneWhite, Intact, Closed, GrayOK, Tri, ListsOK, EphOK, Listed;
      TakeAgain(H(), mark, L());
      gray := saved;
      saved := [];
    }

    /** When everything is marked, the marked objects are the least closed set. */
    lemma AllMarked(B: set<Id>)
      requires Converging() && next == [] && Converged()
      requires alive == Closure(H(), B) && B <= Marked(mark) && forall x :: IsRoot(H(), x) ==> x in Marked(mark)
      ensures Marked(mark) == alive && Closed(H(), alive)
    {
      hide OneWhite, Intact, Closed, GrayOK, Tri, ListsOK, EphOK, Listed, EntriesIn;
      MarkedClosed(H(), mark, L());
      ClosureLeast(H(), B, Marked(mark));
    }

    /** Everything that is not garbage gets marked (lgc.c:986-1002). */
    method MarkTheRest(running: Id)
      requires Marking() && gcstate == Atomic && stopped && gray == [] && saved == [] && next == []
      requires running in objs && alive == Closure(H(), Marked(mark) + {running}) && running in alive
      modifies this`mark, this`gray, this`grayagain, this`ephemeron, this`allweak, this`next, this`saved, this`gcstate
      ensures Converging() && next == [] && Converged()
      ensures Marked(mark) == alive && Closed(H(), alive)
    {
      hide Marking, Closure, IsRoot, Marked, Closed, EntriesIn;
      ghost var m0 := mark;
      EnterInside();
      MarkRoots(running);
      PropagateAll();
      TakeSaved();
      PropagateAll();
      ConvergeEphemerons();
      ConvergeEphemerons();
      AllMarked(Marked(m0) + {running});
    }

    /** Dead keys leave the ephemerons (lgc.c:1017-1018). */
    method ClearWeak()
      requires Converging() && next == [] && Closed(H(), Marked(mark))
      modifies this`objs, this`mark, this`gray
      ensures Clearing() && mark == old(mark) && H() == Cleared(old(H()), Marked(mark), Marked(mark))
    {
      hide OneWhite, Intact, Closed, GrayOK, Tri, ListsOK, EphOK, Listed, Cleared;
      ghost var h0, l0 := H(), L();
      WeakLists(h0, mark, l0);
      ClearedKinds(h0, Ids(ephemeron), Marked(mark));
      ClearKeys(ephemeron);
      ClearKeys(allweak);
      ClearedAll(h0, mark, l0);
    }

    /** From here on, nothing else can become reachable in this cycle. */
    ghost method Settle(running: Id)
      requires Marking() && running in alive
      modifies this`alive
      ensures Marking() && alive == Closure(H(), Marked(mark) + {running}) && alive <= old(alive) && running in alive
    {
      hide Closure, OneWhite, Intact, Closed, GrayOK, Tri, ListsOK, EphOK, Listed;
      ClosureClosed(H(), Marked(mark) + {running}, alive);
      alive := Closure(H(), Marked(mark) + {running});
    }

    /** atomic (lgc.c:982-1026), without finalizers and weak values. It marks exactly
        what the marked objects, the roots and the running thread lead to, and takes
        from the marked ephemerons exactly the entries with unmarked keys. */
    method AtomicPhase(running: Id)
      requires Marking() && gcstate == Atomic && stopped && gray == [] && saved == [] && next == []
      requires running in objs && running in alive
      modifies this`objs, this`mark, this`gray, this`grayagain, this`ephemeron, this`allweak, this`next, this`saved
      modifies this`gcstate, this`currentwhite, this`alive
      ensures gcstate == InsideAtomic && gray == [] && saved == [] && next == [] && currentwhite == !old(currentwhite)
      ensures alive == Closure(old(H()), Marked(old(mark)) + {running}) && alive <= old(alive)
      ensures Marked(mark) == alive && mark.Keys == objs.Keys
      ensures forall x :: x in mark && x !in alive ==> Otherwhite(mark[x])
      ensures H() == Cleared(old(H()), alive, alive)
      ensures Intact(H(), alive) && Closed(H(), alive)
    {
      hide Closure, OneWhite, Intact, Closed, GrayOK, Tri, ListsOK, EphOK, Listed, Cleared;
      ghost var h0 := H();
      Settle(running);
      MarkTheRest(running);
      ClearWeak();
      AliveIntact(h0, alive);
      OthersDie(mark, currentwhite);
      currentwhite := !currentwhite;
    }

    // ---------- the invariant of the whole collector ----------

    /** Objects that are not known to be dead. */
    ghost function Live(): set<Id>
      reads this
    {
      LiveSet(mark, currentwhite)
    }

    /** True in every phase. 'allgc' holds every object but the main thread. */
    ghost predicate Common()
      reads this
    {
      && mark.Keys == objs.Keys
      && Intact(H(), Live())
      && Closed(H(), alive) && alive <= Live()
      && AllGc(swept, unswept, objs.Keys, mainthread)
    }

    predicate KeepInvariant()
      reads this
    {
      gcstate == Propagate || gcstate == Atomic
    }

    predicate IsSweepPhase()
      reads this
    {
      gcstate == SwpAllGc || gcstate == SwpFinObj || gcstate == SwpToBeFnz || gcstate == SwpEnd
    }

    /** While the main invariant is kept; 'but' are black objects just written to. */
    ghost predicate MarkPhase(but: set<Id>)
      reads this
    {
      && Ready() && Tri(H(), mark, L(), but) && ListsOK(mark, L())
      && unswept == [] && saved == [] && ephemeron == [] && next == [] && allweak == []
      && (gcstate == Propagate ==> gray != [])
    }

    ghost predicate SweepPhase()
      reads this
    {
      SweepOK(mark, swept, unswept, alive, currentwhite) && (gcstate != SwpAllGc ==> unswept == [])
    }

    /** Between sweeping and marking. */
    ghost predicate IdlePhase()
      reads this
    {
      AllWhite(mark, currentwhite) && unswept == [] && objs.Keys <= alive
    }

    ghost predicate ValidBut(but: set<Id>)
      reads this
    {
      && Common() && !stopped && gcstate != InsideAtomic
      && (KeepInvariant() ==> MarkPhase(but))
      && (IsSweepPhase() ==> SweepPhase())
      && (gcstate == CallFin || gcstate == Pause ==> IdlePhase())
    }

    ghost predicate Valid()
      reads this
    {
      ValidBut({})
    }

    /** The program holds 'v'. */
    ghost predicate Held(v: Val)
      reads this
    {
      v.Ref? ==> v.id in objs && Accessible(H(), v.id)
    }

    /** Safety: whatever the program can get at is there, and not dead. */
    lemma AccessibleLive(x: Id)
      requires Valid() && Accessible(H(), x)
      ensures x in objs && x in mark && mark[x] != White(!currentwhite)
    {
      hide AllGc, Intact, Closed, MarkPhase, SweepPhase, IdlePhase;
      IntactFull(H(), Live());
      assert Full(H(), Live()) ==> x in Live();
    }

    // ---------- barriers (lgc.c:155-191, lgc.h:118-134) ----------

    /** 'o' was written to: values of 'vs' may be white. */
    ghost predicate Open(o: Id, vs: set<Val>)
      reads this
    {
      && o in objs && o in Live()
      && ValidBut(if mark[o] == Black then {o} else {})
      && (KeepInvariant() && mark[o] == Black ==> StrongBut(H(), o, Marked(mark), vs))
    }

    lemma CloseWrite(o: Id)
      requires Open(o, {})
      ensures Valid()
    {
      hide AllGc, Intact, Closed, Ready, ListsOK, SweepPhase, IdlePhase, Common;
      if KeepInvariant() && mark[o] == Black {
        FinishBlack(H(), mark, L(), o);
      }
    }

    /** Colouring a live object is no death. */
    lemma Recoloured(o: Id, c: Color)
      requires Common() && o in Live() && c != White(!currentwhite)
      ensures LiveSet(mark[o := c], currentwhite) == Live()
    {
      hide Intact, Closed;
    }

    /** luaC_barrierback (lgc.c:171-176, lgc.h:122-124): the table is gray again. */
    method BarrierBack(o: Id, v: Val, ghost vs: set<Val>)
      requires Open(o, vs + {v}) && ValIn(v, Live()) && (objs[o].kind == Tab || objs[o].kind == Ephemeron)
      modifies this`mark, this`grayagain
      ensures Open(o, vs) && Live() == old(Live())
    {
      hide AllGc, Intact, Closed, StrongBut, Tri, ListsOK, OneWhite, GrayOK;
      if v.Ref? && mark[o] == Black && IsWhite(mark, v.id) {
        Recoloured(o, Gray);
        TurnGray(o, vs + {v});
        mark := mark[o := Gray];
        grayagain := [o] + grayagain;
      } else if KeepInvariant() && mark[o] == Black {
        StrongButMarked(H(), o, mark, vs, v);
      }
    }

    lemma TurnGray(o: Id, vs: set<Val>)
      requires Open(o, vs) && mark[o] == Black && Queued(objs[o].kind)
      ensures KeepInvariant() ==>
                var m := mark[o := Gray];
                && OneWhite(m, currentwhite) && GrayOK(m, gray) && Marked(m) <= alive
                && Tri(H(), m, L().(again := [o] + grayagain), {}) && ListsOK(m, L().(again := [o] + grayagain))
    {
      hide AllGc, Intact, Closed, Tri, ListsOK, StrongIn;
      if KeepInvariant() {
        var m, l := mark[o := Gray], L();
        var l1 := l.(again := [o] + grayagain);
        NotGrayListed(mark, l, o);
        ListedGray(mark, l);
        GcProofs.Regray(H(), mark, l, o, gray);
        PushAgain(m, l, o);
        Relist(H(), m, l, l1, {o});
        FinishGray(H(), m, l1, o);
      }
    }

    /** luaC_barrier (lgc.c:155-164, lgc.h:118-120): the value is marked; in a sweep phase
        the object is swept instead. */
    method Barrier(o: Id, v: Val)
      requires Open(o, {v}) && ValIn(v, Live()) && (v.Ref? ==> Strong(H(), o, v.id))
      modifies this`mark, this`gray
      ensures Valid()
    {
      hide AllGc, Intact, Closed, Tri, ListsOK, Grew;
      if v.Ref? && mark[o] == Black && IsWhite(mark, v.id) {
        if KeepInvariant() {
          ghost var h, m, l := H(), mark, L();
          assert StrongBut(h, o, Marked(m), {v});
          BlackAlive(o, v.id);
          ReallyMarkObject(v.id);
          MarkedMore(m, l, {o});
          assert H() == h;
          FinishStrong(h, m, mark, L(), o, v);
        } else {
          Recoloured(o, White(currentwhite));
          mark := mark[o := White(currentwhite)];
        }
      } else {
        if KeepInvariant() && mark[o] == Black {
          StrongButMarked(H(), o, mark, {}, v);
        }
        CloseWrite(o);
      }
    }

    /** What a black object refers to is alive. */
    lemma BlackAlive(o: Id, x: Id)
      requires Ready() && o in mark && mark[o] == Black && Strong(H(), o, x)
      ensures x in alive
    {
      assert StrongIn(H(), o, alive);
    }

    lemma MarkedMore(m: Marks, l: Lists, but: set<Id>)
      requires Ready() && Grew(H(), alive, m, l.gray, mark, gray)
      requires Tri(H(), m, l, but) && ListsOK(m, l) && L() == l.(gray := gray)
      ensures Tri(H(), mark, L(), but) && ListsOK(mark, L())
      ensures Marked(m) <= Marked(mark) && |gray| >= |l.gray|
      ensures forall x :: x in m && m[x] == Black ==> x in mark && mark[x] == Black
      ensures LiveSet(mark, currentwhite) == objs.Keys
    {
      hide AllGc, Intact, Closed, Tri, ListsOK;
      ListedGray(m, l);
      GrewTri(H(), alive, m, l.gray, mark, gray, l, but);
      GrewLists(H(), alive, m, l.gray, mark, gray, l);
      GrewMarked(H(), alive, m, l.gray, mark, gray);
      AllLive(mark, currentwhite);
    }

    // ---------- the mutator ----------

    /** The shape of 'o' changes: before any barrier. */
    method SetShape(o: Id, s: Shape, ghost vs: set<Val>)
      requires Valid() && Held(Ref(o)) && Adds(objs[o], s, vs) && ShapeOK(s) && forall v :: v in vs ==> Held(v)
      modifies this`objs, this`alive
      ensures Open(o, vs) && H() == WithShape(old(H()), o, s) && alive == Closure(H(), old(alive))
      ensures forall v :: v in vs ==> ValIn(v, Live())
    {
      hide SweepOK, AllWhite, AllGc, Intact, Closed, Tri, ListsOK, GrayOK, StrongBut, Closure, Accessible, ShapeOK, Adds;
      ghost var h0 := H();
      ghost var h1 := WithShape(h0, o, s);
      AccessibleLive(o);
      HeldLive(vs);
      AddsIn(h0, Live(), o, s, vs);
      WriteIntact(h0, Live(), o, s);
      Refit(h1, Live(), alive);
      SweepMore(mark, swept, unswept, alive, Closure(h1, alive), currentwhite);
      if KeepInvariant() {
        AllLive(mark, currentwhite);
        WriteTri(h0, mark, L(), o, s);
        if mark[o] == Black {
          BlackWas(h0, mark, L(), o);
          WriteStrong(h0, mark, o, s, vs);
        }
      }
      Reshape(o, s);
      assert objs.Keys == h0.objs.Keys;
    }

    method Reshape(o: Id, s: Shape)
      modifies this`objs, this`alive
      ensures objs == old(objs)[o := s] && alive == Closure(WithShape(old(H()), o, s), old(alive))
    {
      alive := Closure(WithShape(H(), o, s), alive);
      objs := objs[o := s];
    }

    lemma HeldLive(vs: set<Val>)
      requires Valid() && forall v :: v in vs ==> Held(v)
      ensures forall v :: v in vs ==> ValIn(v, Live())
    {
      hide Valid, Accessible;
      forall v | v in vs ensures ValIn(v, Live()) {
        if v.Ref? {
          AccessibleLive(v.id);
        }
      }
    }

    /** A write to the stack, an upvalue, a constant, a metatable or an array slot, with
        the barrier that the interpreter uses for it. */
    method WriteSlot(o: Id, i: nat, v: Val)
      requires Valid() && Held(Ref(o)) && Held(v) && i < |objs[o].slots|
      modifies this`objs, this`alive, this`mark, this`gray, this`grayagain
      ensures Valid() && alive == Closure(H(), old(alive))
      ensures H() == WithShape(old(H()), o, old(objs)[o].(slots := old(objs)[o].slots[i := v]))
    {
      hide Common, Adds, ShapeOK, Accessible, KeepInvariant, IsSweepPhase, MarkPhase, SweepPhase, IdlePhase, Closure;
      var s := objs[o].(slots := objs[o].slots[i := v]);
      SlotAdds(objs[o], i, v);
      ShapeStays(o, s);
      SetShape(o, s, {v});
      if s.kind == Thread {
        ThreadsNotBlack(o, {v});
      } else if (s.kind == Tab || s.kind == Ephemeron) && i > 0 {
        BarrierBack(o, v, {});
        CloseWrite(o);
      } else {
        SlotStrong(H(), o, i, v);
        Barrier(o, v);
      }
    }

    /** luaH_newkey, or an assignment to an existing node (ltable.c:461-510): the
        table is watched for its new key and for its new value. */
    method PutEntry(o: Id, j: nat, e: Entry)
      requires Valid() && Held(Ref(o)) && Held(e.key) && Held(e.val) && (objs[o].kind == Tab || objs[o].kind == Ephemeron)
      requires j <= |objs[o].entries| && (j < |objs[o].entries| ==> objs[o].entries[j].key == e.key)
      modifies this`objs, this`alive, this`mark, this`gray, this`grayagain
      ensures Valid() && alive == Closure(H(), old(alive))
      ensures H() == WithShape(old(H()), o, Put(old(objs)[o], j, e))
    {
      hide Common, Adds, ShapeOK, Accessible, KeepInvariant, IsSweepPhase, MarkPhase, SweepPhase, IdlePhase, Closure;
      var s := Put(objs[o], j, e);
      PutAdds(objs[o], j, e);
      ShapeStays(o, s);
      SetShape(o, s, {e.key, e.val});
      assert {e.key, e.val} == {e.val} + {e.key};
      BarrierBack(o, e.key, {e.val});
      assert {e.val} == {} + {e.val};
      BarrierBack(o, e.val, {});
      CloseWrite(o);
    }

    /** An entry set to nil: no barrier. */
    method RemoveEntry(o: Id, j: nat)
      requires Valid() && Held(Ref(o)) && j < |objs[o].entries|
      modifies this`objs, this`alive
      ensures Valid() && alive == Closure(H(), old(alive))
      ensures H() == WithEntries(old(H()), o, old(objs)[o].entries[..j] + old(objs)[o].entries[j + 1..])
    {
      hide Common, Adds, ShapeOK, Accessible, KeepInvariant, IsSweepPhase, MarkPhase, SweepPhase, IdlePhase, Closure;
      var s := objs[o].(entries := objs[o].entries[..j] + objs[o].entries[j + 1..]);
      RemoveAdds(objs[o], j);
      ShapeStays(o, s);
      SetShape(o, s, {});
      CloseWrite(o);
    }

    lemma ShapeStays(o: Id, s: Shape)
      requires Valid() && Held(Ref(o))
      requires s.kind == objs[o].kind && |s.slots| == |objs[o].slots| && s.upvals == objs[o].upvals
      requires s.entries == [] || objs[o].entries != [] || s.kind == Tab || s.kind == Ephemeron
      ensures ShapeOK(s)
    {
      hide Closed, MarkPhase, SweepPhase, IdlePhase, Accessible;
      AccessibleLive(o);
      IntactShape(H(), Live(), o);
    }

    lemma ThreadsNotBlack(o: Id, vs: set<Val>)
      requires Open(o, vs) && objs[o].kind == Thread
      ensures Valid()
    {
      hide Common, MarkPhase, SweepPhase, IdlePhase;
    }

    /** An assignment to a closed upvalue that 'f' shares (luaC_upvalbarrier, lgc.c:185-191):
        no telling which black functions share it too. */
    method WriteUpvalue(f: Id, c: nat, v: Val)
      requires Valid() && Held(Ref(f)) && Held(v) && c in objs[f].upvals
      modifies this`cells, this`alive, this`mark, this`gray
      ensures Valid() && alive == Closure(H(), old(alive) + RefSet(v))
      ensures H() == WithCell(old(H()), c, v)
    {
      hide SweepOK, AllWhite, AllGc, Intact, Closed, Tri, ListsOK, GrayOK, StrongBut, Closure, Accessible, OneWhite, LiveSet;
      ghost var h0, h1 := H(), WithCell(H(), c, v);
      HeldLive({v});
      CellFacts(c, v);
      cells := cells[c := v];
      alive := Closure(h1, alive + RefSet(v));
      if KeepInvariant() {
        MarkUpvalue(Sharing(h0, mark, c), v);
      }
    }

    lemma CellFacts(c: nat, v: Val)
      requires Valid() && ValIn(v, Live())
      ensures var h1 := WithCell(H(), c, v);
              var a1 := Closure(h1, alive + RefSet(v));
              && Intact(h1, Live()) && Closed(h1, a1) && alive + RefSet(v) <= a1 <= Live()
              && (SweepOK(mark, swept, unswept, alive, currentwhite) ==> SweepOK(mark, swept, unswept, a1, currentwhite))
              && (KeepInvariant() ==>
                    && Live() == objs.Keys && Tri(h1, mark, L(), Sharing(H(), mark, c))
                    && forall x :: x in Sharing(H(), mark, c) ==> StrongBut(h1, x, Marked(mark), {v}))
    {
      hide SweepOK, AllWhite, AllGc, Intact, Closed, Tri, ListsOK, GrayOK, StrongBut, Closure;
      var h1 := WithCell(H(), c, v);
      CellIntact(H(), Live(), c, v);
      Refit(h1, Live(), alive + RefSet(v));
      SweepMore(mark, swept, unswept, alive, Closure(h1, alive + RefSet(v)), currentwhite);
      if KeepInvariant() {
        AllLive(mark, currentwhite);
        CellTri(H(), mark, L(), c, v);
      }
    }

    method MarkUpvalue(ghost but: set<Id>, v: Val)
      requires ValidBut(but) && KeepInvariant() && ValIn(v, objs.Keys) && ValIn(v, alive)
      requires forall x :: x in but ==> x in mark && mark[x] == Black && x in objs && StrongBut(H(), x, Marked(mark), {v})
      modifies this`mark, this`gray
      ensures Valid()
    {
      hide AllGc, Intact, Closed, Tri, ListsOK, GrayOK, Grew, OneWhite;
      ghost var h, m, l := H(), mark, L();
      AllLive(mark, currentwhite);
      MarkOne(v);
      MarkedMore(m, l, but);
      assert H() == h;
      CellDone(h, m, mark, L(), but, v);
    }

    /** The registry and the metatables of basic types are written without a barrier:
        the atomic phase marks them again (lgc.c:992-994). */
    method SetRoot(i: nat, v: Val)
      requires Valid() && Held(v) && i < |roots|
      modifies this`roots, this`alive
      ensures Valid() && alive == Closure(H(), old(alive))
      ensures H() == WithRoots(old(H()), old(roots)[i := v])
    {
      hide SweepOK, AllWhite, AllGc, Intact, Closed, Tri, ListsOK, GrayOK, Closure, Accessible;
      ghost var h0 := H();
      ghost var rs := roots[i := v];
      HeldLive({v});
      RootsIn(h0, Live());
      RootsIntact(h0, Live(), rs);
      Refit(WithRoots(h0, rs), Live(), alive);
      SweepMore(mark, swept, unswept, alive, Closure(WithRoots(h0, rs), alive), currentwhite);
      if KeepInvariant() {
        AllLive(mark, currentwhite);
        RootsTri(h0, mark, L(), rs);
      }
      roots := roots[i := v];
      alive := Closure(H(), alive);
    }

    /** A closed upvalue that holds nothing yet, as luaF_initupvals makes it (lfunc.c:45-54). */
    method NewCell(c: nat)
      requires Valid() && c !in cells
      modifies this`cells, this`alive
      ensures Valid() && alive == Closure(H(), old(alive)) && H() == WithCell(old(H()), c, Plain)
    {
      hide SweepOK, AllWhite, AllGc, Intact, Closed, Tri, ListsOK, GrayOK, StrongBut, Closure, OneWhite, LiveSet;
      ghost var h0, h1 := H(), WithCell(H(), c, Plain);
      CellFacts(c, Plain);
      if KeepInvariant() {
        CellDone(h1, mark, mark, L(), Sharing(h0, mark, c), Plain);
      }
      assert alive + RefSet(Plain) == alive;
      cells := cells[c := Plain];
      alive := Closure(h1, alive);
    }

    /** luaC_newobj (lgc.c:208-216): the object is white and first in 'allgc'. Until
        something is swept, 'sweepgc' points at the head of the list, too. */
    method New(x: Id, s: Shape)
      requires Valid() && x !in objs && x != mainthread
      requires ShapeOK(s) && s.entries == [] && forall v :: v in s.slots ==> v.Plain?
      requires forall c :: c in s.upvals ==> c in cells && Held(cells[c])
      modifies this`objs, this`alive, this`mark, this`swept, this`unswept
      ensures Valid() && alive == Closure(H(), old(alive) + {x})
      ensures H() == WithShape(old(H()), x, s) && mark == old(mark)[x := White(currentwhite)]
    {
      hide AllGc, Intact, Closed, Tri, ListsOK, GrayOK, OneWhite, Closure, Accessible, ShapeOK, Marked, SweepOK, AllWhite, Held, LiveSet;
      ghost var h0 := H();
      NewFacts(x, s);
      Allocate(x, s);
      assert objs.Keys == h0.objs.Keys + {x} == mark.Keys;
    }

    method Allocate(x: Id, s: Shape)
      modifies this`objs, this`alive, this`mark, this`swept, this`unswept
      ensures objs == old(objs)[x := s] && mark == old(mark)[x := White(currentwhite)]
      ensures alive == Closure(WithShape(old(H()), x, s), old(alive) + {x})
      ensures if old(swept) == [] && old(unswept) != [] then swept == old(swept) && unswept == [x] + old(unswept)
              else swept == [x] + old(swept) && unswept == old(unswept)
    {
      alive := Closure(WithShape(H(), x, s), alive + {x});
      objs := objs[x := s];
      mark := mark[x := White(currentwhite)];
      if swept == [] && unswept != [] {
        unswept := [x] + unswept;
      } else {
        swept := [x] + swept;
      }
    }

    /** The lists of objects fit the colours again. */
    ghost predicate Relisted(x: Id, s: seq<Id>, u: seq<Id>, m: Marks, a: set<Id>)
      reads this
    {
      && AllGc(s, u, objs.Keys + {x}, mainthread)
      && (IsSweepPhase() ==> SweepOK(m, s, u, a, currentwhite))
      && (gcstate == CallFin || gcstate == Pause ==> AllWhite(m, currentwhite))
    }

    /** What allocation does not disturb. */
    lemma NewFacts(x: Id, s: Shape)
      requires Valid() && x !in objs && x != mainthread
      requires ShapeOK(s) && s.entries == [] && forall v :: v in s.slots ==> v.Plain?
      requires forall c :: c in s.upvals ==> c in cells && Held(cells[c])
      ensures var h1 := WithShape(H(), x, s);
              var m1 := mark[x := White(currentwhite)];
              var a1 := Closure(h1, alive + {x});
              && Intact(h1, LiveSet(m1, currentwhite)) && Closed(h1, a1) && alive + {x} <= a1 <= LiveSet(m1, currentwhite)
              && (KeepInvariant() ==>
                    && Intact(h1, h1.objs.Keys) && OneWhite(m1, currentwhite) && GrayOK(m1, gray) && Marked(m1) <= a1
                    && a1 <= h1.objs.Keys && Tri(h1, m1, L(), {}) && ListsOK(m1, L()))
              && Relisted(x, [x] + swept, unswept, m1, a1)
              && (swept == [] ==> Relisted(x, swept, [x] + unswept, m1, a1))
    {
      hide SweepOK, AllWhite, AllGc, Intact, Closed, Tri, ListsOK, GrayOK, Closure, Accessible, ShapeOK;
      var h0 := H();
      var h1 := WithShape(h0, x, s);
      var m1 := mark[x := White(currentwhite)];
      CellsLive(s.upvals);
      NewListed(swept, unswept, objs.Keys, mainthread, x);
      NewIntact(h0, Live(), x, s);
      LiveNew(mark, currentwhite, x);
      Refit(h1, Live() + {x}, alive + {x});
      NewWhite(mark, swept, unswept, alive, Closure(h1, alive + {x}), currentwhite, x);
      if KeepInvariant() {
        AllLive(mark, currentwhite);
        assert Live() + {x} == h1.objs.Keys;
        NewTri(h0, mark, L(), x, s, White(currentwhite));
        NewLists(mark, L(), x, White(currentwhite));
        ListedGray(mark, L());
        GrayKept(mark, gray, m1);
      }
    }

    lemma CellsLive(cs: seq<nat>)
      requires Valid() && forall c :: c in cs ==> c in cells && Held(cells[c])
      ensures forall c :: c in cs ==> c in cells && ValIn(cells[c], Live())
    {
      hide Valid, Accessible;
      forall c | c in cs ensures ValIn(cells[c], Live()) {
        if cells[c].Ref? {
          AccessibleLive(cells[c].id);
        }
      }
    }

    // ---------- sweeping (lgc.c:735-752, 959-964, 1029-1042) ----------

    /** One turn of the loop of sweeplist: dead objects are freed, others whitened. */
    method SweepOne()
      requires Valid() && gcstate == SwpAllGc && unswept != []
      modifies this`objs, this`mark, this`swept, this`unswept
      ensures Valid() && unswept == old(unswept)[1..] && ReachableSet(H()) == ReachableSet(old(H()))
      ensures var x := old(unswept)[0];
              x in old(mark) &&
              if old(mark)[x] == White(!currentwhite) then H() == Without(old(H()), x) && x !in alive
              else H() == old(H()) && mark == old(mark)[x := White(currentwhite)]
    {
      hide AllGc, Intact, Closed, Accessible, Closure, SweepOK, LiveSet;
      ghost var h0 := H();
      var curr := unswept[0];
      SweepFacts();
      if mark[curr] == White(!currentwhite) {
        FreeIntact(h0, Live(), curr);
        FreeClosed(h0, Live(), alive, curr);
        FreeReachable(h0, Live(), curr);
        objs := objs - {curr};
        mark := mark - {curr};
        unswept := unswept[1..];
        assert objs.Keys == h0.objs.Keys - {curr};
      } else {
        mark := mark[curr := White(currentwhite)];
        swept := swept + [curr];
        unswept := unswept[1..];
      }
    }

    /** What becomes of lists and colours. */
    lemma SweepFacts()
      requires Valid() && gcstate == SwpAllGc && unswept != []
      ensures var x := unswept[0];
              && x in mark && mark.Keys == objs.Keys
              && if mark[x] == White(!currentwhite) then
                   var m := mark - {x};
                   && x !in Live() && x !in alive && LiveSet(m, currentwhite) == Live()
                   && m.Keys == objs.Keys - {x}
                   && AllGc(swept, unswept[1..], objs.Keys - {x}, mainthread)
                   && SweepOK(m, swept, unswept[1..], alive, currentwhite)
                 else
                   var m := mark[x := White(currentwhite)];
                   && LiveSet(m, currentwhite) == Live()
                   && AllGc(swept + [x], unswept[1..], objs.Keys, mainthread)
                   && SweepOK(m, swept + [x], unswept[1..], alive, currentwhite)
    {
      hide Intact, Closed;
      SweepHead(mark, swept, unswept, alive, currentwhite, objs.Keys, mainthread);
      LiveSame(mark, currentwhite, unswept[0]);
    }

    /** sweeplist (lgc.c:735-752) */
    method SweepList(count: nat)
      requires Valid() && gcstate == SwpAllGc
      modifies this`objs, this`mark, this`swept, this`unswept
      ensures Valid() && ReachableSet(H()) == ReachableSet(old(H()))
      ensures count > 0 ==> unswept == [] || |unswept| < |old(unswept)|
      ensures forall x :: x in objs ==> x in old(objs) && objs[x] == old(objs)[x]
      ensures forall x :: x in old(objs) && x !in objs ==> x !in alive
    {
      hide Valid, ReachableSet;
      var n := count;
      while unswept != [] && n > 0
        invariant Valid() && ReachableSet(H()) == ReachableSet(old(H()))
        invariant n <= count && |unswept| <= |old(unswept)| && (n < count ==> |unswept| < |old(unswept)|)
        invariant forall x :: x in objs ==> x in old(objs) && objs[x] == old(objs)[x]
        invariant forall x :: x in old(objs) && x !in objs ==> x !in alive
      {
        SweepOne();
        n := n - 1;
      }
    }

    /** entersweep (lgc.c:959-964): whatever is not alive is dead already. */
    method EnterSweep()
      requires Common() && unswept == [] && forall x :: x in mark && x !in alive ==> mark[x] == White(!currentwhite)
      modifies this`gcstate, this`stopped, this`objs, this`mark, this`swept, this`unswept
      ensures Valid() && gcstate == SwpAllGc && ReachableSet(H()) == ReachableSet(old(H()))
      ensures forall x :: x in objs ==> x in old(objs) && objs[x] == old(objs)[x]
      ensures forall x :: x in old(objs) && x !in objs ==> x !in alive
    {
      hide Intact, Closed, ReachableSet, AllGc, SweepOK, LiveSet;
      MainAlive();
      EnterFacts(mark, swept, alive, currentwhite, objs.Keys, mainthread);
      gcstate := SwpAllGc;
      stopped := false;
      unswept := swept;
      swept := [];
      SweepList(1);
    }

    lemma MainAlive()
      requires Common()
      ensures mainthread in alive
    {
      assert IsRoot(H(), mainthread);
    }

    /** sweepstep (lgc.c:1029-1042), with empty lists of objects to be finalized. */
    method SweepStep(nextstate: Phase)
      requires Valid() && IsSweepPhase() && gcstate != SwpEnd && Num(nextstate) == Num(gcstate) + 1
      modifies this`gcstate, this`objs, this`mark, this`swept, this`unswept
      ensures Valid() && ReachableSet(H()) == ReachableSet(old(H()))
      ensures gcstate == nextstate || (gcstate == old(gcstate) && |unswept| < |old(unswept)|)
      ensures forall x :: x in objs ==> x in old(objs) && objs[x] == old(objs)[x]
      ensures forall x :: x in old(objs) && x !in objs ==> x !in alive
    {
      hide Intact, Closed, AllGc, SweepOK, ReachableSet, LiveSet;
      if unswept != [] {
        SweepList(GCSWEEPMAX);
        if unswept != [] {
          return;
        }
      }
      gcstate := nextstate;
    }

    /** The end of the sweep (lgc.c:1079-1084): everything left is white and alive. */
    method FinishSweep()
      requires Valid() && gcstate == SwpEnd
      modifies this`gcstate, this`mark
      ensures Valid() && gcstate == CallFin
    {
      hide Intact, Closed;
      MainAlive();
      AllSwept(mark, swept, unswept, alive, currentwhite, objs.Keys, mainthread);
      Recoloured(mainthread, White(currentwhite));
      mark := mark[mainthread := White(currentwhite)];
      gcstate := CallFin;
    }

    // ---------- steps of a cycle (lgc.c:1045-1097) ----------

    /** All lists are empty, and all objects white (lgc.c:338-339). */
    method ResetLists()
      requires Valid() && gcstate == Pause
      modifies this`gray, this`grayagain, this`ephemeron, this`allweak, this`next, this`saved, this`alive
      ensures Marking() && alive == ReachableSet(H()) && !stopped && mainthread in alive
      ensures grayagain == [] && ephemeron == [] && allweak == [] && next == [] && saved == []
      ensures AllGc(swept, unswept, objs.Keys, mainthread) && unswept == []
    {
      hide Valid, ReachableSet, AllGc, Intact, Closed, Tri, ListsOK, EphOK, Closure, OneWhite, GrayOK, AllWhite, Marked, LiveSet;
      Restartable();
      alive := ReachableSet(H());
      gray, grayagain := [], [];
      allweak, ephemeron := [], [];
      next, saved := [], [];
    }

    lemma Restartable()
      requires Valid() && gcstate == Pause
      ensures var r := ReachableSet(H());
              var l := Lists(false, false, [], [], [], [], [], []);
              && mark.Keys == objs.Keys && Intact(H(), objs.Keys) && Closed(H(), r) && GrayOK(mark, [])
              && Marked(mark) <= r <= objs.Keys && OneWhite(mark, currentwhite) && mainthread in r
              && Tri(H(), mark, l, {}) && ListsOK(mark, l) && EphOK(H(), l)
              && !stopped && AllGc(swept, unswept, objs.Keys, mainthread) && unswept == []
    {
      hide AllGc, Intact, Closed, Tri, ListsOK, EphOK, Closure, OneWhite, GrayOK, AllWhite, Marked, LiveSet;
      Refit(H(), Live(), {});
      StartMarks(H(), mark, currentwhite);
      RootAlive(H(), ReachableSet(H()));
    }

    /** restartcollection (lgc.c:337-344): the cycle is to find what is reachable now. */
    method RestartCollection()
      requires Valid() && gcstate == Pause
      modifies this`mark, this`gray, this`grayagain, this`ephemeron, this`allweak, this`next, this`saved, this`alive, this`gcstate
      ensures Valid() && gcstate == Propagate && alive == ReachableSet(H())
    {
      hide Valid, Tri, ListsOK, ReachableSet, AllGc, Intact, Closed, GrayOK;
      ResetLists();
      MarkRoots(mainthread);
      MainGray(H(), mark, L());
      AllLive(mark, currentwhite);
      gcstate := Propagate;
      MarkingValid();
    }

    lemma MarkingValid()
      requires Marking() && !stopped && KeepInvariant()
      requires ephemeron == [] && allweak == [] && next == [] && saved == [] && (gcstate == Propagate ==> gray != [])
      requires AllGc(swept, unswept, objs.Keys, mainthread) && unswept == []
      ensures Valid()
    {
      hide AllGc, Intact, Closed, Tri, ListsOK, GrayOK;
      AllLive(mark, currentwhite);
    }

    /** The propagate state (lgc.c:1054-1061) */
    method PropagateStep()
      requires Valid() && gcstate == Propagate
      modifies this`mark, this`gray, this`grayagain, this`ephemeron, this`allweak, this`gcstate
      ensures Valid() && (gcstate == Propagate || gcstate == Atomic)
      ensures Whites(mark) <= Whites(old(mark))
      ensures Whites(mark) < Whites(old(mark)) || |gray| < |old(gray)|
    {
      hide AllGc, Intact, Closed, Tri, ListsOK;
      PropagateMark();
      AllLive(mark, currentwhite);
      if gray == [] {
        gcstate := Atomic;
      }
    }

    /** The world stops, and the gray list is emptied (lgc.c:1064). */
    method StopTheWorld(running: Id)
      requires Valid() && gcstate == Atomic && running in objs && running in alive
      modifies this`mark, this`gray, this`grayagain, this`ephemeron, this`allweak, this`stopped, this`alive
      ensures Marking() && stopped && gray == [] && saved == [] && next == [] && running in alive
      ensures alive == Closure(H(), Marked(old(mark)) + {running}) && alive <= old(alive)
      ensures alive == Closure(H(), Marked(mark) + {running}) && running in objs
      ensures AllGc(swept, unswept, objs.Keys, mainthread) && unswept == []
    {
      hide AllGc, Intact, Closed, Tri, ListsOK, Closure, OneWhite, GrayOK;
      StopWorld(H(), mark, L());
      stopped := true;
      ghost var h0, m0 := H(), mark;
      Settle(running);
      PropagateAll();
      ClosureWithin(h0, Marked(m0) + {running}, Marked(mark) + {running});
    }

    /** The atomic state (lgc.c:1062-1069) */
    method AtomicStep(running: Id)
      requires Valid() && gcstate == Atomic && running in objs && running in alive
      modifies this
      ensures Valid() && gcstate == SwpAllGc
      ensures alive == Closure(old(H()), Marked(old(mark)) + {running}) && alive <= old(alive) && running in alive
      ensures var h := Cleared(old(H()), alive, alive);
              && cells == h.cells && roots == h.roots
              && forall x :: x in objs ==> x in h.objs && objs[x] == h.objs[x]
      ensures forall x :: x in old(objs) && x !in objs ==> x !in alive
    {
      hide Valid, Marking, AllGc, Intact, Closed, Closure, Cleared, Marked, LiveSet, ReachableSet;
      ghost var h0 := H();
      StopTheWorld(running);
      AtomicPhase(running);
      LiveMarked(mark, currentwhite, alive);
      ClearedKinds(h0, alive, alive);
      EnterSweep();
    }

    /** How much is left to do in this phase. */
    ghost function WorkSet(): set<Id>
      reads this
    {
      if KeepInvariant() then Whites(mark) else {}
    }

    ghost function WorkLeft(): nat
      reads this
    {
      if KeepInvariant() then |gray| else |unswept|
    }

    /** What the program sees of a step: nothing, but for dead keys of ephemerons. */
    ghost predicate Unseen(h: Heap, p: Phase)
      reads this
    {
      && cells == h.cells && roots == h.roots
      && forall x :: x in objs ==>
           && x in h.objs
           && (objs[x] == h.objs[x] || (p == Atomic && objs[x] == Cleared(h, alive, alive).objs[x]))
    }

    /** singlestep (lgc.c:1045-1097), without finalizers: whatever it frees was not
        reachable, and from Pause to Pause the phases follow each other. */
    method SingleStep(running: Id)
      requires Valid() && running in objs && running in alive
      modifies this
      ensures Valid() && Unseen(old(H()), old(gcstate)) && Faded(old(H()), H(), alive)
      ensures forall x :: x in old(objs) && x !in objs ==> x !in alive && !Reachable(old(H()), x)
      ensures if old(gcstate) == Pause then alive == ReachableSet(old(H()))
              else if old(gcstate) == Atomic then alive == Closure(old(H()), Marked(old(mark)) + {running}) && alive <= old(alive)
              else alive == old(alive)
      ensures old(gcstate) != Pause ==> running in alive && running in objs
      ensures if old(gcstate) == Atomic then ReachableSet(old(H())) <= alive else ReachableSet(H()) == ReachableSet(old(H()))
      ensures old(gcstate) == Propagate || old(gcstate) == Pause ==> H() == old(H())
      ensures old(gcstate) == Atomic ==> gcstate == SwpAllGc
      ensures if old(gcstate) == Pause then gcstate == Propagate
              else Num(gcstate) == Num(old(gcstate)) + 1
                   || (gcstate == old(gcstate) && WorkSet() <= old(WorkSet())
                       && (WorkSet() < old(WorkSet()) || WorkLeft() < old(WorkLeft())))
    {
      hide Common, MarkPhase, SweepPhase, IdlePhase, Closure, Cleared, Reachable, Whites, Faded;
      ghost var h0, m0 := H(), mark;
      match gcstate {
        case Pause =>
          RestartCollection();
          AliveObjs();
        case Propagate =>
          PropagateStep();
        case Atomic =>
          AtomicStep(running);
          ClearedKinds(h0, alive, alive);
          ClosureReaches(h0, Marked(m0) + {running});
          AliveObjs();
        case SwpAllGc =>
          AliveReaches();
          AliveObjs();
          SweepStep(SwpFinObj);
          AliveObjs();
        case SwpFinObj =>
          AliveReaches();
          AliveObjs();
          SweepStep(SwpToBeFnz);
        case SwpToBeFnz =>
          AliveReaches();
          AliveObjs();
          SweepStep(SwpEnd);
        case SwpEnd =>
          FinishSweep();
        case CallFin =>
          FinishCycle();
      }
      ClearedFades(h0, H(), alive);
    }

    /** No finalizers to call (lgc.c:1085-1094). */
    method FinishCycle()
      requires Valid() && gcstate == CallFin
      modifies this`gcstate
      ensures Valid() && gcstate == Pause
    {
      hide AllGc, Intact, Closed;
      gcstate := Pause;
    }

    lemma AliveObjs()
      requires Valid()
      ensures alive <= objs.Keys
    {
      hide AllGc, Intact, Closed, MarkPhase, SweepPhase, IdlePhase;
    }

    lemma AliveReaches()
      requires Valid()
      ensures forall x :: Reachable(H(), x) ==> x in alive
    {
      hide AllGc, Intact, Closed, MarkPhase, SweepPhase, IdlePhase;
      ClosedReaches(H(), alive);
    }

    /** luaC_runtilstate (lgc.c:1104-1108), for a state that the cycle has yet to reach. */
    method RunTilState(target: Phase, running: Id)
      requires Valid() && target != InsideAtomic && Num(gcstate) <= Num(target)
      requires running in objs && running in alive
      modifies this
      ensures Valid() && gcstate == target && cells == old(cells) && roots == old(roots)
      ensures Num(old(gcstate)) > Num(Atomic) ==> alive == old(alive) && ReachableSet(H()) == ReachableSet(old(H()))
      ensures old(alive) == ReachableSet(old(H())) && KeepsCycle(old(gcstate)) ==> alive == old(alive)
      ensures objs.Keys <= old(objs.Keys) && running in objs && running in alive
      ensures Faded(old(H()), H(), alive)
    {
      hide Valid, ReachableSet, Reachable, Closure, Cleared, WorkSet, WorkLeft, Faded;
      ghost var h0, a0, p0 := H(), alive, gcstate;
      FadedSame(h0, h0, alive);
      while gcstate != target
        invariant Valid() && Num(gcstate) <= Num(target) && cells == h0.cells && roots == h0.roots
        invariant running in objs && running in alive
        invariant Num(gcstate) >= Num(p0)
        invariant Num(p0) > Num(Atomic) ==> alive == a0 && ReachableSet(H()) == ReachableSet(h0)
        invariant a0 == ReachableSet(h0) && KeepsCycle(p0) ==> alive == a0 && (Num(gcstate) <= Num(Atomic) ==> H() == h0)
        invariant objs.Keys <= h0.objs.Keys && Faded(h0, H(), alive)
        decreases Num(target) - Num(gcstate), WorkSet(), WorkLeft()
      {
        ghost var h1, a1 := H(), alive;
        SingleStep(running);
        FadedTwice(h0, h1, H(), a1, alive, alive);
      }
    }

    predicate KeepsCycle(p: Phase) {
      p == Propagate || p == Atomic
    }

    /** A sweep in the middle of marking frees nothing: all objects count as alive. */
    method SweepNothing()
      requires Valid() && KeepInvariant()
      modifies this
      ensures Valid() && gcstate == SwpAllGc && cells == old(cells) && roots == old(roots) && alive == old(objs).Keys
      ensures ReachableSet(H()) == ReachableSet(old(H())) && objs.Keys <= old(objs).Keys
      ensures forall x :: x in objs ==> objs[x] == old(objs)[x]
    {
      hide AllGc, Intact, Closed, Tri, ListsOK, ReachableSet;
      AllLive(mark, currentwhite);
      IntactFull(H(), Live());
      FullClosed(H(), Live());
      alive := objs.Keys;
      EnterSweep();
    }

    /** luaC_fullgc (lgc.c:1159-1175): in the end the objects left are exactly those that
        were reachable when it began. */
    method FullGc(running: Id)
      requires Valid() && running in objs && Reachable(H(), running)
      modifies this
      ensures Valid() && gcstate == Pause
      ensures objs.Keys == ReachableSet(old(H()))
      ensures cells == old(cells) && roots == old(roots)
      ensures Faded(old(H()), H(), objs.Keys) && LastingKept(old(H()), H(), objs.Keys)
    {
      hide Valid, ReachableSet, Reachable, Closure, WorkSet, WorkLeft, Unseen, Faded, LastingKept, Closed, Cleared;
      ghost var h0, R := H(), ReachableSet(H());
      RunningReached(running);
      ReachedClosed();
      if KeepInvariant() {
        SweepNothing();
      }
      FadedSame(h0, H(), R);
      AliveReached(running);
      ghost var h1 := H();
      RunTilState(Pause, running);
      AliveReached(running);
      FadedTwice(h0, h1, H(), R, alive, R);
      while gcstate == Pause
        invariant Valid() && running in objs && running in alive && cells == old(cells) && roots == old(roots)
        invariant gcstate == Pause || (gcstate == Propagate && alive == R)
        invariant ReachableSet(H()) == R && running in R && R <= alive && Faded(h0, H(), R)
        decreases gcstate == Pause
      {
        h1 := H();
        SingleStep(running);
        AliveReached(running);
        FadedTwice(h0, h1, H(), R, alive, R);
      }
      h1 := H();
      RunTilState(CallFin, running);
      FadedTwice(h0, h1, H(), R, alive, R);
      h1 := H();
      RunTilState(Pause, running);
      FadedTwice(h0, h1, H(), R, alive, R);
      NothingElseLeft();
      ClosedKept(h0, H(), R);
    }

    lemma RunningReached(running: Id)
      requires running in objs && Reachable(H(), running)
      ensures running in ReachableSet(H())
    {
    }

    lemma AliveReached(running: Id)
      requires Valid() && running in ReachableSet(H())
      ensures running in objs && running in alive && gcstate != InsideAtomic && ReachableSet(H()) <= alive
    {
      hide AllGc, Intact, Closed, MarkPhase, SweepPhase, IdlePhase;
      AliveReaches();
    }

    lemma ReachedClosed()
      requires Valid()
      ensures Closed(H(), ReachableSet(H()))
    {
      hide AllGc, MarkPhase, SweepPhase, IdlePhase;
      IntactFull(H(), Live());
      FullClosed(H(), Live());
      ClosureClosed(H(), {}, Live());
    }

    // ---------- what holds at any time ----------

    /** A new state (lstate.c:295-338): one thread, and no cycle under way. */
    constructor (main: Id, stack: nat, nroots: nat)
      ensures Valid() && gcstate == Pause && mainthread == main
      ensures H() == Heap(map[main := Shape(Thread, seq(stack, _ => Plain), [], [])], map[], seq(nroots, _ => Plain), main)
    {
      mainthread := main;
      objs := map[main := Shape(Thread, seq(stack, _ => Plain), [], [])];
      cells := map[];
      roots := seq(nroots, _ => Plain);
      mark := map[main := White(false)];
      currentwhite := false;
      gcstate := Pause;
      gray, grayagain, ephemeron, allweak, saved, next := [], [], [], [], [], [];
      swept, unswept := [], [];
      stopped := false;
      alive := {main};
    }

    /** The main invariant (lgc.h:14-24): while it is kept, no black object points to a
        white one, and a gray object is on exactly one gray list, once. */
    lemma NoBlackToWhite(x: Id, y: Id)
      requires Valid() && KeepInvariant() && x in objs && mark[x] == Black && Mentions(H(), x, y)
      ensures y in objs && !IsWhite(mark, y)
    {
      hide AllGc, Closed, Ready, ListsOK, SweepPhase, IdlePhase;
      assert BlackOK(H(), mark, x);
      assert x in Live() by {
        assert mark[x] != White(!currentwhite);
      }
      IntactShape(H(), Live(), x);
      NotTable(H(), x);
      assert Strong(H(), x, y);
    }

    lemma GrayIsListed(x: Id)
      requires Valid() && KeepInvariant()
      ensures x in objs && mark[x] == Gray <==> x in gray + grayagain
      ensures NoDup(gray + grayagain)
    {
      hide AllGc, Closed, Intact, SweepPhase, IdlePhase;
      assert Listed(L()) == gray + grayagain;
      if x in objs && mark[x] == Gray {
        assert Covered(H(), mark, L(), x);
      }
    }

    /** Between cycles only objects that the cycle was to keep are left. */
    lemma NothingElseLeft()
      requires Valid() && (gcstate == Pause || gcstate == CallFin)
      ensures objs.Keys == alive
    {
      hide AllGc, Intact, Closed;
    }

    /** A write of values that the cycle keeps makes it keep nothing more. */
    lemma WriteKeepsAlive(o: Id, s: Shape, vs: set<Val>)
      requires Valid() && Held(Ref(o)) && Adds(objs[o], s, vs) && forall v :: v in vs ==> ValIn(v, alive)
      ensures Closure(WithShape(H(), o, s), alive) == alive
    {
      hide AllGc, Intact, Closed, MarkPhase, SweepPhase, IdlePhase, Accessible;
      AddsClosed(H(), Live(), alive, o, s, vs);
      ClosureSame(WithShape(H(), o, s), alive);
    }
  }
}
