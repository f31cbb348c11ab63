/** Objects, references and reachability, as the garbage collector sees them
    (apps/lua/lgc.c, apps/lua/lgc.h). */
module GcHeap {

  type Id = nat

  /** A value: a collectable object, or anything else. */
  datatype Val = Ref(id: Id) | Plain

  /** 'Func' stands for Lua functions, C functions and prototypes, 'Ephemeron' for a
      table with weak keys. */
  datatype Kind = Str | Udata | Func | Tab | Ephemeron | Thread

  datatype Entry = Entry(key: Val, val: Val)

  /** What an object refers to. 'slots' are always strong: the metatable (first) and
      the array part of a table, the metatable and user value of a userdata, the stack
      of a thread, constants and upvalues of functions. 'upvals' are the closed
      upvalues a Lua function shares. 'entries' are the non-empty nodes of a table. */
  datatype Shape = Shape(kind: Kind, slots: seq<Val>, upvals: seq<nat>, entries: seq<Entry>)

  datatype Color = White(bit: bool) | Gray | Black

  type Marks = map<Id, Color>

  /** The object graph: objects, closed upvalues, and the roots other than the main
      thread (registry and metatables of basic types). */
  datatype Heap = Heap(objs: map<Id, Shape>, cells: map<nat, Val>, roots: seq<Val>, mainthread: Id)

  predicate ShapeOK(s: Shape) {
    match s.kind
    case Str => s.slots == [] && s.upvals == [] && s.entries == []
    case Udata => |s.slots| == 2 && s.upvals == [] && s.entries == []
    case Func => s.entries == []
    case Tab => |s.slots| >= 1 && s.upvals == []
    case Ephemeron => |s.slots| >= 1 && s.upvals == []
    case Thread => s.upvals == [] && s.entries == []
  }

  /** 'x' is the object that 'v' refers to. */
  predicate Is(v: Val, x: Id) {
    v == Ref(x)
  }

  /** 'o' refers to 'x' whatever becomes of other objects. */
  ghost predicate Strong(h: Heap, o: Id, x: Id)
    requires o in h.objs
  {
    var s := h.objs[o];
    || (exists v :: v in s.slots && Is(v, x))
    || (exists c :: c in s.upvals && c in h.cells && Is(h.cells[c], x))
    || (s.kind == Tab && exists e :: e in s.entries && (Is(e.key, x) || Is(e.val, x)))
  }

  /** 'o' mentions 'x' at all. */
  ghost predicate Mentions(h: Heap, o: Id, x: Id)
    requires o in h.objs
  {
    Strong(h, o, x) || exists e :: e in h.objs[o].entries && (Is(e.key, x) || Is(e.val, x))
  }

  ghost predicate IsRoot(h: Heap, x: Id) {
    x == h.mainthread || exists v :: v in h.roots && Is(v, x)
  }

  predicate IsStr(h: Heap, v: Val) {
    v.Ref? && v.id in h.objs && h.objs[v.id].kind == Str
  }

  /** The key of an entry counts as alive: strings and values that are not collectable
      are never weak. */
  predicate KeyIn(h: Heap, k: Val, S: set<Id>) {
    k.Plain? || IsStr(h, k) || k.id in S
  }

  predicate ValIn(v: Val, S: set<Id>) {
    v.Ref? ==> v.id in S
  }

  function RefSet(v: Val): set<Id> {
    if v.Ref? then {v.id} else {}
  }

  ghost predicate StrongIn(h: Heap, o: Id, S: set<Id>)
    requires o in h.objs
  {
    forall x :: Strong(h, o, x) ==> x in S
  }

  /** An entry of an ephemeron in S: its value is in S if its key counts as alive, and
      string keys are in S. */
  predicate EntryIn(h: Heap, e: Entry, S: set<Id>) {
    && (KeyIn(h, e.key, S) ==> ValIn(e.val, S))
    && StrIn(h, e.key, S)
  }

  predicate StrIn(h: Heap, v: Val, S: set<Id>) {
    IsStr(h, v) ==> v.id in S
  }

  ghost predicate EntriesIn(h: Heap, o: Id, S: set<Id>)
    requires o in h.objs
  {
    h.objs[o].kind == Ephemeron ==> forall e :: e in h.objs[o].entries ==> EntryIn(h, e, S)
  }

  /** 'S' holds the roots and everything reachable from its elements. */
  ghost predicate Closed(h: Heap, S: set<Id>) {
    && (forall x :: IsRoot(h, x) ==> x in S)
    && (forall o :: o in S && o in h.objs ==> StrongIn(h, o, S) && EntriesIn(h, o, S))
  }

  /** The least closed set that contains 'B': 'B', the roots, and what is reachable
      from them. */
  ghost function Closure(h: Heap, B: set<Id>): set<Id> {
    set x | x in h.objs && InEvery(h, B, x)
  }

  ghost predicate InEvery(h: Heap, B: set<Id>, x: Id) {
    forall S: set<Id> :: Closed(h, S) && B <= S ==> x in S
  }

  ghost predicate Reachable(h: Heap, x: Id) {
    InEvery(h, {}, x)
  }

  ghost function ReachableSet(h: Heap): set<Id> {
    Closure(h, {})
  }

  lemma ClosureClosed(h: Heap, B: set<Id>, T: set<Id>)
    requires Closed(h, T) && T <= h.objs.Keys && B <= T
    ensures Closed(h, Closure(h, B)) && B <= Closure(h, B) <= T
  {
    var S := Closure(h, B);
    forall x | IsRoot(h, x) ensures x in S {
      assert x in T;
    }
    forall o | o in S && o in h.objs ensures StrongIn(h, o, S) && EntriesIn(h, o, S) {
      forall x | Strong(h, o, x) ensures x in S {
        assert o in T && StrongIn(h, o, T);
        forall U: set<Id> | Closed(h, U) && B <= U ensures x in U {
          assert o in U && StrongIn(h, o, U);
        }
      }
      if h.objs[o].kind == Ephemeron {
        forall e | e in h.objs[o].entries ensures EntryIn(h, e, S) {
          assert o in T && EntriesIn(h, o, T) && EntryIn(h, e, T);
          forall U: set<Id> | Closed(h, U) && B <= U
            ensures KeyIn(h, e.key, S) ==> ValIn(e.val, U)
            ensures StrIn(h, e.key, U)
          {
            assert o in U && EntriesIn(h, o, U) && EntryIn(h, e, U);
          }
        }
      }
    }
  }

  /** A closed set is its own closure. */
  lemma ClosureSame(h: Heap, T: set<Id>)
    requires Closed(h, T) && T <= h.objs.Keys
    ensures Closure(h, T) == T
  {
    ClosureClosed(h, T, T);
  }

  /** 'T' holds the roots, and whatever its elements mention, weakly or not. */
  ghost predicate Full(h: Heap, T: set<Id>) {
    && (forall x :: IsRoot(h, x) ==> x in T)
    && (forall o :: o in T && o in h.objs ==> forall x :: Mentions(h, o, x) ==> x in T)
  }

  /** The program can lay its hands on 'x', be it by iterating over a weak table. */
  ghost predicate Accessible(h: Heap, x: Id) {
    forall T: set<Id> :: Full(h, T) ==> x in T
  }

  lemma FullClosed(h: Heap, T: set<Id>)
    requires Full(h, T)
    ensures Closed(h, T)
  {
    forall o | o in T && o in h.objs ensures StrongIn(h, o, T) && EntriesIn(h, o, T) {
      forall x | Strong(h, o, x) ensures x in T {
        assert Mentions(h, o, x);
      }
      forall e | e in h.objs[o].entries ensures EntryIn(h, e, T) {
        if e.val.Ref? {
          assert Is(e.val, e.val.id) && Mentions(h, o, e.val.id);
        }
        if e.key.Ref? {
          assert Is(e.key, e.key.id) && Mentions(h, o, e.key.id);
        }
      }
    }
  }

  /** What is reachable is accessible. */
  lemma ReachableAccessible(h: Heap, x: Id)
    requires Reachable(h, x)
    ensures Accessible(h, x)
  {
    forall T: set<Id> | Full(h, T) ensures x in T {
      FullClosed(h, T);
    }
  }

  // ---------- colours ----------

  predicate IsWhite(m: Marks, x: Id) {
    x in m && m[x].White?
  }

  ghost function Whites(m: Marks): set<Id> {
    set x | x in m && m[x].White?
  }

  ghost function Marked(m: Marks): set<Id> {
    set x | x in m && !m[x].White?
  }

  /** Every white object has the white 'b'. */
  ghost predicate OneWhite(m: Marks, b: bool) {
    forall x :: x in m && m[x].White? ==> m[x].bit == b
  }

  ghost predicate NoDup(s: seq<Id>) {
    forall i, j :: 0 <= i < j < |s| ==> s[i] != s[j]
  }

  /** Objects of this kind turn black when all they refer to is marked; threads and
      ephemerons stay gray. */
  predicate Blackens(k: Kind) {
    k != Thread && k != Ephemeron
  }

  /** A black object: everything it refers to is marked. */
  ghost predicate BlackOK(h: Heap, m: Marks, x: Id) {
    x in h.objs && Blackens(h.objs[x].kind) && StrongIn(h, x, Marked(m))
  }

  /** Objects of this kind wait on a list before they are traversed. */
  predicate Queued(k: Kind) {
    k != Str && k != Udata
  }

  /** From 'm' and the gray list 'g', some white objects of 'S' were marked: gray ones
      were added to the front of the list, black ones refer to marked objects only. */
  ghost predicate Grew(h: Heap, S: set<Id>, m: Marks, g: seq<Id>, m': Marks, g': seq<Id>) {
    && m'.Keys == m.Keys
    && (forall x :: x in m && !m[x].White? ==> m'[x] == m[x])
    && (forall x :: x in m && m[x].White? && m'[x] != m[x] ==>
          x in S && ((m'[x] == Gray && x in g' && x in h.objs && Queued(h.objs[x].kind)) || (m'[x] == Black && BlackOK(h, m', x))))
    && |g| <= |g'| && g'[|g'| - |g|..] == g
    && (forall x :: x in g' ==> x in g || (IsWhite(m, x) && m'[x] == Gray))
    && (NoDup(g) ==> NoDup(g'))
  }

  /** The objects of the gray list are marked. */
  ghost predicate GrayOK(m: Marks, g: seq<Id>) {
    forall x :: x in g ==> x in m && !m[x].White?
  }

  lemma GrewMarked(h: Heap, S: set<Id>, m: Marks, g: seq<Id>, m': Marks, g': seq<Id>)
    requires Grew(h, S, m, g, m', g')
    ensures Marked(m) <= Marked(m') && Whites(m') <= Whites(m)
    ensures GrayOK(m, g) ==> GrayOK(m', g')
    ensures Marked(m') <= Marked(m) + S
  {
    forall x | x in Whites(m') ensures x in Whites(m) {
      assert x in m;
    }
    forall x | x in Marked(m') ensures x in Marked(m) + S {
      assert x in m;
    }
  }

  lemma BlackKept(h: Heap, m: Marks, m': Marks, x: Id)
    requires BlackOK(h, m, x) && Marked(m) <= Marked(m')
    ensures BlackOK(h, m', x)
  {
  }

  lemma GrewTrans(h: Heap, S: set<Id>, m: Marks, g: seq<Id>, m1: Marks, g1: seq<Id>, m2: Marks, g2: seq<Id>)
    requires Grew(h, S, m, g, m1, g1) && Grew(h, S, m1, g1, m2, g2) && GrayOK(m, g)
    ensures Grew(h, S, m, g, m2, g2)
  {
    GrewMarked(h, S, m, g, m1, g1);
    GrewMarked(h, S, m1, g1, m2, g2);
    forall x | x in m && m[x].White? && m2[x] != m[x]
      ensures x in S && ((m2[x] == Gray && x in g2 && x in h.objs && Queued(h.objs[x].kind)) || (m2[x] == Black && BlackOK(h, m2, x)))
    {
      if m1[x] == m[x] {
      } else {
        assert m2[x] == m1[x];
        if m1[x] == Gray {
          assert x in g1;
          SuffixIn(g1, g2, x);
        } else {
          BlackKept(h, m1, m2, x);
        }
      }
    }
    assert g2[|g2| - |g|..] == g2[|g2| - |g1|..][|g1| - |g|..];
    forall x | x in g2 ensures x in g || (IsWhite(m, x) && m2[x] == Gray) {
      if x !in g && x in g1 {
        assert IsWhite(m, x) && m1[x] == Gray;
      }
    }
  }

  lemma SuffixIn(g: seq<Id>, g': seq<Id>, x: Id)
    requires |g| <= |g'| && g'[|g'| - |g|..] == g && x in g
    ensures x in g'
  {
    var i :| 0 <= i < |g| && g[i] == x;
    assert g'[|g'| - |g|..][i] == x;
  }

  lemma GrewSame(h: Heap, S: set<Id>, m: Marks, g: seq<Id>)
    ensures Grew(h, S, m, g, m, g)
  {
  }
}
