/** What a collection does to tables with weak keys (apps/lua/lgc.c:139-146, 394-430, 639-651). */
module GcWeak {
  import opened GcHeap
  import opened GcProofs

  /** From 's' to 's1' nothing has changed, but that an ephemeron may have lost entries:
      their keys are objects outside 'S'. */
  ghost predicate FadedShape(s: Shape, s1: Shape, S: set<Id>) {
    && s1.kind == s.kind && s1.slots == s.slots && s1.upvals == s.upvals
    && (s.kind != Ephemeron ==> s1.entries == s.entries)
    && (forall e :: e in s1.entries ==> e in s.entries)
    && (forall e :: e in s.entries && e !in s1.entries ==> e.key.Ref? && e.key.id !in S)
  }

  /** The objects of 'h1' were in 'h', and have lost no entries but those with keys outside 'S'. */
  ghost predicate Faded(h: Heap, h1: Heap, S: set<Id>) {
    forall x :: x in h1.objs ==> x in h.objs && FadedShape(h.objs[x], h1.objs[x], S)
  }

  lemma FadedSame(h: Heap, h1: Heap, S: set<Id>)
    requires forall x :: x in h1.objs ==> x in h.objs && h1.objs[x] == h.objs[x]
    ensures Faded(h, h1, S)
  {
  }

  lemma FadedTwice(h: Heap, h1: Heap, h2: Heap, S1: set<Id>, S2: set<Id>, S: set<Id>)
    requires Faded(h, h1, S1) && Faded(h1, h2, S2) && S <= S1 && S <= S2
    ensures Faded(h, h2, S)
  {
    forall x | x in h2.objs ensures x in h.objs && FadedShape(h.objs[x], h2.objs[x], S) {
      assert x in h1.objs && FadedShape(h.objs[x], h1.objs[x], S1) && FadedShape(h1.objs[x], h2.objs[x], S2);
    }
  }

  /** Clearing by the marked objects takes away dead keys only. */
  lemma ClearedFades(h: Heap, h1: Heap, S: set<Id>)
    requires forall x :: x in h1.objs ==> x in h.objs && (h1.objs[x] == h.objs[x] || h1.objs[x] == Cleared(h, S, S).objs[x])
    ensures Faded(h, h1, S)
  {
    forall x | x in h1.objs ensures FadedShape(h.objs[x], h1.objs[x], S) {
      var s, s1 := h.objs[x], h1.objs[x];
      if s1 != s {
        forall e ensures e in s1.entries <==> e in s.entries && KeyIn(h, e.key, S) {
          KeptIn(h, s.entries, S, e);
        }
      }
    }
  }

  /** The entry is there for good: its key is not collectable, or a string, or an object of 'S'. */
  ghost predicate Lasting(h: Heap, e: Entry, S: set<Id>) {
    e.key.Plain? || IsStr(h, e.key) || e.key.id in S
  }

  /** When the reachable objects 'S' are left, so are the lasting entries, with their keys and values. */
  ghost predicate LastingKept(h: Heap, h1: Heap, S: set<Id>) {
    forall o, e :: o in h1.objs && o in h.objs && h.objs[o].kind == Ephemeron && e in h.objs[o].entries && Lasting(h, e, S) ==>
      e in h1.objs[o].entries && ValIn(e.key, S) && ValIn(e.val, S)
  }

  lemma ClosedKept(h: Heap, h1: Heap, S: set<Id>)
    requires Closed(h, S) && Faded(h, h1, S) && h1.objs.Keys == S
    ensures LastingKept(h, h1, S)
  {
    forall o, e | o in h1.objs && o in h.objs && h.objs[o].kind == Ephemeron && e in h.objs[o].entries && Lasting(h, e, S)
      ensures e in h1.objs[o].entries && ValIn(e.key, S) && ValIn(e.val, S)
    {
      assert EntriesIn(h, o, S) && EntryIn(h, e, S);
      assert FadedShape(h.objs[o], h1.objs[o], S);
    }
  }

  /** What it means to be closed, reference by reference. */
  lemma ClosedMeans(h: Heap, S: set<Id>)
    ensures Closed(h, S) <==>
            && h.mainthread in S
            && (forall v :: v in h.roots && v.Ref? ==> v.id in S)
            && forall o :: o in S && o in h.objs ==> ReferencesIn(h, h.objs[o], S)
  {
    if Closed(h, S) {
      assert IsRoot(h, h.mainthread);
      forall v | v in h.roots && v.Ref? ensures v.id in S {
        assert Is(v, v.id);
      }
    }
    forall o | o in S && o in h.objs
      ensures StrongIn(h, o, S) && EntriesIn(h, o, S) <==> ReferencesIn(h, h.objs[o], S)
    {
      StrongMeans(h, o, S);
      WeakMeans(h, o, S);
    }
  }

  /** The strong references of an object lead into 'S'; so does the value of an entry with a
      weak key, if the key is in 'S', or a string, or not collectable. */
  ghost predicate ReferencesIn(h: Heap, s: Shape, S: set<Id>) {
    && (forall v :: v in s.slots && v.Ref? ==> v.id in S)
    && (forall c :: c in s.upvals && c in h.cells && h.cells[c].Ref? ==> h.cells[c].id in S)
    && (s.kind == Tab ==> forall e :: e in s.entries ==> (e.key.Ref? ==> e.key.id in S) && (e.val.Ref? ==> e.val.id in S))
    && (s.kind == Ephemeron ==>
          forall e :: e in s.entries ==>
            && (Lasting(h, e, S) && e.val.Ref? ==> e.val.id in S)
            && (IsStr(h, e.key) ==> e.key.id in S))
  }

  lemma StrongMeans(h: Heap, o: Id, S: set<Id>)
    requires o in h.objs
    ensures var s := h.objs[o];
            StrongIn(h, o, S) <==>
              && (forall v :: v in s.slots && v.Ref? ==> v.id in S)
              && (forall c :: c in s.upvals && c in h.cells && h.cells[c].Ref? ==> h.cells[c].id in S)
              && (s.kind == Tab ==> forall e :: e in s.entries ==> (e.key.Ref? ==> e.key.id in S) && (e.val.Ref? ==> e.val.id in S))
  {
    var s := h.objs[o];
    if StrongIn(h, o, S) {
      forall v | v in s.slots && v.Ref? ensures v.id in S {
        assert Is(v, v.id) && Strong(h, o, v.id);
      }
      forall c | c in s.upvals && c in h.cells && h.cells[c].Ref? ensures h.cells[c].id in S {
        assert Is(h.cells[c], h.cells[c].id) && Strong(h, o, h.cells[c].id);
      }
      if s.kind == Tab {
        forall e | e in s.entries ensures (e.key.Ref? ==> e.key.id in S) && (e.val.Ref? ==> e.val.id in S) {
          assert e.key.Ref? ==> Is(e.key, e.key.id) && Strong(h, o, e.key.id);
          assert e.val.Ref? ==> Is(e.val, e.val.id) && Strong(h, o, e.val.id);
        }
      }
    }
  }

  lemma WeakMeans(h: Heap, o: Id, S: set<Id>)
    requires o in h.objs
    ensures EntriesIn(h, o, S) <==>
              (h.objs[o].kind == Ephemeron ==>
                 forall e :: e in h.objs[o].entries ==>
                   && (Lasting(h, e, S) && e.val.Ref? ==> e.val.id in S)
                   && (IsStr(h, e.key) ==> e.key.id in S))
  {
  }
}
