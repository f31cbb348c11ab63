/** Closures and their variables: the list of open upvalues, closing them, and moving the
    stack below them (apps/lua/lfunc.c:57-96, apps/lua/ldo.c:158-188). Ghost state says which
    variable each slot of the stack and each upvalue stands for, and what it holds. */
module LuaUpvals {

  datatype Value = Nil | Value(k: int)

  /** A 'TValue *': into a stack, or to the upvalue's own field. */
  datatype Pointer = Slot(block: array<Value>, i: nat) | Own

  /** Upvaldesc: what a function says about the upvalues of its closures. */
  datatype UpvalDesc = UpvalDesc(instack: bool, idx: nat)

  function Nils(n: nat): (s: seq<Value>)
    ensures |s| == n && forall i :: 0 <= i < n ==> s[i] == Nil
  {
    seq(n, i => Nil)
  }

  /** What realloc and the loop behind it make of a stack. */
  function Resized(s: seq<Value>, n: nat): seq<Value> {
    if n <= |s| then s[..n] else s + Nils(n - |s|)
  }

  lemma ResizedIs(s: seq<Value>, n: nat, kept: nat)
    requires kept == if n <= |s| then n else |s|
    ensures |Resized(s, n)| == n && Resized(s, n)[..kept] == s[..kept]
  {
  }

  class UpVal {
    var v: Pointer
    var refcount: nat
    var next: UpVal?
    var value: Value

    constructor (level: Pointer, next: UpVal?)
      ensures v == level && refcount == 0 && this.next == next
    {
      v, refcount, this.next, value := level, 0, next, Nil;
    }
  }

  // ---------- slots and variables ----------

  ghost predicate Distinct(slots: seq<nat>) {
    forall i, j :: 0 <= i < j < |slots| ==> slots[i] != slots[j]
  }

  ghost predicate Holds(slots: seq<nat>, store: map<nat, Value>, contents: seq<Value>) {
    && |contents| == |slots|
    && forall i :: 0 <= i < |slots| ==> slots[i] in store && contents[i] == store[slots[i]]
  }

  ghost predicate Below(slots: seq<nat>, n: nat) {
    forall i :: 0 <= i < |slots| ==> slots[i] < n
  }

  /** All closures over a variable share its upvalue. */
  ghost predicate OneEach(vars: map<UpVal, nat>) {
    forall u, w :: u in vars && w in vars && vars[u] == vars[w] ==> u == w
  }

  ghost function New(from: nat, n: nat): (s: seq<nat>)
    ensures |s| == n && forall i :: 0 <= i < n ==> s[i] == from + i
  {
    seq(n, i => from + i)
  }

  lemma HoldsWrite(slots: seq<nat>, store: map<nat, Value>, contents: seq<Value>, i: nat, v: Value)
    requires Distinct(slots) && Holds(slots, store, contents) && i < |slots|
    ensures Holds(slots, store[slots[i] := v], contents[i := v])
  {
  }

  lemma HoldsElsewhere(slots: seq<nat>, store: map<nat, Value>, contents: seq<Value>, x: nat, v: Value)
    requires Holds(slots, store, contents) && x !in slots
    ensures Holds(slots, store[x := v], contents)
  {
  }

  /** Slots from 'level' on become new variables with the contents that they have. */
  ghost function Renewed(slots: seq<nat>, level: nat, n: nat, from: nat): seq<nat>
    requires level <= |slots| && level <= n
  {
    slots[..level] + New(from, n - level)
  }

  ghost function Extended(store: map<nat, Value>, from: nat, contents: seq<Value>): (m: map<nat, Value>)
    ensures forall x :: x in store && x < from ==> x in m && m[x] == store[x]
    ensures forall x :: from <= x < from + |contents| ==> x in m && m[x] == contents[x - from]
    decreases |contents|
  {
    if contents == [] then store
    else Extended(store[from := contents[0]], from + 1, contents[1..])
  }

  lemma RenewedHolds(slots: seq<nat>, store: map<nat, Value>, contents: seq<Value>, level: nat, from: nat, contents': seq<Value>)
    requires Distinct(slots) && Below(slots, from) && Holds(slots, store, contents)
    requires level <= |contents| && level <= |contents'| && contents'[..level] == contents[..level]
    ensures var slots' := Renewed(slots, level, |contents'|, from);
            && Distinct(slots') && Below(slots', from + |contents'| - level)
            && Holds(slots', Extended(store, from, contents'[level..]), contents')
  {
    var slots' := Renewed(slots, level, |contents'|, from);
    var store' := Extended(store, from, contents'[level..]);
    forall i | 0 <= i < |slots'| ensures slots'[i] in store' && contents'[i] == store'[slots'[i]] {
      if i < level {
        assert contents'[..level][i] == contents[..level][i];
      } else {
        assert slots'[i] == from + (i - level);
      }
    }
  }

  function NextIn(us: seq<UpVal>, k: nat): UpVal?
    requires k < |us|
  {
    if k + 1 < |us| then us[k + 1] else null
  }

  lemma NextAt(us: seq<UpVal>, k: nat)
    requires k < |us|
    ensures NextIn(us, k) == if k + 1 < |us| then us[k + 1] else null
  {
  }

  class Thread {
    var stack: array<Value>
    var openupval: UpVal?
    /** The list from 'openupval' on. */
    ghost var open: seq<UpVal>
    /** The variable of each slot and of each upvalue; what each variable holds. */
    ghost var slots: seq<nat>
    ghost var vars: map<UpVal, nat>
    ghost var store: map<nat, Value>
    ghost var unused: nat

    ghost predicate Valid()
      reads this, stack, vars.Keys
    {
      && ListOK() && Sorted() && Complete() && AllOK() && |slots| == stack.Length
      && Distinct(slots) && Below(slots, unused) && Holds(slots, store, stack[..]) && OneEach(vars)
    }

    ghost predicate ListOK()
      reads this`openupval, this`open, this`vars, vars.Keys`next
    {
      && openupval == (if open == [] then null else open[0])
      && (forall k :: 0 <= k < |open| ==> open[k] in vars)
      && (forall j, k :: 0 <= j < k < |open| && k == j + 1 ==> open[j].next == open[k])
      && (open != [] ==> open[|open| - 1].next == null)
    }

    /** Strictly decreasing, so that a slot has at most one upvalue. */
    ghost predicate Sorted()
      reads this`open, this`vars, vars.Keys`v
    {
      && (forall k :: 0 <= k < |open| ==> open[k] in vars && open[k].v.Slot?)
      && (forall j, k :: 0 <= j < k < |open| ==> open[j].v.i > open[k].v.i)
    }

    /** An open upvalue stands for the variable of its slot. */
    ghost predicate OpenAt(u: UpVal, x: nat)
      reads this`stack, this`slots, u`v
    {
      u.v.Slot? && u.v.block == stack && u.v.i < stack.Length == |slots| && x == slots[u.v.i]
    }

    ghost predicate Complete()
      reads this`open, this`vars, vars.Keys`v
    {
      forall u :: u in vars && u.v.Slot? ==> u in open
    }

    /** A closed upvalue holds its variable itself. */
    ghost predicate ClosedAt(u: UpVal, x: nat)
      reads this`slots, this`store, u`v, u`refcount, u`value
    {
      u.v == Own && u.refcount > 0 && !(x in slots) && x in store && u.value == store[x]
    }

    ghost predicate AllOK()
      reads this, vars.Keys`v, vars.Keys`refcount, vars.Keys`value
    {
      forall u :: u in vars ==> vars[u] < unused && (OpenAt(u, vars[u]) || ClosedAt(u, vars[u]))
    }

    /** '*uv->v' */
    ghost function Read(u: UpVal): Value
      reads u, if u.v.Slot? then {u.v.block} else {}
    {
      if u.v.Slot? then (if u.v.i < u.v.block.Length then u.v.block[u.v.i] else Nil) else u.value
    }

    /** An upvalue, the slot of the same variable and the other closures over it agree. */
    lemma Agreement(u: UpVal)
      requires Valid() && u in vars
      ensures vars[u] in store && Read(u) == store[vars[u]]
      ensures forall i :: 0 <= i < |slots| && slots[i] == vars[u] ==> u.v == Slot(stack, i) && stack[i] == Read(u)
      ensures forall w :: w in vars && vars[w] == vars[u] ==> w == u
    {
      assert OpenAt(u, vars[u]) || ClosedAt(u, vars[u]);
      assert forall i :: 0 <= i < |slots| ==> slots[i] in slots;
    }

    constructor (size: nat)
      ensures Valid() && stack.Length == size && fresh(stack) && vars == map[]
      ensures forall i :: 0 <= i < size ==> stack[i] == Nil
    {
      stack := new Value[size](i => Nil);
      openupval, open, vars, unused := null, [], map[], size;
      slots := New(0, size);
      store := Extended(map[], 0, seq(size, i => Nil));
    }

    /** Writing a slot: only its variable changes. */
    method SetSlot(i: nat, v: Value)
      requires Valid() && i < stack.Length
      modifies this`store, stack
      ensures Valid() && store == old(store)[slots[i] := v]
    {
      hide ListOK, Sorted, Complete;
      HoldsWrite(slots, store, stack[..], i, v);
      hide Distinct, Holds, Below, OneEach;
      stack[i] := v;
      assert stack[..] == old(stack[..])[i := v];
      store := store[slots[i] := v];
      forall u | u in vars ensures vars[u] < unused && (OpenAt(u, vars[u]) || ClosedAt(u, vars[u])) {
        assert old(OpenAt(u, vars[u]) || ClosedAt(u, vars[u]));
      }
    }

    /** The variable of an upvalue is found through 'v', open or closed (lvm.c:831-835). */
    method GetUpval(u: UpVal) returns (v: Value)
      requires Valid() && u in vars
      ensures vars[u] in store && v == store[vars[u]]
    {
      match u.v {
        case Slot(block, i) => v := block[i];
        case Own => v := u.value;
      }
    }

    /** (lvm.c:855-860) */
    method SetUpval(u: UpVal, v: Value)
      requires Valid() && u in vars
      modifies this`store, stack, u`value
      ensures Valid() && store == old(store)[vars[u] := v]
    {
      hide ListOK, Sorted, Complete;
      ghost var x := vars[u];
      assert forall w :: w in vars && w != u ==> vars[w] != x;
      if u.v.Slot? {
        HoldsWrite(slots, store, stack[..], u.v.i, v);
        u.v.block[u.v.i] := v;
        assert stack[..] == old(stack[..])[u.v.i := v];
      } else {
        HoldsElsewhere(slots, store, stack[..], x, v);
        u.value := v;
      }
      store := store[x := v];
      hide Distinct, Holds, Below, OneEach;
      forall w | w in vars ensures vars[w] < unused && (OpenAt(w, vars[w]) || ClosedAt(w, vars[w])) {
        assert old(OpenAt(w, vars[w]) || ClosedAt(w, vars[w]));
      }
    }

    /** luaF_findupval (lfunc.c:57-80) */
    method FindUpval(level: nat) returns (u: UpVal)
      requires Valid() && level < stack.Length
      modifies this`openupval, this`open, this`vars, vars.Keys`next
      ensures Valid() && vars == old(vars)[u := slots[level]] && u in open
      ensures (u in old(vars) && vars == old(vars)) || (fresh(u) && u.refcount == 0)
    {
      var prev: UpVal?, p := null, openupval;
      ghost var k := 0;
      hide Complete, Distinct, Holds, Below, OneEach;
      while p != null && p.v.i >= level
        invariant 0 <= k <= |open|
        invariant p == if k < |open| then open[k] else null
        invariant prev == if k > 0 then open[k - 1] else null
        invariant k > 0 ==> open[k - 1].v.i > level
        decreases |open| - k
      {
        if p.v.i == level {
          assert OpenAt(p, vars[p]);
          assert vars == vars[p := slots[level]];
          return p;
        }
        prev, p, k := p, p.next, k + 1;
      }
      u := Insert(level, prev, p, k);
    }

    /** A new upvalue between 'prev' and 'p' (lfunc.c:67-73). */
    method Insert(level: nat, prev: UpVal?, p: UpVal?, ghost k: nat) returns (u: UpVal)
      requires Valid() && level < stack.Length && k <= |open|
      requires p == (if k < |open| then open[k] else null) && prev == (if k > 0 then open[k - 1] else null)
      requires Between(level, k)
      modifies this`openupval, this`open, this`vars, vars.Keys`next
      ensures Valid() && vars == old(vars)[u := slots[level]] && u in open && fresh(u) && u.refcount == 0
    {
      hide Untouched, LinksKept, Valid, ListOK, Sorted, Complete, AllOK, OpenAt, ClosedAt, Distinct, Holds, Below, OneEach, Unnamed, Between, Spliced;
      Before(level, k);
      u := Link(level, prev, p, k);
      OneMore(old(vars), u, slots[level]);
      ListInserted(prev, u, k);
      AllInserted(level, u);
      assert stack[..] == old(stack[..]);
      Together();
    }

    /** The slot is between those of two neighbours in the list. */
    ghost predicate Between(level: nat, k: nat)
      reads this`open, open`v
    {
      && k <= |open|
      && (k > 0 ==> open[k - 1].v.Slot? && open[k - 1].v.i > level)
      && (k < |open| ==> open[k].v.Slot? && open[k].v.i < level)
    }

    /** 'u' is in the list now, behind 'prev'. */
    twostate predicate Spliced(level: nat, k: nat, new prev: UpVal?, new u: UpVal)
      reads this, u, if prev == null then {} else {prev}
    {
      && k <= |old(open)| && open == old(open)[..k] + [u] + old(open)[k..] && vars.Keys == old(vars).Keys + {u}
      && u.v == Slot(stack, level) && u.next == (if k < |old(open)| then old(open)[k] else null)
      && prev == (if k > 0 then old(open)[k - 1] else null)
      && openupval == (if k == 0 then u else old(openupval))
      && (prev != null ==> prev.next == u)
    }

    twostate lemma ListInserted(new prev: UpVal?, new u: UpVal, k: nat)
      requires old(ListOK()) && old(Sorted()) && old(Complete())
      requires u.v.Slot? && var level := u.v.i; Spliced(level, k, prev, u) && old(Between(level, k))
      requires Untouched(old(vars.Keys))
      requires LinksKept(old(vars.Keys), prev)
      ensures ListOK() && Sorted() && Complete()
    {
      LinkInserted(k, prev, u);
      SortInserted(k, u);
      CompleteInserted(k, u);
    }

    lemma Before(level: nat, k: nat)
      requires Valid() && level < stack.Length && k <= |open|
      requires Between(level, k)
      ensures ListOK() && Sorted() && Complete() && AllOK() && |slots| == stack.Length
      ensures Distinct(slots) && Below(slots, unused) && Holds(slots, store, stack[..]) && OneEach(vars)
      ensures slots[level] < unused && Unnamed(vars, slots[level])
      ensures k > 0 ==> open[k - 1] in vars
    {
      NotCaptured(level, k);
    }

    lemma Together()
      requires ListOK() && Sorted() && Complete() && AllOK() && |slots| == stack.Length
      requires Distinct(slots) && Below(slots, unused) && Holds(slots, store, stack[..]) && OneEach(vars)
      ensures Valid()
    {
    }

    method Link(level: nat, prev: UpVal?, p: UpVal?, ghost k: nat) returns (u: UpVal)
      requires k <= |open| && level < |slots|
      requires p == (if k < |open| then open[k] else null) && prev == (if k > 0 then open[k - 1] else null)
      modifies this`openupval, this`open, this`vars, (if prev == null then {} else {prev})`next
      ensures fresh(u) && u.v == Slot(stack, level) && u.refcount == 0 && u in open
      ensures vars == old(vars)[u := slots[level]] && Spliced(level, k, prev, u)
      ensures Untouched(old(vars.Keys))
      ensures LinksKept(old(vars.Keys), prev)
    {
      u := new UpVal(Slot(stack, level), p);
      if prev == null {
        openupval := u;
      } else {
        prev.next := u;
      }
      open := open[..k] + [u] + open[k..];
      vars := vars[u := slots[level]];
    }

    twostate predicate Untouched(us: set<UpVal>)
      reads us
    {
      forall w :: w in us ==> w.v == old(w.v) && w.refcount == old(w.refcount) && w.value == old(w.value)
    }

    twostate predicate LinksKept(us: set<UpVal>, new prev: UpVal?)
      reads us
    {
      forall w :: w in us && w != prev ==> w.next == old(w.next)
    }

    twostate lemma LinkInserted(k: nat, new prev: UpVal?, new u: UpVal)
      requires old(ListOK()) && old(Sorted()) && k <= |old(open)| && open == old(open)[..k] + [u] + old(open)[k..]
      requires vars.Keys == old(vars).Keys + {u}
      requires openupval == if k == 0 then u else old(openupval)
      requires u.next == if k < |old(open)| then old(open)[k] else null
      requires k > 0 ==> old(open)[k - 1].next == u
      requires LinksKept(old(vars.Keys), prev)
      requires prev == if k > 0 then old(open)[k - 1] else null
      ensures ListOK()
    {
    }

    twostate lemma SortInserted(k: nat, new u: UpVal)
      requires old(Sorted()) && k <= |old(open)| && open == old(open)[..k] + [u] + old(open)[k..]
      requires vars.Keys == old(vars).Keys + {u} && u.v.Slot?
      requires Untouched(old(vars.Keys))
      requires (k > 0 ==> old(open)[k - 1].v.i > u.v.i) && (k < |old(open)| ==> old(open)[k].v.i < u.v.i)
      ensures Sorted()
    {
    }

    twostate lemma CompleteInserted(k: nat, new u: UpVal)
      requires old(Complete()) && k <= |old(open)| && open == old(open)[..k] + [u] + old(open)[k..]
      requires vars.Keys == old(vars).Keys + {u}
      requires Untouched(old(vars.Keys))
      ensures Complete()
    {
    }

    twostate lemma AllInserted(level: nat, new u: UpVal)
      requires old(AllOK()) && slots == old(slots) && store == old(store) && stack == old(stack) && unused == old(unused)
      requires Untouched(old(vars.Keys))
      requires u.v == Slot(stack, level) && level < stack.Length == |slots|
      requires vars == old(vars)[u := slots[level]] && slots[level] < unused
      ensures AllOK()
    {
      forall w | w in vars ensures vars[w] < unused && (OpenAt(w, vars[w]) || ClosedAt(w, vars[w])) {
        assert w == u || old(OpenAt(w, vars[w]) || ClosedAt(w, vars[w]));
      }
    }

    /** No upvalue has the slot between two neighbours in the list. */
    lemma NotCaptured(level: nat, k: nat)
      requires Sorted() && Complete() && AllOK() && Distinct(slots) && level < |slots| && k <= |open|
      requires (k > 0 ==> open[k - 1].v.i > level) && (k < |open| ==> open[k].v.i < level)
      ensures forall w :: w in vars ==> vars[w] != slots[level]
    {
      forall w | w in vars ensures vars[w] != slots[level] {
        if w.v.Slot? {
          assert OpenAt(w, vars[w]);
          var j :| 0 <= j < |open| && open[j] == w;
          assert w.v.i != level;
        } else {
          assert ClosedAt(w, vars[w]);
        }
      }
    }

    /** A closure refers to the upvalue (lvm.c:641-646). */
    method Refer(u: UpVal)
      requires Valid() && u in vars
      modifies u`refcount
      ensures Valid() && u.refcount == old(u.refcount) + 1
    {
      hide ListOK, Sorted, Complete, Distinct, Holds, Below, OneEach;
      u.refcount := u.refcount + 1;
      forall w | w in vars ensures vars[w] < unused && (OpenAt(w, vars[w]) || ClosedAt(w, vars[w])) {
        assert old(OpenAt(w, vars[w]) || ClosedAt(w, vars[w]));
      }
    }

    /** luaC_upvdeccount (lgc.c:678-683): upvalues that are closed and no longer used go. */
    method Release(u: UpVal)
      requires Valid() && u in vars && u.refcount > 0
      modifies u`refcount, this`vars
      ensures Valid() && u.refcount == old(u.refcount) - 1
      ensures vars == if u.refcount == 0 && u.v == Own then old(vars) - {u} else old(vars)
    {
      hide Valid, ListOK, Sorted, Complete, AllOK, OpenAt, ClosedAt, Distinct, Holds, Below, OneEach;
      Facts();
      u.refcount := u.refcount - 1;
      if u.refcount == 0 && u.v == Own {
        vars := vars - {u};
      }
      Fewer(old(vars), vars);
      Released(u);
      Together();
    }

    lemma Facts()
      requires Valid()
      ensures ListOK() && Sorted() && Complete() && AllOK() && |slots| == stack.Length
      ensures Distinct(slots) && Below(slots, unused) && Holds(slots, store, stack[..]) && OneEach(vars)
    {
    }

    twostate lemma Released(u: UpVal)
      requires old(ListOK()) && old(Sorted()) && old(Complete()) && old(AllOK())
      requires openupval == old(openupval) && open == old(open) && slots == old(slots) && store == old(store)
      requires stack == old(stack) && unused == old(unused) && u in old(vars)
      requires vars == if u.refcount == 0 && u.v == Own then old(vars) - {u} else old(vars)
      requires u.v == old(u.v) && u.value == old(u.value)
      requires Untouched(old(vars.Keys) - {u})
      requires LinksKept(old(vars.Keys), null)
      ensures ListOK() && Sorted() && Complete() && AllOK()
    {
      if u.v == Own {
        NotListed(u);
      }
      ReleasedOK(u);
      ReleasedLinks(u);
      ReleasedSorted(u);
    }

    twostate lemma ReleasedLinks(u: UpVal)
      requires old(ListOK()) && openupval == old(openupval) && open == old(open)
      requires old(vars).Keys - {u} <= vars.Keys && (u !in vars ==> u !in open)
      requires LinksKept(old(vars.Keys), null)
      ensures ListOK()
    {
    }

    twostate lemma ReleasedSorted(u: UpVal)
      requires old(Sorted()) && old(Complete()) && open == old(open) && u in old(vars)
      requires old(vars).Keys - {u} <= vars.Keys <= old(vars).Keys && (u !in vars ==> u !in open) && u.v == old(u.v)
      requires Untouched(old(vars.Keys) - {u})
      ensures Sorted() && Complete()
    {
    }

    twostate lemma ReleasedOK(u: UpVal)
      requires old(AllOK()) && slots == old(slots) && store == old(store) && stack == old(stack) && unused == old(unused)
      requires u in old(vars) && u.v == old(u.v) && u.value == old(u.value)
      requires vars == if u.refcount == 0 && u.v == Own then old(vars) - {u} else old(vars)
      requires Untouched(old(vars.Keys) - {u})
      ensures AllOK()
    {
      forall w | w in vars ensures vars[w] < unused && (OpenAt(w, vars[w]) || ClosedAt(w, vars[w])) {
        assert old(OpenAt(w, vars[w]) || ClosedAt(w, vars[w]));
      }
    }

    twostate lemma NotListed(u: UpVal)
      requires old(Sorted()) && old(u.v) == Own
      ensures u !in old(open)
    {
    }

    /** One turn of luaF_close (lfunc.c:85-94): the slot becomes a new variable. */
    method CloseFirst()
      requires Valid() && openupval != null
      modifies this, openupval`v, openupval`value
      ensures Valid() && stack == old(stack) && open == old(open)[1..] && unused == old(unused) + 1
      ensures old(openupval.v.i) < |slots| && slots == old(slots)[old(openupval.v.i) := old(unused)]
      ensures store == old(store)[old(unused) := stack[old(openupval.v.i)]]
      ensures vars == if old(openupval.refcount) == 0 then old(vars) - {old(openupval)} else old(vars)
      ensures old(openupval.refcount) > 0 ==> old(openupval).v == Own
    {
      hide Untouched, LinksKept, Valid, ListOK, Sorted, Complete, AllOK, OpenAt, ClosedAt, Distinct, Holds, Below, OneEach;
      Facts();
      FirstFacts();
      NewSlot(slots, store, stack[..], openupval.v.i, unused);
      var uv := Unlink();
      Fewer(old(vars), vars);
      TailListed(uv);
      TailOK(uv);
      assert stack[..] == old(stack[..]);
      Together();
    }

    lemma FirstFacts()
      requires Valid() && openupval != null
      ensures openupval in vars && openupval.v.Slot? && openupval.v.i < |slots| && openupval.v.block == stack
      ensures open != [] && open[0] == openupval && openupval.next == (if |open| > 1 then open[1] else null)
      ensures vars[openupval] == slots[openupval.v.i]
    {
    }

    method Unlink() returns (uv: UpVal)
      requires openupval != null && openupval.v.Slot? && openupval.v.block == stack && openupval.v.i < stack.Length == |slots| && open != []
      modifies this`openupval, this`open, this`vars, this`slots, this`store, this`unused, openupval`v, openupval`value
      ensures uv == old(openupval) && openupval == old(openupval.next) && open == old(open)[1..] && unused == old(unused) + 1
      ensures slots == old(slots)[old(openupval.v.i) := old(unused)]
      ensures store == old(store)[old(unused) := stack[old(openupval.v.i)]]
      ensures vars == if uv.refcount == 0 then old(vars) - {uv} else old(vars)
      ensures uv.refcount > 0 ==> uv.v == Own && uv.value == stack[old(openupval.v.i)]
      ensures Untouched(old(vars.Keys) - {uv})
    {
      uv := openupval;
      ghost var i := uv.v.i;
      openupval := uv.next;
      open := open[1..];
      if uv.refcount == 0 {
        vars := vars - {uv};
      } else {
        uv.value := uv.v.block[uv.v.i];
        uv.v := Own;
      }
      slots := slots[i := unused];
      store := store[unused := stack[i]];
      unused := unused + 1;
    }

    twostate lemma TailListed(uv: UpVal)
      requires old(ListOK()) && old(Sorted()) && old(Complete())
      requires old(open) != [] && uv == old(open)[0] && open == old(open)[1..] && openupval == old(uv.next)
      requires vars.Keys == if uv.refcount == 0 then old(vars).Keys - {uv} else old(vars).Keys
      requires uv.refcount > 0 ==> uv.v == Own
      requires Untouched(old(vars.Keys) - {uv})
      requires LinksKept(old(vars.Keys), null)
      ensures ListOK() && Sorted() && Complete()
    {
      TailLinked(uv);
      TailSorted(uv);
      TailComplete(uv);
    }

    twostate lemma TailLinked(uv: UpVal)
      requires old(ListOK()) && old(Sorted()) && old(open) != []
      requires uv == old(open)[0] && open == old(open)[1..] && openupval == old(uv.next)
      requires old(vars).Keys - {uv} <= vars.Keys
      requires LinksKept(old(vars.Keys), null)
      ensures ListOK()
    {
    }

    twostate lemma TailSorted(uv: UpVal)
      requires old(Sorted()) && old(open) != [] && uv == old(open)[0] && open == old(open)[1..]
      requires old(vars).Keys - {uv} <= vars.Keys
      requires Untouched(old(vars.Keys) - {uv})
      ensures Sorted()
    {
    }

    twostate lemma TailComplete(uv: UpVal)
      requires old(Complete()) && old(open) != [] && uv == old(open)[0] && open == old(open)[1..]
      requires vars.Keys <= old(vars).Keys && (uv in vars ==> uv.v == Own)
      requires Untouched(old(vars.Keys) - {uv})
      ensures Complete()
    {
      assert old(open) == [uv] + open;
    }

    twostate lemma TailOK(uv: UpVal)
      requires old(AllOK()) && old(Sorted()) && old(Complete()) && Distinct(old(slots)) && Below(old(slots), old(unused))
      requires old(OneEach(vars)) && stack == old(stack)
      requires uv in old(vars) && old(uv.v.Slot?) && old(uv.v.i) < |old(slots)|
      requires slots == old(slots)[old(uv.v.i) := old(unused)] && unused == old(unused) + 1
      requires old(uv.v.i) < stack.Length && store == old(store)[old(unused) := stack[old(uv.v.i)]]
      requires vars == if uv.refcount == 0 then old(vars) - {uv} else old(vars)
      requires uv.refcount > 0 ==> uv.v == Own && uv.value == stack[old(uv.v.i)]
      requires Holds(old(slots), old(store), old(stack[..])) && stack[..] == old(stack[..])
      requires Untouched(old(vars.Keys) - {uv})
      ensures AllOK()
    {
      forall w | w in vars ensures vars[w] < unused && (OpenAt(w, vars[w]) || ClosedAt(w, vars[w])) {
        assert old(OpenAt(w, vars[w]) || ClosedAt(w, vars[w]));
        if w != uv && w.v.Slot? {
          assert old(w.v.i) != old(uv.v.i);
        }
      }
    }

    /** luaF_close (lfunc.c:83-96): the variables from 'level' on leave their slots and live
        on in the upvalues that closures refer to. */
    method Close(level: nat)
      requires Valid() && level <= stack.Length
      modifies this, vars.Keys`v, vars.Keys`value
      ensures Valid() && stack == old(stack)
      ensures forall u :: u in vars <==> u in old(vars) && (old(u.v.Slot? && u.v.i >= level) ==> u.refcount > 0)
      ensures forall u :: u in vars ==> vars[u] == old(vars)[u] && (u.v.Slot? ==> u.v.i < level)
      ensures slots[..level] == old(slots)[..level] && forall i :: level <= i < |slots| ==> slots[i] >= old(unused)
      ensures forall x :: x in old(store) && x < old(unused) ==> x in store && store[x] == old(store)[x]
    {
      hide Valid, ListOK, Sorted, Complete, AllOK, OpenAt, ClosedAt, Distinct, Holds, Below, OneEach;
      Facts();
      Head();
      while openupval != null && openupval.v.i >= level
        invariant Valid() && stack == old(stack) && level <= |slots| == |old(slots)|
        invariant vars.Keys <= old(vars.Keys) && old(unused) <= unused
        invariant forall u :: u in vars ==> vars[u] == old(vars)[u]
        invariant forall u :: u in old(vars) && !(u in vars) ==> old(u.v.Slot? && u.v.i >= level) && u.refcount == 0
        invariant forall u :: u in vars ==> u.v == old(u.v) || (u.v == Own && u.refcount > 0)
        invariant openupval != null ==> openupval.v.Slot?
        invariant slots[..level] == old(slots)[..level]
        invariant forall x :: x in old(store) && x < old(unused) ==> x in store && store[x] == old(store)[x]
        decreases |open|
      {
        FirstFacts();
        assert vars[openupval] == old(vars)[openupval];
        CloseFirst();
        Head();
      }
      NoneAbove(level);
      Renew(level);
    }

    lemma Head()
      requires Valid()
      ensures openupval != null ==> openupval.v.Slot?
    {
    }

    lemma NoneAbove(level: nat)
      requires Valid() && (openupval == null || openupval.v.i < level)
      ensures forall u :: u in vars && u.v.Slot? ==> u.v.i < level
    {
      assert open != [] ==> OpenAt(openupval, vars[openupval]);
    }

    ghost method Renew(level: nat)
      requires Valid() && level <= |slots| && forall u :: u in vars && u.v.Slot? ==> u.v.i < level
      modifies this`slots, this`store, this`unused
      ensures Valid() && slots == Renewed(old(slots), level, |old(slots)|, old(unused))
      ensures forall x :: x in old(store) && x < old(unused) ==> x in store && store[x] == old(store)[x]
    {
      hide Valid, ListOK, Sorted, Complete, AllOK, OpenAt, ClosedAt, Distinct, Holds, Below, OneEach;
      Facts();
      RenewedHolds(slots, store, stack[..], level, unused, stack[..]);
      var from, n := unused, |slots|;
      slots := Renewed(slots, level, n, from);
      store := Extended(store, from, stack[..][level..]);
      unused := from + n - level;
      StillOK(level);
      Together();
    }

    /** Slots from 'level' on do not matter to upvalues below. */
    twostate lemma StillOK(level: nat)
      requires old(AllOK()) && vars == old(vars) && stack == old(stack) && level <= |old(slots)| == |slots|
      requires Untouched(vars.Keys)
      requires forall u :: u in vars && u.v.Slot? ==> u.v.i < level
      requires slots[..level] == old(slots)[..level] && forall i :: level <= i < |slots| ==> slots[i] >= old(unused)
      requires unused >= old(unused) && forall x :: x in old(store) && x < old(unused) ==> x in store && store[x] == old(store)[x]
      ensures AllOK()
    {
      forall w | w in vars ensures vars[w] < unused && (OpenAt(w, vars[w]) || ClosedAt(w, vars[w])) {
        assert old(OpenAt(w, vars[w]) || ClosedAt(w, vars[w]));
        if w.v.Slot? {
          assert slots[..level][w.v.i] == old(slots)[..level][w.v.i];
        } else {
          NotAmong(old(slots), slots, level, old(unused), vars[w]);
        }
      }
    }

    /** A new closure (lvm.c:632-646): 'encup' are the upvalues of the function around it. */
    method PushClosure(descs: seq<UpvalDesc>, encup: seq<UpVal>, base: nat) returns (upvals: seq<UpVal>)
      requires Valid() && forall k :: 0 <= k < |encup| ==> encup[k] in vars
      requires forall i :: 0 <= i < |descs| ==> if descs[i].instack then base + descs[i].idx < stack.Length else descs[i].idx < |encup|
      modifies this`openupval, this`open, this`vars, vars.Keys`next, vars.Keys`refcount
      ensures Valid() && Kept(old(vars)) && |upvals| == |descs|
      ensures forall i :: 0 <= i < |descs| ==> Captures(descs[i], encup, base, upvals[i])
    {
      hide Valid, ListOK, Sorted, Complete, AllOK, Distinct, Holds, Below, OneEach;
      Facts();
      upvals := [];
      for k := 0 to |descs|
        invariant Valid()
        invariant Kept(old(vars))
        invariant |upvals| == k
        invariant forall u :: u in vars && !(u in old(vars)) ==> fresh(u)
        invariant forall i :: 0 <= i < k ==> Captures(descs[i], encup, base, upvals[i])
      {
        var u;
        label L:
        if descs[k].instack {
          u := FindUpval(base + descs[k].idx);
        } else {
          u := encup[descs[k].idx];
        }
        assert Kept(old@L(vars));
        forall i | 0 <= i < k ensures Captures(descs[i], encup, base, upvals[i]) {
          assert old@L(Captures(descs[i], encup, base, upvals[i]));
        }
        Refer(u);
        upvals := upvals + [u];
      }
    }

    ghost predicate Kept(before: map<UpVal, nat>)
      reads this`vars
    {
      forall u :: u in before ==> u in vars && vars[u] == before[u]
    }

    /** 'u' stands for the variable that 'd' describes. */
    ghost predicate Captures(d: UpvalDesc, encup: seq<UpVal>, base: nat, u: UpVal)
      reads this`vars, this`slots
    {
      && u in vars
      && if d.instack then base + d.idx < |slots| && vars[u] == slots[base + d.idx]
         else d.idx < |encup| && encup[d.idx] in vars && vars[u] == vars[encup[d.idx]]
    }

    /** luaD_reallocstack (ldo.c:177-188): no open upvalue loses its slot. */
    method ReallocStack(newsize: nat)
      requires Valid() && forall u :: u in vars && u.v.Slot? ==> u.v.i < newsize
      modifies this`stack, this`slots, this`store, this`unused, vars.Keys`v
      ensures Valid() && fresh(stack) && stack.Length == newsize
      ensures stack[..] == Resized(old(stack[..]), newsize)
      ensures var kept := if newsize <= |old(slots)| then newsize else |old(slots)|;
              slots == Renewed(old(slots), kept, newsize, old(unused))
      ensures forall x :: x in old(store) && x < old(unused) ==> x in store && store[x] == old(store)[x]
    {
      hide Valid, ListOK, Sorted, Complete, AllOK, OpenAt, ClosedAt, Distinct, Holds, Below, OneEach, Resized, Relocated, LinksKept;
      Facts();
      SlotsInside();
      ghost var kept, contents := if newsize <= stack.Length then newsize else stack.Length, Resized(stack[..], newsize);
      ResizedIs(stack[..], newsize, kept);
      RenewedHolds(slots, store, stack[..], kept, unused, contents);
      Move(newsize, kept);
      Moved(kept);
      Together();
    }

    method Move(newsize: nat, ghost kept: nat)
      requires ListOK() && Sorted() && Complete() && kept <= |slots| && kept <= newsize == |Resized(stack[..], newsize)|
      modifies this`stack, this`slots, this`store, this`unused, vars.Keys`v
      ensures fresh(stack) && stack.Length == newsize && stack[..] == Resized(old(stack[..]), newsize)
      ensures slots == Renewed(old(slots), kept, newsize, old(unused)) && unused == old(unused) + newsize - kept
      ensures store == Extended(old(store), old(unused), Resized(old(stack[..]), newsize)[kept..])
      ensures Relocated(vars.Keys)
      ensures LinksKept(vars.Keys, null)
    {
      hide ListOK, Sorted, Complete, Resized, Extended, Renewed;
      var block := Grown(stack, newsize);
      stack := block;
      CorrectStack();
      store := Extended(store, unused, block[..][kept..]);
      slots := Renewed(slots, kept, newsize, unused);
      unused := unused + newsize - kept;
    }

    /** Pointers into the stack point to the same slot of the new one. */
    twostate predicate Relocated(us: set<UpVal>)
      reads this`stack, us
    {
      forall u :: u in us ==>
        u.v == (if old(u.v.Slot?) then Slot(stack, old(u.v.i)) else old(u.v)) && u.refcount == old(u.refcount) && u.value == old(u.value)
    }

    lemma SlotsInside()
      requires AllOK() && |slots| == stack.Length
      ensures forall u :: u in vars && u.v.Slot? ==> u.v.i < stack.Length
    {
    }

    /** luaM_reallocvector, and the loop that erases the new segment (ldo.c:181-183). */
    method Grown(stack: array<Value>, newsize: nat) returns (block: array<Value>)
      ensures fresh(block) && block.Length == newsize && block[..] == Resized(stack[..], newsize)
    {
      block := new Value[newsize];
      var lim := if newsize <= stack.Length then newsize else stack.Length;
      for i := 0 to lim
        invariant block[..i] == stack[..i]
        modifies block
      {
        block[i] := stack[i];
      }
      for i := lim to newsize
        invariant block[..i] == stack[..lim] + Nils(i - lim)
        modifies block
      {
        block[i] := Nil;
        assert block[..i + 1] == block[..i] + [Nil];
        assert Nils(i + 1 - lim) == Nils(i - lim) + [Nil];
      }
      assert block[..] == block[..newsize];
      assert stack[..] == stack[..stack.Length];
    }

    /** correctstack (ldo.c:158-170): pointers into the old stack move to the new one. */
    method CorrectStack()
      requires ListOK() && Sorted() && Complete()
      modifies vars.Keys`v
      ensures Relocated(vars.Keys)
    {
      hide ListOK, Sorted, Complete, NextIn, Relocated;
      var up := openupval;
      ghost var k := 0;
      ghost var us := open;
      ListFacts();
      while up != null
        invariant 0 <= k <= |us| && up == if k < |us| then us[k] else null
        invariant forall j :: 0 <= j < k ==> us[j].v == Slot(stack, old(us[j].v.i))
        invariant forall j :: k <= j < |us| ==> us[j].v == old(us[j].v)
        invariant forall u :: u in vars && !(u in us) ==> u.v == old(u.v)
        decreases |us| - k
      {
        NextAt(us, k);
        up.v := Slot(stack, up.v.i);
        up, k := up.next, k + 1;
      }
      AllMoved(us);
    }

    lemma ListFacts()
      requires ListOK() && Sorted() && Complete()
      ensures openupval == if open == [] then null else open[0]
      ensures forall k :: 0 <= k < |open| ==> open[k] in vars && open[k].v.Slot?
      ensures forall k :: 0 <= k < |open| ==> open[k].next == NextIn(open, k)
      ensures forall j, k :: 0 <= j < k < |open| ==> open[j] != open[k]
    {
    }

    twostate lemma AllMoved(us: seq<UpVal>)
      requires old(Complete()) && us == old(open) && vars == old(vars)
      requires forall j :: 0 <= j < |us| ==> us[j] in vars && old(us[j].v.Slot?) && us[j].v == Slot(stack, old(us[j].v.i))
      requires forall u :: u in vars && !(u in us) ==> u.v == old(u.v)
      requires forall u :: u in vars ==> u.refcount == old(u.refcount) && u.value == old(u.value)
      ensures Relocated(vars.Keys)
    {
    }

    twostate lemma Moved(kept: nat)
      requires old(ListOK()) && old(Sorted()) && old(Complete()) && old(AllOK())
      requires vars == old(vars) && open == old(open) && openupval == old(openupval)
      requires LinksKept(vars.Keys, null)
      requires Relocated(vars.Keys)
      requires kept <= |slots| == stack.Length && kept <= |old(slots)|
      requires forall u :: u in vars && old(u.v.Slot?) ==> old(u.v.i) < kept
      requires slots[..kept] == old(slots)[..kept] && forall i :: kept <= i < |slots| ==> slots[i] >= old(unused)
      requires unused >= old(unused) && forall x :: x in old(store) && x < old(unused) ==> x in store && store[x] == old(store)[x]
      ensures ListOK() && Sorted() && Complete() && AllOK()
    {
      MovedLinks();
      MovedSorted();
      MovedOK(kept);
    }

    twostate lemma MovedLinks()
      requires old(ListOK()) && vars == old(vars) && open == old(open) && openupval == old(openupval)
      requires LinksKept(vars.Keys, null)
      ensures ListOK()
    {
    }

    twostate lemma MovedSorted()
      requires old(Sorted()) && old(Complete()) && vars == old(vars) && open == old(open)
      requires Relocated(vars.Keys)
      ensures Sorted() && Complete()
    {
    }

    twostate lemma MovedOK(kept: nat)
      requires old(AllOK()) && vars == old(vars)
      requires Relocated(vars.Keys)
      requires kept <= |slots| == stack.Length && kept <= |old(slots)|
      requires forall u :: u in vars && old(u.v.Slot?) ==> old(u.v.i) < kept
      requires slots[..kept] == old(slots)[..kept] && forall i :: kept <= i < |slots| ==> slots[i] >= old(unused)
      requires unused >= old(unused) && forall x :: x in old(store) && x < old(unused) ==> x in store && store[x] == old(store)[x]
      ensures AllOK()
    {
      forall w | w in vars ensures vars[w] < unused && (OpenAt(w, vars[w]) || ClosedAt(w, vars[w])) {
        assert old(OpenAt(w, vars[w]) || ClosedAt(w, vars[w]));
        if w.v.Slot? {
          assert slots[..kept][w.v.i] == old(slots)[..kept][w.v.i];
        } else {
          NotAmong(old(slots), slots, kept, old(unused), vars[w]);
        }
      }
    }
  }

  lemma NotAmong(slots: seq<nat>, slots': seq<nat>, level: nat, from: nat, x: nat)
    requires level <= |slots| && level <= |slots'| && slots'[..level] == slots[..level] && x !in slots && x < from
    requires forall i :: level <= i < |slots'| ==> slots'[i] >= from
    ensures x !in slots'
  {
    forall i | 0 <= i < |slots'| ensures slots'[i] != x {
      if i < level {
        assert slots'[..level][i] == slots[..level][i];
      }
    }
  }

  lemma Fewer(vars: map<UpVal, nat>, vars': map<UpVal, nat>)
    requires OneEach(vars) && forall u :: u in vars' ==> u in vars && vars'[u] == vars[u]
    ensures OneEach(vars')
  {
  }

  lemma NewSlot(slots: seq<nat>, store: map<nat, Value>, contents: seq<Value>, i: nat, x: nat)
    requires Distinct(slots) && Below(slots, x) && Holds(slots, store, contents) && i < |slots|
    ensures Distinct(slots[i := x]) && Below(slots[i := x], x + 1) && Holds(slots[i := x], store[x := contents[i]], contents)
  {
  }

  /** No upvalue stands for the variable. */
  ghost predicate Unnamed(vars: map<UpVal, nat>, x: nat) {
    forall w :: w in vars ==> vars[w] != x
  }

  lemma OneMore(vars: map<UpVal, nat>, u: UpVal, x: nat)
    requires OneEach(vars) && Unnamed(vars, x)
    ensures OneEach(vars[u := x])
  {
  }
}
