/** Lua tables (apps/lua/ltable.c): an array part and a chained scatter table, which
    together mean one map. */
module LuaTable {
  import opened TableChains
  import opened TableSizes
  import opened TableCount
  import opened TableSpec

  datatype Error = IndexIsNil | IndexIsNaN | TableOverflow

  /** A place for a value: what luaH_get and luaH_set return. 'Absent' is luaO_nilobject. */
  datatype Slot = Absent | ArraySlot(i: nat) | NodeSlot(i: nat)

  datatype Outcome = Done(slot: Slot) | Failed(error: Error)

  class Table {
    var arr: array<Val>
    var node: array<Node>
    /** The common dummy node stands for an empty hash part. */
    var dummy: bool
    /** Any free node is before this one. */
    var lastfree: nat
    const hash: Hash
    /** The nodes in use, chain by chain. */
    ghost var ord: seq<nat>

    ghost predicate Structure()
      reads this, arr, node
    {
      && arr.Length <= MAXASIZE && node.Length > 0
      && Hashed(hash, node[..], ord)
      && KeysOK(node[..], arr.Length)
      && lastfree <= node.Length
      && (dummy ==> node.Length == 1 && ord == [])
    }

    ghost predicate Valid()
      reads this, arr, node
    {
      Structure() && (!dummy ==> NoneFree(node[..], lastfree))
    }

    /** The value of a key. */
    ghost function At(k: Val): Val
      reads this, arr, node
    {
      Lookup(arr[..], node[..], Norm(k))
    }

    /** The abstract map. */
    ghost function Map(): map<Val, Val>
      reads this, arr, node
    {
      Contents(arr[..], node[..])
    }

    /** The place of the key 'k'. */
    ghost predicate Addresses(slot: Slot, k: Val)
      reads this, arr, node
    {
      match slot
      case Absent => !InArray(k, arr.Length) && (k == Nil || !HasKey(node[..], k))
      case ArraySlot(i) => InArray(k, arr.Length) && i == k.i - 1
      case NodeSlot(i) => !InArray(k, arr.Length) && k != Nil && i < node.Length && node[i].key == k
    }

    /** There is a free node. */
    ghost predicate Room()
      reads this, arr, node
    {
      !dummy && |ord| < node.Length
    }

    function MainPosition(k: Val): (p: nat)
      requires node.Length > 0
      reads this, node
      ensures p < node.Length
    {
      Main(hash, k, node.Length)
    }

    // ---------- searching (ltable.c:516-603) ----------

    /** The loop of getgeneric, and of the searches for strings and integers. */
    method GetGeneric(k: Val) returns (slot: Slot)
      requires Valid() && k != Nil && !InArray(k, arr.Length)
      ensures Addresses(slot, k) && !slot.ArraySlot?
    {
      hide Hashed, Chained, Ahead, HasKey, KeysOK;
      var n := MainPosition(k);
      ghost var ns := node[..];
      ghost var q: nat;
      if node[n].key == Nil {
        FreeMain(hash, ns, ord, k);
        return Absent;
      }
      q := StartSearch(hash, ns, ord, k);
      while true
        invariant Chained(ns, ord) && ns == node[..]
        invariant q < |ord| && n == ord[q] < node.Length && Ahead(ns, ord, k, q)
        decreases |ord| - q
      {
        if node[n].key == k {
          return NodeSlot(n);
        }
        var nx := node[n].next;
        if nx == 0 {
          EndOfChain(ns, ord, k, q);
          return Absent;
        }
        LinkAt(ns, ord, q);
        NextAhead(ns, ord, k, q);
        NodeIn(ns, ord, q + 1);
        n := n + nx;
        q := q + 1;
      }
    }

    /** luaH_getint (ltable.c:516-533) */
    method GetInt(i: int) returns (slot: Slot)
      requires Valid()
      ensures Addresses(slot, Int(i))
    {
      if 1 <= i <= arr.Length {
        return ArraySlot(i - 1);
      }
      slot := GetGeneric(Int(i));
    }

    /** luaH_get (ltable.c:589-603) */
    method Get(k: Val) returns (slot: Slot)
      requires Valid()
      ensures Addresses(slot, Norm(k))
    {
      match k {
        case Int(i) => slot := GetInt(i);
        case Nil => slot := Absent;
        case Flt(r) =>
          if Integral(r) {
            slot := GetInt(r.Floor);
          } else {
            slot := GetGeneric(k);
          }
        case NaN => slot := GetGeneric(k);
        case Obj(_) => slot := GetGeneric(k);
      }
    }

    /** luaH_set (ltable.c:610-615) */
    method Set(key: Val, ghost room: bool) returns (r: Outcome)
      requires Valid() && (room ==> (InArray(Norm(key), arr.Length) || Room()) && key != Nil && key != NaN)
      modifies this, arr, node
      ensures Valid() && Kept() && Same(old(arr[..]), old(node[..]))
      ensures r.Failed? ==> (r.error == IndexIsNil <==> key == Nil) && (r.error == IndexIsNaN <==> key == NaN)
      ensures r == Failed(TableOverflow) ==> Overflows(old(LiveKeys(arr[..], node[..])) + {Norm(key)})
      ensures r.Done? ==> Addresses(r.slot, Norm(key)) && r.slot != Absent && key != Nil && key != NaN
      ensures room ==> r.Done? && arr == old(arr) && node == old(node) && dummy == old(dummy) && arr[..] == old(arr[..])
      ensures room ==> |ord| <= old(|ord|) + (if InArray(Norm(key), arr.Length) then 0 else 1)
      decreases if room then 0 else 1, 3
    {
      hide Hashed, KeysOK, ValueOf, HasKey;
      NormIdem(key);
      var p := Get(key);
      if p != Absent {
        SlotKey(p, Norm(key));
        r := Done(p);
      } else {
        r := NewKey(key, room);
      }
    }

    lemma SlotKey(p: Slot, k: Val)
      requires Valid() && Addresses(p, k) && p != Absent
      ensures k != Nil && k != NaN
    {
      assert p.NodeSlot? ==> KeyOK(node[p.i].key, arr.Length);
    }

    /** setobj2t: the value goes to its place. */
    method Store(slot: Slot, ghost k: Val, v: Val)
      requires Valid() && Addresses(slot, k) && slot != Absent
      modifies arr, node
      ensures Valid()
      ensures forall x :: x != Nil ==>
                Lookup(arr[..], node[..], x) == if x == k then v else Lookup(old(arr[..]), old(node[..]), x)
    {
      hide Hashed, KeysOK;
      ghost var a, ns := arr[..], node[..];
      match slot {
        case ArraySlot(i) =>
          arr[i] := v;
          assert arr[..] == a[i := v];
        case NodeSlot(i) =>
          StoreAll(hash, ns, ord, i, v, arr.Length);
          node[i] := node[i].(val := v);
          assert node[..] == WithValue(ns, i, v);
      }
    }

    /** An assignment t[key] = v. */
    method SetValue(key: Val, v: Val, ghost room: bool) returns (r: Outcome)
      requires Valid() && (room ==> (InArray(Norm(key), arr.Length) || Room()) && key != Nil && key != NaN)
      modifies this, arr, node
      ensures Valid() && Kept()
      ensures r.Failed? ==> (r.error == IndexIsNil <==> key == Nil) && (r.error == IndexIsNaN <==> key == NaN)
      ensures r == Failed(TableOverflow) ==> Overflows(old(LiveKeys(arr[..], node[..])) + {Norm(key)})
      ensures r.Failed? ==> Same(old(arr[..]), old(node[..]))
      ensures r.Done? ==> key != Nil && key != NaN && forall x :: x != Nil ==>
                Lookup(arr[..], node[..], x) == if x == Norm(key) then v else Lookup(old(arr[..]), old(node[..]), x)
      ensures room ==> r.Done? && arr == old(arr) && node == old(node) && dummy == old(dummy)
      ensures room ==> |ord| <= old(|ord|) + (if InArray(Norm(key), arr.Length) then 0 else 1)
      decreases if room then 0 else 1, 4
    {
      hide Structure, NoneFree, ValueOf, HasKey;
      r := Set(key, room);
      if r.Done? {
        Store(r.slot, Norm(key), v);
      }
    }

    /** What is stored under a key is what reading its place gives. */
    method Read(k: Val) returns (v: Val)
      requires Valid()
      ensures v == if k == Nil then Nil else At(k)
    {
      var slot := Get(k);
      match slot {
        case Absent => v := Nil;
        case ArraySlot(i) => v := arr[i];
        case NodeSlot(i) =>
          ValueAt(node[..], i);
          v := node[i].val;
      }
    }

    // ---------- inserting (ltable.c:441-510) ----------

    /** getfreepos (ltable.c:441-450): -1 only if every node holds a key. */
    method GetFreePos() returns (f: int)
      requires Valid()
      modifies this`lastfree
      ensures Structure()
      ensures if f < 0 then Valid() && (dummy || |ord| == node.Length)
              else !dummy && f < node.Length && node[f].key == Nil && f == lastfree && NoneFree(node[..], f + 1)
    {
      hide Hashed, KeysOK;
      if !dummy {
        while lastfree > 0
          invariant lastfree <= node.Length && NoneFree(node[..], lastfree)
        {
          lastfree := lastfree - 1;
          if node[lastfree].key == Nil {
            return lastfree;
          }
        }
        NoFreeNode(hash, node[..], ord);
      }
      f := -1;
    }

    /** The new key takes over its main position (ltable.c:506). */
    method TakeMain(mp: nat, k: Val)
      requires Valid() && NewKeyOK(k) && mp == MainPosition(k) && node[mp].val == Nil && !dummy
      modifies node, this`ord
      ensures Structure() && (forall i :: lastfree <= i < node.Length ==> node[i].key != Nil)
      ensures node[mp].key == k && node[mp].val == Nil && |ord| <= old(|ord|) + 1
      ensures forall x :: x != Nil ==> ValueOf(node[..], x) == ValueOf(old(node[..]), x)
    {
      hide Chained, Housed;
      ghost var ns := node[..];
      if node[mp].key == Nil {
        ReuseFree(hash, ns, ord, mp, k);
        ord := ord + [mp];
      } else {
        ReuseDead(hash, ns, ord, mp, k);
      }
      node[mp] := node[mp].(key := k);
      assert node[..] == Reuse(ns, mp, k);
      forall x | x != Nil ensures ValueOf(node[..], x) == ValueOf(ns, x) {
        ReuseValues(ns, mp, k, x);
      }
    }

    /** A key that is not in the table, and fit to be. */
    ghost predicate NewKeyOK(k: Val)
      reads this, arr, node
    {
      k != Nil && KeyOK(k, arr.Length) && !HasKey(node[..], k)
    }

    /** The colliding node stays: the new key goes to 'f' (ltable.c:497-503). */
    method ChainFree(mp: nat, f: nat, k: Val)
      requires Structure() && NewKeyOK(k) && mp == MainPosition(k) && node[mp].key != Nil
      requires mp == MainPosition(node[mp].key) && f < node.Length && node[f].key == Nil
      modifies node, this`ord
      ensures Structure() && (forall i :: 0 <= i < node.Length && i != f ==> (node[i].key == Nil <==> old(node[i].key) == Nil))
      ensures node[f].key == k && node[f].val == Nil && |ord| == old(|ord|) + 1
      ensures forall x :: x != Nil ==> ValueOf(node[..], x) == ValueOf(old(node[..]), x)
    {
      hide Hashed, KeysOK, ValueOf, HasKey;
      ghost var ns := node[..];
      ghost var q := FindUsed(hash, ns, ord, mp);
      ChainAll(hash, ns, ord, q, f, k, arr.Length);
      if node[mp].next != 0 {
        node[f] := node[f].(next := mp + node[mp].next - f);
      }
      node[mp] := node[mp].(next := f - mp);
      node[f] := node[f].(key := k);
      assert node[..] == Chain(ns, mp, f, k);
      ord := Insert(ord, q, f);
    }

    /** The node before 'mp' in its chain (ltable.c:487-488). */
    method FindPrevious(mp: nat) returns (othern: nat, ghost q: nat)
      requires Structure() && mp < node.Length && node[mp].key != Nil && MainPosition(node[mp].key) != mp
      ensures 0 < q < |ord| && ord[q] == mp && othern == ord[q - 1] < node.Length && node[othern].next != 0
    {
      hide Chained, Housed, HomeAt, Distinct, KeysOK;
      ghost var ns := node[..];
      q := PlaceOf(ns, ord, mp);
      ghost var m := Home(hash, ns, ord, q);
      HomeLeads(hash, ns, ord, m, q);
      othern := MainPosition(node[mp].key);
      ghost var p := m;
      LeadsOn(ns, ord, p, q);
      while othern + node[othern].next != mp
        invariant m <= p < q && othern == ord[p] < node.Length && node[othern].next != 0
        invariant p + 1 <= q && othern + node[othern].next == ord[p + 1]
        decreases q - p
      {
        Apart(ns, ord, p + 1, q);
        NodeIn(ns, ord, p + 1);
        LeadsFurther(ns, ord, m, p + 1, q);
        othern := othern + node[othern].next;
        p := p + 1;
      }
      Apart(ns, ord, p + 1, q);
    }

    /** The colliding node moves to 'f' (ltable.c:484-496). */
    method MoveColliding(mp: nat, f: nat, k: Val)
      requires Structure() && NewKeyOK(k) && mp == MainPosition(k) && node[mp].key != Nil
      requires mp != MainPosition(node[mp].key) && f < node.Length && node[f].key == Nil
      modifies node, this`ord
      ensures Structure() && (forall i :: 0 <= i < node.Length && i != f ==> (node[i].key == Nil <==> old(node[i].key) == Nil))
      ensures node[f].key != Nil
      ensures node[mp].key == k && node[mp].val == Nil && |ord| == old(|ord|) + 1
      ensures forall x :: x != Nil ==> ValueOf(node[..], x) == ValueOf(old(node[..]), x)
    {
      hide Hashed, KeysOK, ValueOf, HasKey;
      ghost var ns := node[..];
      var othern, q := FindPrevious(mp);
      MoveAll(hash, ns, ord, q, f, k, arr.Length);
      node[othern] := node[othern].(next := f - othern);
      node[f] := node[mp];
      if node[mp].next != 0 {
        node[f] := node[f].(next := node[f].next + (mp - f));
        node[mp] := node[mp].(next := 0);
      }
      node[mp] := node[mp].(val := Nil);
      node[mp] := node[mp].(key := k);
      assert node[..] == Move(ns, othern, mp, f, k);
      ord := Replace(ord, q, f);
    }

    /** What an operation on the table may replace. */
    twostate predicate Kept()
      reads this
    {
      (arr == old(arr) || fresh(arr)) && (node == old(node) || fresh(node))
    }

    /** Every key has the value it had. */
    ghost predicate Same(a: seq<Val>, ns: seq<Node>)
      reads this, arr, node
    {
      forall x :: x != Nil ==> Lookup(arr[..], node[..], x) == Lookup(a, ns, x)
    }

    /** luaH_newkey (ltable.c:461-510). With 'room' there is a free node, or the key goes
        to the array part: then nothing is reallocated. */
    method NewKey(key: Val, ghost room: bool) returns (r: Outcome)
      requires Valid() && Addresses(Absent, Norm(key)) && (room ==> Room() && key != Nil && key != NaN)
      modifies this, arr, node
      ensures Valid() && Kept() && Same(old(arr[..]), old(node[..]))
      ensures r.Failed? ==> (r.error == IndexIsNil <==> key == Nil) && (r.error == IndexIsNaN <==> key == NaN)
      ensures r == Failed(TableOverflow) ==> Overflows(old(LiveKeys(arr[..], node[..])) + {Norm(key)})
      ensures r.Done? ==> Addresses(r.slot, Norm(key)) && r.slot != Absent && key != Nil && key != NaN
      ensures room ==> r.Done? && arr == old(arr) && node == old(node) && !dummy && |ord| <= old(|ord|) + 1 && arr[..] == old(arr[..])
      decreases if room then 0 else 1, 2
    {
      hide Hashed, KeysOK, ValueOf, HasKey;
      if key == Nil {
        return Failed(IndexIsNil);
      } else if key == NaN {
        return Failed(IndexIsNaN);
      }
      var k := Norm(key);
      NormIdem(key);
      var mp := MainPosition(k);
      if node[mp].val != Nil || dummy {
        var f := GetFreePos();
        if f < 0 {
          var done := Rehash(k);
          if !done {
            return Failed(TableOverflow);
          }
          r := Set(k, true);
        } else {
          ValueHasKey(hash, node[..], ord, mp);
          var othern := MainPosition(node[mp].key);
          if othern != mp {
            MoveColliding(mp, f, k);
            r := Done(NodeSlot(mp));
          } else {
            ChainFree(mp, f, k);
            r := Done(NodeSlot(f));
          }
        }
      } else {
        TakeMain(mp, k);
        r := Done(NodeSlot(mp));
      }
    }

    // ---------- rehashing (ltable.c:301-412) ----------

    /** luaM_reallocvector, with setarrayvector's nils (ltable.c:301-307). */
    method SetArrayVector(size: nat)
      requires size <= MAXASIZE
      modifies this`arr
      ensures fresh(arr) && arr.Length == size
      ensures forall i :: 0 <= i < size ==> arr[i] == if i < old(arr.Length) then old(arr[i]) else Nil
    {
      var a := new Val[size](_ => Nil);
      var i := 0;
      while i < size && i < arr.Length
        invariant i <= size && i <= arr.Length && a.Length == size
        invariant forall j :: 0 <= j < size ==> a[j] == if j < i then arr[j] else Nil
        invariant arr == old(arr) && arr[..] == old(arr[..])
      {
        a[i] := arr[i];
        i := i + 1;
      }
      arr := a;
    }

    /** setnodevector (ltable.c:310-332): false when the hash part would be too big. */
    method SetNodeVector(size: nat) returns (ok: bool)
      modifies this`node, this`dummy, this`lastfree, this`ord
      ensures !ok ==> node == old(node) && dummy == old(dummy) && lastfree == old(lastfree) && ord == old(ord)
      ensures !ok ==> size > 0 && TooMany(size)
      ensures ok ==> fresh(node) && node.Length >= 1 && node.Length >= size && ord == [] && dummy == (size == 0)
      ensures ok ==> lastfree <= node.Length && (dummy ==> node.Length == 1)
      ensures ok ==> forall i :: 0 <= i < node.Length ==> node[i] == Node(Nil, Nil, 0)
      ensures ok && !dummy ==> lastfree == node.Length
    {
      if size == 0 {
        node := new Node[1](_ => Node(Nil, Nil, 0));
        dummy, lastfree, ord := true, 0, [];
      } else {
        var lsize := CeilLog2(size);
        if lsize > MAXHBITS {
          assert CeilLog(size, lsize);
          return false;
        }
        node := new Node[Pow2(lsize)](_ => Node(Nil, Nil, 0));
        dummy, lastfree, ord := false, Pow2(lsize), [];
      }
      ok := true;
    }

    /** Of the table (a0, n0), the keys of 'P', and those that the array part kept, are in
        this table again; there are nodes for the others. */
    ghost predicate Refilling(a0: seq<Val>, n0: seq<Node>, P: set<Val>, nhsize: nat)
      reads this, arr, node
    {
      && Valid() && WasTable(a0, n0) && P <= LiveKeys(a0, n0)
      && (forall x :: x != Nil ==>
            Lookup(arr[..], node[..], x) == if InArray(x, Least(arr.Length, |a0|)) || x in P then Lookup(a0, n0, x) else Nil)
      && |ord| <= |Outside(P, arr.Length)|
      && |Outside(LiveKeys(a0, n0), arr.Length)| <= nhsize <= node.Length && dummy == (nhsize == 0)
    }

    /** One key is inserted again: there is room for it. */
    method Refill(k: Val, v: Val, ghost a0: seq<Val>, ghost n0: seq<Node>, ghost P: set<Val>, ghost nhsize: nat)
      requires Refilling(a0, n0, P, nhsize) && k in LiveKeys(a0, n0) && k !in P && v == Lookup(a0, n0, k)
      modifies this, arr, node
      ensures Refilling(a0, n0, P + {k}, nhsize) && arr == old(arr) && node == old(node)
      decreases 0, 9
    {
      hide Hashed, KeysOK, ValueOf, LiveKeys, NoneFree, WasTable;
      LiveKeyOK(a0, n0, k);
      OutsideStep(P, LiveKeys(a0, n0), k, arr.Length);
      var r := SetValue(k, v, true);
    }

    /** The vanishing slice of the array part (ltable.c:363-372). */
    method RefillArray(olda: array<Val>, ghost a0: seq<Val>, ghost n0: seq<Node>, ghost none: set<Val>, ghost nhsize: nat)
      returns (ghost P: set<Val>)
      requires none == {} && WasTable(a0, n0) && Refilling(a0, n0, none, nhsize) && olda != arr && olda[..] == a0
      modifies this, arr, node
      ensures Refilling(a0, n0, P, nhsize) && arr == old(arr) && node == old(node)
      ensures forall k :: k in P ==> InArray(k, |a0|)
      ensures forall k :: k in LiveKeys(a0, n0) && InArray(k, |a0|) && !InArray(k, arr.Length) ==> k in P
      decreases 0, 10
    {
      hide Refilling, LiveKeys, Lookup;
      P := none;
      var i := arr.Length;
      while i < olda.Length
        invariant i >= arr.Length && olda[..] == a0
        invariant Refilling(a0, n0, P, nhsize) && arr == old(arr) && node == old(node)
        invariant forall k :: k in P ==> InArray(k, i) && InArray(k, |a0|)
        invariant forall k :: k in LiveKeys(a0, n0) && InArray(k, i) && InArray(k, |a0|) && !InArray(k, arr.Length) ==> k in P
      {
        if olda[i] != Nil {
          ArrayLive(a0, n0, i);
          Refill(Int(i + 1), olda[i], a0, n0, P, nhsize);
          P := P + {Int(i + 1)};
        } else {
          ArrayDead(a0, n0, i);
        }
        i := i + 1;
      }
    }

    /** The old nodes, from the last to the first (ltable.c:373-381). */
    method RefillNodes(nold: array<Node>, ghost a0: seq<Val>, ghost n0: seq<Node>, ghost P0: set<Val>, ghost nhsize: nat)
      requires WasTable(a0, n0) && Refilling(a0, n0, P0, nhsize) && nold != node && nold[..] == n0
      requires forall k :: k in P0 ==> InArray(k, |a0|)
      requires forall k :: k in LiveKeys(a0, n0) && InArray(k, |a0|) && !InArray(k, arr.Length) ==> k in P0
      modifies this, arr, node
      ensures Refilling(a0, n0, LiveKeys(a0, n0), nhsize) && arr == old(arr) && node == old(node)
      decreases 0, 10
    {
      hide Refilling, LiveKeys, Lookup;
      ghost var P := P0;
      var j := nold.Length;
      while j > 0
        invariant 0 <= j <= nold.Length && nold[..] == n0
        invariant Refilling(a0, n0, P, nhsize) && arr == old(arr) && node == old(node)
        invariant P == P0 + NodeKeys(n0, j)
      {
        j := j - 1;
        var previous := nold[j];
        if previous.val != Nil {
          NodeLive(a0, n0, P0, j);
          Refill(previous.key, previous.val, a0, n0, P, nhsize);
          P := P + {previous.key};
        } else {
          NodeKeysSkip(n0, j);
        }
      }
      Finish(a0, n0, P0, P, nhsize);
    }

    /** Nothing has been inserted yet. */
    lemma EmptyTable(a0: seq<Val>, n0: seq<Node>, P: set<Val>, nhsize: nat)
      requires P == {} && WasTable(a0, n0) && arr.Length <= MAXASIZE && node.Length >= 1 && ord == []
      requires lastfree <= node.Length && (dummy ==> node.Length == 1) && (!dummy ==> lastfree == node.Length)
      requires forall i :: 0 <= i < node.Length ==> node[i] == Node(Nil, Nil, 0)
      requires forall i :: 0 <= i < arr.Length ==> arr[i] == if i < |a0| then a0[i] else Nil
      requires |Outside(LiveKeys(a0, n0), arr.Length)| <= nhsize <= node.Length && dummy == (nhsize == 0)
      ensures Refilling(a0, n0, P, nhsize)
    {
      hide Hashed, LiveKeys, ValueOf, KeysOK;
      NoNodes(hash, node[..], arr.Length);
    }

    /** Everything has been inserted again. */
    lemma AllLiveSame(a0: seq<Val>, n0: seq<Node>, nhsize: nat)
      requires Refilling(a0, n0, LiveKeys(a0, n0), nhsize)
      ensures Same(a0, n0)
    {
      hide Hashed, LiveKeys;
      forall x | x != Nil ensures Lookup(arr[..], node[..], x) == Lookup(a0, n0, x) {
        LiveIff(a0, n0, x);
      }
    }

    lemma Finish(a0: seq<Val>, n0: seq<Node>, P0: set<Val>, P: set<Val>, nhsize: nat)
      requires Refilling(a0, n0, P, nhsize) && P == P0 + NodeKeys(n0, 0)
      requires forall k :: k in P0 ==> InArray(k, |a0|)
      requires forall k :: k in LiveKeys(a0, n0) && InArray(k, |a0|) && !InArray(k, arr.Length) ==> k in P0
      ensures Refilling(a0, n0, LiveKeys(a0, n0), nhsize)
    {
      ValsMono(Outside(P, arr.Length), Outside(LiveKeys(a0, n0), arr.Length));
    }

    /** luaH_resize (ltable.c:347-384): the map stays the same, for sizes that hold it. */
    method Resize(nasize: nat, nhsize: nat) returns (ok: bool)
      requires Valid() && nasize <= MAXASIZE && |Outside(LiveKeys(arr[..], node[..]), nasize)| <= nhsize
      modifies this, arr, node
      ensures Valid() && Kept() && Same(old(arr[..]), old(node[..]))
      ensures !ok ==> nhsize > 0 && TooMany(nhsize) && arr.Length == old(arr.Length)
      ensures ok ==> arr.Length == nasize && |ord| <= |Outside(old(LiveKeys(arr[..], node[..])), nasize)|
      ensures ok ==> node.Length >= nhsize && dummy == (nhsize == 0)
      decreases 1, 0
    {
      hide Hashed, KeysOK, ValueOf, LiveKeys;
      ghost var a0, n0 := arr[..], node[..];
      ghost var P := {};
      var olda, nold, oldasize := arr, node, arr.Length;
      WasValid(hash, a0, n0, ord);
      if nasize > oldasize {
        SetArrayVector(nasize);
      }
      ok := SetNodeVector(nhsize);
      if !ok {
        SetArrayVector(oldasize);
        assert arr[..] == a0;
        return;
      }
      if nasize < oldasize {
        SetArrayVector(nasize);
        EmptyTable(a0, n0, P, nhsize);
        P := RefillArray(olda, a0, n0, P, nhsize);
      } else {
        EmptyTable(a0, n0, P, nhsize);
      }
      RefillNodes(nold, a0, n0, P, nhsize);
      AllLiveSame(a0, n0, nhsize);
    }

    /** rehash (ltable.c:395-412): makes room for the key 'ek'; false on overflow. */
    method Rehash(ek: Val) returns (ok: bool)
      requires Valid() && Norm(ek) == ek && ek != Nil && ek != NaN && Addresses(Absent, ek)
      modifies this, arr, node
      ensures Valid() && Kept() && Same(old(arr[..]), old(node[..]))
      ensures ok ==> (InArray(ek, arr.Length) || Room())
      ensures !ok ==> Overflows(old(LiveKeys(arr[..], node[..])) + {ek})
      ensures ok ==> BestSize(IntKeys(old(LiveKeys(arr[..], node[..])) + {ek}), arr.Length)
      decreases 1, 1
    {
      hide Hashed, KeysOK, ValueOf, LiveKeys, BestSize, Counts, IntKeys, Used, NodeKeys, Outside;
      ghost var a, ns := arr[..], node[..];
      ghost var live := LiveKeys(a, ns);
      WasValid(hash, a, ns, ord);
      RehashFacts(a, ns, ek);
      var nums := new nat[MAXABITS + 1](_ => 0);
      var na := NumUseArray(arr, nums);
      var totaluse := na;
      var inhash, ints := NumUseHash(node, nums, Used(a));
      totaluse, na := totaluse + inhash, na + ints;
      var extra := CountInt(ek, nums, Used(a) + IntKeys(NodeKeys(ns, 0)));
      na := na + extra;
      totaluse := totaluse + 1;
      ghost var K := Used(a) + IntKeys(NodeKeys(ns, 0)) + IntKeys({ek});
      var asize;
      asize, na := ComputeSizes(nums[..], na, K);
      RehashFits(live, ek, asize, totaluse, na);
      ok := Resize(asize, totaluse - na);
      if !ok {
        OverflowAt(live + {ek}, asize);
      }
    }

    // ---------- the table as a map ----------

    /** luaH_new (ltable.c:421-430) */
    constructor (h: Hash)
      ensures Valid() && Map() == map[] && fresh(arr) && fresh(node)
    {
      hash := h;
      arr := new Val[0];
      node := new Node[1](_ => Node(Nil, Nil, 0));
      dummy, lastfree, ord := true, 0, [];
      new;
      NoNodes(hash, node[..], 0);
      NoEntries(arr[..], node[..]);
    }

    /** An assignment does to the map what it should, or fails and does nothing. */
    method Assign(key: Val, v: Val) returns (r: Outcome)
      requires Valid()
      modifies this, arr, node
      ensures Valid() && Kept()
      ensures r.Failed? ==> Map() == old(Map())
      ensures r.Done? ==> Map() == if v == Nil then old(Map()) - {Norm(key)} else old(Map())[Norm(key) := v]
      ensures r.Failed? ==> (r.error == IndexIsNil <==> key == Nil) && (r.error == IndexIsNaN <==> key == NaN)
      ensures r == Failed(TableOverflow) ==> Overflows(old(Map()).Keys + {Norm(key)})
      ensures r == Failed(TableOverflow) ==> |old(Map())| >= 0x4000_0000
      ensures r.Done? ==> key != Nil && key != NaN
      ensures r.Done? ==> forall x :: x != Nil ==> At(x) == if SameKey(x, key) then v else old(At(x))
    {
      hide Hashed, ValueOf, KeysOK, Contents, SameKey, Integral;
      ghost var a0, n0 := arr[..], node[..];
      WasValid(hash, a0, n0, ord);
      r := SetValue(key, v, false);
      WasValid(hash, arr[..], node[..], ord);
      if r.Done? {
        NormIdem(key);
        MapAssigned(a0, n0, arr[..], node[..], Norm(key), v);
        forall x | x != Nil ensures Norm(x) != Nil && (Norm(x) == Norm(key) <==> SameKey(x, key)) {
          NormSame(x, key);
          NormIdem(x);
        }
      } else {
        ContentsKeys(a0, n0);
        MapSame(a0, n0, arr[..], node[..]);
        if r.error == TableOverflow {
          OverflowNeeds(Contents(a0, n0).Keys + {Norm(key)});
        }
      }
    }

    /** An access gives what the map holds. */
    method Access(k: Val) returns (v: Val)
      requires Valid()
      ensures v == if Norm(k) in Map() then Map()[Norm(k)] else Nil
      ensures k != Nil ==> v == At(k)
      ensures forall x :: x in Map() && SameKey(x, k) ==> v == Map()[x]
      ensures (forall x :: x in Map() ==> !SameKey(x, k)) ==> v == Nil
    {
      hide Hashed, ValueOf, KeysOK, SameKey, Integral;
      WasValid(hash, arr[..], node[..], ord);
      forall x | x in Map() ensures SameKey(x, k) <==> x == Norm(k) {
        LiveKeyOK(arr[..], node[..], x);
        NormSame(x, k);
      }
      NormIdem(k);
      if k != Nil {
        LiveIff(arr[..], node[..], Norm(k));
      } else {
        NilNotLive(arr[..], node[..]);
      }
      v := Read(k);
    }

    /** A float with an integral value leads where the integer does. */
    lemma FloatIsInteger(i: int)
      requires -0x8000_0000_0000_0000 <= i <= 0x7fff_ffff_ffff_ffff
      ensures At(Flt(i as real)) == At(Int(i))
    {
      NormSame(Flt(i as real), Int(i));
    }

    /** A rehash needs no second one: with a free node, or for a key of the array part,
        luaH_set reallocates nothing. */
    method AssignInPlace(key: Val, v: Val)
      requires Valid() && key != Nil && key != NaN && (InArray(Norm(key), arr.Length) || Room())
      modifies this, arr, node
      ensures Valid() && arr == old(arr) && node == old(node)
      ensures Map() == if v == Nil then old(Map()) - {Norm(key)} else old(Map())[Norm(key) := v]
    {
      hide Hashed, ValueOf, KeysOK, Contents;
      ghost var a0, n0 := arr[..], node[..];
      WasValid(hash, a0, n0, ord);
      var r := SetValue(key, v, true);
      WasValid(hash, arr[..], node[..], ord);
      NormIdem(key);
      MapAssigned(a0, n0, arr[..], node[..], Norm(key), v);
    }

    // ---------- traversal (ltable.c:159-203) ----------

    /** The element at a position, counted from 0. */
    function EntryAt(p: nat): (Val, Val)
      requires p < arr.Length + node.Length
      reads this, arr, node
    {
      if p < arr.Length then (Int(p + 1), arr[p]) else (node[p - arr.Length].key, node[p - arr.Length].val)
    }

    /** findindex (ltable.c:159-183); -1 stands for the error "invalid key to 'next'". The key
        is not normalized, but compared as a number: a float with an integral value finds the
        node of that integer if its own main position leads there, and array indices never. */
    method FindIndex(key: Val) returns (i: int)
      requires Valid()
      ensures if key == Nil then i == 0
              else if InArray(key, arr.Length) then i == key.i
              else i >= 0 <==> OnChain(hash, node[..], key)
      ensures key != Nil && i >= 0 ==> 0 < i <= arr.Length + node.Length && EntryAt(i - 1).0 == Norm(key)
      ensures key == Norm(key) ==> (i < 0 <==> key != Nil && Addresses(Absent, key))
      ensures key != Norm(key) && InArray(Norm(key), arr.Length) ==> i < 0
    {
      if key == Nil {
        return 0;
      }
      if InArray(key, arr.Length) {
        return key.i;
      }
      if key == Norm(key) {
        ChainHas(hash, node[..], ord, key);
      }
      i := FindOnChain(key);
    }

    /** The loop of findindex (ltable.c:166-182). */
    method FindOnChain(key: Val) returns (i: int)
      requires Valid() && key != Nil
      ensures i >= 0 <==> OnChain(hash, node[..], key)
      ensures i >= 0 ==> arr.Length < i <= arr.Length + node.Length && node[i - arr.Length - 1].key == Norm(key)
      ensures InArray(Norm(key), arr.Length) ==> i < 0
    {
      hide Hashed, Chained, KeyOK, Norm, RawEqual, Hop;
      var n: nat := MainPosition(key);
      ghost var ns, main, steps: nat, q: nat := node[..], n, 0, 0;
      q := WalkStart(ns, main);
      HopStart(ns, main);
      while true
        invariant n < node.Length && ns == node[..] && Hop(ns, main, steps) == n
        invariant forall m :: 0 <= m < steps ==> !KeyAfter(ns, main, m, Norm(key))
        invariant ns[n].next != 0 ==> q < |ord| && ord[q] == n
        decreases |ord| - q
      {
        NodeKeyOK(n);
        RawEqualNorm(node[n].key, arr.Length, key);
        if RawEqual(node[n].key, key) {
          assert KeyAfter(ns, main, steps, Norm(key));
          return arr.Length + n + 1;
        }
        var nx := node[n].next;
        if nx == 0 {
          NotAfter(ns, main, steps, Norm(key));
          return -1;
        }
        q := WalkOn(ns, q);
        HopOn(ns, main, steps, n + nx);
        n := n + nx;
        steps := steps + 1;
      }
    }

    lemma NodeKeyOK(n: nat)
      requires Structure() && n < node.Length
      ensures KeyOK(node[n].key, arr.Length)
      ensures !InArray(node[n].key, arr.Length)
    {
      assert node[..][n] == node[n];
    }

    /** Where a walk is among the nodes in use. */
    lemma WalkStart(ns: seq<Node>, i: nat) returns (q: nat)
      requires Structure() && ns == node[..] && i < |ns|
      ensures ns[i].next != 0 ==> q < |ord| && ord[q] == i
    {
      q := 0;
      if ns[i].key != Nil {
        q := PlaceOf(ns, ord, i);
      }
    }

    lemma WalkOn(ns: seq<Node>, q: nat) returns (r: nat)
      requires Structure() && ns == node[..] && q < |ord| && ord[q] < |ns| && ns[ord[q]].next != 0
      ensures r == q + 1 && r < |ord| && ord[r] < |ns| && ord[r] == ord[q] + ns[ord[q]].next
    {
      LinkAt(ns, ord, q);
      r := q + 1;
    }

    /** luaH_next (ltable.c:186-203): the first entry after 'key'; nil at the end. */
    method Next(key: Val) returns (ok: bool, k: Val, v: Val)
      requires Valid()
      ensures ok <==> key == Nil || InArray(key, arr.Length) || OnChain(hash, node[..], key)
      ensures key == Norm(key) ==> (ok <==> key == Nil || !Addresses(Absent, key))
      ensures key != Norm(key) && InArray(Norm(key), arr.Length) ==> !ok
      ensures ok ==> exists i: nat ::
                && i <= arr.Length + node.Length && (if key == Nil then i == 0 else i > 0 && EntryAt(i - 1).0 == Norm(key))
                && NextFrom(i, k, v)
    {
      k, v := Nil, Nil;
      var start := FindIndex(key);
      if start < 0 {
        return false, Nil, Nil;
      }
      ok := true;
      var i := start;
      while i < arr.Length
        invariant start <= i <= arr.Length + node.Length
        invariant forall p :: start <= p < i ==> EntryAt(p).1 == Nil
      {
        if arr[i] != Nil {
          k, v := Int(i + 1), arr[i];
          assert EntryAt(i) == (k, v);
          assert NextFrom(start, k, v);
          return;
        }
        i := i + 1;
      }
      while i < arr.Length + node.Length
        invariant arr.Length <= i && start <= i <= arr.Length + node.Length
        invariant forall p :: start <= p < i ==> EntryAt(p).1 == Nil
      {
        if node[i - arr.Length].val != Nil {
          k, v := node[i - arr.Length].key, node[i - arr.Length].val;
          assert EntryAt(i) == (k, v);
          assert NextFrom(start, k, v);
          return;
        }
        i := i + 1;
      }
      assert NextFrom(start, k, v);
    }

    /** (k, v) is the first entry from position 'i' on, or nil if there is none. */
    ghost predicate NextFrom(i: nat, k: Val, v: Val)
      reads this, arr, node
    {
      if v == Nil then
        k == Nil && forall p :: i <= p < arr.Length + node.Length ==> EntryAt(p).1 == Nil
      else
        exists p :: i <= p < arr.Length + node.Length && EntryAt(p) == (k, v)
               && forall r :: i <= r < p ==> EntryAt(r).1 == Nil
    }

    /** Every entry of the map has exactly one position, and nothing else has: so a
        traversal meets every entry once. */
    lemma PositionsAreEntries(k: Val, v: Val)
      requires Valid() && v != Nil && k != Nil
      ensures k in Map() && Map()[k] == v <==> exists p :: 0 <= p < arr.Length + node.Length && EntryAt(p) == (k, v)
      ensures forall p, r :: 0 <= p < r < arr.Length + node.Length && EntryAt(p).1 != Nil && EntryAt(r).1 != Nil ==>
                EntryAt(p).0 != EntryAt(r).0
    {
      hide Chained, Housed;
      WasValid(hash, arr[..], node[..], ord);
      LiveIff(arr[..], node[..], k);
      forall p | 0 <= p < arr.Length + node.Length && EntryAt(p) == (k, v) ensures Lookup(arr[..], node[..], k) == v {
        if p >= arr.Length {
          assert KeyOK(node[p - arr.Length].key, arr.Length);
          ValueAt(node[..], p - arr.Length);
        }
      }
      if Lookup(arr[..], node[..], k) == v {
        if InArray(k, arr.Length) {
          assert EntryAt(k.i - 1) == (k, v);
        } else {
          var i :| 0 <= i < node.Length && node[..][i].key == k;
          ValueAt(node[..], i);
          assert EntryAt(arr.Length + i) == (k, v);
        }
      }
      forall p, r | 0 <= p < r < arr.Length + node.Length && EntryAt(p).1 != Nil && EntryAt(r).1 != Nil
        ensures EntryAt(p).0 != EntryAt(r).0
      {
        if r >= arr.Length {
          assert KeyOK(node[r - arr.Length].key, arr.Length);
        }
      }
    }

    // ---------- the length operator (ltable.c:632-676) ----------

    /** 'n' is a border: t[n] is there, or n is 0, and t[n + 1] is not. */
    ghost predicate Boundary(n: nat)
      reads this, arr, node
    {
      (n == 0 || At(Int(n)) != Nil) && At(Int(n + 1)) == Nil
    }

    /** ttisnil(luaH_getint(t, i)) */
    method IsNil(i: int) returns (b: bool)
      requires Valid()
      ensures b <==> At(Int(i)) == Nil
    {
      var slot := GetInt(i);
      match slot {
        case Absent => b := true;
        case ArraySlot(j) => b := arr[j] == Nil;
        case NodeSlot(j) =>
          ValueAt(node[..], j);
          b := node[j].val == Nil;
      }
    }

    /** unbound_search (ltable.c:632-653) */
    method UnboundSearch(start: nat) returns (n: nat)
      requires Valid() && start <= MAXASIZE && (start == 0 || At(Int(start)) != Nil)
      ensures Boundary(n)
    {
      hide Hashed, KeysOK, Lookup;
      var i: nat, j: nat := start, start + 1;
      var absent := IsNil(j);
      while !absent
        invariant i < j <= 2 * MAXINTEGER && (i == 0 || At(Int(i)) != Nil) && (absent <==> At(Int(j)) == Nil)
        decreases 2 * MAXINTEGER - j, !absent
      {
        i := j;
        if j > MAXINTEGER / 2 {
          n := LinearSearch();
          return;
        }
        j := j * 2;
        absent := IsNil(j);
      }
      while j - i > 1
        invariant i < j && (i == 0 || At(Int(i)) != Nil) && At(Int(j)) == Nil
      {
        var m := (i + j) / 2;
        absent := IsNil(m);
        if absent {
          j := m;
        } else {
          i := m;
        }
      }
      n := i;
    }

    /** The table was built with bad purposes (ltable.c:638-642). */
    method LinearSearch() returns (n: nat)
      requires Valid()
      ensures Boundary(n)
    {
      hide Hashed, KeysOK, Lookup;
      var i := 1;
      var absent := IsNil(i);
      while !absent
        invariant i >= 1 && (i == 1 || At(Int(i - 1)) != Nil) && (absent <==> At(Int(i)) == Nil)
        decreases |IntsFrom(LiveKeys(arr[..], node[..]), i)|, !absent
      {
        IntLive(i);
        FewerFrom(LiveKeys(arr[..], node[..]), i);
        i := i + 1;
        absent := IsNil(i);
      }
      n := i - 1;
    }

    lemma IntLive(i: int)
      requires Valid() && At(Int(i)) != Nil
      ensures Int(i) in LiveKeys(arr[..], node[..])
    {
      hide Chained, Housed;
      WasValid(hash, arr[..], node[..], ord);
      LiveIff(arr[..], node[..], Int(i));
    }

    /** luaH_getn (ltable.c:660-676) */
    method GetN() returns (n: nat)
      requires Valid()
      ensures Boundary(n)
    {
      var j := arr.Length;
      if j > 0 && arr[j - 1] == Nil {
        var i := 0;
        while j - i > 1
          invariant 0 <= i < j <= arr.Length && (i == 0 || arr[i - 1] != Nil) && arr[j - 1] == Nil
        {
          var m := (i + j) / 2;
          if arr[m - 1] == Nil {
            j := m;
          } else {
            i := m;
          }
        }
        return i;
      } else if dummy {
        DummyEmpty(hash, node[..], Int(j + 1));
        return j;
      } else {
        n := UnboundSearch(j);
      }
    }
  }

  const MAXINTEGER := 0x7FFF_FFFF_FFFF_FFFF

  lemma DummyEmpty(h: Hash, ns: seq<Node>, k: Val)
    requires Hashed(h, ns, []) && k != Nil
    ensures ValueOf(ns, k) == Nil
  {
    assert forall i :: 0 <= i < |ns| ==> ns[i].key == Nil;
  }

  ghost function IntsFrom(ks: set<Val>, i: int): set<Val> {
    set k | k in ks && k.Int? && k.i >= i
  }

  lemma FewerFrom(ks: set<Val>, i: int)
    requires Int(i) in ks
    ensures |IntsFrom(ks, i + 1)| < |IntsFrom(ks, i)|
  {
    assert IntsFrom(ks, i) == IntsFrom(ks, i + 1) + {Int(i)};
  }

  lemma NormIdem(k: Val)
    ensures Norm(Norm(k)) == Norm(k) && (k != NaN ==> Norm(k) != NaN) && (k != Nil ==> Norm(k) != Nil)
  {
  }

  lemma ValueHasKey(h: Hash, ns: seq<Node>, ord: seq<nat>, i: nat)
    requires Hashed(h, ns, ord) && i < |ns| && ns[i].val != Nil
    ensures ns[i].key != Nil
  {
  }

  lemma StoreAll(h: Hash, ns: seq<Node>, ord: seq<nat>, i: nat, v: Val, n: nat)
    requires Hashed(h, ns, ord) && KeysOK(ns, n) && i < |ns| && ns[i].key != Nil
    ensures var n1 := WithValue(ns, i, v);
            && Hashed(h, n1, ord) && KeysOK(n1, n)
            && forall x :: x != Nil ==> ValueOf(n1, x) == if x == ns[i].key then v else ValueOf(ns, x)
  {
    hide Chained, Housed;
    StoreHashed(h, ns, ord, i, v);
    forall x | x != Nil ensures ValueOf(WithValue(ns, i, v), x) == if x == ns[i].key then v else ValueOf(ns, x) {
      StoreValues(ns, i, v, x);
    }
  }

  lemma FindUsed(h: Hash, ns: seq<Node>, ord: seq<nat>, i: nat) returns (q: nat)
    requires Hashed(h, ns, ord) && i < |ns| && ns[i].key != Nil
    ensures q < |ord| && ord[q] == i
  {
    q := PlaceOf(ns, ord, i);
  }

  /** All that chaining the free node 'f' amounts to. */
  lemma ChainAll(h: Hash, ns: seq<Node>, ord: seq<nat>, q: nat, f: nat, k: Val, n: nat)
    requires Hashed(h, ns, ord) && KeysOK(ns, n) && k != Nil && KeyOK(k, n) && !HasKey(ns, k)
    requires q < |ord| && ord[q] == Main(h, k, |ns|) == Main(h, ns[ord[q]].key, |ns|)
    requires f < |ns| && ns[f].key == Nil
    ensures var n1 := Chain(ns, ord[q], f, k);
            && Hashed(h, n1, Insert(ord, q, f)) && KeysOK(n1, n) && |n1| == |ns|
            && f != ord[q] && ns[f] == Node(Nil, Nil, 0) && n1[f].key == k && n1[f].val == Nil
            && (forall i :: 0 <= i < |ns| && i != f ==> (n1[i].key == Nil <==> ns[i].key == Nil))
            && (forall x :: x != Nil ==> ValueOf(n1, x) == ValueOf(ns, x))
  {
    hide Housed;
    InUse(ns, ord, f);
    ChainOK(h, ns, ord, q, f, k);
    forall x | x != Nil ensures ValueOf(Chain(ns, ord[q], f, k), x) == ValueOf(ns, x) {
      ChainValues(ns, ord[q], f, k, x);
    }
  }

  lemma MoveAll(h: Hash, ns: seq<Node>, ord: seq<nat>, q: nat, f: nat, k: Val, n: nat)
    requires Hashed(h, ns, ord) && KeysOK(ns, n) && k != Nil && KeyOK(k, n) && !HasKey(ns, k)
    requires 0 < q < |ord| && ns[ord[q - 1]].next != 0
    requires ord[q] == Main(h, k, |ns|) != Main(h, ns[ord[q]].key, |ns|)
    requires f < |ns| && ns[f].key == Nil
    ensures ord[q - 1] < |ns|
    ensures var n1 := Move(ns, ord[q - 1], ord[q], f, k);
            && Hashed(h, n1, Replace(ord, q, f)) && KeysOK(n1, n) && |n1| == |ns|
            && f != ord[q] && f != ord[q - 1] && ord[q] != ord[q - 1] && ns[f] == Node(Nil, Nil, 0)
            && n1[ord[q]].key == k && n1[ord[q]].val == Nil && n1[f].key != Nil
            && (forall i :: 0 <= i < |ns| && i != f ==> (n1[i].key == Nil <==> ns[i].key == Nil))
            && (forall x :: x != Nil ==> ValueOf(n1, x) == ValueOf(ns, x))
  {
    hide Housed, Move;
    InUse(ns, ord, f);
    NodeIn(ns, ord, q);
    NodeIn(ns, ord, q - 1);
    Apart(ns, ord, q - 1, q);
    MoveOK(h, ns, ord, q, f, k);
    MoveAt(ns, ord[q - 1], ord[q], f, k);
    forall x | x != Nil ensures ValueOf(Move(ns, ord[q - 1], ord[q], f, k), x) == ValueOf(ns, x) {
      MoveValues(ns, ord[q - 1], ord[q], f, k, x);
    }
  }

  /** Every node from the i-th on holds a key. */
  ghost predicate NoneFree(ns: seq<Node>, i: int) {
    forall j :: i <= j < |ns| && 0 <= j ==> ns[j].key != Nil
  }

  lemma NoFreeNode(h: Hash, ns: seq<Node>, ord: seq<nat>)
    requires Hashed(h, ns, ord) && NoneFree(ns, 0)
    ensures |ord| == |ns|
  {
    FullWhen(ns, ord);
  }
}
