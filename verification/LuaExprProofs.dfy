/** Proofs about jump lists and patching used by the code generator. */
module LuaExprProofs {
  import opened LuaOpcodes
  import opened LuaFlow
  import opened LuaExprSpec
  import opened LuaEmit

  /** The code after the last jump of 'a' is linked to the first of 'b'. */
  function Linked(code: seq<Instr>, a: seq<int>, b: seq<int>): (c: seq<Instr>)
    ensures |c| == |code|
  {
    if a == [] || b == [] || !(0 <= a[|a| - 1] < |code|) then code
    else code[a[|a| - 1] := Jmp(b[0] - (a[|a| - 1] + 1))]
  }

  lemma LinkedList(code: seq<Instr>, l1: int, l2: int, a: seq<int>, b: seq<int>)
    requires IsList(code, l1, a) && IsList(code, l2, b) && a != [] && b != []
    requires forall j :: j in a ==> j !in b
    ensures IsList(Linked(code, a, b), l1, a + b)
  {
    var c := Linked(code, a, b);
    var last := a[|a| - 1];
    assert last in a;
    forall i, k | 0 <= i < k < |a + b| ensures (a + b)[i] != (a + b)[k] {
      if i < |a| <= k {
        assert a[i] in a && b[k - |a|] in b;
      }
    }
    forall i | 0 <= i < |a + b|
      ensures 0 <= (a + b)[i] < |c| && c[(a + b)[i]].Jmp?
      ensures Link(c, (a + b)[i]) == NextOf(a + b, i)
    {
      if i < |a| {
        assert Link(code, a[i]) == NextOf(a, i);
        assert b[0] in b;
      } else {
        assert b[i - |a|] in b;
        assert Link(code, b[i - |a|]) == NextOf(b, i - |a|);
      }
    }
  }

  lemma ListTail(code: seq<Instr>, l: int, js: seq<int>)
    requires IsList(code, l, js) && js != []
    ensures IsList(code, Link(code, l), js[1..])
  {
    assert Link(code, js[0]) == NextOf(js, 0);
    forall i | 0 <= i < |js| - 1
      ensures Link(code, js[1..][i]) == NextOf(js[1..], i)
    {
      assert Link(code, js[i + 1]) == NextOf(js, i + 1);
    }
  }

  lemma PatchNone(code: seq<Instr>, vt: int, reg: int, dt: int)
    ensures Patch(code, {}, vt, reg, dt) == code
  {
  }

  lemma SilenceNext(c0: seq<Instr>, c: seq<Instr>, c': seq<Instr>, js: seq<int>, n: int)
    requires 0 <= n < |js| && 0 <= js[n] < |c0| && c == Silence(c0, Elems(js[..n]))
    requires NoDup(js) && (forall i :: 0 <= i < |js| ==> 0 <= js[i] < |c0| && c0[js[i]].Jmp?)
    requires |c'| == |c| && c' == if Carries(c, js[n]) then c[js[n] - 1 := PatchTest(c[js[n] - 1], NO_REG)] else c
    ensures c' == Silence(c0, Elems(js[..n + 1]))
    ensures forall i :: 0 <= i < |js| ==> c'[js[i]] == c[js[i]]
  {
    assert js[..n + 1] == js[..n] + [js[n]];
    ElemsConcat(js[..n], [js[n]]);
    forall i | 0 <= i < |js| ensures c[js[i]] == c0[js[i]] && c[js[i]].Jmp? {
      assert js[i] in js;
      assert c[js[i]] == SilenceAt(c0, Elems(js[..n]), js[i]);
    }
    forall q | 0 <= q < |c0| ensures c'[q] == SilenceAt(c0, Elems(js[..n + 1]), q) {
      assert c[q] == SilenceAt(c0, Elems(js[..n]), q);
    }
  }

  /** Earlier patches leave the control of later jumps of the list alone. */
  lemma PatchCtl(c0: seq<Instr>, js: seq<int>, n: int, vt: int, reg: int, dt: int)
    requires 0 <= n < |js| && NoDup(js) && (forall i :: 0 <= i < |js| ==> 0 <= js[i] < |c0| && c0[js[i]].Jmp?)
    ensures SameCtl(c0, Patch(c0, Elems(js[..n]), vt, reg, dt), js[n])
    ensures Patch(c0, Elems(js[..n]), vt, reg, dt)[js[n]] == c0[js[n]]
  {
    var c := Patch(c0, Elems(js[..n]), vt, reg, dt);
    var j := js[n];
    assert j in js && j !in Elems(js[..n]);
    assert c[j] == PatchAt(c0, Elems(js[..n]), vt, reg, dt, j);
    if j > 0 {
      assert c[j - 1] == PatchAt(c0, Elems(js[..n]), vt, reg, dt, j - 1);
      assert j - 1 in js[..n] ==> j - 1 in js;
    }
  }

  lemma PatchNext(c0: seq<Instr>, c: seq<Instr>, c': seq<Instr>, js: seq<int>, n: int, vt: int, reg: int, dt: int)
    requires 0 <= n < |js| && 0 <= js[n] < |c0| && c == Patch(c0, Elems(js[..n]), vt, reg, dt)
    requires NoDup(js) && (forall i :: 0 <= i < |js| ==> 0 <= js[i] < |c0| && c0[js[i]].Jmp?)
    requires |c'| == |c|
    requires var j := js[n];
             var t := if Carries(c, j) then vt else dt;
             c' == (if Carries(c, j) then c[j - 1 := PatchTest(c[j - 1], reg)] else c)[j := Jmp(t - (j + 1))]
    ensures c' == Patch(c0, Elems(js[..n + 1]), vt, reg, dt)
    ensures forall i :: n + 1 <= i < |js| ==> c'[js[i]] == c[js[i]]
  {
    assert js[..n + 1] == js[..n] + [js[n]];
    ElemsConcat(js[..n], [js[n]]);
    PatchCtl(c0, js, n, vt, reg, dt);
    forall q | 0 <= q < |c0| ensures c'[q] == PatchAt(c0, Elems(js[..n + 1]), vt, reg, dt, q) {
      assert c[q] == PatchAt(c0, Elems(js[..n]), vt, reg, dt, q);
    }
    forall i | n + 1 <= i < |js| ensures c'[js[i]] == c[js[i]] {
      assert js[i] in js;
      PatchCtl(c0, js, n, vt, reg, dt);
      assert c[js[i]] == PatchAt(c0, Elems(js[..n]), vt, reg, dt, js[i]);
      assert js[i] !in Elems(js[..n]);
    }
  }

  lemma PatchTail(c: seq<Instr>, c': seq<Instr>, l: int, js: seq<int>)
    requires IsList(c, l, js) && js != [] && |c'| == |c|
    requires forall i :: 1 <= i < |js| ==> c'[js[i]] == c[js[i]]
    ensures IsList(c', Link(c, l), js[1..])
  {
    ListTail(c, l, js);
    ListKept(c, c', Link(c, l), js[1..]);
  }

  function KLoad(reg: int, idx: int): seq<Instr> {
    if idx <= MAXARG_BX then [LoadK(reg, idx)] else [LoadKX(reg), ExtraArg(idx)]
  }
}
