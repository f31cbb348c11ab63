/** Turning tests into jumps, negating, comparing and short-circuiting
    (apps/lua/lcode.c:822-939, 1037-1138). */
module LuaExprJumps {
  import opened LuaOpcodes
  import opened LuaFlow
  import opened LuaExprSpec
  import opened LuaEmit
  import opened LuaExprProofs
  import opened LuaExprOps
  import opened LuaExprEnd

  // ---------- relinking ----------

  lemma LinkedOK(code: seq<Instr>, pend: set<int>, lt: int, l: int, a: seq<int>, b: seq<int>)
    requires WF(code, pend, lt) && IsList(code, l, a) && Elems(a) <= pend
    ensures WF(Linked(code, a, b), pend, lt)
    ensures SameButLinks(code, Linked(code, a, b), pend)
    ensures Kept(code, Linked(code, a, b), pend - Elems(a))
    ensures forall j :: SameCtl(code, Linked(code, a, b), j)
    ensures forall q :: 0 <= q < |code| ==> (IsTest(Linked(code, a, b)[q]) <==> IsTest(code[q]))
  {
    var c := Linked(code, a, b);
    if a != [] && b != [] {
      assert a[|a| - 1] in a;
      assert a[|a| - 1] in pend;
    }
    forall q | 0 <= q < |c| ensures InstrOK(c, pend, lt, q) {
      assert InstrOK(code, pend, lt, q);
    }
  }

  // ---------- loads after the expression ----------

  /** 'sf' is 's' with a jump over a load of false and a load of true. */
  ghost predicate LoadsAfter(s: St, sf: St, reg: int) {
    var n := |s.code|;
    && |sf.code| == n + 3 && sf.code[..n] == s.code && sf.code[n].Jmp?
    && sf.code[n + 1] == LoadBool(reg, false, true) && sf.code[n + 2] == LoadBool(reg, true, false)
    && sf == s.(code := sf.code, pend := s.pend + {n}, here := [n] + s.here, jpc := sf.jpc, lt := n + 3)
    && IsList(sf.code, sf.jpc, sf.here)
  }

  lemma LoadsAfterMade(s: St, c: seq<Instr>, sf: St, reg: int)
    requires |c| == |s.code| + 1 && c[..|s.code|] == s.code && c[|s.code|].Jmp?
    requires sf == s.(code := WithLoads(c, reg), pend := s.pend + {|s.code|}, here := [|s.code|] + s.here, jpc := sf.jpc, lt := |s.code| + 3)
    requires IsList(sf.code, sf.jpc, sf.here)
    ensures LoadsAfter(s, sf, reg)
  {
    assert sf.code[..|s.code|] == c[..|s.code|];
  }

  lemma LoadsAfterRun(s: St, sf: St, reg: int, x: Start)
    requires StOK(s) && LoadsAfter(s, sf, reg) && Safe(s.code, x.p)
    ensures Out(Now(sf), x) == Out(Now(s), x)
  {
    var n := |s.code|;
    assert sf.code == s.code + sf.code[n..];
    SuffixRun(s.code, sf.code[n..], s.pend, sf.pend, s.lt, x.kst, x.p, x.regs);
    ExitsPending(s.code, s.pend, x.kst, x.p, x.regs);
    assert forall j :: j in sf.here <==> j == n || j in s.here;
  }

  lemma LoadsAfterOK(s: St, sf: St, reg: int)
    requires StOK(s) && LoadsAfter(s, sf, reg)
    ensures StOK(sf)
    ensures Kept(s.code, sf.code, s.pend)
  {
    forall q | 0 <= q < |sf.code| ensures InstrOK(sf.code, sf.pend, sf.lt, q) {
      if q < |s.code| {
        assert InstrOK(s.code, s.pend, s.lt, q);
        assert sf.code[q] == s.code[q];
      }
    }
    forall j | j in s.pend ensures sf.code[j] == s.code[j] && SameCtl(s.code, sf.code, j) {
      assert sf.code[j] == sf.code[..|s.code|][j];
      if j > 0 {
        assert sf.code[j - 1] == sf.code[..|s.code|][j - 1];
      }
    }
  }

  lemma LoadsAfterDesc(ctx: Ctx, s: St, e: ExpDesc, tl: seq<int>, fl: seq<int>, E: Expr, reg: int, sf: St)
    requires Struct(ctx, s, e, tl, fl) && Meaning(ctx, s, e, tl, fl, E, reg)
    requires e.k == VNONRELOC && e.info == reg && LoadsAfter(s, sf, reg)
    ensures Struct(ctx, sf, e, tl, fl) && Meaning(ctx, sf, e, tl, fl, E, reg)
    ensures Loads(sf.code, Elems(tl) + Elems(fl), reg, |s.code| + 1, |s.code| + 2)
  {
    LoadsAfterOK(s, sf, reg);
    KeptOuter(ctx, s, sf);
    ListKept(s.code, sf.code, e.t, tl);
    ListKept(s.code, sf.code, e.f, fl);
    assert Elems(sf.here) == Elems(s.here) + {|s.code|};
    forall x | InScope(ctx, sf.kst, x) ensures Deliv(ctx, sf, e, tl, fl, E, reg, x) {
      assert Deliv(ctx, s, e, tl, fl, E, reg, x);
      InScopeSafe(ctx, s, x);
      LoadsAfterRun(s, sf, reg, x);
      KeptDeliv(ctx, s, e, tl, fl, E, reg, sf, e, x);
    }
  }

  /** The outside is kept when everything pending is. */
  lemma KeptOuter(ctx: Ctx, s: St, s': St)
    requires StOK(s) && OuterOK(ctx, s) && Outer(ctx) <= s.pend && s.lt <= s'.lt
    requires Kept(s.code, s'.code, Outer(ctx)) && |s.code| <= |s'.code|
    requires forall q :: 0 <= q < |s.code| && IsTest(s'.code[q]) ==> IsTest(s.code[q])
    ensures OuterOK(ctx, s')
  {
  }

  /** Same outcomes and same carriers: same deliveries. */
  lemma KeptDeliv(ctx: Ctx, s: St, e: ExpDesc, tl: seq<int>, fl: seq<int>, E: Expr, w: int, s': St, e': ExpDesc, x: Start)
    requires Deliv(ctx, s, e, tl, fl, E, w, x)
    requires Kept(s.code, s'.code, Elems(tl) + Elems(fl))
    requires Out(Body(s', e'), x) == Out(Body(s, e), x)
    requires Out(Body(s, e), x).Fall? ==>
               ValueOf(s'.code, e', x.kst, Out(Body(s, e), x).regs) == ValueOf(s.code, e, x.kst, Out(Body(s, e), x).regs)
    ensures Deliv(ctx, s', e', tl, fl, E, w, x)
  {
    if Out(ctx.from, x).Fall? && Out(Body(s, e), x).Exit? {
      var o := Out(Body(s, e), x);
      KeptExit(s.code, s'.code, tl, fl, o.at, o.regs, Eval(E, Out(ctx.from, x).regs).value);
    }
  }

  /** The jump of a test joins the true list, then false and true are loaded. */
  function TestLoads(s: St, tl: seq<int>, reg: int): St {
    s.(code := Linked(s.code, tl, [|s.code| - 1]) + [LoadBool(reg, false, true), LoadBool(reg, true, false)],
       lt := |s.code| + 2)
  }

  lemma TestLoadsRun(ctx: Ctx, s: St, e: ExpDesc, tl: seq<int>, fl: seq<int>, reg: int, x: Start)
    requires Struct(ctx, s, e, tl, fl) && e.k == VJMP && InScope(ctx, s.kst, x)
    ensures Out(Now(TestLoads(s, tl, reg)), x) ==
            (match Out(Now(s), x) case Fall(R) => Fall(R[reg := Bool(false)]) case o => o)
  {
    var sf := TestLoads(s, tl, reg);
    var n := |s.code|;
    var c := Linked(s.code, tl, [n - 1]);
    LinkedOK(s.code, s.pend, s.lt, e.t, tl, [n - 1]);
    RelinkRun(s.code, c, s.pend, x.kst, x.p, x.regs);
    SuffixRun(c, sf.code[n..], s.pend, s.pend, s.lt, x.kst, x.p, x.regs);
    assert sf.code == c + sf.code[n..];
    assert sf.code[n] == LoadBool(reg, false, true);
  }

  lemma TestLoadsLists(ctx: Ctx, s: St, e: ExpDesc, tl: seq<int>, fl: seq<int>, reg: int, l: int)
    requires Struct(ctx, s, e, tl, fl) && e.k == VJMP
    requires IsList(Linked(s.code, tl, [|s.code| - 1]), l, tl + [|s.code| - 1])
    ensures IsList(TestLoads(s, tl, reg).code, l, tl + [|s.code| - 1])
    ensures IsList(TestLoads(s, tl, reg).code, e.f, fl)
  {
    var n := |s.code|;
    var c := Linked(s.code, tl, [n - 1]);
    var sf := TestLoads(s, tl, reg);
    LinkedLoads(s.code, s.pend, s.lt, e.t, tl, [n - 1], reg);
    assert sf.code == WithLoads(c, reg);
    ListKept(c, sf.code, l, tl + [n - 1]);
    assert forall j :: j in Elems(fl) ==> j in s.pend - Elems(tl);
    ListKept(s.code, sf.code, e.f, fl);
  }

  lemma TestLoadsOuter(ctx: Ctx, s: St, e: ExpDesc, tl: seq<int>, fl: seq<int>, reg: int)
    requires Struct(ctx, s, e, tl, fl) && e.k == VJMP
    ensures StOK(TestLoads(s, tl, reg)) && OuterOK(ctx, TestLoads(s, tl, reg))
    ensures forall j :: j in s.pend ==> SameCtl(s.code, TestLoads(s, tl, reg).code, j)
  {
    var n := |s.code|;
    var sf := TestLoads(s, tl, reg);
    LinkedLoads(s.code, s.pend, s.lt, e.t, tl, [n - 1], reg);
    assert sf.code == WithLoads(Linked(s.code, tl, [n - 1]), reg);
    assert forall j :: j in Outer(ctx) ==> j in s.pend - Elems(tl);
    KeptOuter(ctx, s, sf);
  }

  lemma TestLoadsOK(ctx: Ctx, s: St, e: ExpDesc, tl: seq<int>, fl: seq<int>, reg: int, e': ExpDesc)
    requires Struct(ctx, s, e, tl, fl) && e.k == VJMP && 0 <= reg < NO_REG
    requires e' == e.(k := VNONRELOC, info := reg, t := e'.t)
    requires IsList(Linked(s.code, tl, [|s.code| - 1]), e'.t, tl + [|s.code| - 1])
    ensures Struct(ctx, TestLoads(s, tl, reg), e', tl + [|s.code| - 1], fl)
  {
    hide WF, OuterOK, IsList, Linked, InstrOK;
    var n := |s.code|;
    ElemsConcat(tl, [n - 1]);
    assert Elems([n - 1]) == {n - 1};
    TestLoadsLists(ctx, s, e, tl, fl, reg, e'.t);
    TestLoadsOuter(ctx, s, e, tl, fl, reg);
  }

  /** Linking a list and appending the loads. */
  lemma LinkedLoads(code: seq<Instr>, pend: set<int>, lt: int, l: int, a: seq<int>, b: seq<int>, reg: int)
    requires WF(code, pend, lt) && IsList(code, l, a) && Elems(a) <= pend
    ensures var d := WithLoads(Linked(code, a, b), reg);
            && WF(d, pend, |code| + 2)
            && Kept(code, d, pend - Elems(a))
            && (forall j :: j in pend ==> SameCtl(code, d, j))
            && (forall q :: 0 <= q < |code| && IsTest(d[q]) ==> IsTest(code[q]))
  {
    var c := Linked(code, a, b);
    LinkedOK(code, pend, lt, l, a, b);
    AppendLoads(c, pend, lt, reg);
    var d := WithLoads(c, reg);
    forall j | j in pend ensures SameCtl(code, d, j) && d[j] == c[j] {
      assert SameCtl(code, c, j) && SameCtl(c, d, j);
    }
    forall q | 0 <= q < |code| && IsTest(d[q]) ensures IsTest(code[q]) {
      assert d[q] == c[q];
    }
  }

  function WithLoads(c: seq<Instr>, reg: int): seq<Instr> {
    c + [LoadBool(reg, false, true), LoadBool(reg, true, false)]
  }

  lemma AppendLoads(c: seq<Instr>, pend: set<int>, lt: int, reg: int)
    requires WF(c, pend, lt)
    ensures WF(WithLoads(c, reg), pend, |c| + 2) && Kept(c, WithLoads(c, reg), pend)
  {
    var d, m := WithLoads(c, reg), |c| + 2;
    forall q | 0 <= q < |d| ensures InstrOK(d, pend, m, q) {
      if q < |c| {
        assert InstrOK(c, pend, lt, q);
        assert d[q] == c[q];
      }
    }
  }

  lemma TestLoadsDesc(ctx: Ctx, s: St, e: ExpDesc, tl: seq<int>, fl: seq<int>, E: Expr, reg: int, e': ExpDesc)
    requires Core(ctx, s, e, tl, fl, E) && e.k == VJMP && 0 <= reg < NO_REG
    requires e' == e.(k := VNONRELOC, info := reg, t := e'.t)
    requires IsList(Linked(s.code, tl, [|s.code| - 1]), e'.t, tl + [|s.code| - 1])
    ensures var sf := TestLoads(s, tl, reg);
            var tl' := tl + [|s.code| - 1];
            && Struct(ctx, sf, e', tl', fl) && Meaning(ctx, sf, e', tl', fl, E, reg)
            && Loads(sf.code, Elems(tl') + Elems(fl), reg, |s.code|, |s.code| + 1)
  {
    var sf := TestLoads(s, tl, reg);
    TestLoadsOK(ctx, s, e, tl, fl, reg, e');
    TestLoadsOuter(ctx, s, e, tl, fl, reg);
    forall x | InScope(ctx, sf.kst, x) ensures Deliv(ctx, sf, e', tl + [|s.code| - 1], fl, E, reg, x) {
      TestLoadsStart(ctx, s, e, tl, fl, E, reg, e', x);
    }
    assert forall j :: j in Elems(tl + [|s.code| - 1]) + Elems(fl) ==> j in s.pend;
  }

  lemma TestLoadsStart(ctx: Ctx, s: St, e: ExpDesc, tl: seq<int>, fl: seq<int>, E: Expr, reg: int, e': ExpDesc, x: Start)
    requires Core(ctx, s, e, tl, fl, E) && e.k == VJMP && e'.k == VNONRELOC && e'.info == reg && InScope(ctx, s.kst, x)
    ensures Deliv(ctx, TestLoads(s, tl, reg), e', tl + [|s.code| - 1], fl, E, reg, x)
  {
    assert Deliv(ctx, s, e, tl, fl, E, -1, x);
    TestLoadsOuter(ctx, s, e, tl, fl, reg);
    TestLoadsRun(ctx, s, e, tl, fl, reg, x);
    TestTail(ctx, s, e, tl, fl, x);
    TestLoadsDeliv(ctx, s, e, tl, fl, E, reg, e', x);
  }

  lemma TestLoadsDeliv(ctx: Ctx, s: St, e: ExpDesc, tl: seq<int>, fl: seq<int>, E: Expr, reg: int, e': ExpDesc, x: Start)
    requires |s.code| >= 2 && s.code[|s.code| - 2].Cmp? && e.k == VJMP && e'.k == VNONRELOC && e'.info == reg
    requires Deliv(ctx, s, e, tl, fl, E, -1, x)
    requires Out(Now(TestLoads(s, tl, reg)), x) ==
             (match Out(Now(s), x) case Fall(R) => Fall(R[reg := Bool(false)]) case o => o)
    requires var n := |s.code|;
             var i := s.code[n - 2];
             Out(Now(s), x) ==
             (match Out(Body(s, e), x)
              case Fall(R) =>
                (match CompareRK(i.op, x.kst, R, i.rkb, i.rkc)
                 case None => Fail
                 case Some(r) => if r == i.want then Exit(n - 1, R) else Fall(R))
              case o => o)
    requires |s.code| - 1 in s.pend && Elems(tl) <= s.pend && Elems(fl) <= s.pend
    requires forall j :: j in s.pend ==> SameCtl(s.code, TestLoads(s, tl, reg).code, j)
    ensures Deliv(ctx, TestLoads(s, tl, reg), e', tl + [|s.code| - 1], fl, E, reg, x)
  {
    var j := |s.code| - 1;
    var sf := TestLoads(s, tl, reg);
    assert (tl + [j])[|tl|] == j;
    if Out(ctx.from, x).Fall? {
      var v := Eval(E, Out(ctx.from, x).regs);
      var o := Out(Body(s, e), x);
      if o.Fall? {
        assert SameCtl(s.code, sf.code, j) && !Carries(s.code, j);
        assert v.Some? ==> v.value == Bool(Truthy(v.value));
      } else if o.Exit? {
        assert o.at in Elems(tl) + Elems(fl);
        assert SameCtl(s.code, sf.code, o.at);
        assert ExitOK(sf.code, tl + [j], fl, o.at, o.regs, v.value);
      }
    }
  }

  // ---------- facts that 'exp2reg' needs ----------

  /** The jump of a comparison needs its value loaded. */
  lemma TestNeedsValue(s: St, c: seq<Instr>, e: ExpDesc, tl: seq<int>)
    requires KindOK(s, e) && e.k == VJMP && c == Linked(s.code, tl, [e.info])
    requires forall j :: SameCtl(s.code, c, j)
    ensures exists j :: j in tl + [e.info] && !Carries(c, j)
  {
    var js := tl + [e.info];
    assert js[|tl|] == e.info;
    assert SameCtl(s.code, c, e.info);
    assert e.info in js && !Carries(c, e.info);
  }

  /** Marking the current position as a label. */
  lemma LabelDesc(ctx: Ctx, s: St, e: ExpDesc, tl: seq<int>, fl: seq<int>, E: Expr, reg: int)
    requires Struct(ctx, s, e, tl, fl) && Meaning(ctx, s, e, tl, fl, E, reg) && e.k == VNONRELOC
    ensures Struct(ctx, s.(lt := |s.code|), e, tl, fl) && Meaning(ctx, s.(lt := |s.code|), e, tl, fl, E, reg)
  {
    var s' := s.(lt := |s.code|);
    forall q | 0 <= q < |s.code| ensures InstrOK(s.code, s.pend, s'.lt, q) {
      assert InstrOK(s.code, s.pend, s.lt, q);
    }
    forall x | InScope(ctx, s.kst, x) ensures Deliv(ctx, s', e, tl, fl, E, reg, x) {
      assert Deliv(ctx, s, e, tl, fl, E, reg, x);
    }
  }

  /** Both lists can be patched: jumps that carry no value have a load to go to. */
  lemma EndReady(ctx: Ctx, s: St, e: ExpDesc, tl: seq<int>, fl: seq<int>, reg: int, pf: int, pt: int)
    requires Struct(ctx, s, e, tl, fl) && Loads(s.code, Elems(tl) + Elems(fl), reg, pf, pt)
    ensures forall j :: j in fl && !Carries(s.code, j) ==> pf != NO_JUMP
    ensures forall j :: j in tl && !Carries(s.code, j) ==> pt != NO_JUMP
  {
    assert forall j :: j in fl || j in tl ==> j in Elems(tl) + Elems(fl);
  }

  /** The true list is still there when the false list has been patched. */
  lemma EndMiddle(s: St, e: ExpDesc, tl: seq<int>, fl: seq<int>, reg: int, pf: int, pt: int)
    requires WF(s.code, s.pend, |s.code|) && IsList(s.code, e.t, tl) && Elems(tl) <= s.pend && Elems(fl) <= s.pend
    requires Elems(tl) !! Elems(fl) && 0 <= reg < NO_REG && Loads(s.code, Elems(tl) + Elems(fl), reg, pf, pt)
    requires forall j :: j in tl && !Carries(s.code, j) ==> pt != NO_JUMP
    ensures var c1 := Patch(s.code, Elems(fl), |s.code|, reg, pf);
            IsList(c1, e.t, tl) && forall j :: j in tl && !Carries(c1, j) ==> pt != NO_JUMP
  {
    var c1 := Patch(s.code, Elems(fl), |s.code|, reg, pf);
    LoadsAt(s.code, s.pend, Elems(tl), Elems(fl), reg, pf, pt);
    NoTestLast(s.code, s.pend, |s.code|);
    PatchWF(s.code, s.pend, |s.code|, Elems(fl), |s.code|, reg, pf, |s.code|);
    forall j | j in tl ensures j in s.pend - Elems(fl) {
      assert j in Elems(tl);
    }
    ListKept(s.code, c1, e.t, tl);
  }

  /** Equal heads of disjoint lists: both are empty. */
  lemma NoJumps(code: seq<Instr>, t: int, tl: seq<int>, f: int, fl: seq<int>)
    requires IsList(code, t, tl) && IsList(code, f, fl) && t == f
    requires forall j :: j in tl ==> j !in fl
    ensures tl == [] && fl == []
  {
    HeadElem(tl);
    HeadElem(fl);
  }

  lemma HeadElem(js: seq<int>)
    ensures js != [] ==> js[0] in js
  {
  }

  /** The jump of a test on the true list (lcode.c:677-678). */
  function WithTest(e: ExpDesc, tl: seq<int>): seq<int> {
    if e.k == VJMP then tl + [e.info] else tl
  }

  /** 's' with somewhere for the jumps to load their values, if some need it: a label
      at its end, two loads after a test, or two loads behind a jump. */
  ghost predicate Prepared(s: St, e: ExpDesc, tl: seq<int>, fl: seq<int>, reg: int, pf: int, pt: int, s': St) {
    if e.k == VJMP then
      s' == TestLoads(s, tl, reg) && pf == |s.code| && pt == pf + 1
    else
      || (s' == s.(lt := |s.code|) && pf == NO_JUMP && pt == NO_JUMP
          && forall j :: j in Elems(tl) + Elems(fl) ==> Carries(s.code, j))
      || (LoadsAfter(s, s', reg) && pf == |s.code| + 1 && pt == pf + 1)
  }

  lemma PreparedDesc(ctx: Ctx, s: St, e: ExpDesc, tl: seq<int>, fl: seq<int>, E: Expr, reg: int, pf: int, pt: int, s': St, p: ExpDesc)
    requires if e.k == VJMP then Core(ctx, s, e, tl, fl, E)
             else e.k == VNONRELOC && e.info == reg && Struct(ctx, s, e, tl, fl) && Meaning(ctx, s, e, tl, fl, E, reg)
    requires Prepared(s, e, tl, fl, reg, pf, pt, s') && 0 <= reg < NO_REG
    requires p == e.(k := VNONRELOC, info := reg, t := p.t)
    requires e.k == VJMP ==> IsList(Linked(s.code, tl, [e.info]), p.t, tl + [e.info])
    requires e.k != VJMP ==> p.t == e.t
    ensures Struct(ctx, s', p, WithTest(e, tl), fl) && Meaning(ctx, s', p, WithTest(e, tl), fl, E, reg)
    ensures s'.lt == |s'.code| && Loads(s'.code, Elems(WithTest(e, tl)) + Elems(fl), reg, pf, pt)
  {
    hide Meaning, IsList, Linked, WF, OuterOK;
    if e.k == VJMP {
      TestLoadsDesc(ctx, s, e, tl, fl, E, reg, p);
    } else if LoadsAfter(s, s', reg) && pf == |s.code| + 1 && pt == pf + 1 {
      LoadsAfterDesc(ctx, s, e, tl, fl, E, reg, s');
    } else {
      LabelDesc(ctx, s, e, tl, fl, E, reg);
    }
  }

  lemma TestList(s: St, e: ExpDesc)
    requires KindOK(s, e) && e.k == VJMP
    ensures IsList(s.code, e.info, [e.info])
  {
  }

  lemma JoinedTest(ctx: Ctx, s: St, e: ExpDesc, tl: seq<int>, fl: seq<int>)
    requires Struct(ctx, s, e, tl, fl) && e.k == VJMP
    ensures var c := Linked(s.code, tl, [e.info]);
            && IsList(c, e.f, fl) && IsList(c, s.jpc, s.here)
            && forall j :: SameCtl(s.code, c, j)
  {
    LinkedOK(s.code, s.pend, s.lt, e.t, tl, [e.info]);
    assert forall j :: j in Elems(fl) ==> j in s.pend - Elems(tl);
    ListKept(s.code, Linked(s.code, tl, [e.info]), e.f, fl);
  }
}
