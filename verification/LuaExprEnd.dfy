/** Bringing an expression to its end: its jumps deliver their values too
    (apps/lua/lcode.c:655-696). */
module LuaExprEnd {
  import opened LuaOpcodes
  import opened LuaFlow
  import opened LuaExprSpec
  import opened LuaEmit
  import opened LuaExprProofs
  import opened LuaExprOps

  /** Patching keeps code well-formed when the targets are labels. */
  lemma PatchWF(code: seq<Instr>, pend: set<int>, lt: int, js: set<int>, vt: int, reg: int, dt: int, lt': int)
    requires WF(code, pend, lt) && js <= pend && lt <= lt' <= |code|
    requires forall j :: j in js ==>
               var t := if Carries(code, j) then vt else dt; j < t <= lt' && Safe(code, t)
    ensures WF(Patch(code, js, vt, reg, dt), pend - js, lt')
    ensures Kept(code, Patch(code, js, vt, reg, dt), pend - js)
    ensures forall q :: 0 <= q < |code| ==> (IsTest(Patch(code, js, vt, reg, dt)[q]) <==> IsTest(code[q]))
  {
    var c := Patch(code, js, vt, reg, dt);
    forall q | 0 <= q < |c| ensures InstrOK(c, pend - js, lt', q) {
      assert InstrOK(code, pend, lt, q);
      assert c[q] == PatchAt(code, js, vt, reg, dt, q);
      if q + 1 < |c| {
        assert c[q + 1] == PatchAt(code, js, vt, reg, dt, q + 1);
      }
    }
    forall j | j in pend - js ensures c[j] == code[j] && SameCtl(code, c, j) {
      assert c[j] == PatchAt(code, js, vt, reg, dt, j);
      if j > 0 {
        assert c[j - 1] == PatchAt(code, js, vt, reg, dt, j - 1);
      }
    }
  }

  /** The jumps have somewhere to load their value: either all of them carry it, or
      the code ends with loads of false and of true. */
  ghost predicate Loads(code: seq<Instr>, js: set<int>, reg: int, pf: int, pt: int) {
    || (forall j :: j in js ==> Carries(code, j))
    || (&& pf == |code| - 2 && pt == |code| - 1 && pf >= 0
        && code[pf] == LoadBool(reg, false, true) && code[pt] == LoadBool(reg, true, false)
        && forall j :: j in js ==> j < pf)
  }

  function EndRegs(code: seq<Instr>, j: int, reg: int, R: Regs, b: bool): Regs {
    if Carries(code, j) then Landed(code, j, reg, R) else R[reg := Bool(b)]
  }

  /** The final code: both lists patched (lcode.c:690-691). */
  function Ended(code: seq<Instr>, tl: set<int>, fl: set<int>, reg: int, pf: int, pt: int): seq<Instr> {
    var n := |code|;
    Patch(Patch(code, fl, n, reg, pf), tl, n, reg, pt)
  }

  /** The jumps 'js' that carry no value come before 'p', where 'b' is loaded. */
  ghost predicate LoadAt(code: seq<Instr>, js: set<int>, reg: int, p: int, b: bool) {
    (exists j :: j in js && !Carries(code, j)) ==>
      && 0 < p < |code| && Safe(code, p) && (p + 2 == |code| || p + 1 == |code|)
      && code[p] == LoadBool(reg, b, p + 2 == |code|)
      && forall j :: j in js ==> j < p
  }

  lemma OneListRun(code: seq<Instr>, pend: set<int>, js: set<int>, reg: int, p: int, b: bool, x: Start)
    requires WF(code, pend, |code|) && js <= pend && Safe(code, x.p) && 0 <= reg < NO_REG
    requires LoadAt(code, js, reg, p, b)
    ensures WF(Patch(code, js, |code|, reg, p), pend - js, |code|)
    ensures Kept(code, Patch(code, js, |code|, reg, p), pend - js)
    ensures Safe(Patch(code, js, |code|, reg, p), x.p)
    ensures Run(Patch(code, js, |code|, reg, p), pend - js, x.kst, x.p, x.regs) ==
            (var o := Run(code, pend, x.kst, x.p, x.regs);
             if o.Exit? && o.at in js then Fall(EndRegs(code, o.at, reg, o.regs, b)) else o)
  {
    var c := Patch(code, js, |code|, reg, p);
    NoTestLast(code, pend, |code|);
    PatchWF(code, pend, |code|, js, |code|, reg, p, |code|);
    PatchRun(code, pend, |code|, js, |code|, reg, p, x.kst, x.p, x.regs);
    var o := Run(code, pend, x.kst, x.p, x.regs);
    if o.Exit? && o.at in js && !Carries(code, o.at) {
      assert c[p] == PatchAt(code, js, |code|, reg, p, p);
      assert Step(c, pend - js, x.kst, p, o.regs) == Goto(|code|, o.regs[reg := Bool(b)]);
    }
  }

  lemma LoadsAt(code: seq<Instr>, pend: set<int>, tl: set<int>, fl: set<int>, reg: int, pf: int, pt: int)
    requires WF(code, pend, |code|)
    requires Loads(code, tl + fl, reg, pf, pt) && forall j :: j in tl + fl ==> j >= 0
    ensures LoadAt(code, fl, reg, pf, false) && LoadAt(code, tl, reg, pt, true)
  {
    if j :| j in tl + fl && !Carries(code, j) {
      assert 0 <= j < pf;
      assert InstrOK(code, pend, |code|, pf - 1);
    }
  }

  lemma LoadAtKept(code: seq<Instr>, pend: set<int>, tl: set<int>, fl: set<int>, reg: int, pf: int, pt: int)
    requires WF(code, pend, |code|) && tl <= pend && fl <= pend && tl !! fl
    requires LoadAt(code, tl, reg, pt, true)
    requires Kept(code, Patch(code, fl, |code|, reg, pf), pend - fl)
    ensures LoadAt(Patch(code, fl, |code|, reg, pf), tl, reg, pt, true)
  {
    var c := Patch(code, fl, |code|, reg, pf);
    assert forall j :: j in tl ==> j in pend - fl;
    if j :| j in tl && !Carries(c, j) {
      assert SameCtl(code, c, j);
      assert c[pt] == PatchAt(code, fl, |code|, reg, pf, pt);
      assert c[pt - 1] == PatchAt(code, fl, |code|, reg, pf, pt - 1);
    }
  }

  lemma EndRun(code: seq<Instr>, pend: set<int>, tl: set<int>, fl: set<int>, reg: int, pf: int, pt: int, x: Start)
    requires WF(code, pend, |code|) && tl <= pend && fl <= pend && tl !! fl && Safe(code, x.p) && 0 <= reg < NO_REG
    requires LoadAt(code, fl, reg, pf, false) && LoadAt(code, tl, reg, pt, true)
    ensures WF(Ended(code, tl, fl, reg, pf, pt), pend - fl - tl, |code|)
    ensures Run(Ended(code, tl, fl, reg, pf, pt), pend - fl - tl, x.kst, x.p, x.regs) ==
            (var o := Run(code, pend, x.kst, x.p, x.regs);
             if o.Exit? && o.at in tl + fl then Fall(EndRegs(code, o.at, reg, o.regs, o.at in tl)) else o)
  {
    var c1 := Patch(code, fl, |code|, reg, pf);
    OneListRun(code, pend, fl, reg, pf, false, x);
    LoadAtKept(code, pend, tl, fl, reg, pf, pt);
    assert tl <= pend - fl;
    OneListRun(c1, pend - fl, tl, reg, pt, true, x);
    var o := Run(code, pend, x.kst, x.p, x.regs);
    if o.Exit? && o.at in tl {
      assert o.at in pend - fl && SameCtl(code, c1, o.at);
    }
  }

  /** A run leaves only through pending jumps. */
  lemma {:induction false} ExitsPending(code: seq<Instr>, pend: set<int>, kst: seq<Value>, p: int, R: Regs)
    ensures var o := Run(code, pend, kst, p, R); o.Exit? ==> o.at in pend
    decreases |code| - p
  {
    if 0 <= p < |code| {
      match Step(code, pend, kst, p, R)
      case Goto(q, R') =>
        if p < q {
          ExitsPending(code, pend, kst, q, R');
        }
      case _ =>
    }
  }

  /** The end of an expression that was in place, but for its jumps. */
  lemma EndDesc(ctx: Ctx, s: St, e: ExpDesc, tl: seq<int>, fl: seq<int>, E: Expr, reg: int, pf: int, pt: int, s': St, e': ExpDesc)
    requires Struct(ctx, s, e, tl, fl) && e.k == VNONRELOC && e.info == reg && 0 <= reg < NO_REG
    requires Meaning(ctx, s, e, tl, fl, E, reg)
    requires s.lt == |s.code| && Loads(s.code, Elems(tl) + Elems(fl), reg, pf, pt)
    requires s' == s.(code := Ended(s.code, Elems(tl), Elems(fl), reg, pf, pt), pend := s.pend - Elems(fl) - Elems(tl))
    requires e' == e.(t := NO_JUMP, f := NO_JUMP)
    ensures Struct(ctx, s', e', [], []) && Meaning(ctx, s', e', [], [], E, reg)
  {
    EndStruct(ctx, s, e, tl, fl, reg, pf, pt, s', e');
    forall x | InScope(ctx, s'.kst, x) ensures Deliv(ctx, s', e', [], [], E, reg, x) {
      assert Deliv(ctx, s, e, tl, fl, E, reg, x);
      InScopeSafe(ctx, s, x);
      LoadsAt(s.code, s.pend, Elems(tl), Elems(fl), reg, pf, pt);
      EndRun(s.code, s.pend, Elems(tl), Elems(fl), reg, pf, pt, x);
      ExitsPending(ctx.from.code, ctx.from.pend, x.kst, x.p, x.regs);
      EndDeliv(ctx, s, e, tl, fl, E, reg, s', e', x);
    }
  }

  lemma EndDeliv(ctx: Ctx, s: St, e: ExpDesc, tl: seq<int>, fl: seq<int>, E: Expr, reg: int, s': St, e': ExpDesc, x: Start)
    requires Elems(tl) !! Elems(fl) !! Elems(s.here) !! Outer(ctx)
    requires e.k == VNONRELOC && e.info == reg && 0 <= reg < NO_REG && e'.k == VNONRELOC && e'.info == reg
    requires Deliv(ctx, s, e, tl, fl, E, reg, x) && s'.here == s.here
    requires Run(s'.code, s'.pend, x.kst, x.p, x.regs) ==
             (var o := Run(s.code, s.pend, x.kst, x.p, x.regs);
              if o.Exit? && o.at in Elems(tl) + Elems(fl)
              then Fall(EndRegs(s.code, o.at, reg, o.regs, o.at in Elems(tl))) else o)
    requires Out(ctx.from, x).Exit? ==> Out(ctx.from, x).at in Outer(ctx)
    ensures Deliv(ctx, s', e', [], [], E, reg, x)
  {
  }

  lemma EndStruct(ctx: Ctx, s: St, e: ExpDesc, tl: seq<int>, fl: seq<int>, reg: int, pf: int, pt: int, s': St, e': ExpDesc)
    requires Struct(ctx, s, e, tl, fl) && e.k == VNONRELOC && e.info == reg && 0 <= reg < NO_REG
    requires s.lt == |s.code| && Loads(s.code, Elems(tl) + Elems(fl), reg, pf, pt)
    requires s' == s.(code := Ended(s.code, Elems(tl), Elems(fl), reg, pf, pt), pend := s.pend - Elems(fl) - Elems(tl))
    requires e' == e.(t := NO_JUMP, f := NO_JUMP)
    ensures Struct(ctx, s', e', [], [])
  {
    assert forall j :: j in Elems(tl) + Elems(fl) ==> j >= 0;
    LoadsAt(s.code, s.pend, Elems(tl), Elems(fl), reg, pf, pt);
    EndedWF(s.code, s.pend, Elems(tl), Elems(fl), reg, pf, pt);
    assert Outer(ctx) <= s'.pend && Elems(s.here) <= s'.pend;
    EndOuter(ctx, s, s');
    assert IsList(s'.code, s.jpc, s.here) by {
      ListKept(s.code, s'.code, s.jpc, s.here);
    }
    assert s'.pend == Outer(ctx) + Elems(s.here);
  }

  lemma EndedWF(code: seq<Instr>, pend: set<int>, tl: set<int>, fl: set<int>, reg: int, pf: int, pt: int)
    requires WF(code, pend, |code|) && tl <= pend && fl <= pend && tl !! fl && 0 <= reg < NO_REG
    requires LoadAt(code, fl, reg, pf, false) && LoadAt(code, tl, reg, pt, true)
    ensures var c := Ended(code, tl, fl, reg, pf, pt);
            && WF(c, pend - fl - tl, |code|) && |c| == |code| && Kept(code, c, pend - fl - tl)
            && forall q :: 0 <= q < |code| ==> (IsTest(c[q]) <==> IsTest(code[q]))
  {
    var n := |code|;
    var c1 := Patch(code, fl, n, reg, pf);
    NoTestLast(code, pend, n);
    PatchWF(code, pend, n, fl, n, reg, pf, n);
    assert tl <= pend - fl;
    LoadAtKept(code, pend, tl, fl, reg, pf, pt);
    NoTestLast(c1, pend - fl, n);
    PatchWF(c1, pend - fl, n, tl, n, reg, pt, n);
    KeptTwice(code, c1, Ended(code, tl, fl, reg, pf, pt), pend - fl - tl);
  }

  lemma KeptTwice(c: seq<Instr>, c1: seq<Instr>, c2: seq<Instr>, js: set<int>)
    requires Kept(c, c1, js) && Kept(c1, c2, js)
    ensures Kept(c, c2, js)
  {
  }

  lemma EndOuter(ctx: Ctx, s: St, s': St)
    requires OuterOK(ctx, s) && |s'.code| == |s.code| && s'.lt == s.lt
    requires Kept(s.code, s'.code, Outer(ctx))
    requires forall q :: 0 <= q < |s.code| ==> (IsTest(s'.code[q]) <==> IsTest(s.code[q]))
    ensures OuterOK(ctx, s')
  {
  }
}
