/** Combining expressions: leaves, negation, comparisons, short circuits. */
module LuaExprCombine {
  import opened LuaOpcodes
  import opened LuaFlow
  import opened LuaExprSpec
  import opened LuaEmit
  import opened LuaExprProofs
  import opened LuaExprOps
  import opened LuaExprEnd
  import opened LuaExprJumps
  import opened LuaExprLogic

  // ---------- leaves ----------

  lemma LeafDesc(s: St, e: ExpDesc, E: Expr)
    requires StOK(s) && e.t == NO_JUMP && e.f == NO_JUMP && KindOK(s, e) && LocalsBelow(E, s.nact)
    requires e.k != VJMP && e.k != VRELOCABLE && e.k != VNONRELOC
    requires forall kst, R :: s.kst <= kst ==> ValueOf(s.code, e, kst, R) == Eval(E, R)
    ensures Desc(Here(s), s, e, [], [], E)
  {
    var ctx := Here(s);
    forall x | InScope(ctx, s.kst, x) ensures Deliv(ctx, s, e, [], [], E, -1, x) {
      ExitsPending(s.code, s.pend, x.kst, x.p, x.regs);
      assert forall R :: ValueOf(s.code, e, x.kst, R) == Eval(E, R);
    }
  }

  function ConstOf(e: ExpDesc): Value {
    match e.k
    case VTRUE => Bool(true)
    case VFALSE => Bool(false)
    case VKINT => Int(e.ival)
    case _ => Nil
  }

  /** Moving a constant to the constant table. */
  lemma ToConstant(ctx: Ctx, s: St, e: ExpDesc, tl: seq<int>, fl: seq<int>, E: Expr, k': seq<Value>, idx: int)
    requires Core(ctx, s, e, tl, fl, E) && (e.k == VNIL || e.k == VTRUE || e.k == VFALSE || e.k == VKINT)
    requires s.kst <= k' && 0 <= idx < |k'| && k'[idx] == ConstOf(e)
    ensures Core(ctx, s.(kst := k'), e.(k := VK, info := idx), tl, fl, E)
  {
    hide WF, IsList, Out, Eval, Agree, ExitOK, LocalsBelow;
    var s' := s.(kst := k');
    var e' := e.(k := VK, info := idx);
    forall x | InScope(ctx, k', x) ensures Deliv(ctx, s', e', tl, fl, E, -1, x) {
      assert Deliv(ctx, s, e, tl, fl, E, -1, x);
      assert x.kst[idx] == k'[idx];
    }
  }

  /** As 'PlacingDesc', for any constant. */
  lemma PlacedDesc(ctx: Ctx, s: St, e: ExpDesc, tl: seq<int>, fl: seq<int>, E: Expr, reg: int, s': St)
    requires Core(ctx, s, e, tl, fl, E) && Placing(s, e, reg, s') && 0 <= reg < NO_REG && e.k != VJMP
    ensures Struct(ctx, s', e.(k := VNONRELOC, info := reg), tl, fl)
    ensures Meaning(ctx, s', e.(k := VNONRELOC, info := reg), tl, fl, E, reg)
  {
    if e.k == VKINT {
      var idx :| 0 <= idx < |s'.kst| && s'.kst[idx] == Int(e.ival) && s.kst <= s'.kst &&
                 s' == Emitted(s.(kst := s'.kst), KLoad(reg, idx), {});
      ToConstant(ctx, s, e, tl, fl, E, s'.kst, idx);
      PlacingDesc(ctx, s.(kst := s'.kst), e.(k := VK, info := idx), tl, fl, E, reg, s');
    } else {
      PlacingDesc(ctx, s, e, tl, fl, E, reg, s');
    }
  }

  // ---------- conditions ----------

  lemma RelocTestable(ctx: Ctx, s: St, e: ExpDesc, tl: seq<int>, fl: seq<int>, E: Expr, goesOn: bool)
    requires Desc(ctx, s, e, tl, fl, E) && e.k == VRELOCABLE
    ensures var i := Test(s.code[e.info].b, goesOn);
            Testable(ctx, s, e, tl, fl, CutLast(s), i) && forall kst :: s.kst <= kst ==> TestsIt(s, e, goesOn, i, kst)
  {
    CutOK(ctx, s, e, tl, fl);
    assert Cut(s, e) == CutLast(s);
    assert forall j :: j in Elems(tl) + Elems(fl) ==> j in s.pend;
  }

  lemma RegTestable(ctx: Ctx, s: St, e: ExpDesc, tl: seq<int>, fl: seq<int>, E: Expr, goesOn: bool)
    requires Core(ctx, s, e, tl, fl, E) && e.k == VNONRELOC && s.freereg == ctx.base
    ensures var i := TestSet(NO_REG, e.info, !goesOn);
            Testable(ctx, s, e, tl, fl, s, i) && forall kst :: s.kst <= kst ==> TestsIt(s, e, goesOn, i, kst)
  {
  }

  // ---------- negation ----------

  /** As 'Deliv', but 'e' already stands for the negation of 'E'. */
  ghost predicate NotDeliv(ctx: Ctx, s: St, e: ExpDesc, tl: seq<int>, fl: seq<int>, E: Expr, x: Start) {
    match Out(ctx.from, x)
    case Fall(R0) =>
      (match Out(Body(s, e), x)
       case Fall(R) => Agree(R0, R, ctx.base, -1) && ValueOf(s.code, e, x.kst, R) == Eval(ENot(E), R0)
       case Exit(j, R) =>
         Agree(R0, R, ctx.base, -1) && Eval(E, R0).Some? && ExitOK(s.code, tl, fl, j, R, Eval(E, R0).value)
       case Fail => Eval(E, R0).None?
       case Stuck => false)
    case o => Out(Body(s, e), x) == o
  }

  lemma SilenceWF(code: seq<Instr>, pend: set<int>, lt: int, js: set<int>)
    requires WF(code, pend, lt) && js <= pend
    ensures WF(Silence(code, js), pend, lt)
    ensures Kept(code, Silence(code, js), pend - js)
    ensures forall q :: 0 <= q < |code| ==>
              (IsTest(Silence(code, js)[q]) <==> IsTest(code[q])) && (!code[q].TestSet? ==> Silence(code, js)[q] == code[q])
    ensures forall j :: j in js ==> !Carries(Silence(code, js), j)
  {
    var c := Silence(code, js);
    forall q | 0 <= q < |c| ensures InstrOK(c, pend, lt, q) {
      assert InstrOK(code, pend, lt, q);
      assert c[q] == SilenceAt(code, js, q);
      if q + 1 < |c| {
        assert c[q + 1] == SilenceAt(code, js, q + 1);
      }
    }
    forall j | j in pend ensures c[j] == code[j] && (j in js ==> !Carries(c, j)) && (j !in js ==> SameCtl(code, c, j)) {
      assert c[j] == SilenceAt(code, js, j);
      if j > 0 {
        assert c[j - 1] == SilenceAt(code, js, j - 1);
      }
    }
  }

  lemma SilenceTwice(code: seq<Instr>, a: set<int>, b: set<int>)
    ensures Silence(Silence(code, a), b) == Silence(code, a + b)
  {
    var c, d := Silence(code, a), Silence(code, a + b);
    forall q | 0 <= q < |code| ensures Silence(c, b)[q] == d[q] {
      assert c[q] == SilenceAt(code, a, q) && d[q] == SilenceAt(code, a + b, q);
      assert Silence(c, b)[q] == SilenceAt(c, b, q);
    }
  }

  function Silenced(s: St, tl: seq<int>, fl: seq<int>): St {
    s.(code := Silence(s.code, Elems(tl) + Elems(fl)))
  }

  lemma SilencedParts(ctx: Ctx, s: St, e: ExpDesc, tl: seq<int>, fl: seq<int>)
    requires Struct(ctx, s, e, tl, fl)
    ensures var s' := Silenced(s, tl, fl);
            && StOK(s') && OuterOK(ctx, s')
            && IsList(s'.code, e.t, tl) && IsList(s'.code, e.f, fl)
            && forall q :: 0 <= q < |s.code| && !s.code[q].TestSet? ==> s'.code[q] == s.code[q]
  {
    var js := Elems(tl) + Elems(fl);
    var s' := Silenced(s, tl, fl);
    SilenceWF(s.code, s.pend, s.lt, js);
    ListKept(s.code, s'.code, e.t, tl);
    ListKept(s.code, s'.code, e.f, fl);
    ListKept(s.code, s'.code, s.jpc, s.here);
    assert forall j :: j in Outer(ctx) ==> j in s.pend - js;
    KeptOuter(ctx, s, s');
  }

  lemma SilencedStruct(ctx: Ctx, s: St, e: ExpDesc, tl: seq<int>, fl: seq<int>)
    requires Struct(ctx, s, e, tl, fl)
    ensures Struct(ctx, Silenced(s, tl, fl), e.(t := e.f, f := e.t), fl, tl)
  {
    SilencedParts(ctx, s, e, tl, fl);
  }

  /** The value depends only on the instruction 'e' still stands for. */
  lemma ValueKept(c: seq<Instr>, c': seq<Instr>, e: ExpDesc, e': ExpDesc, kst: seq<Value>)
    requires |c'| == |c| && e'.k == e.k && e'.info == e.info && e'.ival == e.ival
    requires e.k == VJMP && |c| >= 2 ==> c'[|c| - 2] == c[|c| - 2]
    requires e.k == VRELOCABLE && |c| >= 1 ==> c'[|c| - 1] == c[|c| - 1]
    ensures forall R :: ValueOf(c', e', kst, R) == ValueOf(c, e, kst, R)
  {
  }

  lemma SilencedCut(ctx: Ctx, s: St, e: ExpDesc, tl: seq<int>, fl: seq<int>)
    requires Struct(ctx, s, e, tl, fl)
    ensures var b := Body(s, e);
            WF(b.code, b.pend, s.lt) && Elems(tl) + Elems(fl) <= b.pend &&
            (forall x :: InScope(ctx, s.kst, x) ==> Safe(b.code, x.p)) &&
            Body(Silenced(s, tl, fl), e) == b.(code := Silence(b.code, Elems(tl) + Elems(fl)))
  {
    var js := Elems(tl) + Elems(fl);
    var b := Body(s, e);
    BodyOK(ctx, s, e, tl, fl);
    SilencePrefix(s.code, js, |b.code|);
  }

  lemma BodyOK(ctx: Ctx, s: St, e: ExpDesc, tl: seq<int>, fl: seq<int>)
    requires Struct(ctx, s, e, tl, fl)
    ensures var b := Body(s, e);
            && WF(b.code, b.pend, s.lt) && Elems(tl) + Elems(fl) <= b.pend
            && |b.code| <= |s.code| && b.code == s.code[..|b.code|]
            && (forall x :: InScope(ctx, s.kst, x) ==> Safe(b.code, x.p))
  {
    if e.k == VJMP || e.k == VRELOCABLE {
      CutOK(ctx, s, e, tl, fl);
      assert Cut(s, e).code == Body(s, e).code && Cut(s, e).pend == Body(s, e).pend;
    }
  }

  lemma SilencePrefix(code: seq<Instr>, js: set<int>, n: int)
    requires 0 <= n <= |code|
    ensures Silence(code, js)[..n] == Silence(code[..n], js)
  {
    forall q | 0 <= q < n ensures Silence(code, js)[q] == Silence(code[..n], js)[q] {
      assert Silence(code, js)[q] == SilenceAt(code, js, q);
      assert Silence(code[..n], js)[q] == SilenceAt(code[..n], js, q);
    }
  }

  lemma SilencedBody(ctx: Ctx, s: St, e: ExpDesc, tl: seq<int>, fl: seq<int>, x: Start)
    requires Struct(ctx, s, e, tl, fl) && InScope(ctx, s.kst, x)
    ensures var s' := Silenced(s, tl, fl);
            var e' := e.(t := e.f, f := e.t);
            Out(Body(s', e'), x) == Out(Body(s, e), x) &&
            forall R :: ValueOf(s'.code, e', x.kst, R) == ValueOf(s.code, e, x.kst, R)
  {
    var js := Elems(tl) + Elems(fl);
    var s' := Silenced(s, tl, fl);
    var b := Body(s, e);
    SilencedCut(ctx, s, e, tl, fl);
    SilenceRun(b.code, b.pend, s.lt, js, x.kst, x.p, x.regs);
    SilenceWF(s.code, s.pend, s.lt, js);
    ValueKept(s.code, s'.code, e, e.(t := e.f, f := e.t), x.kst);
  }

  lemma SilencedDeliv(ctx: Ctx, s: St, e: ExpDesc, tl: seq<int>, fl: seq<int>, E: Expr, s': St, e': ExpDesc, x: Start)
    requires NotDeliv(ctx, s, e, tl, fl, E, x)
    requires Out(Body(s', e'), x) == Out(Body(s, e), x) && forall R :: ValueOf(s'.code, e', x.kst, R) == ValueOf(s.code, e, x.kst, R)
    requires forall j :: j in Elems(tl) + Elems(fl) ==> !Carries(s'.code, j)
    ensures Deliv(ctx, s', e', fl, tl, ENot(E), -1, x)
  {
    if Out(ctx.from, x).Fall? {
      var o := Out(Body(s, e), x);
      if o.Exit? {
        assert o.at in Elems(tl) + Elems(fl);
      }
    }
  }

  /** Swapping the lists, without their values, completes a negation (lcode.c:935-938). */
  lemma NotMeaning(ctx: Ctx, s: St, e: ExpDesc, tl: seq<int>, fl: seq<int>, E: Expr)
    requires Struct(ctx, s, e, tl, fl)
    requires forall x :: InScope(ctx, s.kst, x) ==> NotDeliv(ctx, s, e, tl, fl, E, x)
    ensures Struct(ctx, Silenced(s, tl, fl), e.(t := e.f, f := e.t), fl, tl)
    ensures Meaning(ctx, Silenced(s, tl, fl), e.(t := e.f, f := e.t), fl, tl, ENot(E), -1)
  {
    var s', e' := Silenced(s, tl, fl), e.(t := e.f, f := e.t);
    SilencedStruct(ctx, s, e, tl, fl);
    SilenceWF(s.code, s.pend, s.lt, Elems(tl) + Elems(fl));
    forall x | InScope(ctx, s'.kst, x) ensures Deliv(ctx, s', e', fl, tl, ENot(E), -1, x) {
      assert NotDeliv(ctx, s, e, tl, fl, E, x);
      SilencedBody(ctx, s, e, tl, fl, x);
      SilencedDeliv(ctx, s, e, tl, fl, E, s', e', x);
    }
  }

  function NotConst(e: ExpDesc): ExpDesc {
    if e.k == VNIL || e.k == VFALSE then e.(k := VTRUE) else e.(k := VFALSE)
  }

  lemma NotConstDeliv(ctx: Ctx, s: St, e: ExpDesc, tl: seq<int>, fl: seq<int>, E: Expr, x: Start)
    requires Deliv(ctx, s, e, tl, fl, E, -1, x) && InScope(ctx, s.kst, x) && KindOK(s, e)
    requires e.k == VNIL || e.k == VFALSE || e.k == VTRUE || e.k == VKINT || (e.k == VK && Truthy(s.kst[e.info]))
    ensures NotDeliv(ctx, s, NotConst(e), tl, fl, E, x)
  {
  }

  lemma NotTestDeliv(ctx: Ctx, s: St, e: ExpDesc, tl: seq<int>, fl: seq<int>, E: Expr, s1: St, x: Start)
    requires Deliv(ctx, s, e, tl, fl, E, -1, x) && e.k == VJMP
    requires |s.code| >= 2 && s.code[|s.code| - 2].Cmp? && s1 == Wanting(s, !s.code[|s.code| - 2].want)
    requires Body(s1, e) == Body(s, e) && Kept(s.code, s1.code, Elems(tl) + Elems(fl))
    ensures NotDeliv(ctx, s1, e, tl, fl, E, x)
  {
    if Out(ctx.from, x).Fall? {
      var o := Out(Body(s, e), x);
      if o.Exit? {
        KeptExit(s.code, s1.code, tl, fl, o.at, o.regs, Eval(E, Out(ctx.from, x).regs).value);
      }
    }
  }

  lemma NotTest(ctx: Ctx, s: St, e: ExpDesc, tl: seq<int>, fl: seq<int>, E: Expr)
    requires Desc(ctx, s, e, tl, fl, E) && e.k == VJMP
    ensures var s1 := Wanting(s, !s.code[|s.code| - 2].want);
            Struct(ctx, s1, e, tl, fl) && forall x :: InScope(ctx, s.kst, x) ==> NotDeliv(ctx, s1, e, tl, fl, E, x)
  {
    var s1 := Wanting(s, !s.code[|s.code| - 2].want);
    WantingOK(ctx, s, e, tl, fl, !s.code[|s.code| - 2].want);
    assert Kept(s.code, s1.code, Elems(tl) + Elems(fl)) by {
      assert forall j :: j in Elems(tl) + Elems(fl) ==> j in s.pend;
    }
    forall x | InScope(ctx, s.kst, x) ensures NotDeliv(ctx, s1, e, tl, fl, E, x) {
      assert Deliv(ctx, s, e, tl, fl, E, -1, x);
      NotTestDeliv(ctx, s, e, tl, fl, E, s1, x);
    }
  }

  lemma NotRegCase(ctx: Ctx, s: St, e: ExpDesc, tl: seq<int>, fl: seq<int>, E: Expr, s1: St, e': ExpDesc, x: Start)
    requires Deliv(ctx, s, e, tl, fl, E, -1, x) && e.k == VNONRELOC && e'.k == VRELOCABLE
    requires |s1.code| >= 1 && s1.code[|s1.code| - 1] == Not(0, e.info)
    requires Out(Body(s1, e'), x) == Out(Now(s), x) && Kept(s.code, s1.code, Elems(tl) + Elems(fl))
    ensures NotDeliv(ctx, s1, e', tl, fl, E, x)
  {
    if Out(ctx.from, x).Fall? {
      var o := Out(Now(s), x);
      if o.Exit? {
        KeptExit(s.code, s1.code, tl, fl, o.at, o.regs, Eval(E, Out(ctx.from, x).regs).value);
      }
    }
  }

  /** A NOT of the register that holds the value. */
  lemma NotReg(ctx: Ctx, s: St, e: ExpDesc, tl: seq<int>, fl: seq<int>, E: Expr, e': ExpDesc)
    requires Core(ctx, s, e, tl, fl, E) && e.k == VNONRELOC
    requires e' == e.(k := VRELOCABLE, info := |s.code|)
    ensures var s1 := Emitted(s, [Not(0, e.info)], {});
            Struct(ctx, s1, e', tl, fl) && forall x :: InScope(ctx, s.kst, x) ==> NotDeliv(ctx, s1, e', tl, fl, E, x)
  {
    var t := [Not(0, e.info)];
    var s1 := Emitted(s, t, {});
    assert s1.code[|s.code|] == t[0];
    EmittedStruct(ctx, s, e, tl, fl, t, e');
    EmittedList(s, t, {}, e.t, tl);
    EmittedList(s, t, {}, e.f, fl);
    assert Body(s1, e') == Flow(Discharged(s), s.pend - Elems(s.here), {}) by {
      assert s1.code[..|s.code|] == Discharged(s);
    }
    forall x | InScope(ctx, s.kst, x) ensures NotDeliv(ctx, s1, e', tl, fl, E, x) {
      assert Deliv(ctx, s, e, tl, fl, E, -1, x);
      InScopeSafe(ctx, s, x);
      DischargedRun(s, x);
      NotRegCase(ctx, s, e, tl, fl, E, s1, e', x);
    }
  }

  // ---------- comparisons ----------

  /** The R/K operand for a value in a register or in the constant table. */
  predicate IsRK(e: ExpDesc, rk: int) {
    (e.k == VK && e.info <= MAXINDEXRK && rk == e.info + BITRK) || (e.k == VNONRELOC && rk == e.info)
  }

  /** The comparison emitted for an operator (lcode.c:1042-1057). */
  function CmpFor(op: BinOp, rk1: int, rk2: int): Instr
    requires op != And && op != Or
  {
    match op
    case Eq => Cmp(OpEQ, true, rk1, rk2)
    case Ne => Cmp(OpEQ, false, rk1, rk2)
    case Lt => Cmp(OpLT, true, rk1, rk2)
    case Le => Cmp(OpLE, true, rk1, rk2)
    case Gt => Cmp(OpLT, true, rk2, rk1)
    case Ge => Cmp(OpLE, true, rk2, rk1)
  }

  lemma CmpMeans(op: BinOp, rk1: int, rk2: int, kst: seq<Value>, R: Regs, x: Value, y: Value)
    requires op != And && op != Or && RK(kst, R, rk1) == Some(x) && RK(kst, R, rk2) == Some(y)
    ensures var i := CmpFor(op, rk1, rk2);
            (match CompareRK(i.op, kst, R, i.rkb, i.rkc) case None => None case Some(r) => Some(Bool(r == i.want))) ==
            (match Comparison(op, x, y) case None => None case Some(b) => Some(Bool(b)))
  {
  }

  /** An enclosing context still holds inside a nested one. */
  lemma NestedOuter(ctx: Ctx, s1: St, s: St)
    requires OuterOK(ctx, s1) && OuterOK(Here(s1), s) && Outer(ctx) <= Outer(Here(s1)) && s1.lt <= |s1.code|
    ensures OuterOK(ctx, s)
  {
    KeptTwice(ctx.from.code, s1.code, s.code, Outer(ctx));
  }

  lemma NestedScope(ctx: Ctx, s1: St, s: St, x: Start)
    requires OuterOK(ctx, s1) && s1.lt <= |s1.code| && s1.kst <= s.kst && InScope(ctx, s.kst, x)
    ensures InScope(Here(s1), s.kst, x) && InScope(ctx, s1.kst, x)
  {
    assert s1.kst <= x.kst;
  }

  lemma CompValue(e1: ExpDesc, e2: ExpDesc, c1: seq<Instr>, c2: seq<Instr>, kst: seq<Value>, R0: Regs, R1: Regs, R2: Regs, n: int,
                  l: Expr, r: Expr, op: BinOp, rk1: int, rk2: int, c': seq<Instr>, e': ExpDesc)
    requires op != And && op != Or && IsRK(e1, rk1) && IsRK(e2, rk2) && Agree(R1, R2, n, -1)
    requires if e1.k == VNONRELOC then 0 <= e1.info < n && e1.info < BITRK else 0 <= e1.info < |kst|
    requires if e2.k == VNONRELOC then 0 <= e2.info < BITRK else 0 <= e2.info < |kst|
    requires ValueOf(c1, e1, kst, R1) == Eval(l, R0) && ValueOf(c2, e2, kst, R2) == Eval(r, R0)
    requires e'.k == VJMP && |c'| >= 2 && c'[|c'| - 2] == CmpFor(op, rk1, rk2)
    ensures ValueOf(c', e', kst, R2) == Eval(EBin(op, l, r), R0)
  {
    OperandsHold(e1, e2, c1, c2, kst, R1, R2, n, rk1, rk2);
    var a, b := Eval(l, R0).value, Eval(r, R0).value;
    CmpMeans(op, rk1, rk2, kst, R2, a, b);
    assert Eval(EBin(op, l, r), R0) == (match Comparison(op, a, b) case None => None case Some(v) => Some(Bool(v)));
  }

  /** Both operands in place, then the comparison. */
  lemma CompDeliv(ctx: Ctx, s1: St, e1: ExpDesc, l: Expr, s: St, e2: ExpDesc, r: Expr, op: BinOp, rk1: int, rk2: int,
                  s': St, e': ExpDesc, x: Start)
    requires op != And && op != Or && IsRK(e1, rk1) && IsRK(e2, rk2) && KindOK(s1, e1) && KindOK(s, e2)
    requires s1.kst <= x.kst && s.kst <= x.kst
    requires Deliv(ctx, s1, e1, [], [], l, -1, x) && Deliv(Here(s1), s, e2, [], [], r, -1, x)
    requires LocalsBelow(r, ctx.base) && ctx.base <= s1.freereg
    requires e1.k == VNONRELOC ==> 0 <= e1.info < s1.freereg
    requires e'.k == VJMP && |s'.code| >= 2 && s'.code[|s'.code| - 2] == CmpFor(op, rk1, rk2)
    requires Out(Body(s', e'), x) == Out(Now(s), x)
    ensures Deliv(ctx, s', e', [], [], EBin(op, l, r), -1, x)
  {
    assert Body(s1, e1) == Now(s1) && Body(s, e2) == Now(s);
    var E := EBin(op, l, r);
    if Out(ctx.from, x).Fall? {
      var R0 := Out(ctx.from, x).regs;
      var o1, o := Out(Now(s1), x), Out(Now(s), x);
      EvalStrict(op, l, r, R0);
      if o1.Fall? {
        EvalAgree(r, R0, o1.regs, ctx.base, ctx.base);
        if o.Fall? {
          CompValue(e1, e2, s1.code, s.code, x.kst, R0, o1.regs, o.regs, s1.freereg, l, r, op, rk1, rk2, s'.code, e');
          assert Agree(R0, o.regs, ctx.base, -1);
        } else {
          assert !o.Exit? && o.Fail?;
        }
      } else {
        assert !o1.Exit? && o1.Fail?;
      }
    }
  }

  /** A comparison fails when an operand does. */
  lemma EvalStrict(op: BinOp, l: Expr, r: Expr, R: Regs)
    requires op != And && op != Or
    ensures Eval(l, R).None? || Eval(r, R).None? ==> Eval(EBin(op, l, r), R).None?
  {
  }

  lemma OperandsHold(e1: ExpDesc, e2: ExpDesc, c1: seq<Instr>, c2: seq<Instr>, kst: seq<Value>, R1: Regs, R2: Regs, n: int,
                     rk1: int, rk2: int)
    requires IsRK(e1, rk1) && IsRK(e2, rk2) && Agree(R1, R2, n, -1)
    requires if e1.k == VNONRELOC then 0 <= e1.info < n && e1.info < BITRK else 0 <= e1.info < |kst|
    requires if e2.k == VNONRELOC then 0 <= e2.info < BITRK else 0 <= e2.info < |kst|
    ensures RK(kst, R2, rk1) == ValueOf(c1, e1, kst, R1) && RK(kst, R2, rk1).Some?
    ensures RK(kst, R2, rk2) == ValueOf(c2, e2, kst, R2) && RK(kst, R2, rk2).Some?
  {
  }

  lemma CompBuilt(ctx: Ctx, s1: St, e1: ExpDesc, s: St, e2: ExpDesc, i: Instr, e': ExpDesc)
    requires Struct(ctx, s1, e1, [], []) && Struct(Here(s1), s, e2, [], []) && e1.k != VJMP && e2.k != VJMP
    requires i.Cmp? && e' == ExpDesc(VJMP, |s.code| + 1, e'.ival, NO_JUMP, NO_JUMP)
    ensures Struct(ctx, CondEmitted(s, i), e', [], []) && OuterOK(ctx, s) && CondEmitted(s, i).code[|s.code|] == i
  {
    CompOuter(ctx, s1, e1, s, e2);
    CondOK(ctx, s, i, NO_JUMP, [], NO_JUMP, []);
    CompStruct(ctx, s, CondEmitted(s, i), e');
  }

  lemma CompDesc(ctx: Ctx, s1: St, e1: ExpDesc, l: Expr, s: St, e2: ExpDesc, r: Expr, op: BinOp, rk1: int, rk2: int, e': ExpDesc)
    requires op != And && op != Or && IsRK(e1, rk1) && IsRK(e2, rk2)
    requires Desc(ctx, s1, e1, [], [], l) && Core(Here(s1), s, e2, [], [], r)
    requires s1.kst <= s.kst && s.nact == s1.nact && s.freereg == ctx.base && LocalsBelow(r, s1.nact)
    requires e' == ExpDesc(VJMP, |s.code| + 1, e'.ival, NO_JUMP, NO_JUMP)
    ensures Desc(ctx, CondEmitted(s, CmpFor(op, rk1, rk2)), e', [], [], EBin(op, l, r))
  {
    var s' := CondEmitted(s, CmpFor(op, rk1, rk2));
    CompBuilt(ctx, s1, e1, s, e2, CmpFor(op, rk1, rk2), e');
    forall x | InScope(ctx, s'.kst, x) ensures Deliv(ctx, s', e', [], [], EBin(op, l, r), -1, x) {
      CompStart(ctx, s1, e1, l, s, e2, r, op, rk1, rk2, e', x);
    }
  }

  lemma CompStart(ctx: Ctx, s1: St, e1: ExpDesc, l: Expr, s: St, e2: ExpDesc, r: Expr, op: BinOp, rk1: int, rk2: int, e': ExpDesc, x: Start)
    requires op != And && op != Or && IsRK(e1, rk1) && IsRK(e2, rk2)
    requires Desc(ctx, s1, e1, [], [], l) && Core(Here(s1), s, e2, [], [], r) && OuterOK(ctx, s)
    requires s1.kst <= s.kst && LocalsBelow(r, s1.nact) && e'.k == VJMP && InScope(ctx, s.kst, x)
    requires var s' := CondEmitted(s, CmpFor(op, rk1, rk2)); s'.code[|s.code|] == CmpFor(op, rk1, rk2)
    ensures Deliv(ctx, CondEmitted(s, CmpFor(op, rk1, rk2)), e', [], [], EBin(op, l, r), -1, x)
  {
    NestedScope(ctx, s1, s, x);
    assert Deliv(ctx, s1, e1, [], [], l, -1, x) && Deliv(Here(s1), s, e2, [], [], r, -1, x);
    InScopeSafe(ctx, s, x);
    DischargedRun(s, x);
    CompBody(s, CmpFor(op, rk1, rk2), e');
    EvalBelow(r, s1.nact, ctx.base);
    CompDeliv(ctx, s1, e1, l, s, e2, r, op, rk1, rk2, CondEmitted(s, CmpFor(op, rk1, rk2)), e', x);
  }

  lemma CompOuter(ctx: Ctx, s1: St, e1: ExpDesc, s: St, e2: ExpDesc)
    requires Struct(ctx, s1, e1, [], []) && Struct(Here(s1), s, e2, [], [])
    requires e1.k != VJMP && e2.k != VJMP
    ensures OuterOK(ctx, s) && s.pend == Outer(ctx) + Elems(s.here) && Outer(ctx) !! Elems(s.here)
  {
    assert Outer(Here(s1)) == Outer(ctx);
    NestedOuter(ctx, s1, s);
  }

  lemma CompBody(s: St, i: Instr, e': ExpDesc)
    requires StOK(s) && e'.k == VJMP
    ensures Body(CondEmitted(s, i), e') == Flow(Discharged(s), s.pend - Elems(s.here), {})
  {
    var s' := CondEmitted(s, i);
    assert s'.code[..|s.code|] == Discharged(s);
    assert forall j :: j in s.pend ==> j < |s.code|;
    assert s'.pend - {|s'.code| - 1} == s.pend - Elems(s.here);
  }

  lemma CompStruct(ctx: Ctx, s: St, s': St, e': ExpDesc)
    requires StOK(s) && StOK(s') && OuterOK(ctx, s') && e' == ExpDesc(VJMP, |s.code| + 1, e'.ival, NO_JUMP, NO_JUMP)
    requires s.pend == Outer(ctx) + Elems(s.here) && Outer(ctx) !! Elems(s.here)
    requires |s'.code| == |s.code| + 2 && s'.code[|s.code|].Cmp? && s'.code[|s.code| + 1] == Jmp(NO_JUMP)
    requires s'.here == [] && s'.pend == (s.pend - Elems(s.here)) + {|s.code| + 1} && s'.lt == s.lt
    ensures Struct(ctx, s', e', [], [])
  {
    assert forall j :: j in s.pend ==> j < |s.code|;
  }

  lemma {:induction false} EvalBelow(E: Expr, n: int, m: int)
    requires LocalsBelow(E, n) && n <= m
    ensures LocalsBelow(E, m)
  {
    match E
    case ENot(a) => EvalBelow(a, n, m);
    case EParen(a) => EvalBelow(a, n, m);
    case EBin(_, l, r) => EvalBelow(l, n, m); EvalBelow(r, n, m);
    case _ =>
  }

  // ---------- short circuit ----------

  /** 's' with the list 'a' of the second operand continued by the first one's. */
  function Joined(s: St, a: seq<int>, xl: seq<int>): St {
    s.(code := Linked(s.code, a, xl))
  }

  lemma JoinedBody(ctx2: Ctx, s: St, e: ExpDesc, tl: seq<int>, fl: seq<int>, l: int, a: seq<int>, xl: seq<int>, x: Start)
    requires Struct(ctx2, s, e, tl, fl) && (a == tl || a == fl) && IsList(s.code, l, a)
    ensures Body(Joined(s, a, xl), e).pend == Body(s, e).pend
    ensures Out(Body(Joined(s, a, xl), e), x) == Out(Body(s, e), x)
    ensures forall R :: ValueOf(Joined(s, a, xl).code, e, x.kst, R) == ValueOf(s.code, e, x.kst, R)
  {
    hide Run, WF, OuterOK, IsList, CompareRK;
    var s' := Joined(s, a, xl);
    LinkedOK(s.code, s.pend, s.lt, l, a, xl);
    RelinkedBody(s, s'.code, e, x);
    if e.k == VJMP {
      assert s'.code[|s.code| - 2] == s.code[|s.code| - 2];
    } else if e.k == VRELOCABLE {
      assert s'.code[|s.code| - 1] == s.code[|s.code| - 1];
    }
    ValueKept(s.code, s'.code, e, e, x.kst);
  }

  lemma RelinkedBody(s: St, c: seq<Instr>, e: ExpDesc, x: Start)
    requires SameButLinks(s.code, c, s.pend)
    ensures Out(Body(s.(code := c), e), x) == Out(Body(s, e), x)
  {
    var b, b' := Body(s, e), Body(s.(code := c), e);
    forall q | 0 <= q < |b.code|
      ensures b'.code[q] == b.code[q] || (q in b.pend && b.code[q].Jmp? && b'.code[q].Jmp?)
    {
      assert c[q] == s.code[q] || (q in s.pend && s.code[q].Jmp? && c[q].Jmp?);
    }
    RelinkRun(b.code, b'.code, b.pend, x.kst, x.p, x.regs);
  }

  lemma JoinedParts(ctx: Ctx, ctx2: Ctx, s: St, e: ExpDesc, la: int, a: seq<int>, lc: int, c: seq<int>, xl: seq<int>)
    requires StOK(s) && OuterOK(ctx, s) && KindOK(s, e) && IsList(s.code, la, a) && IsList(s.code, lc, c)
    requires Elems(a) <= s.pend && Elems(c) <= s.pend && Outer(ctx) <= s.pend
    requires Outer(ctx) !! Elems(a) !! Elems(c) !! Elems(s.here) !! JmpSet(s, e)
    ensures var s' := Joined(s, a, xl);
            StOK(s') && OuterOK(ctx, s') && KindOK(s', e) && IsList(s'.code, lc, c)
  {
    var s' := Joined(s, a, xl);
    LinkedOK(s.code, s.pend, s.lt, la, a, xl);
    assert forall j :: j in Elems(c) + Elems(s.here) + Outer(ctx) ==> j in s.pend - Elems(a);
    ListKept(s.code, s'.code, lc, c);
    ListKept(s.code, s'.code, s.jpc, s.here);
    KeptOuter(ctx, s, s');
    JoinedKind(s, e, a, xl);
  }

  lemma JoinedAnd(ctx: Ctx, ctx2: Ctx, s: St, e: ExpDesc, tl: seq<int>, fl: seq<int>, xl: seq<int>, l': int)
    requires Struct(ctx2, s, e, tl, fl) && OuterOK(ctx, s)
    requires Outer(ctx2) == Outer(ctx) + Elems(xl) && Outer(ctx) !! Elems(xl)
    requires IsList(Joined(s, fl, xl).code, l', fl + xl)
    ensures Struct(ctx, Joined(s, fl, xl), e.(f := l'), tl, fl + xl)
  {
    ElemsConcat(fl, xl);
    JoinedParts(ctx, ctx2, s, e, e.f, fl, e.t, tl, xl);
    assert JmpSet(Joined(s, fl, xl), e.(f := l')) == JmpSet(s, e);
  }

  lemma JoinedOr(ctx: Ctx, ctx2: Ctx, s: St, e: ExpDesc, tl: seq<int>, fl: seq<int>, xl: seq<int>, l': int)
    requires Struct(ctx2, s, e, tl, fl) && OuterOK(ctx, s)
    requires Outer(ctx2) == Outer(ctx) + Elems(xl) && Outer(ctx) !! Elems(xl)
    requires IsList(Joined(s, tl, xl).code, l', tl + xl)
    ensures Struct(ctx, Joined(s, tl, xl), e.(t := l'), tl + xl, fl)
  {
    ElemsConcat(tl, xl);
    JoinedParts(ctx, ctx2, s, e, e.t, tl, e.f, fl, xl);
    assert JmpSet(Joined(s, tl, xl), e.(t := l')) == JmpSet(s, e);
  }

  lemma JoinedKind(s: St, e: ExpDesc, a: seq<int>, xl: seq<int>)
    requires StOK(s) && KindOK(s, e) && Elems(a) <= s.pend && Elems(a) !! JmpSet(s, e)
    ensures KindOK(Joined(s, a, xl), e)
  {
    if a != [] {
      assert a[|a| - 1] in Elems(a);
    }
  }

  /** Short circuit: the second operand after the first one let it. */
  lemma BothDesc(ctx: Ctx, s1: St, isAnd: bool, l1: int, xl: seq<int>, l: Expr, s: St, e: ExpDesc,
                 tl: seq<int>, fl: seq<int>, r: Expr, l': int)
    requires Guard(ctx, s1, isAnd, l1, xl, l) && Desc(Here(s1), s, e, tl, fl, r)
    requires s1.kst <= s.kst && s.nact == s1.nact
    requires var a := if isAnd then fl else tl; IsList(Joined(s, a, xl).code, l', a + xl)
    ensures var a := if isAnd then fl else tl;
            Desc(ctx, Joined(s, a, xl), if isAnd then e.(f := l') else e.(t := l'),
                 if isAnd then tl else tl + xl, if isAnd then fl + xl else fl, EBin(if isAnd then And else Or, l, r))
  {
    hide WF, IsList, InstrOK, Run, Linked, Comparison, Compare;
    var a := if isAnd then fl else tl;
    var op := if isAnd then And else Or;
    var s' := Joined(s, a, xl);
    var e' := if isAnd then e.(f := l') else e.(t := l');
    var tl', fl' := if isAnd then tl else tl + xl, if isAnd then fl + xl else fl;
    assert Outer(Here(s1)) == Outer(ctx) + Elems(xl);
    NestedOuter(ctx, s1, s);
    if isAnd {
      JoinedAnd(ctx, Here(s1), s, e, tl, fl, xl, l');
    } else {
      JoinedOr(ctx, Here(s1), s, e, tl, fl, xl, l');
    }
    EvalBelow(r, s.nact, ctx.base);
    LinkedOK(s.code, s.pend, s.lt, if isAnd then e.f else e.t, a, xl);
    forall x | InScope(ctx, s'.kst, x) ensures Deliv(ctx, s', e', tl', fl', EBin(op, l, r), -1, x) {
      NestedScope(ctx, s1, s, x);
      assert Goes(ctx, s1, isAnd, xl, l, x) && Deliv(Here(s1), s, e, tl, fl, r, -1, x);
      JoinedBody(Here(s1), s, e, tl, fl, if isAnd then e.f else e.t, a, xl, x);
      assert forall j :: j in xl ==> j in Elems(xl);
      BothDeliv(ctx, s1, op, xl, l, Here(s1), s, e, tl, fl, r, s', tl', fl', x);
      SameBody(ctx, s', e, e', tl', fl', EBin(op, l, r), x);
    }
  }

  lemma SameBody(ctx: Ctx, s: St, e: ExpDesc, e': ExpDesc, tl: seq<int>, fl: seq<int>, E: Expr, x: Start)
    requires Deliv(ctx, s, e, tl, fl, E, -1, x) && e'.k == e.k && e'.info == e.info && e'.ival == e.ival
    ensures Deliv(ctx, s, e', tl, fl, E, -1, x)
  {
  }

  // ---------- registers ----------

  /** Reserving or freeing registers changes no meaning. */
  lemma Rereg(ctx: Ctx, s: St, e: ExpDesc, tl: seq<int>, fl: seq<int>, E: Expr, w: int, s': St)
    requires Struct(ctx, s, e, tl, fl) && Meaning(ctx, s, e, tl, fl, E, w)
    requires s' == s.(freereg := s'.freereg, maxstack := s'.maxstack) && s.nact <= s'.freereg <= s'.maxstack < MAXREGS
    ensures Struct(ctx, s', e, tl, fl) && Meaning(ctx, s', e, tl, fl, E, w)
  {
    forall x | InScope(ctx, s'.kst, x) ensures Deliv(ctx, s', e, tl, fl, E, w, x) {
      assert Deliv(ctx, s, e, tl, fl, E, w, x);
      assert Body(s', e) == Body(s, e);
    }
  }

  /** A finished expression in register 'base' or above. */
  lemma FinishedDesc(ctx: Ctx, s: St, e: ExpDesc, E: Expr, reg: int)
    requires Struct(ctx, s, e, [], []) && Meaning(ctx, s, e, [], [], E, reg) && LocalsBelow(E, s.nact)
    requires e.k == VNONRELOC && e.info == reg == ctx.base && s.nact <= ctx.base && s.freereg == ctx.base + 1
    ensures Desc(ctx, s, e, [], [], E)
  {
    PlacedAbove(ctx, s, e, [], [], E, reg);
  }

  /** 'e' is not a constant that could be false. */
  predicate NoFalseK(e: ExpDesc, kst: seq<Value>) {
    e.k == VK ==> 0 <= e.info < |kst| && Truthy(kst[e.info])
  }

  // ---------- what the methods need to know ----------

  lemma CloseLists(ctx: Ctx, s: St, goesOn: bool, xh: int, xl: seq<int>, ah: int, al: seq<int>, pc: int, E: Expr)
    requires Forked(ctx, s, goesOn, xh, xl, ah, al, pc, E)
    ensures forall j :: j in xl ==> j !in One(pc)
    ensures forall j :: j in s.here ==> j !in al
    ensures var c := Linked(s.code, xl, One(pc)); IsList(c, s.jpc, s.here) && IsList(c, ah, al)
  {
    var c := Linked(s.code, xl, One(pc));
    LinkedOK(s.code, s.pend, s.lt, xh, xl, One(pc));
    forall j | j in xl ensures j !in One(pc) {
      assert j in Elems(xl) && j !in Elems(One(pc));
    }
    forall j | j in s.here ensures j !in al && c[j] == s.code[j] {
      assert j in Elems(s.here) && j !in Elems(al) && j in s.pend - Elems(xl);
    }
    forall j | j in al ensures c[j] == s.code[j] {
      assert j in Elems(al) && j in s.pend - Elems(xl);
    }
    ListKept(s.code, c, s.jpc, s.here);
    ListKept(s.code, c, ah, al);
  }

  lemma WantingSame(s: St)
    requires |s.code| >= 2 && s.code[|s.code| - 2].Cmp?
    ensures Wanting(s, s.code[|s.code| - 2].want) == s
  {
  }

  lemma NotConstant(ctx: Ctx, s: St, e: ExpDesc, tl: seq<int>, fl: seq<int>, E: Expr)
    requires Desc(ctx, s, e, tl, fl, E)
    requires e.k == VNIL || e.k == VFALSE || e.k == VTRUE || e.k == VKINT || (e.k == VK && Truthy(s.kst[e.info]))
    ensures Struct(ctx, s, NotConst(e), tl, fl)
    ensures forall x :: InScope(ctx, s.kst, x) ==> NotDeliv(ctx, s, NotConst(e), tl, fl, E, x)
  {
    forall x | InScope(ctx, s.kst, x) ensures NotDeliv(ctx, s, NotConst(e), tl, fl, E, x) {
      assert Deliv(ctx, s, e, tl, fl, E, -1, x);
      NotConstDeliv(ctx, s, e, tl, fl, E, x);
    }
  }

  /** The second list is still there once the first one is silent. */
  lemma SilencedStruct1(ctx: Ctx, s: St, e: ExpDesc, tl: seq<int>, fl: seq<int>)
    requires Struct(ctx, s, e, tl, fl)
    ensures IsList(Silence(s.code, Elems(tl)), e.f, fl)
  {
    SilenceWF(s.code, s.pend, s.lt, Elems(tl));
    ListKept(s.code, Silence(s.code, Elems(tl)), e.f, fl);
  }

  /** A register is reserved and the value goes there (lcode.c:643-644). */
  lemma AnyRegDesc(ctx: Ctx, s0: St, e: ExpDesc, tl: seq<int>, fl: seq<int>, E: Expr, s1: St, s2: St, e': ExpDesc)
    requires Desc(ctx, s0, e, tl, fl, E) && e.k != VJMP && e.k != VLOCAL && e.k != VNONRELOC
    requires s1 == s0.(freereg := s0.freereg + 1, maxstack := s1.maxstack) && s1.freereg <= s1.maxstack < MAXREGS
    requires Placing(s1, e, s1.freereg - 1, s2) && e' == e.(k := VNONRELOC, info := s1.freereg - 1)
    ensures Desc(ctx, s2, e', tl, fl, E) && s0.kst <= s2.kst && s2.nact == s0.nact
  {
    hide Meaning, WF, IsList, OuterOK, LocalsBelow;
    Rereg(ctx, s0, e, tl, fl, E, -1, s1);
    PlacedDesc(ctx, s1, e, tl, fl, E, s1.freereg - 1, s2);
    PlacedAbove(ctx, s2, e', tl, fl, E, s1.freereg - 1);
    PlacingSame(s1, e, s1.freereg - 1, s2);
  }

  lemma PlacingSame(s: St, e: ExpDesc, reg: int, s': St)
    requires Placing(s, e, reg, s')
    ensures s.kst <= s'.kst && s'.nact == s.nact && s'.freereg == s.freereg && s'.maxstack == s.maxstack
  {
  }

  lemma RelocForks(ctx: Ctx, s: St, e: ExpDesc, tl: seq<int>, fl: seq<int>, E: Expr, goesOn: bool)
    requires Desc(ctx, s, e, tl, fl, E) && e.k == VRELOCABLE
    ensures var b := CutLast(s);
            IsList(b.code, b.jpc, b.here) &&
            Forked(ctx, CondEmitted(b, Test(s.code[e.info].b, goesOn)), goesOn, if goesOn then e.f else e.t, Leaving(goesOn, tl, fl),
                   if goesOn then e.t else e.f, Leaving(!goesOn, tl, fl), |b.code| + 1, E)
  {
    RelocTestable(ctx, s, e, tl, fl, E, goesOn);
    CondForks(ctx, s, e, tl, fl, E, goesOn, CutLast(s), Test(s.code[e.info].b, goesOn));
  }

  lemma RegForks(ctx: Ctx, s0: St, e: ExpDesc, tl: seq<int>, fl: seq<int>, E: Expr, goesOn: bool, s: St)
    requires Desc(ctx, s0, e, tl, fl, E) && e.k == VNONRELOC && s == s0.(freereg := ctx.base)
    ensures Forked(ctx, CondEmitted(s, TestSet(NO_REG, e.info, !goesOn)), goesOn, if goesOn then e.f else e.t, Leaving(goesOn, tl, fl),
                   if goesOn then e.t else e.f, Leaving(!goesOn, tl, fl), |s.code| + 1, E)
  {
    Rereg(ctx, s0, e, tl, fl, E, -1, s);
    RegTestable(ctx, s, e, tl, fl, E, goesOn);
    CondForks(ctx, s, e, tl, fl, E, goesOn, s, TestSet(NO_REG, e.info, !goesOn));
  }

  /** Ready to be negated: 'e' stands for the negation, the lists are still those of 'E'. */
  ghost predicate Negating(ctx: Ctx, s: St, e: ExpDesc, tl: seq<int>, fl: seq<int>, E: Expr) {
    && Struct(ctx, s, e, tl, fl) && RegsOK(ctx, s, e) && LocalsBelow(E, s.nact)
    && forall x :: InScope(ctx, s.kst, x) ==> NotDeliv(ctx, s, e, tl, fl, E, x)
  }

  lemma NegatingReg(ctx: Ctx, s0: St, e: ExpDesc, tl: seq<int>, fl: seq<int>, E: Expr, s: St, e': ExpDesc)
    requires Desc(ctx, s0, e, tl, fl, E) && e.k == VNONRELOC && s == s0.(freereg := ctx.base)
    requires e' == e.(k := VRELOCABLE, info := |s.code|)
    ensures Negating(ctx, Emitted(s, [Not(0, e.info)], {}), e', tl, fl, E)
  {
    Rereg(ctx, s0, e, tl, fl, E, -1, s);
    NotReg(ctx, s, e, tl, fl, E, e');
  }

  lemma NegatingTest(ctx: Ctx, s: St, e: ExpDesc, tl: seq<int>, fl: seq<int>, E: Expr)
    requires Desc(ctx, s, e, tl, fl, E) && e.k == VJMP
    ensures Negating(ctx, Wanting(s, !s.code[|s.code| - 2].want), e, tl, fl, E)
  {
    NotTest(ctx, s, e, tl, fl, E);
  }

  lemma NegatingConst(ctx: Ctx, s: St, e: ExpDesc, tl: seq<int>, fl: seq<int>, E: Expr)
    requires Desc(ctx, s, e, tl, fl, E)
    requires e.k == VNIL || e.k == VFALSE || e.k == VTRUE || e.k == VKINT || (e.k == VK && Truthy(s.kst[e.info]))
    ensures Negating(ctx, s, NotConst(e), tl, fl, E)
  {
    NotConstant(ctx, s, e, tl, fl, E);
  }

  lemma NegatedDesc(ctx: Ctx, s: St, e: ExpDesc, tl: seq<int>, fl: seq<int>, E: Expr)
    requires Negating(ctx, s, e, tl, fl, E)
    ensures Desc(ctx, Silenced(s, tl, fl), e.(t := e.f, f := e.t), fl, tl, ENot(E))
    ensures IsList(s.code, e.t, tl) && IsList(Silence(s.code, Elems(tl)), e.f, fl)
    ensures Silence(Silence(s.code, Elems(tl)), Elems(fl)) == Silenced(s, tl, fl).code
  {
    NotMeaning(ctx, s, e, tl, fl, E);
    SilenceTwice(s.code, Elems(tl), Elems(fl));
    SilencedStruct1(ctx, s, e, tl, fl);
  }

  /** The plain facts in a description. */
  lemma DescFacts(ctx: Ctx, s: St, e: ExpDesc, tl: seq<int>, fl: seq<int>, E: Expr)
    requires Desc(ctx, s, e, tl, fl, E)
    ensures IsList(s.code, s.jpc, s.here) && IsList(s.code, e.t, tl) && IsList(s.code, e.f, fl)
    ensures forall j :: j in tl ==> j !in fl
    ensures s.lt >= 0 && 0 <= s.nact <= ctx.base <= s.freereg <= s.maxstack < MAXREGS
    ensures KindOK(s, e) && RegsOK(ctx, s, e)
  {
    assert forall j :: j in tl ==> j in Elems(tl);
    assert forall j :: j in fl ==> j in Elems(fl);
  }

  /** The list of the first operand is still there after the second one. */
  lemma OperandList(ctx: Ctx, s1: St, isAnd: bool, l1: int, xl: seq<int>, l: Expr, s: St, e: ExpDesc,
                    tl: seq<int>, fl: seq<int>, r: Expr)
    requires Guard(ctx, s1, isAnd, l1, xl, l) && Desc(Here(s1), s, e, tl, fl, r)
    ensures IsList(s.code, l1, xl)
    ensures forall j :: j in tl || j in fl ==> j !in xl
  {
    var o := Outer(Here(s1));
    forall j | j in xl ensures s.code[j] == s1.code[j] {
      assert j in Elems(xl) && j in o;
    }
    ListKept(s1.code, s.code, l1, xl);
    forall j | j in tl || j in fl ensures j !in xl {
      assert j in xl ==> j in Elems(xl) && j in o;
      assert j in Elems(tl) || j in Elems(fl);
    }
  }

  /** The operands of a comparison are free again (lcode.c:1041). */
  lemma CompRegs(ctx: Ctx, s1: St, e1: ExpDesc, l: Expr, s: St, e2: ExpDesc, r: Expr, s': St)
    requires Desc(ctx, s1, e1, [], [], l) && Desc(Here(s1), s, e2, [], [], r) && s.nact == s1.nact
    requires s' == s.(freereg := ctx.base)
    ensures Core(Here(s1), s', e2, [], [], r)
  {
    Rereg(Here(s1), s, e2, [], [], r, -1, s');
  }

  /** 'v' is a constant with a small index or a register. */
  predicate InRK(v: ExpDesc) {
    (v.k == VK && v.info <= MAXINDEXRK) || v.k == VNONRELOC
  }

  lemma CompLists(ctx: Ctx, s1: St, e1: ExpDesc, l: Expr)
    requires Desc(ctx, s1, e1, [], [], l)
    ensures e1.t == NO_JUMP && e1.f == NO_JUMP
  {
  }

  lemma ParenDesc(ctx: Ctx, s: St, e: ExpDesc, tl: seq<int>, fl: seq<int>, E: Expr)
    requires Desc(ctx, s, e, tl, fl, E)
    ensures Desc(ctx, s, e, tl, fl, EParen(E))
  {
    forall x | InScope(ctx, s.kst, x) ensures Deliv(ctx, s, e, tl, fl, EParen(E), -1, x) {
      assert Deliv(ctx, s, e, tl, fl, E, -1, x);
    }
  }

  lemma ConstGrown(s: St, s': St)
    requires StOK(s) && s' == s.(kst := s'.kst)
    ensures StOK(s') && Here(s') == Here(s)
  {
  }

  lemma InfixOK(ctx: Ctx, s: St, op: BinOp, v: ExpDesc, xl: seq<int>, E: Expr)
    requires op == And ==> Guard(ctx, s, true, v.f, xl, E)
    requires op == Or ==> Guard(ctx, s, false, v.t, xl, E)
    requires op != And && op != Or ==> Desc(ctx, s, v, [], [], E)
    ensures StOK(s) && s.freereg <= ctx.base + 1
  {
  }

  lemma FreshOK(s: St)
    requires s.code == [] && s.pend == {} && s.here == [] && s.jpc == NO_JUMP && s.lt == 0
    requires 0 <= s.nact == s.freereg <= s.maxstack < MAXREGS
    ensures StOK(s)
  {
  }

  // ---------- finished code ----------

  /** How a finished function ends. */
  datatype Finish = Returned(value: Value, regs: Regs) | Raised | Broken

  /** The machine: finished code has no pending jumps, and every TESTSET stores. */
  function Exec(code: seq<Instr>, kst: seq<Value>, p: int, R: Regs): Finish
    decreases |code| - p
  {
    if !(0 <= p < |code|) then Broken
    else if code[p].Return? then Returned(Get(R, code[p].a), R)
    else if code[p].TestSet? && code[p].a == NO_REG then Broken
    else
      match Step(code, {}, kst, p, R)
      case Goto(q, R') => if p < q then Exec(code, kst, q, R') else Broken
      case Leave(_, _) => Broken
      case Crash => Raised
      case Bad => Broken
  }

  /** The machine agrees with the meaning used to build the code, up to the final
      return. */
  lemma {:induction false} ExecRun(code: seq<Instr>, lt: int, first: int, kst: seq<Value>, p: int, R: Regs)
    requires WF(code, {}, lt) && 0 <= p <= |code| && !Run(code, {}, kst, p, R).Stuck?
    ensures Exec(code + [Return(first)], kst, p, R) ==
            (match Run(code, {}, kst, p, R)
             case Fall(R') => Returned(Get(R', first), R')
             case Fail => Raised
             case _ => Broken)
    decreases |code| - p
  {
    var c := code + [Return(first)];
    if p < |code| {
      StepLands(code, {}, lt, kst, p, R);
      assert InstrOK(code, {}, lt, p);
      assert c[p] == code[p];
      if p + 1 < |code| {
        assert c[p + 1] == code[p + 1];
      }
      assert Step(c, {}, kst, p, R) == Step(code, {}, kst, p, R);
      LeavesAhead(code, {}, kst, p, R);
      match Step(code, {}, kst, p, R)
      case Goto(q, R') => ExecRun(code, lt, first, kst, q, R');
      case _ =>
    }
  }

  lemma ReturnsValue(s0: St, s: St, e: ExpDesc, E: Expr, code: seq<Instr>, kst: seq<Value>, R: Regs)
    requires s0.code == [] && s0.pend == {} && s0.here == [] && s0.lt == 0 && s0.nact <= s0.freereg
    requires Desc(Here(s0), s, e, [], [], E) && e.k == VNONRELOC
    requires code == Discharged(s) + [Return(e.info)] && kst == s.kst
    ensures match Eval(E, R)
            case None => Exec(code, kst, 0, R) == Raised
            case Some(v) => Exec(code, kst, 0, R).Returned? && Exec(code, kst, 0, R).value == v
                            && Agree(R, Exec(code, kst, 0, R).regs, s0.freereg, -1)
  {
    var x := Start(0, R, kst);
    assert Out(Now(s0), x) == Fall(R);
    assert InScope(Here(s0), s.kst, x);
    assert Deliv(Here(s0), s, e, [], [], E, -1, x);
    DischargedOK(s);
    DischargedRun(s, x);
    assert s.pend - Elems(s.here) == {};
    ExecRun(Discharged(s), s.lt, e.info, kst, 0, R);
  }

  lemma ReregCore(ctx: Ctx, s: St, e: ExpDesc, tl: seq<int>, fl: seq<int>, E: Expr, s': St)
    requires Desc(ctx, s, e, tl, fl, E)
    requires s' == s.(freereg := s'.freereg, maxstack := s'.maxstack) && s.nact <= s'.freereg <= s'.maxstack < MAXREGS
    ensures Core(ctx, s', e, tl, fl, E) && LocalsBelow(E, s'.nact)
  {
    Rereg(ctx, s, e, tl, fl, E, -1, s');
  }

  lemma StructFacts(ctx: Ctx, s: St, e: ExpDesc, tl: seq<int>, fl: seq<int>)
    requires Struct(ctx, s, e, tl, fl)
    ensures IsList(s.code, s.jpc, s.here) && IsList(s.code, e.t, tl) && IsList(s.code, e.f, fl) && Elems(tl) !! Elems(fl)
    ensures WF(s.code, s.pend, s.lt) && s.lt >= 0 && KindOK(s, e) && Elems(tl) <= s.pend && Elems(fl) <= s.pend
    ensures forall j :: j in WithTest(e, tl) ==> j !in fl
    ensures e.k == VJMP ==> e.info !in tl
  {
    forall j | j in WithTest(e, tl) ensures j !in fl {
      assert j in Elems(tl) || j in JmpSet(s, e);
      assert j in fl ==> j in Elems(fl);
    }
    assert e.info in tl ==> e.info in Elems(tl);
  }

  lemma ConstantDesc(ctx: Ctx, s: St, e: ExpDesc, tl: seq<int>, fl: seq<int>, E: Expr, k': seq<Value>, idx: int)
    requires Desc(ctx, s, e, tl, fl, E) && (e.k == VNIL || e.k == VTRUE || e.k == VFALSE || e.k == VKINT)
    requires s.kst <= k' && 0 <= idx < |k'| && k'[idx] == ConstOf(e)
    ensures Desc(ctx, s.(kst := k'), e.(k := VK, info := idx), tl, fl, E)
  {
    hide WF, IsList, OuterOK, Meaning, LocalsBelow;
    ToConstant(ctx, s, e, tl, fl, E, k', idx);
  }
}
