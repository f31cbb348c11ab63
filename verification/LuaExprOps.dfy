/** What each operation on expression descriptors preserves (apps/lua/lcode.c:595-1138). */
module LuaExprOps {
  import opened LuaOpcodes
  import opened LuaFlow
  import opened LuaExprSpec
  import opened LuaEmit
  import opened LuaExprProofs

  /** A description, leaving aside which registers are free. */
  ghost predicate Core(ctx: Ctx, s: St, e: ExpDesc, tl: seq<int>, fl: seq<int>, E: Expr) {
    && Struct(ctx, s, e, tl, fl)
    && Meaning(ctx, s, e, tl, fl, E, -1)
    && LocalsBelow(E, s.nact) && s.nact <= ctx.base
  }

  function DischargedVars(e: ExpDesc): ExpDesc {
    if e.k == VLOCAL then e.(k := VNONRELOC) else e
  }

  lemma VarsDesc(ctx: Ctx, s: St, e: ExpDesc, tl: seq<int>, fl: seq<int>, E: Expr)
    requires Desc(ctx, s, e, tl, fl, E)
    ensures Desc(ctx, s, DischargedVars(e), tl, fl, E)
  {
    hide WF, OuterOK, IsList, Out, Eval, Agree, ExitOK, LocalsBelow;
    var e' := DischargedVars(e);
    forall x | InScope(ctx, s.kst, x) ensures Deliv(ctx, s, e', tl, fl, E, -1, x) {
      assert Deliv(ctx, s, e, tl, fl, E, -1, x);
    }
  }

  lemma VarsCore(ctx: Ctx, s: St, e: ExpDesc, tl: seq<int>, fl: seq<int>, E: Expr)
    requires Core(ctx, s, e, tl, fl, E)
    ensures Core(ctx, s, DischargedVars(e), tl, fl, E)
  {
    hide WF, OuterOK, IsList, Out, Eval, Agree, ExitOK, LocalsBelow;
    var e' := DischargedVars(e);
    forall x | InScope(ctx, s.kst, x) ensures Deliv(ctx, s, e', tl, fl, E, -1, x) {
      assert Deliv(ctx, s, e, tl, fl, E, -1, x);
    }
  }

  // ---------- emitting ----------

  /** The code from before 'lt' keeps its guarantees when more is appended. */
  lemma EmittedOK(s: St, t: seq<Instr>, ps: set<int>)
    requires StOK(s)
    requires forall j :: j in ps ==> |s.code| <= j < |s.code| + |t| && t[j - |s.code|].Jmp?
    requires forall q :: |s.code| <= q < |s.code| + |t| ==>
               InstrOK(Emitted(s, t, ps).code, Emitted(s, t, ps).pend, s.lt, q)
    ensures StOK(Emitted(s, t, ps))
  {
    var s' := Emitted(s, t, ps);
    var d := Discharged(s);
    DischargedOK(s);
    forall q | 0 <= q < |s'.code| ensures InstrOK(s'.code, s'.pend, s.lt, q) {
      if q < |d| {
        assert InstrOK(d, s.pend - Elems(s.here), s.lt, q);
        assert s'.code[q] == d[q];
      }
    }
  }

  lemma EmittedOuter(ctx: Ctx, s: St, t: seq<Instr>, ps: set<int>)
    requires StOK(s) && OuterOK(ctx, s) && Outer(ctx) <= s.pend && Outer(ctx) !! Elems(s.here)
    ensures OuterOK(ctx, Emitted(s, t, ps))
  {
    DischargedOK(s);
    var s' := Emitted(s, t, ps);
    forall j | j in Outer(ctx)
      ensures j < |s'.code| && s'.code[j] == ctx.from.code[j] && SameCtl(ctx.from.code, s'.code, j)
    {
      assert j in s.pend - Elems(s.here);
      assert SameCtl(s.code, Discharged(s), j);
    }
  }

  lemma EmittedList(s: St, t: seq<Instr>, ps: set<int>, l: int, js: seq<int>)
    requires StOK(s) && IsList(s.code, l, js) && Elems(js) <= s.pend && Elems(js) !! Elems(s.here)
    ensures IsList(Emitted(s, t, ps).code, l, js)
    ensures Kept(s.code, Emitted(s, t, ps).code, Elems(js))
  {
    DischargedOK(s);
    var s' := Emitted(s, t, ps);
    forall j | j in js
      ensures j < |s'.code| && s'.code[j] == s.code[j] && SameCtl(s.code, s'.code, j)
    {
      assert j in Elems(js) && j in s.pend - Elems(s.here);
      assert SameCtl(s.code, Discharged(s), j);
    }
    ListKept(s.code, s'.code, l, js);
  }

  /** Emitting instructions that are not jumps: the lists and the outside stay. */
  lemma EmittedStruct(ctx: Ctx, s: St, e: ExpDesc, tl: seq<int>, fl: seq<int>, t: seq<Instr>, e': ExpDesc)
    requires Struct(ctx, s, e, tl, fl) && JmpSet(s, e) == {}
    requires e'.t == e.t && e'.f == e.f && e'.k != VJMP && KindOK(Emitted(s, t, {}), e')
    requires forall q :: |s.code| <= q < |s.code| + |t| ==>
               InstrOK(Emitted(s, t, {}).code, Emitted(s, t, {}).pend, s.lt, q)
    ensures Struct(ctx, Emitted(s, t, {}), e', tl, fl)
  {
    EmittedOK(s, t, {});
    EmittedOuter(ctx, s, t, {});
    EmittedList(s, t, {}, e.t, tl);
    EmittedList(s, t, {}, e.f, fl);
  }

  /** The state without its last instruction, which nothing jumps over. */
  function CutLast(s: St): St {
    if |s.code| == 0 then s else s.(code := s.code[..|s.code| - 1])
  }

  lemma CutLastOK(ctx: Ctx, s: St)
    requires StOK(s) && OuterOK(ctx, s) && Outer(ctx) <= s.pend
    requires s.here == [] && s.lt < |s.code| && !s.code[|s.code| - 1].Jmp? && !s.code[|s.code| - 1].ExtraArg?
    ensures StOK(CutLast(s)) && OuterOK(ctx, CutLast(s))
    ensures forall t: seq<Instr> :: Emitted(CutLast(s), t, {}) == s.(code := CutLast(s).code + t)
    ensures Kept(s.code, CutLast(s).code, s.pend)
  {
    var b := CutLast(s);
    var n := |b.code|;
    PrefixWF(s.code, s.pend, s.lt, n, s.pend);
    PatchNone(b.code, n, NO_REG, n);
    assert s.pend - {} == s.pend;
  }

  // ---------- putting a value in a register ----------

  /** 's'' continues the body of 'e' by leaving its value in 'reg'. */
  ghost predicate Puts(s: St, e: ExpDesc, s': St, reg: int, x: Start) {
    match Out(Body(s, e), x)
    case Fall(R) =>
      var o := Out(Now(s'), x);
      o.Fall? && (forall r :: r != reg ==> Get(o.regs, r) == Get(R, r)) &&
      ValueOf(s.code, e, x.kst, R) == Some(Get(o.regs, reg))
    case o => Out(Now(s'), x) == o
  }

  lemma KeptExit(c: seq<Instr>, c': seq<Instr>, tl: seq<int>, fl: seq<int>, j: int, R: Regs, v: Value)
    requires Kept(c, c', Elems(tl) + Elems(fl)) && ExitOK(c, tl, fl, j, R, v)
    ensures ExitOK(c', tl, fl, j, R, v)
  {
    assert j in Elems(tl) + Elems(fl);
  }

  lemma PutsMeaning(ctx: Ctx, s: St, e: ExpDesc, tl: seq<int>, fl: seq<int>, E: Expr, s': St, e': ExpDesc, reg: int)
    requires Meaning(ctx, s, e, tl, fl, E, -1) && s.kst <= s'.kst
    requires Kept(s.code, s'.code, Elems(tl) + Elems(fl))
    requires e'.k == VNONRELOC && e'.info == reg
    requires forall x :: InScope(ctx, s'.kst, x) ==> Puts(s, e, s', reg, x)
    ensures Meaning(ctx, s', e', tl, fl, E, reg)
  {
    forall x | InScope(ctx, s'.kst, x) ensures Deliv(ctx, s', e', tl, fl, E, reg, x) {
      assert InScope(ctx, s.kst, x);
      assert Deliv(ctx, s, e, tl, fl, E, -1, x);
      assert Puts(s, e, s', reg, x);
      if Out(ctx.from, x).Fall? && Out(Body(s, e), x).Exit? {
        var R0 := Out(ctx.from, x).regs;
        var o := Out(Body(s, e), x);
        KeptExit(s.code, s'.code, tl, fl, o.at, o.regs, Eval(E, R0).value);
      }
    }
  }

  /** The instructions that put the value of a constant or of a register in 'reg'. */
  predicate LoadsValue(s: St, e: ExpDesc, t: seq<Instr>, reg: int) {
    match e.k
    case VTRUE => t == [LoadBool(reg, true, false)]
    case VFALSE => t == [LoadBool(reg, false, false)]
    case VK => t == KLoad(reg, e.info)
    case VNIL => t == [LoadNil(reg, 0)]
    case VNONRELOC => t == [Move(reg, e.info)]
    case _ => false
  }

  lemma RunLoads(s: St, e: ExpDesc, t: seq<Instr>, reg: int, code: seq<Instr>, pend: set<int>, kst: seq<Value>, R: Regs)
    requires LoadsValue(s, e, t, reg) && KindOK(s, e) && s.kst <= kst
    requires |code| >= |t| && code[|code| - |t|..] == t
    ensures var o := Run(code, pend, kst, |code| - |t|, R);
            && o.Fall? && (forall r :: r != reg ==> Get(o.regs, r) == Get(R, r))
            && ValueOf(s.code, e, kst, R) == Some(Get(o.regs, reg))
  {
    var n := |code| - |t|;
    assert code[n] == t[0];
    if |t| == 2 {
      assert code[n + 1] == t[1];
    }
    if e.k == VNIL {
      forall r ensures Get(SetNil(R, reg, 0), r) == if r == reg then Nil else Get(R, r) {
        SetNilGet(R, reg, 0, r);
      }
    }
  }

  lemma LoadPuts(ctx: Ctx, s: St, e: ExpDesc, tl: seq<int>, fl: seq<int>, t: seq<Instr>, reg: int, x: Start)
    requires Struct(ctx, s, e, tl, fl) && LoadsValue(s, e, t, reg) && InScope(ctx, s.kst, x)
    ensures Puts(s, e, Emitted(s, t, {}), reg, x)
  {
    var s' := Emitted(s, t, {});
    InScopeSafe(ctx, s, x);
    EmittedRun(s, t, {}, x);
    if Out(Now(s), x).Fall? {
      RunLoads(s, e, t, reg, s'.code, s'.pend, x.kst, Out(Now(s), x).regs);
    }
  }

  /** Loading a constant or moving a register gives a value in place. */
  lemma LoadPlaces(ctx: Ctx, s: St, e: ExpDesc, tl: seq<int>, fl: seq<int>, E: Expr, t: seq<Instr>, reg: int, e': ExpDesc)
    requires Core(ctx, s, e, tl, fl, E) && LoadsValue(s, e, t, reg) && 0 <= reg < NO_REG
    requires e' == e.(k := VNONRELOC, info := reg)
    ensures Struct(ctx, Emitted(s, t, {}), e', tl, fl)
    ensures Meaning(ctx, Emitted(s, t, {}), e', tl, fl, E, reg)
  {
    var s' := Emitted(s, t, {});
    forall q | |s.code| <= q < |s.code| + |t| ensures InstrOK(s'.code, s'.pend, s.lt, q) {
      assert s'.code[q] == t[q - |s.code|];
      if |t| == 2 {
        assert s'.code[|s.code| + 1] == t[1];
      }
    }
    EmittedStruct(ctx, s, e, tl, fl, t, e');
    EmittedList(s, t, {}, e.t, tl);
    EmittedList(s, t, {}, e.f, fl);
    forall x | InScope(ctx, s'.kst, x) ensures Puts(s, e, s', reg, x) {
      LoadPuts(ctx, s, e, tl, fl, t, reg, x);
    }
    PutsMeaning(ctx, s, e, tl, fl, E, s', e', reg);
  }

  /** Replacing the last instruction by another that is no jump. */
  lemma RelastStruct(ctx: Ctx, s: St, e: ExpDesc, tl: seq<int>, fl: seq<int>, i: Instr, e': ExpDesc)
    requires Struct(ctx, s, e, tl, fl) && JmpSet(s, e) == {}
    requires s.here == [] && s.lt < |s.code| && !s.code[|s.code| - 1].Jmp? && !s.code[|s.code| - 1].ExtraArg?
    requires i.Not? || (i.LoadNil? && i.b >= 0)
    requires e'.t == e.t && e'.f == e.f && e'.k == VNONRELOC && 0 <= e'.info < MAXREGS
    ensures var s' := s.(code := CutLast(s).code + [i]);
            Struct(ctx, s', e', tl, fl) && Kept(s.code, s'.code, Elems(tl) + Elems(fl))
  {
    var b := CutLast(s);
    var s' := s.(code := b.code + [i]);
    CutLastOK(ctx, s);
    assert Emitted(b, [i], {}) == s';
    var eb := e.(k := VNIL);
    assert Struct(ctx, b, eb, tl, fl) by {
      ListKept(s.code, b.code, e.t, tl);
      ListKept(s.code, b.code, e.f, fl);
    }
    EmittedStruct(ctx, b, eb, tl, fl, [i], e');
    forall j | j in Elems(tl) + Elems(fl) ensures j < |b.code| && s'.code[j] == s.code[j] && SameCtl(s.code, s'.code, j) {
      assert j in s.pend;
    }
  }

  /** A run through code whose last instruction is 'i', seen from the rest. */
  lemma RelastRun(ctx: Ctx, s: St, i: Instr, x: Start)
    requires StOK(s) && OuterOK(ctx, s) && Outer(ctx) <= s.pend && InScope(ctx, s.kst, x)
    requires s.here == [] && s.lt < |s.code| && !s.code[|s.code| - 1].Jmp? && !s.code[|s.code| - 1].ExtraArg?
    ensures var b := CutLast(s);
            var s' := s.(code := b.code + [i]);
            Out(Now(s'), x) ==
            (match Out(Now(b), x)
             case Fall(R) => Run(s'.code, s'.pend, x.kst, |b.code|, R)
             case o => o)
  {
    CutLastOK(ctx, s);
    assert Emitted(CutLast(s), [i], {}) == s.(code := CutLast(s).code + [i]);
    InScopeSafe(ctx, CutLast(s), x);
    EmittedRun(CutLast(s), [i], {}, x);
  }

  lemma RelocPuts(ctx: Ctx, s: St, e: ExpDesc, reg: int, s': St, x: Start)
    requires StOK(s) && OuterOK(ctx, s) && Outer(ctx) <= s.pend && InScope(ctx, s.kst, x)
    requires e.k == VRELOCABLE && KindOK(s, e)
    requires s' == s.(code := CutLast(s).code + [Not(reg, s.code[e.info].b)])
    ensures Puts(s, e, s', reg, x)
  {
    RelastRun(ctx, s, Not(reg, s.code[e.info].b), x);
    assert s'.code[|s.code| - 1] == Not(reg, s.code[e.info].b);
    assert Now(CutLast(s)) == Body(s, e);
  }

  /** Giving the relocatable instruction its destination. */
  lemma RelocPlaces(ctx: Ctx, s: St, e: ExpDesc, tl: seq<int>, fl: seq<int>, E: Expr, reg: int, s': St, e': ExpDesc)
    requires Core(ctx, s, e, tl, fl, E) && e.k == VRELOCABLE && 0 <= reg < NO_REG
    requires s' == s.(code := s.code[e.info := Not(reg, s.code[e.info].b)])
    requires e' == e.(k := VNONRELOC, info := reg)
    ensures Struct(ctx, s', e', tl, fl) && Meaning(ctx, s', e', tl, fl, E, reg)
  {
    var i := s'.code[e.info];
    assert s'.code == CutLast(s).code + [i];
    RelastStruct(ctx, s, e, tl, fl, i, e');
    forall x | InScope(ctx, s'.kst, x) ensures Puts(s, e, s', reg, x) {
      RelocPuts(ctx, s, e, reg, s', x);
    }
    PutsMeaning(ctx, s, e, tl, fl, E, s', e', reg);
  }

  /** Whether a LOADNIL of the 'n' registers from 'from' on extends the previous instruction. */
  predicate NilMerges(s: St, from: int, n: int) {
    && |s.code| > s.lt && |s.code| > 0 && s.code[|s.code| - 1].LoadNil?
    && var i := s.code[|s.code| - 1];
       (i.a <= from <= i.a + i.b + 1) || (from <= i.a <= from + n)
  }

  function MergedNil(i: Instr, from: int, n: int): Instr
    requires i.LoadNil?
  {
    var first := if i.a < from then i.a else from;
    var last := if i.a + i.b > from + n - 1 then i.a + i.b else from + n - 1;
    LoadNil(first, last - first)
  }

  function NilMerged(s: St, from: int, n: int): St
    requires NilMerges(s, from, n)
  {
    s.(code := s.code[|s.code| - 1 := MergedNil(s.code[|s.code| - 1], from, n)])
  }

  /** The merged instruction does what the two would have done. */
  lemma MergedSets(s: St, from: int, n: int, R: Regs, r: int)
    requires NilMerges(s, from, n) && n >= 1 && s.code[|s.code| - 1].b >= 0
    ensures var i := s.code[|s.code| - 1];
            var i' := MergedNil(i, from, n);
            Get(SetNil(R, i'.a, i'.b), r) == Get(SetNil(SetNil(R, i.a, i.b), from, n - 1), r)
  {
    var i := s.code[|s.code| - 1];
    var i' := MergedNil(i, from, n);
    SetNilGet(R, i.a, i.b, r);
    SetNilGet(SetNil(R, i.a, i.b), from, n - 1, r);
    SetNilGet(R, i'.a, i'.b, r);
  }

  /** The merged instruction also sets 'reg' to nil, and nothing else. */
  lemma NilPuts(ctx: Ctx, s: St, e: ExpDesc, reg: int, x: Start)
    requires StOK(s) && OuterOK(ctx, s) && Outer(ctx) <= s.pend && InScope(ctx, s.kst, x)
    requires e.k == VNIL && NilMerges(s, reg, 1) && s.code[|s.code| - 1].b >= 0
    ensures Puts(s, e, NilMerged(s, reg, 1), reg, x)
  {
    var s' := NilMerged(s, reg, 1);
    var b := CutLast(s);
    var i, i' := s.code[|s.code| - 1], s'.code[|s.code| - 1];
    assert s.code == b.code + [i] && s'.code == b.code + [i'];
    RelastRun(ctx, s, i, x);
    RelastRun(ctx, s, i', x);
    if Out(Now(b), x).Fall? {
      var R := Out(Now(b), x).regs;
      forall r ensures Get(SetNil(R, i'.a, i'.b), r) == if r == reg then Nil else Get(SetNil(R, i.a, i.b), r) {
        MergedSets(s, reg, 1, R, r);
        SetNilGet(SetNil(R, i.a, i.b), reg, 0, r);
      }
    }
  }

  lemma NilPlaces(ctx: Ctx, s: St, e: ExpDesc, tl: seq<int>, fl: seq<int>, E: Expr, reg: int, e': ExpDesc)
    requires Core(ctx, s, e, tl, fl, E) && e.k == VNIL && 0 <= reg < NO_REG && NilMerges(s, reg, 1)
    requires e' == e.(k := VNONRELOC, info := reg)
    ensures Struct(ctx, NilMerged(s, reg, 1), e', tl, fl) && Meaning(ctx, NilMerged(s, reg, 1), e', tl, fl, E, reg)
  {
    var s' := NilMerged(s, reg, 1);
    assert InstrOK(s.code, s.pend, s.lt, |s.code| - 1);
    assert s'.code == CutLast(s).code + [s'.code[|s.code| - 1]];
    RelastStruct(ctx, s, e, tl, fl, s'.code[|s.code| - 1], e');
    forall x | InScope(ctx, s'.kst, x) ensures Puts(s, e, s', reg, x) {
      NilPuts(ctx, s, e, reg, x);
    }
    PutsMeaning(ctx, s, e, tl, fl, E, s', e', reg);
  }

  /** Already in place. */
  lemma StaysPlaced(ctx: Ctx, s: St, e: ExpDesc, tl: seq<int>, fl: seq<int>, E: Expr)
    requires Core(ctx, s, e, tl, fl, E) && e.k == VNONRELOC
    ensures Meaning(ctx, s, e, tl, fl, E, e.info)
  {
    forall x | InScope(ctx, s.kst, x) ensures Deliv(ctx, s, e, tl, fl, E, e.info, x) {
      assert Deliv(ctx, s, e, tl, fl, E, -1, x);
    }
  }

  lemma PlacedAbove(ctx: Ctx, s: St, e: ExpDesc, tl: seq<int>, fl: seq<int>, E: Expr, reg: int)
    requires Meaning(ctx, s, e, tl, fl, E, reg) && reg >= ctx.base
    ensures Meaning(ctx, s, e, tl, fl, E, -1)
  {
    forall x | InScope(ctx, s.kst, x) ensures Deliv(ctx, s, e, tl, fl, E, -1, x) {
      assert Deliv(ctx, s, e, tl, fl, E, reg, x);
    }
  }

  /** How the value of 'e' comes to 'reg' (lcode.c:595-635). */
  ghost predicate Placing(s: St, e: ExpDesc, reg: int, s': St) {
    match e.k
    case VNIL => s' == if NilMerges(s, reg, 1) then NilMerged(s, reg, 1) else Emitted(s, [LoadNil(reg, 0)], {})
    case VTRUE => s' == Emitted(s, [LoadBool(reg, true, false)], {})
    case VFALSE => s' == Emitted(s, [LoadBool(reg, false, false)], {})
    case VK => s' == Emitted(s, KLoad(reg, e.info), {})
    case VKINT =>
      exists idx :: 0 <= idx < |s'.kst| && s'.kst[idx] == Int(e.ival) && s.kst <= s'.kst &&
                    s' == Emitted(s.(kst := s'.kst), KLoad(reg, idx), {})
    case VRELOCABLE =>
      0 <= e.info < |s.code| && s.code[e.info].Not? &&
      s' == s.(code := s.code[e.info := Not(reg, s.code[e.info].b)])
    case VNONRELOC => s' == if reg == e.info then s else Emitted(s, [Move(reg, e.info)], {})
    case VJMP => s' == s
    case VLOCAL => false
  }

  /** The value is in place, unless 'e' is a test. */
  lemma PlacingDesc(ctx: Ctx, s: St, e: ExpDesc, tl: seq<int>, fl: seq<int>, E: Expr, reg: int, s': St)
    requires Core(ctx, s, e, tl, fl, E) && Placing(s, e, reg, s') && 0 <= reg < NO_REG && e.k != VJMP && e.k != VKINT
    ensures Struct(ctx, s', e.(k := VNONRELOC, info := reg), tl, fl)
    ensures Meaning(ctx, s', e.(k := VNONRELOC, info := reg), tl, fl, E, reg)
  {
    var e' := e.(k := VNONRELOC, info := reg);
    match e.k
    case VNIL =>
      if NilMerges(s, reg, 1) {
        NilPlaces(ctx, s, e, tl, fl, E, reg, e');
      } else {
        LoadPlaces(ctx, s, e, tl, fl, E, [LoadNil(reg, 0)], reg, e');
      }
    case VTRUE => LoadPlaces(ctx, s, e, tl, fl, E, [LoadBool(reg, true, false)], reg, e');
    case VFALSE => LoadPlaces(ctx, s, e, tl, fl, E, [LoadBool(reg, false, false)], reg, e');
    case VK => LoadPlaces(ctx, s, e, tl, fl, E, KLoad(reg, e.info), reg, e');
    case VRELOCABLE => RelocPlaces(ctx, s, e, tl, fl, E, reg, s', e');
    case VNONRELOC =>
      if reg == e.info {
        StaysPlaced(ctx, s, e, tl, fl, E);
      } else {
        LoadPlaces(ctx, s, e, tl, fl, E, [Move(reg, e.info)], reg, e');
      }
    case _ =>
  }
}
