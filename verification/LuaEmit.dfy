/** Emitting an instruction, and what it adds to the meaning of the code
    (apps/lua/lcode.c:130-166, 238-305). */
module LuaEmit {
  import opened LuaOpcodes
  import opened LuaFlow
  import opened LuaExprSpec

  /** The code with the jumps to the current position patched to it. */
  function Discharged(s: St): seq<Instr> {
    Patch(s.code, Elems(s.here), |s.code|, NO_REG, |s.code|)
  }

  /** The state after emitting 't', with new pending jumps 'ps'. */
  function Emitted(s: St, t: seq<Instr>, ps: set<int>): St {
    s.(code := Discharged(s) + t, pend := (s.pend - Elems(s.here)) + ps, here := [], jpc := NO_JUMP)
  }

  lemma NoTestLast(code: seq<Instr>, pend: set<int>, lt: int)
    requires WF(code, pend, lt)
    ensures Safe(code, |code|)
  {
    if |code| > 0 {
      assert InstrOK(code, pend, lt, |code| - 1);
    }
  }

  lemma DischargedOK(s: St)
    requires StOK(s)
    ensures WF(Discharged(s), s.pend - Elems(s.here), s.lt)
    ensures forall q :: 0 <= q < |s.code| ==> (IsTest(Discharged(s)[q]) <==> IsTest(s.code[q]))
    ensures forall j :: j in s.pend - Elems(s.here) ==> Discharged(s)[j] == s.code[j] && SameCtl(s.code, Discharged(s), j)
  {
    var c := Discharged(s);
    NoTestLast(s.code, s.pend, s.lt);
    forall q | 0 <= q < |c| ensures InstrOK(c, s.pend - Elems(s.here), s.lt, q) {
      assert InstrOK(s.code, s.pend, s.lt, q);
      assert c[q] == PatchAt(s.code, Elems(s.here), |s.code|, NO_REG, |s.code|, q);
      if q + 1 < |c| {
        assert c[q + 1] == PatchAt(s.code, Elems(s.here), |s.code|, NO_REG, |s.code|, q + 1);
      }
    }
  }

  /** Patching the jumps to here changes no run. */
  lemma DischargedRun(s: St, x: Start)
    requires StOK(s) && Safe(s.code, x.p)
    ensures Run(Discharged(s), s.pend - Elems(s.here), x.kst, x.p, x.regs) == Out(Now(s), x)
  {
    PatchRun(s.code, s.pend, s.lt, Elems(s.here), |s.code|, NO_REG, |s.code|, x.kst, x.p, x.regs);
  }

  /** Runs that reached the end go on with the emitted instructions. */
  lemma EmittedRun(s: St, t: seq<Instr>, ps: set<int>, x: Start)
    requires StOK(s) && Safe(s.code, x.p)
    requires forall j :: j in ps ==> j >= |s.code|
    ensures var s' := Emitted(s, t, ps);
            Out(Now(s'), x) ==
            (match Out(Now(s), x)
             case Fall(R) => Run(s'.code, s'.pend, x.kst, |s.code|, R)
             case o => o)
  {
    var s' := Emitted(s, t, ps);
    DischargedOK(s);
    DischargedRun(s, x);
    SuffixRun(Discharged(s), t, s.pend - Elems(s.here), s'.pend, s.lt, x.kst, x.p, x.regs);
  }

  lemma InScopeSafe(ctx: Ctx, s: St, x: Start)
    requires OuterOK(ctx, s) && s.lt <= |s.code| && InScope(ctx, s.kst, x)
    ensures Safe(s.code, x.p)
  {
  }

  /** Dropping the end of well-formed code that nothing jumps over. */
  lemma PrefixWF(code: seq<Instr>, pend: set<int>, lt: int, n: int, pend': set<int>)
    requires WF(code, pend, lt) && lt <= n <= |code|
    requires n < |code| ==> !code[n].Jmp? && !code[n].ExtraArg?
    requires forall j :: j in pend' <==> j in pend && j < n
    ensures WF(code[..n], pend', lt)
    ensures Kept(code, code[..n], pend')
  {
    var c := code[..n];
    forall q | 0 <= q < n ensures InstrOK(c, pend', lt, q) {
      assert InstrOK(code, pend, lt, q);
    }
  }

  /** The body of a test or of a relocatable instruction is itself a good state. */
  function Cut(s: St, e: ExpDesc): St {
    s.(code := Body(s, e).code, pend := Body(s, e).pend)
  }

  lemma CutOK(ctx: Ctx, s: St, e: ExpDesc, tl: seq<int>, fl: seq<int>)
    requires Struct(ctx, s, e, tl, fl) && (e.k == VJMP || e.k == VRELOCABLE)
    ensures StOK(Cut(s, e)) && OuterOK(ctx, Cut(s, e)) && Now(Cut(s, e)) == Body(s, e)
    ensures Kept(s.code, Cut(s, e).code, Cut(s, e).pend)
    ensures IsList(Cut(s, e).code, e.t, tl) && IsList(Cut(s, e).code, e.f, fl)
    ensures Cut(s, e).pend == Outer(ctx) + Elems(tl) + Elems(fl)
  {
    var b := Cut(s, e);
    PrefixWF(s.code, s.pend, s.lt, |b.code|, b.pend);
    forall j | j in tl || j in fl ensures b.code[j] == s.code[j] {
      assert j in Elems(tl) + Elems(fl) && j in b.pend;
    }
    ListKept(s.code, b.code, e.t, tl);
    ListKept(s.code, b.code, e.f, fl);
  }

  /** The last two instructions of a test: leave when the comparison holds. */
  lemma TestTail(ctx: Ctx, s: St, e: ExpDesc, tl: seq<int>, fl: seq<int>, x: Start)
    requires Struct(ctx, s, e, tl, fl) && e.k == VJMP && InScope(ctx, s.kst, x)
    ensures var n := |s.code|;
            var i := s.code[n - 2];
            Out(Now(s), x) ==
            (match Out(Body(s, e), x)
             case Fall(R) =>
               (match CompareRK(i.op, x.kst, R, i.rkb, i.rkc)
                case None => Fail
                case Some(r) => if r == i.want then Exit(n - 1, R) else Fall(R))
             case o => o)
  {
    hide Kept, IsList, Patch, IsTest, Step, InstrOK, CompareRK;
    var b := Cut(s, e);
    var n := |b.code|;
    CutOK(ctx, s, e, tl, fl);
    InScopeSafe(ctx, b, x);
    assert s.code == b.code + s.code[n..];
    SuffixRun(b.code, s.code[n..], b.pend, s.pend, b.lt, x.kst, x.p, x.regs);
    if Out(Body(s, e), x).Fall? {
      TailRun(s.code, s.pend, x.kst, Out(Body(s, e), x).regs);
    }
  }

  /** A comparison and its pending jump at the end of the code. */
  lemma TailRun(code: seq<Instr>, pend: set<int>, kst: seq<Value>, R: Regs)
    requires |code| >= 2 && code[|code| - 2].Cmp? && code[|code| - 1].Jmp? && |code| - 1 in pend
    ensures var i := code[|code| - 2];
            Run(code, pend, kst, |code| - 2, R) ==
            (match CompareRK(i.op, kst, R, i.rkb, i.rkc)
             case None => Fail
             case Some(r) => if r == i.want then Exit(|code| - 1, R) else Fall(R))
  {
  }
}
