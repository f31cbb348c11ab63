/** Conditions, negation, comparisons and the short-circuit operators
    (apps/lua/lcode.c:822-939, 1037-1138). */
module LuaExprLogic {
  import opened LuaOpcodes
  import opened LuaFlow
  import opened LuaExprSpec
  import opened LuaEmit
  import opened LuaExprProofs
  import opened LuaExprOps
  import opened LuaExprEnd
  import opened LuaExprJumps

  function One(pc: int): seq<int> {
    if pc == NO_JUMP then [] else [pc]
  }

  /** The run goes on, or to the list 'al', when 'E' is 'goesOn', and leaves through
      'xl' otherwise. */
  ghost predicate Forks(ctx: Ctx, s: St, goesOn: bool, xl: seq<int>, al: seq<int>, E: Expr, x: Start) {
    match Out(ctx.from, x)
    case Fall(R0) =>
      (match Out(Now(s), x)
       case Fall(R) => Agree(R0, R, ctx.base, -1) && Eval(E, R0).Some? && Truthy(Eval(E, R0).value) == goesOn
       case Exit(j, R) =>
         Agree(R0, R, ctx.base, -1) && Eval(E, R0).Some? && CarriedOK(s.code, j, R, Eval(E, R0).value)
         && j in (if Truthy(Eval(E, R0).value) == goesOn then al else xl)
       case Fail => Eval(E, R0).None?
       case Stuck => false)
    case o => Out(Now(s), x) == o
  }

  ghost predicate Forked(ctx: Ctx, s: St, goesOn: bool, xh: int, xl: seq<int>, ah: int, al: seq<int>, pc: int, E: Expr) {
    && StOK(s)
    && OuterOK(ctx, s)
    && IsList(s.code, xh, xl) && IsList(s.code, ah, al) && IsList(s.code, pc, One(pc))
    && Outer(ctx) !! Elems(xl) !! Elems(al) !! Elems(s.here) !! Elems(One(pc))
    && s.pend == Outer(ctx) + Elems(xl) + Elems(al) + Elems(s.here) + Elems(One(pc))
    && s.nact <= ctx.base == s.freereg
    && LocalsBelow(E, s.nact)
    && (forall x :: InScope(ctx, s.kst, x) ==> Forks(ctx, s, goesOn, xl + One(pc), al, E, x))
  }

  /** The lists of 'e' that leave and that go on. */
  function Leaving(goesOn: bool, tl: seq<int>, fl: seq<int>): seq<int> {
    if goesOn then fl else tl
  }

  // ---------- closing a condition (lcode.c:875-877, 901-903) ----------

  /** 's2' is 's' with the new jump on the leaving list and 'al' going to here. */
  ghost predicate Closes(s: St, xl: seq<int>, al: seq<int>, pc: int, s2: St) {
    && s2 == s.(code := Linked(Linked(s.code, xl, One(pc)), s.here, al), here := s.here + al, jpc := s2.jpc, lt := |s.code|)
    && IsList(s2.code, s2.jpc, s2.here)
  }

  lemma ClosesCode(ctx: Ctx, s: St, goesOn: bool, xh: int, xl: seq<int>, ah: int, al: seq<int>, pc: int, E: Expr, s2: St, l: int)
    requires Forked(ctx, s, goesOn, xh, xl, ah, al, pc, E) && Closes(s, xl, al, pc, s2)
    requires IsList(Linked(s.code, xl, One(pc)), l, xl + One(pc))
    ensures WF(s2.code, s2.pend, s2.lt) && SameButLinks(s.code, s2.code, s.pend)
    ensures IsList(s2.code, l, xl + One(pc))
    ensures forall j :: j in s.pend ==> SameCtl(s.code, s2.code, j)
    ensures OuterOK(ctx, s2)
  {
    var c1 := Linked(s.code, xl, One(pc));
    LinkedOK(s.code, s.pend, s.lt, xh, xl, One(pc));
    assert forall j :: j in Elems(s.here) ==> j in s.pend - Elems(xl);
    ListKept(s.code, c1, s.jpc, s.here);
    LinkedOK(c1, s.pend, s.lt, s.jpc, s.here, al);
    ElemsConcat(xl, One(pc));
    assert forall j :: j in Elems(xl + One(pc)) ==> j in s.pend - Elems(s.here);
    ListKept(c1, s2.code, l, xl + One(pc));
    NoTestLast(s2.code, s2.pend, s.lt);
    WFLabel(s2.code, s2.pend, s.lt, |s.code|);
    forall j | j in s.pend ensures SameCtl(s.code, s2.code, j) {
      assert SameCtl(s.code, c1, j) && SameCtl(c1, s2.code, j);
    }
    forall j | j in Outer(ctx) ensures s2.code[j] == s.code[j] && SameCtl(s.code, s2.code, j) {
      assert j in s.pend - Elems(xl) && j in s.pend - Elems(s.here);
    }
    KeptOuter(ctx, s, s2);
  }

  lemma WFLabel(code: seq<Instr>, pend: set<int>, lt: int, lt': int)
    requires WF(code, pend, lt) && lt <= lt' <= |code|
    ensures WF(code, pend, lt')
  {
    forall q | 0 <= q < |code| ensures InstrOK(code, pend, lt', q) {
      assert InstrOK(code, pend, lt, q);
    }
  }

  lemma ClosesGoes(ctx: Ctx, s: St, goesOn: bool, xl: seq<int>, al: seq<int>, E: Expr, s2: St, x: Start)
    requires SameButLinks(s.code, s2.code, s.pend) && s2.pend == s.pend && s2.here == s.here + al
    requires forall j :: j in s.pend ==> SameCtl(s.code, s2.code, j)
    requires Outer(ctx) !! Elems(al) !! Elems(xl)
    requires Forks(ctx, s, goesOn, xl, al, E, x)
    ensures Goes(ctx, s2, goesOn, xl, E, x)
  {
    RelinkRun(s.code, s2.code, s.pend, x.kst, x.p, x.regs);
    ExitsPending(s.code, s.pend, x.kst, x.p, x.regs);
    ExitsPending(ctx.from.code, ctx.from.pend, x.kst, x.p, x.regs);
    var o := Out(Now(s), x);
    assert forall j :: j in s2.here <==> j in s.here || j in al;
    assert Out(Now(s2), x) == if o.Exit? && o.at in al then Fall(o.regs) else o;
    if o.Exit? {
      assert SameCtl(s.code, s2.code, o.at);
      assert o.at in Elems(xl) <==> o.at in xl;
      assert o.at in Elems(al) <==> o.at in al;
    }
  }

  lemma ClosesGuard(ctx: Ctx, s: St, goesOn: bool, xh: int, xl: seq<int>, ah: int, al: seq<int>, pc: int, E: Expr, s2: St, l: int)
    requires Forked(ctx, s, goesOn, xh, xl, ah, al, pc, E) && Closes(s, xl, al, pc, s2)
    requires IsList(Linked(s.code, xl, One(pc)), l, xl + One(pc))
    ensures Guard(ctx, s2, goesOn, l, xl + One(pc), E)
  {
    ClosesCode(ctx, s, goesOn, xh, xl, ah, al, pc, E, s2, l);
    ElemsConcat(xl, One(pc));
    ElemsConcat(s.here, al);
    forall x | InScope(ctx, s2.kst, x) ensures Goes(ctx, s2, goesOn, xl + One(pc), E, x) {
      ClosesGoes(ctx, s, goesOn, xl + One(pc), al, E, s2, x);
    }
  }

  // ---------- where conditions come from ----------

  lemma NoList(code: seq<Instr>)
    ensures IsList(code, NO_JUMP, [])
  {
  }

  /** A constant goes on as it is. */
  lemma ConstForks(ctx: Ctx, s: St, e: ExpDesc, tl: seq<int>, fl: seq<int>, E: Expr, goesOn: bool)
    requires Desc(ctx, s, e, tl, fl, E)
    requires if goesOn then e.k == VTRUE || e.k == VKINT || (e.k == VK && Truthy(s.kst[e.info])) else e.k == VNIL || e.k == VFALSE
    ensures Forked(ctx, s, goesOn, if goesOn then e.f else e.t, Leaving(goesOn, tl, fl),
                   if goesOn then e.t else e.f, Leaving(!goesOn, tl, fl), NO_JUMP, E)
  {
    hide WF, OuterOK, IsList, Out, Eval, Agree, LocalsBelow;
    var xl := Leaving(goesOn, tl, fl);
    assert xl + One(NO_JUMP) == xl;
    NoList(s.code);
    forall x | InScope(ctx, s.kst, x) ensures Forks(ctx, s, goesOn, xl, Leaving(!goesOn, tl, fl), E, x) {
      assert Deliv(ctx, s, e, tl, fl, E, -1, x);
    }
  }

  /** A comparison with its condition set to 'want'. */
  function Wanting(s: St, want: bool): St {
    if |s.code| >= 2 && s.code[|s.code| - 2].Cmp?
    then s.(code := s.code[|s.code| - 2 := s.code[|s.code| - 2].(want := want)]) else s
  }

  lemma WantingWF(code: seq<Instr>, pend: set<int>, lt: int, q0: int, i: Instr)
    requires WF(code, pend, lt) && 0 <= q0 < |code| && code[q0].Cmp? && i.Cmp?
    ensures WF(code[q0 := i], pend, lt) && Kept(code, code[q0 := i], pend)
  {
    var c := code[q0 := i];
    forall q | 0 <= q < |c| ensures InstrOK(c, pend, lt, q) {
      assert InstrOK(code, pend, lt, q);
    }
  }

  lemma WantingOK(ctx: Ctx, s: St, e: ExpDesc, tl: seq<int>, fl: seq<int>, want: bool)
    requires Struct(ctx, s, e, tl, fl) && e.k == VJMP
    ensures Struct(ctx, Wanting(s, want), e, tl, fl) && Body(Wanting(s, want), e) == Body(s, e)
    ensures Kept(s.code, Wanting(s, want).code, s.pend)
  {
    var s1 := Wanting(s, want);
    var n := |s.code|;
    WantingWF(s.code, s.pend, s.lt, n - 2, s1.code[n - 2]);
    assert s1.code[..n - 2] == s.code[..n - 2];
    assert IsList(s1.code, e.t, tl) && IsList(s1.code, e.f, fl) by {
      ListKept(s.code, s1.code, e.t, tl);
      ListKept(s.code, s1.code, e.f, fl);
    }
    assert OuterOK(ctx, s1) by {
      KeptOuter(ctx, s, s1);
    }
  }

  lemma TestForks(ctx: Ctx, s: St, e: ExpDesc, tl: seq<int>, fl: seq<int>, E: Expr, goesOn: bool, s1: St)
    requires Desc(ctx, s, e, tl, fl, E) && e.k == VJMP
    requires s1 == Wanting(s, if goesOn then !s.code[|s.code| - 2].want else s.code[|s.code| - 2].want)
    ensures Forked(ctx, s1, goesOn, if goesOn then e.f else e.t, Leaving(goesOn, tl, fl),
                   if goesOn then e.t else e.f, Leaving(!goesOn, tl, fl), e.info, E)
  {
    var xl, al := Leaving(goesOn, tl, fl), Leaving(!goesOn, tl, fl);
    WantingOK(ctx, s, e, tl, fl, s1.code[|s.code| - 2].want);
    forall x | InScope(ctx, s1.kst, x) ensures Forks(ctx, s1, goesOn, xl + One(e.info), al, E, x) {
      assert Deliv(ctx, s, e, tl, fl, E, -1, x);
      TestTail(ctx, s1, e, tl, fl, x);
      TestFork(ctx, s, e, tl, fl, E, goesOn, s1, x);
    }
    TestPending(ctx, s1, e, tl, fl);
    if goesOn {
      ForkedAs(ctx, s1, true, e.f, fl, e.t, tl, e.info, E);
    } else {
      ForkedAs(ctx, s1, false, e.t, tl, e.f, fl, e.info, E);
    }
  }

  lemma TestPending(ctx: Ctx, s: St, e: ExpDesc, tl: seq<int>, fl: seq<int>)
    requires Struct(ctx, s, e, tl, fl) && e.k == VJMP
    ensures IsList(s.code, e.info, [e.info]) && s.here == []
    ensures Outer(ctx) !! Elems(tl) !! Elems(fl) !! {e.info}
    ensures s.pend == Outer(ctx) + Elems(tl) + Elems(fl) + {e.info}
  {
  }

  lemma TestFork(ctx: Ctx, s: St, e: ExpDesc, tl: seq<int>, fl: seq<int>, E: Expr, goesOn: bool, s1: St, x: Start)
    requires |s.code| >= 2 && s.code[|s.code| - 2].Cmp? && e.k == VJMP && e.info == |s.code| - 1
    requires s1 == Wanting(s, if goesOn then !s.code[|s.code| - 2].want else s.code[|s.code| - 2].want)
    requires Deliv(ctx, s, e, tl, fl, E, -1, x)
    requires Kept(s.code, s1.code, s.pend) && Elems(tl) <= s.pend && Elems(fl) <= s.pend
    requires var n := |s.code|;
             var i := s1.code[n - 2];
             Out(Now(s1), x) ==
             (match Out(Body(s, e), x)
              case Fall(R) =>
                (match CompareRK(i.op, x.kst, R, i.rkb, i.rkc)
                 case None => Fail
                 case Some(r) => if r == i.want then Exit(n - 1, R) else Fall(R))
              case o => o)
    ensures Forks(ctx, s1, goesOn, Leaving(goesOn, tl, fl) + One(e.info), Leaving(!goesOn, tl, fl), E, x)
  {
    if Out(ctx.from, x).Fall? {
      var o := Out(Body(s, e), x);
      if o.Exit? {
        assert o.at in Elems(tl) + Elems(fl);
        assert SameCtl(s.code, s1.code, o.at);
      } else if o.Fall? {
        var xl := Leaving(goesOn, tl, fl);
        assert (xl + One(e.info))[|xl|] == e.info;
      }
    }
  }

  /** Emitting a test and its jump, for the value of register 'r' (lcode.c:843-850). */
  function CondEmitted(b: St, i: Instr): St {
    Emitted(b, [i, Jmp(NO_JUMP)], {|b.code| + 1})
  }

  lemma CondRun(b: St, i: Instr, x: Start)
    requires StOK(b) && Safe(b.code, x.p) && (i.Test? || (i.TestSet? && i.a == NO_REG))
    ensures Out(Now(CondEmitted(b, i)), x) ==
            (match Out(Now(b), x)
             case Fall(R) =>
               if Truthy(Get(R, if i.Test? then i.a else i.b)) == i.c then Exit(|b.code| + 1, R) else Fall(R)
             case o => o)
  {
    var s' := CondEmitted(b, i);
    EmittedRun(b, [i, Jmp(NO_JUMP)], {|b.code| + 1}, x);
    assert s'.code[|b.code|] == i && s'.code[|b.code| + 1] == Jmp(NO_JUMP);
  }

  lemma CondOK(ctx: Ctx, b: St, i: Instr, l1: int, js1: seq<int>, l2: int, js2: seq<int>)
    requires StOK(b) && OuterOK(ctx, b) && Outer(ctx) <= b.pend && Outer(ctx) !! Elems(b.here)
    requires i.Cmp? || i.Test? || (i.TestSet? && i.a == NO_REG)
    requires IsList(b.code, l1, js1) && Elems(js1) <= b.pend && Elems(js1) !! Elems(b.here)
    requires IsList(b.code, l2, js2) && Elems(js2) <= b.pend && Elems(js2) !! Elems(b.here)
    ensures var s' := CondEmitted(b, i);
            && StOK(s') && OuterOK(ctx, s')
            && IsList(s'.code, l1, js1) && IsList(s'.code, l2, js2)
            && Kept(b.code, s'.code, Elems(js1) + Elems(js2))
            && IsList(s'.code, |b.code| + 1, [|b.code| + 1])
            && s'.code[|b.code|] == i && s'.code[|b.code| + 1] == Jmp(NO_JUMP)
  {
    var n := |b.code|;
    var t := [i, Jmp(NO_JUMP)];
    var s' := CondEmitted(b, i);
    assert s'.code[n] == i && s'.code[n + 1] == Jmp(NO_JUMP);
    EmittedOK(b, t, {n + 1});
    EmittedOuter(ctx, b, t, {n + 1});
    EmittedList(b, t, {n + 1}, l1, js1);
    EmittedList(b, t, {n + 1}, l2, js2);
  }

  /** The value that the test 'i' looks at is the value of 'E'. */
  predicate TestsValue(i: Instr, R: Regs, v: Value, cond: bool) {
    (i.Test? && i.c == !cond && v == Bool(!Truthy(Get(R, i.a)))) ||
    (i.TestSet? && i.a == NO_REG && i.c == cond && Get(R, i.b) == v)
  }

  /** What a condition is tested on: the state 'b' without the instruction that 'e'
      may still stand for, and the test 'i' of its value. */
  ghost predicate Testable(ctx: Ctx, s: St, e: ExpDesc, tl: seq<int>, fl: seq<int>, b: St, i: Instr) {
    && StOK(b) && OuterOK(ctx, b) && b.kst == s.kst && b.nact == s.nact <= ctx.base == b.freereg
    && IsList(b.code, e.t, tl) && IsList(b.code, e.f, fl)
    && Outer(ctx) !! Elems(tl) !! Elems(fl) !! Elems(b.here)
    && b.pend == Outer(ctx) + Elems(tl) + Elems(fl) + Elems(b.here)
    && Body(s, e) == Now(b)
    && (forall j :: j in Elems(tl) + Elems(fl) ==> SameCtl(s.code, b.code, j))
    && (i.Test? || (i.TestSet? && i.a == NO_REG))
  }

  /** 'i' tests the value of 'e', whatever the registers. */
  ghost predicate TestsIt(s: St, e: ExpDesc, goesOn: bool, i: Instr, kst: seq<Value>) {
    forall R :: ValueOf(s.code, e, kst, R).Some? && TestsValue(i, R, ValueOf(s.code, e, kst, R).value, !goesOn)
  }

  lemma CondForked(ctx: Ctx, s: St, e: ExpDesc, tl: seq<int>, fl: seq<int>, E: Expr, goesOn: bool, b: St, i: Instr)
    requires Testable(ctx, s, e, tl, fl, b, i) && LocalsBelow(E, s.nact)
    requires forall x :: InScope(ctx, s.kst, x) ==>
               Forks(ctx, CondEmitted(b, i), goesOn, Leaving(goesOn, tl, fl) + One(|b.code| + 1), Leaving(!goesOn, tl, fl), E, x)
    ensures Forked(ctx, CondEmitted(b, i), goesOn, if goesOn then e.f else e.t, Leaving(goesOn, tl, fl),
                   if goesOn then e.t else e.f, Leaving(!goesOn, tl, fl), |b.code| + 1, E)
  {
    CondOK(ctx, b, i, e.t, tl, e.f, fl);
    CondPending(ctx, s, e, tl, fl, b, i);
    if goesOn {
      ForkedAs(ctx, CondEmitted(b, i), true, e.f, fl, e.t, tl, |b.code| + 1, E);
    } else {
      ForkedAs(ctx, CondEmitted(b, i), false, e.t, tl, e.f, fl, |b.code| + 1, E);
    }
  }

  lemma ForkedAs(ctx: Ctx, s: St, goesOn: bool, xh: int, xl: seq<int>, ah: int, al: seq<int>, pc: int, E: Expr)
    requires StOK(s) && OuterOK(ctx, s) && pc >= 0 && s.here == []
    requires IsList(s.code, xh, xl) && IsList(s.code, ah, al) && IsList(s.code, pc, [pc])
    requires Outer(ctx) !! Elems(xl) !! Elems(al) !! {pc} && s.pend == Outer(ctx) + Elems(xl) + Elems(al) + {pc}
    requires s.nact <= ctx.base == s.freereg && LocalsBelow(E, s.nact)
    requires forall x :: InScope(ctx, s.kst, x) ==> Forks(ctx, s, goesOn, xl + One(pc), al, E, x)
    ensures Forked(ctx, s, goesOn, xh, xl, ah, al, pc, E)
  {
    assert Elems(One(pc)) == {pc};
  }

  lemma CondPending(ctx: Ctx, s: St, e: ExpDesc, tl: seq<int>, fl: seq<int>, b: St, i: Instr)
    requires Testable(ctx, s, e, tl, fl, b, i)
    ensures var s' := CondEmitted(b, i);
            var pc := |b.code| + 1;
            && s'.here == []
            && s'.pend == Outer(ctx) + Elems(tl) + Elems(fl) + {pc}
            && Outer(ctx) !! Elems(tl) !! Elems(fl) !! {pc}
  {
    assert forall j :: j in b.pend ==> j < |b.code|;
  }

  lemma CondForks(ctx: Ctx, s: St, e: ExpDesc, tl: seq<int>, fl: seq<int>, E: Expr, goesOn: bool, b: St, i: Instr)
    requires Meaning(ctx, s, e, tl, fl, E, -1) && LocalsBelow(E, s.nact)
    requires Testable(ctx, s, e, tl, fl, b, i)
    requires forall kst :: s.kst <= kst ==> TestsIt(s, e, goesOn, i, kst)
    ensures Forked(ctx, CondEmitted(b, i), goesOn, if goesOn then e.f else e.t, Leaving(goesOn, tl, fl),
                   if goesOn then e.t else e.f, Leaving(!goesOn, tl, fl), |b.code| + 1, E)
  {
    forall x | InScope(ctx, s.kst, x)
      ensures Forks(ctx, CondEmitted(b, i), goesOn, Leaving(goesOn, tl, fl) + One(|b.code| + 1), Leaving(!goesOn, tl, fl), E, x)
    {
      assert Deliv(ctx, s, e, tl, fl, E, -1, x);
      assert TestsIt(s, e, goesOn, i, x.kst);
      CondOK(ctx, b, i, e.t, tl, e.f, fl);
      InScopeSafe(ctx, b, x);
      CondRun(b, i, x);
      CondFork(ctx, s, e, tl, fl, E, goesOn, b, i, x);
    }
    CondForked(ctx, s, e, tl, fl, E, goesOn, b, i);
  }

  lemma CondFork(ctx: Ctx, s: St, e: ExpDesc, tl: seq<int>, fl: seq<int>, E: Expr, goesOn: bool, b: St, i: Instr, x: Start)
    requires Deliv(ctx, s, e, tl, fl, E, -1, x) && Body(s, e) == Now(b) && TestsIt(s, e, goesOn, i, x.kst)
    requires forall j :: j in Elems(tl) + Elems(fl) ==> SameCtl(s.code, b.code, j)
    requires Kept(b.code, CondEmitted(b, i).code, Elems(tl) + Elems(fl))
    requires i.Test? || (i.TestSet? && i.a == NO_REG)
    requires CondEmitted(b, i).code[|b.code|] == i
    requires Out(Now(CondEmitted(b, i)), x) ==
             (match Out(Now(b), x)
              case Fall(R) =>
                if Truthy(Get(R, if i.Test? then i.a else i.b)) == i.c then Exit(|b.code| + 1, R) else Fall(R)
              case o => o)
    ensures Forks(ctx, CondEmitted(b, i), goesOn, Leaving(goesOn, tl, fl) + One(|b.code| + 1), Leaving(!goesOn, tl, fl), E, x)
  {
    var s' := CondEmitted(b, i);
    if Out(ctx.from, x).Fall? {
      var o := Out(Now(b), x);
      if o.Exit? {
        assert o.at in Elems(tl) + Elems(fl);
        assert SameCtl(s.code, b.code, o.at) && SameCtl(b.code, s'.code, o.at);
      } else if o.Fall? {
        var pc := |b.code| + 1;
        var xl := Leaving(goesOn, tl, fl);
        assert (xl + One(pc))[|xl|] == pc;
        var v := ValueOf(s.code, e, x.kst, o.regs);
        assert v.Some? && TestsValue(i, o.regs, v.value, !goesOn);
        assert s'.code[pc - 1] == i;
      }
    }
  }

  // ---------- short circuit (lcode.c:1127-1140) ----------

  /** The outcome 'o' delivers 'v', through 'v2' or through one of the lists. */
  ghost predicate Delivered(R0: Regs, base: int, o: Outcome, v2: Option<Value>, v: Option<Value>,
                            c: seq<Instr>, tl: seq<int>, fl: seq<int>) {
    match o
    case Fall(R) => Agree(R0, R, base, -1) && v2 == v
    case Exit(j, R) => Agree(R0, R, base, -1) && v.Some? && ExitOK(c, tl, fl, j, R, v.value)
    case Fail => v.None?
    case Stuck => false
  }

  /** What a second operand delivers after the first one went on. */
  lemma BothOn(op: BinOp, l: Expr, r: Expr, R0: Regs, R1: Regs, base: int, o: Outcome, v2: Option<Value>,
               c: seq<Instr>, c': seq<Instr>, tl: seq<int>, fl: seq<int>, tl': seq<int>, fl': seq<int>)
    requires (op == And || op == Or) && Eval(l, R0).Some? && Truthy(Eval(l, R0).value) == (op == And)
    requires Agree(R0, R1, base, -1) && LocalsBelow(r, base)
    requires Delivered(R1, base, o, v2, Eval(r, R1), c, tl, fl)
    requires forall j :: j in tl ==> j in tl'
    requires forall j :: j in fl ==> j in fl'
    requires forall j :: j in tl || j in fl ==> SameCtl(c, c', j)
    ensures Delivered(R0, base, o, v2, Eval(EBin(op, l, r), R0), c', tl', fl')
  {
    EvalAgree(r, R0, R1, base, base);
    assert Eval(EBin(op, l, r), R0) == Eval(r, R1);
    if o.Exit? {
      assert o.at in tl || o.at in fl;
      assert SameCtl(c, c', o.at);
    }
  }

  /** What the first operand leaves with. */
  lemma BothOff(op: BinOp, l: Expr, r: Expr, R0: Regs, c: seq<Instr>, c': seq<Instr>, j: int, R: Regs,
                xl: seq<int>, tl': seq<int>, fl': seq<int>)
    requires (op == And || op == Or) && Eval(l, R0).Some? && Truthy(Eval(l, R0).value) != (op == And)
    requires j in xl && CarriedOK(c, j, R, Eval(l, R0).value) && SameCtl(c, c', j)
    requires forall i :: i in xl ==> i in (if op == And then fl' else tl')
    ensures Eval(EBin(op, l, r), R0).Some? && ExitOK(c', tl', fl', j, R, Eval(EBin(op, l, r), R0).value)
  {
    assert Eval(EBin(op, l, r), R0) == Eval(l, R0);
  }

  /** After 'l' went on, 'r' is evaluated; both leave through the joined list. */
  lemma BothDeliv(ctx: Ctx, s1: St, op: BinOp, xl: seq<int>, l: Expr, ctx2: Ctx, s: St, e: ExpDesc,
                  tl: seq<int>, fl: seq<int>, r: Expr, s': St, tl': seq<int>, fl': seq<int>, x: Start)
    requires op == And || op == Or
    requires Goes(ctx, s1, op == And, xl, l, x) && ctx2.from == Now(s1) && ctx2.base == ctx.base
    requires Deliv(ctx2, s, e, tl, fl, r, -1, x) && LocalsBelow(r, ctx.base)
    requires Out(Body(s', e), x) == Out(Body(s, e), x)
    requires forall R :: ValueOf(s'.code, e, x.kst, R) == ValueOf(s.code, e, x.kst, R)
    requires forall j :: j in tl ==> j in tl'
    requires forall j :: j in fl ==> j in fl'
    requires forall j :: j in xl ==> j in (if op == And then fl' else tl')
    requires forall j :: j in xl || j in tl || j in fl ==> SameCtl(s.code, s'.code, j)
    requires forall j :: j in xl ==> SameCtl(s1.code, s.code, j)
    ensures Deliv(ctx, s', e, tl', fl', EBin(op, l, r), -1, x)
  {
    hide Eval, Agree, CarriedOK, ValueOf, Out, Body, LocalsBelow, SameCtl;
    if Out(ctx.from, x).Fall? {
      var R0 := Out(ctx.from, x).regs;
      if Eval(l, R0).Some? {
        var o1 := Out(Now(s1), x);
        if o1.Fall? {
          var o := Out(Body(s, e), x);
          var v2 := if o.Fall? then ValueOf(s.code, e, x.kst, o.regs) else None;
          BothOn(op, l, r, R0, o1.regs, ctx.base, o, v2, s.code, s'.code, tl, fl, tl', fl');
        } else {
          CtlTwice(s1.code, s.code, s'.code, o1.at);
          BothOff(op, l, r, R0, s1.code, s'.code, o1.at, o1.regs, xl, tl', fl');
        }
      } else {
        FailsFirst(op, l, r, R0);
      }
    }
  }

  lemma CtlTwice(c: seq<Instr>, c1: seq<Instr>, c2: seq<Instr>, j: int)
    requires SameCtl(c, c1, j) && SameCtl(c1, c2, j)
    ensures SameCtl(c, c2, j)
  {
  }

  lemma FailsFirst(op: BinOp, l: Expr, r: Expr, R: Regs)
    requires Eval(l, R).None?
    ensures Eval(EBin(op, l, r), R).None?
  {
  }
}
