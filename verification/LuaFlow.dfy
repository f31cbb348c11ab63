/** Code under construction: pending jumps, jump lists and what patching them means
    (apps/lua/lcode.c:86-270). */
module LuaFlow {
  import opened LuaOpcodes

  /** A jump may only land where the previous instruction is not a test. */
  predicate Safe(code: seq<Instr>, t: int) {
    0 <= t <= |code| && (t > 0 ==> !IsTest(code[t - 1]))
  }

  predicate InstrOK(code: seq<Instr>, pend: set<int>, lt: int, q: int)
    requires 0 <= q < |code|
  {
    match code[q]
    case Jmp(s) => q in pend || (0 <= s && q + 1 + s <= lt && Safe(code, q + 1 + s))
    case LoadBool(_, _, skip) => skip ==> q + 2 <= lt && q + 2 <= |code| && !IsTest(code[q + 1])
    case LoadKX(_) => q + 1 < |code| && code[q + 1].ExtraArg?
    case LoadNil(_, b) => b >= 0
    case Cmp(_, _, _, _) => q + 1 < |code| && code[q + 1].Jmp?
    case Test(_, _) => q + 1 < |code| && code[q + 1].Jmp?
    case TestSet(a, _, _) => q + 1 < |code| && code[q + 1].Jmp? && (q + 1 in pend <==> a == NO_REG)
    case _ => true
  }

  /** Well-formed code: pending positions hold jumps, every other transfer lands at
      or before the last label 'lt', and only a pending TESTSET has no register. */
  ghost predicate WF(code: seq<Instr>, pend: set<int>, lt: int) {
    && 0 <= lt <= |code|
    && (forall j :: j in pend ==> 0 <= j < |code| && code[j].Jmp?)
    && (forall q :: 0 <= q < |code| ==> InstrOK(code, pend, lt, q))
  }

  /** The meaning of the code built so far: pending jumps in 'here' go to its end. */
  datatype Flow = Flow(code: seq<Instr>, pend: set<int>, here: set<int>)

  /** Where a run starts: position, registers, and the final constants. */
  datatype Start = Start(p: int, regs: Regs, kst: seq<Value>)

  function Settle(o: Outcome, here: set<int>): Outcome {
    if o.Exit? && o.at in here then Fall(o.regs) else o
  }

  function Out(F: Flow, x: Start): Outcome {
    Settle(Run(F.code, F.pend, x.kst, x.p, x.regs), F.here)
  }

  /** Every step of well-formed code goes forward to a safe position. */
  lemma StepLands(code: seq<Instr>, pend: set<int>, lt: int, kst: seq<Value>, p: int, R: Regs)
    requires WF(code, pend, lt) && 0 <= p < |code|
    ensures Step(code, pend, kst, p, R).Goto? ==>
              p < Step(code, pend, kst, p, R).pc && Safe(code, Step(code, pend, kst, p, R).pc)
  {
    assert InstrOK(code, pend, lt, p);
    if p + 1 < |code| {
      assert InstrOK(code, pend, lt, p + 1);
    }
  }

  /** Appending instructions continues a run that reached the end of the code. */
  lemma {:induction false} SuffixRun(code: seq<Instr>, t: seq<Instr>, pend: set<int>, pend': set<int>,
                                     lt: int, kst: seq<Value>, p: int, R: Regs)
    requires WF(code, pend, lt) && 0 <= p <= |code|
    requires forall j :: j in pend' && j < |code| <==> j in pend
    ensures Run(code + t, pend', kst, p, R) ==
            (match Run(code, pend, kst, p, R)
             case Fall(R') => Run(code + t, pend', kst, |code|, R')
             case o => o)
    decreases |code| - p
  {
    if p < |code| {
      StepLands(code, pend, lt, kst, p, R);
      assert InstrOK(code, pend, lt, p);
      assert (code + t)[p] == code[p];
      if p + 1 < |code| {
        assert (code + t)[p + 1] == code[p + 1];
      }
      assert Step(code + t, pend', kst, p, R) == Step(code, pend, kst, p, R);
      match Step(code, pend, kst, p, R)
      case Goto(q, R') =>
        if p < q {
          SuffixRun(code, t, pend, pend', lt, kst, q, R');
        }
      case _ =>
    }
  }

  /** Whether the jump at 'j' is controlled by a TESTSET, and so carries a value. */
  predicate Carries(code: seq<Instr>, j: int) {
    1 <= j <= |code| && code[j - 1].TestSet?
  }

  /** The instruction at 'q' after patching the jumps 'js': those that carry a value
      jump to 'vt' and leave it in 'reg', the others jump to 'dt'. */
  function PatchAt(code: seq<Instr>, js: set<int>, vt: int, reg: int, dt: int, q: int): Instr
    requires 0 <= q < |code|
  {
    if q in js then Jmp((if Carries(code, q) then vt else dt) - (q + 1))
    else if q + 1 in js && code[q].TestSet? then PatchTest(code[q], reg)
    else code[q]
  }

  function PatchTest(i: Instr, reg: int): Instr
    requires i.TestSet?
  {
    if reg != NO_REG && reg != i.b then TestSet(reg, i.b, i.c) else Test(i.b, i.c)
  }

  function Patch(code: seq<Instr>, js: set<int>, vt: int, reg: int, dt: int): (c: seq<Instr>)
    ensures |c| == |code|
    ensures forall q :: 0 <= q < |code| ==> c[q] == PatchAt(code, js, vt, reg, dt, q)
  {
    seq(|code|, q requires 0 <= q < |code| => PatchAt(code, js, vt, reg, dt, q))
  }

  /** The registers after leaving through 'j' once it is patched. */
  function Landed(code: seq<Instr>, j: int, reg: int, R: Regs): Regs {
    if Carries(code, j) && reg != NO_REG && reg != code[j - 1].b
    then R[reg := Get(R, code[j - 1].b)] else R
  }

  /** What becomes of an effect when the jumps 'js' are patched. */
  function Redirect(code: seq<Instr>, js: set<int>, vt: int, reg: int, dt: int, s: Effect): Effect {
    if s.Leave? && s.at in js then Goto(if Carries(code, s.at) then vt else dt, Landed(code, s.at, reg, s.regs)) else s
  }

  lemma PatchTestStep(code: seq<Instr>, pend: set<int>, lt: int, js: set<int>, vt: int, reg: int, dt: int,
                      kst: seq<Value>, p: int, R: Regs)
    requires WF(code, pend, lt) && js <= pend && 0 <= p < |code| && code[p].TestSet? && p + 1 in js
    ensures Step(Patch(code, js, vt, reg, dt), pend - js, kst, p, R) ==
            Redirect(code, js, vt, reg, dt, Step(code, pend, kst, p, R))
  {
    var c := Patch(code, js, vt, reg, dt);
    var i := code[p];
    assert InstrOK(code, pend, lt, p);
    assert c[p] == PatchTest(i, reg);
    assert c[p + 1] == Jmp(vt - (p + 2)) by {
      assert c[p + 1] == PatchAt(code, js, vt, reg, dt, p + 1);
    }
    if Truthy(Get(R, i.b)) == i.c {
      assert Step(code, pend, kst, p, R) == Leave(p + 1, R);
      assert forall R1 :: Jump(c, pend - js, p + 1, R1) == Goto(vt, R1);
    }
  }

  /** A step of patched code goes where the original one leaves through 'js'. */
  lemma PatchStep(code: seq<Instr>, pend: set<int>, lt: int, js: set<int>, vt: int, reg: int, dt: int,
                  kst: seq<Value>, p: int, R: Regs)
    requires WF(code, pend, lt) && js <= pend && Safe(code, p) && p < |code|
    ensures Step(Patch(code, js, vt, reg, dt), pend - js, kst, p, R) ==
            Redirect(code, js, vt, reg, dt, Step(code, pend, kst, p, R))
  {
    var c := Patch(code, js, vt, reg, dt);
    assert InstrOK(code, pend, lt, p);
    assert c[p] == PatchAt(code, js, vt, reg, dt, p);
    if p + 1 < |code| {
      assert c[p + 1] == PatchAt(code, js, vt, reg, dt, p + 1);
    }
    if code[p].TestSet? && p + 1 in js {
      PatchTestStep(code, pend, lt, js, vt, reg, dt, kst, p, R);
    }
  }

  /** Patching a set of pending jumps redirects the runs that leave through them,
      with their value, and changes no other run. */
  lemma {:induction false} PatchRun(code: seq<Instr>, pend: set<int>, lt: int, js: set<int>, vt: int, reg: int, dt: int,
                                    kst: seq<Value>, p: int, R: Regs)
    requires WF(code, pend, lt) && js <= pend && Safe(code, p)
    requires forall j :: j in js ==> j < (if Carries(code, j) then vt else dt)
    ensures Run(Patch(code, js, vt, reg, dt), pend - js, kst, p, R) ==
            (var o := Run(code, pend, kst, p, R);
             if o.Exit? && o.at in js
             then Run(Patch(code, js, vt, reg, dt), pend - js, kst, if Carries(code, o.at) then vt else dt,
                      Landed(code, o.at, reg, o.regs))
             else o)
    decreases |code| - p
  {
    if p < |code| {
      StepLands(code, pend, lt, kst, p, R);
      LeavesAhead(code, pend, kst, p, R);
      PatchStep(code, pend, lt, js, vt, reg, dt, kst, p, R);
      match Step(code, pend, kst, p, R)
      case Goto(q, R') => PatchRun(code, pend, lt, js, vt, reg, dt, kst, q, R');
      case _ =>
    }
  }

  lemma LeavesAhead(code: seq<Instr>, pend: set<int>, kst: seq<Value>, p: int, R: Regs)
    requires 0 <= p < |code|
    ensures var s := Step(code, pend, kst, p, R); s.Leave? ==> p <= s.at <= p + 1 && s.at in pend
  {
  }

  /** Only pending offsets differ: the links of the jump lists. */
  ghost predicate SameButLinks(code: seq<Instr>, code': seq<Instr>, pend: set<int>) {
    && |code'| == |code|
    && forall q :: 0 <= q < |code| ==>
         code'[q] == code[q] || (q in pend && code[q].Jmp? && code'[q].Jmp?)
  }

  lemma {:induction false} RelinkRun(code: seq<Instr>, code': seq<Instr>, pend: set<int>, kst: seq<Value>, p: int, R: Regs)
    requires SameButLinks(code, code', pend)
    ensures Run(code', pend, kst, p, R) == Run(code, pend, kst, p, R)
    decreases |code| - p
  {
    if 0 <= p < |code| {
      assert code'[p] == code[p] || (p in pend && code[p].Jmp? && code'[p].Jmp?);
      if p + 1 < |code| {
        assert code'[p + 1] == code[p + 1] || (p + 1 in pend && code[p + 1].Jmp? && code'[p + 1].Jmp?);
      }
      assert Step(code', pend, kst, p, R) == Step(code, pend, kst, p, R);
      match Step(code, pend, kst, p, R)
      case Goto(q, R') =>
        if p < q {
          RelinkRun(code, code', pend, kst, q, R');
        }
      case _ =>
    }
  }

  /** 'code' with the tests of the jumps 'js' no longer producing values. */
  function Silence(code: seq<Instr>, js: set<int>): (c: seq<Instr>)
    ensures |c| == |code|
    ensures forall q :: 0 <= q < |code| ==> c[q] == SilenceAt(code, js, q)
  {
    seq(|code|, q requires 0 <= q < |code| => SilenceAt(code, js, q))
  }

  function SilenceAt(code: seq<Instr>, js: set<int>, q: int): Instr
    requires 0 <= q < |code|
  {
    if q + 1 in js && code[q].TestSet? then Test(code[q].b, code[q].c) else code[q]
  }

  lemma {:induction false} SilenceRun(code: seq<Instr>, pend: set<int>, lt: int, js: set<int>,
                                      kst: seq<Value>, p: int, R: Regs)
    requires WF(code, pend, lt) && js <= pend && 0 <= p <= |code|
    ensures Run(Silence(code, js), pend, kst, p, R) == Run(code, pend, kst, p, R)
    decreases |code| - p
  {
    var c := Silence(code, js);
    if p < |code| {
      StepLands(code, pend, lt, kst, p, R);
      assert InstrOK(code, pend, lt, p);
      assert c[p] == SilenceAt(code, js, p);
      if p + 1 < |code| {
        assert c[p + 1] == SilenceAt(code, js, p + 1);
      }
      assert Step(c, pend, kst, p, R) == Step(code, pend, kst, p, R);
      match Step(code, pend, kst, p, R)
      case Goto(q, R') =>
        if p < q {
          SilenceRun(code, pend, lt, js, kst, q, R');
        }
      case _ =>
    }
  }
}
