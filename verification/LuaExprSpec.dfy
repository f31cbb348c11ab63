/** Source expressions, expression descriptors and what they promise
    (apps/lua/lparser.h:26-70, apps/lua/lcode.c). */
module LuaExprSpec {
  import opened LuaOpcodes
  import opened LuaFlow

  datatype BinOp = And | Or | Eq | Ne | Lt | Le | Gt | Ge

  datatype Expr =
    | ENil | ETrue | EFalse
    | EInt(i: int)
    | EStr(s: string)
    | ELocal(reg: nat)
    | ENot(arg: Expr)
    | EParen(inner: Expr)
    | EBin(op: BinOp, left: Expr, right: Expr)

  /** Every local variable of 'E' is active: it lives below register 'n'. */
  predicate LocalsBelow(E: Expr, n: int) {
    match E
    case ELocal(r) => r < n
    case ENot(a) => LocalsBelow(a, n)
    case EParen(a) => LocalsBelow(a, n)
    case EBin(_, l, r) => LocalsBelow(l, n) && LocalsBelow(r, n)
    case _ => true
  }

  /** Nodes of an expression. */
  function Size(E: Expr): (n: nat)
    ensures n >= 1
  {
    match E
    case ENot(a) => 1 + Size(a)
    case EParen(a) => 1 + Size(a)
    case EBin(_, l, r) => 1 + Size(l) + Size(r)
    case _ => 1
  }

  /** Registers that its evaluation takes at most: the left operand may stay in one while
      the right one is evaluated. */
  function Registers(E: Expr): (n: nat)
    ensures 1 <= n <= Size(E)
  {
    match E
    case ENot(a) => Registers(a)
    case EParen(a) => Registers(a)
    case EBin(_, l, r) => if Registers(l) > Registers(r) then Registers(l) else Registers(r) + 1
    case _ => 1
  }

  function Comparison(op: BinOp, x: Value, y: Value): Option<bool>
    requires op != And && op != Or
  {
    match op
    case Eq => Some(x == y)
    case Ne => Some(x != y)
    case Lt => Compare(OpLT, x, y)
    case Le => Compare(OpLE, x, y)
    case Gt => Compare(OpLT, y, x)
    case Ge => Compare(OpLE, y, x)
  }

  /** The value of an expression (None: a run-time error). */
  function Eval(E: Expr, R: Regs): Option<Value> {
    match E
    case ENil => Some(Nil)
    case ETrue => Some(Bool(true))
    case EFalse => Some(Bool(false))
    case EInt(i) => Some(Int(i))
    case EStr(t) => Some(Str(t))
    case ELocal(r) => Some(Get(R, r))
    case ENot(a) => (match Eval(a, R) case None => None case Some(v) => Some(Bool(!Truthy(v))))
    case EParen(a) => Eval(a, R)
    case EBin(op, l, r) =>
      (match Eval(l, R)
       case None => None
       case Some(x) =>
         if op == And && !Truthy(x) then Some(x)
         else if op == Or && Truthy(x) then Some(x)
         else if op == And || op == Or then Eval(r, R)
         else
           match Eval(r, R)
           case None => None
           case Some(y) => (match Comparison(op, x, y) case None => None case Some(b) => Some(Bool(b))))
  }

  /** The registers below 'n' other than 'w' hold the same values. */
  ghost predicate Agree(R: Regs, R': Regs, n: int, w: int) {
    forall r :: 0 <= r < n && r != w ==> Get(R', r) == Get(R, r)
  }

  lemma {:induction false} EvalAgree(E: Expr, R: Regs, R': Regs, n: int, m: int)
    requires LocalsBelow(E, n) && n <= m && Agree(R, R', m, -1)
    ensures Eval(E, R') == Eval(E, R)
  {
    match E
    case ENot(a) => EvalAgree(a, R, R', n, m);
    case EParen(a) => EvalAgree(a, R, R', n, m);
    case EBin(_, l, r) => EvalAgree(l, R, R', n, m); EvalAgree(r, R, R', n, m);
    case _ =>
  }

  datatype Kind = VNIL | VTRUE | VFALSE | VK | VKINT | VNONRELOC | VLOCAL | VJMP | VRELOCABLE

  datatype ExpDesc = ExpDesc(k: Kind, info: int, ival: int, t: int, f: int)

  function Elems(js: seq<int>): set<int> {
    set j | j in js
  }

  lemma ElemsConcat(a: seq<int>, b: seq<int>)
    ensures Elems(a + b) == Elems(a) + Elems(b)
  {
  }

  ghost predicate NoDup(js: seq<int>) {
    forall i, k :: 0 <= i < k < |js| ==> js[i] != js[k]
  }

  /** Where the jump at 'pc' links to; an offset to itself ends the list. */
  function Link(code: seq<Instr>, pc: int): int
    requires 0 <= pc < |code| && code[pc].Jmp?
  {
    if code[pc].sbx == NO_JUMP then NO_JUMP else pc + 1 + code[pc].sbx
  }

  /** What follows the element at 'i' in a list. */
  function NextOf(js: seq<int>, i: int): int
    requires 0 <= i < |js|
  {
    if i + 1 < |js| then js[i + 1] else NO_JUMP
  }

  /** 'l' heads the jump list 'js', threaded through the offsets of the jumps. */
  ghost predicate IsList(code: seq<Instr>, l: int, js: seq<int>) {
    && (if js == [] then l == NO_JUMP else l == js[0])
    && NoDup(js)
    && (forall i :: 0 <= i < |js| ==> 0 <= js[i] < |code| && code[js[i]].Jmp?)
    && (forall i {:trigger Link(code, js[i])} :: 0 <= i < |js| ==> Link(code, js[i]) == NextOf(js, i))
  }

  /** A list survives what is appended. */
  lemma ListStays(code: seq<Instr>, code': seq<Instr>, l: int, js: seq<int>)
    requires IsList(code, l, js) && |code| <= |code'| && code'[..|code|] == code
    ensures IsList(code', l, js)
  {
    forall j | j in js ensures j < |code'| && code'[j] == code[j] {
      assert code'[j] == code'[..|code|][j];
    }
    ListKept(code, code', l, js);
  }

  /** A list survives changes elsewhere. */
  lemma ListKept(code: seq<Instr>, code': seq<Instr>, l: int, js: seq<int>)
    requires IsList(code, l, js)
    requires forall j :: j in js ==> j < |code'| && code'[j] == code[j]
    ensures IsList(code', l, js)
  {
    forall i | 0 <= i < |js| ensures js[i] < |code'| && code'[js[i]] == code[js[i]] && Link(code', js[i]) == NextOf(js, i) {
      assert js[i] in js;
      assert Link(code, js[i]) == NextOf(js, i);
    }
  }

  /** A snapshot of the function being compiled. 'pend' are the jumps that have no
      destination yet, 'here' those of them on the list 'jpc'. */
  datatype St = St(code: seq<Instr>, pend: set<int>, here: seq<int>, jpc: int, lt: int,
                   freereg: int, maxstack: int, kst: seq<Value>, nact: int)

  function Now(s: St): Flow {
    Flow(s.code, s.pend, Elems(s.here))
  }

  /** Where the compilation of an expression started, and its first free register. */
  datatype Ctx = Ctx(from: Flow, lt: int, base: int)

  function Outer(ctx: Ctx): set<int> {
    ctx.from.pend - ctx.from.here
  }

  predicate InScope(ctx: Ctx, kst: seq<Value>, x: Start) {
    0 <= x.p <= ctx.lt && Safe(ctx.from.code, x.p) && kst <= x.kst
  }

  /** The code without the test or the relocatable instruction 'e' still stands for. */
  function Body(s: St, e: ExpDesc): Flow {
    if e.k == VJMP && |s.code| >= 2 then Flow(s.code[..|s.code| - 2], s.pend - {|s.code| - 1}, {})
    else if e.k == VRELOCABLE && |s.code| >= 1 then Flow(s.code[..|s.code| - 1], s.pend, {})
    else Now(s)
  }

  /** The value 'e' stands for once its body has run. */
  function ValueOf(code: seq<Instr>, e: ExpDesc, kst: seq<Value>, R: Regs): Option<Value> {
    match e.k
    case VNIL => Some(Nil)
    case VTRUE => Some(Bool(true))
    case VFALSE => Some(Bool(false))
    case VK => if 0 <= e.info < |kst| then Some(kst[e.info]) else None
    case VKINT => Some(Int(e.ival))
    case VNONRELOC => Some(Get(R, e.info))
    case VLOCAL => Some(Get(R, e.info))
    case VJMP =>
      if |code| >= 2 && code[|code| - 2].Cmp? then
        var i := code[|code| - 2];
        match CompareRK(i.op, kst, R, i.rkb, i.rkc) case None => None case Some(r) => Some(Bool(r == i.want))
      else None
    case VRELOCABLE =>
      if |code| >= 1 && code[|code| - 1].Not? then Some(Bool(!Truthy(Get(R, code[|code| - 1].b)))) else None
  }

  /** A jump of a list either carries the value or stands for true or false. */
  predicate CarriedOK(code: seq<Instr>, j: int, R: Regs, v: Value) {
    if Carries(code, j) then Get(R, code[j - 1].b) == v else v == Bool(Truthy(v))
  }

  predicate ExitOK(code: seq<Instr>, tl: seq<int>, fl: seq<int>, j: int, R: Regs, v: Value) {
    j in (if Truthy(v) then tl else fl) && CarriedOK(code, j, R, v)
  }

  /** On the run 'x': if the code before reached its end, then the code now delivers
      the value of 'E' through 'e' or through one of its lists, or fails as 'E' does,
      and leaves the registers in use alone; any other run is as it was. */
  ghost predicate Deliv(ctx: Ctx, s: St, e: ExpDesc, tl: seq<int>, fl: seq<int>, E: Expr, w: int, x: Start) {
    match Out(ctx.from, x)
    case Fall(R0) =>
      (match Out(Body(s, e), x)
       case Fall(R) => Agree(R0, R, ctx.base, w) && ValueOf(s.code, e, x.kst, R) == Eval(E, R0)
       case Exit(j, R) =>
         Agree(R0, R, ctx.base, -1) && Eval(E, R0).Some? && ExitOK(s.code, tl, fl, j, R, Eval(E, R0).value)
       case Fail => Eval(E, R0).None?
       case Stuck => false)
    case o => Out(Body(s, e), x) == o
  }

  ghost predicate Meaning(ctx: Ctx, s: St, e: ExpDesc, tl: seq<int>, fl: seq<int>, E: Expr, w: int) {
    forall x :: InScope(ctx, s.kst, x) ==> Deliv(ctx, s, e, tl, fl, E, w, x)
  }

  /** The control of 'j' is the same instruction, or no TESTSET in either code. */
  predicate SameCtl(code: seq<Instr>, code': seq<Instr>, j: int) {
    && (Carries(code, j) <==> Carries(code', j))
    && (Carries(code, j) ==> code'[j - 1] == code[j - 1])
  }

  /** The jumps 'js' and what controls them are untouched. */
  ghost predicate Kept(code: seq<Instr>, code': seq<Instr>, js: set<int>) {
    forall j :: j in js ==>
      0 <= j < |code| && j < |code'| && code'[j] == code[j] && SameCtl(code, code', j)
  }

  function JmpSet(s: St, e: ExpDesc): set<int> {
    if e.k == VJMP then {|s.code| - 1} else {}
  }

  /** The state between instructions: well-formed code, a well-formed list of jumps
      to the current position, which then is a label. */
  ghost predicate StOK(s: St) {
    && WF(s.code, s.pend, s.lt)
    && IsList(s.code, s.jpc, s.here)
    && Elems(s.here) <= s.pend
    && (s.here != [] ==> s.lt == |s.code|)
    && 0 <= s.nact <= s.freereg <= s.maxstack < MAXREGS
  }

  /** What was there before the expression is still there. */
  ghost predicate OuterOK(ctx: Ctx, s: St) {
    && 0 <= ctx.lt <= |ctx.from.code|
    && ctx.lt <= s.lt
    && Kept(ctx.from.code, s.code, Outer(ctx))
    && (forall q :: 0 <= q < ctx.lt && q < |s.code| && IsTest(s.code[q]) ==> IsTest(ctx.from.code[q]))
  }

  predicate KindOK(s: St, e: ExpDesc) {
    match e.k
    case VJMP =>
      && |s.code| >= 2 && e.info == |s.code| - 1 && s.code[e.info] == Jmp(NO_JUMP)
      && s.code[e.info - 1].Cmp? && s.here == [] && s.lt <= |s.code| - 2
    case VRELOCABLE =>
      && |s.code| >= 1 && e.info == |s.code| - 1 && s.code[e.info].Not? && s.here == [] && s.lt <= |s.code| - 1
    case VLOCAL => 0 <= e.info < s.nact
    case VNONRELOC => 0 <= e.info < MAXREGS
    case VK => 0 <= e.info < |s.kst|
    case _ => true
  }

  ghost predicate Struct(ctx: Ctx, s: St, e: ExpDesc, tl: seq<int>, fl: seq<int>) {
    && StOK(s)
    && OuterOK(ctx, s)
    && IsList(s.code, e.t, tl) && IsList(s.code, e.f, fl)
    && Outer(ctx) !! Elems(tl) !! Elems(fl) !! Elems(s.here) !! JmpSet(s, e)
    && s.pend == Outer(ctx) + Elems(tl) + Elems(fl) + Elems(s.here) + JmpSet(s, e)
    && KindOK(s, e)
  }

  /** The registers an expression may still hold: at most the first free one. */
  predicate RegsOK(ctx: Ctx, s: St, e: ExpDesc) {
    && s.nact <= ctx.base
    && s.freereg == ctx.base + (if e.k == VNONRELOC && e.info >= s.nact then 1 else 0)
    && (e.k == VNONRELOC && e.info >= s.nact ==> e.info == ctx.base)
  }

  /** 'e' with the lists 'tl' and 'fl' is a correct description of 'E'. */
  ghost predicate Desc(ctx: Ctx, s: St, e: ExpDesc, tl: seq<int>, fl: seq<int>, E: Expr) {
    && Struct(ctx, s, e, tl, fl)
    && RegsOK(ctx, s, e)
    && Meaning(ctx, s, e, tl, fl, E, -1)
    && LocalsBelow(E, s.nact)
  }

  /** The code goes on only when 'E' is 'cond'; otherwise it leaves through 'js'. */
  ghost predicate Goes(ctx: Ctx, s: St, cond: bool, js: seq<int>, E: Expr, x: Start) {
    match Out(ctx.from, x)
    case Fall(R0) =>
      (match Eval(E, R0)
       case None => Out(Now(s), x) == Fail
       case Some(v) =>
         (match Out(Now(s), x)
          case Fall(R) => Truthy(v) == cond && Agree(R0, R, ctx.base, -1)
          case Exit(j, R) => Truthy(v) != cond && j in js && Agree(R0, R, ctx.base, -1) && CarriedOK(s.code, j, R, v)
          case _ => false))
    case o => Out(Now(s), x) == o
  }

  ghost predicate Guard(ctx: Ctx, s: St, cond: bool, l: int, js: seq<int>, E: Expr) {
    && StOK(s)
    && OuterOK(ctx, s)
    && IsList(s.code, l, js)
    && Outer(ctx) !! Elems(js) !! Elems(s.here)
    && s.pend == Outer(ctx) + Elems(js) + Elems(s.here)
    && s.nact <= ctx.base == s.freereg
    && LocalsBelow(E, s.nact)
    && (forall x :: InScope(ctx, s.kst, x) ==> Goes(ctx, s, cond, js, E, x))
  }

  /** Starting to compile an expression. */
  function Here(s: St): Ctx {
    Ctx(Now(s), s.lt, s.freereg)
  }
}
