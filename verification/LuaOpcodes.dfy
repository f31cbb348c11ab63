/** Values, registers and the instructions used by expressions (apps/lua/lopcodes.h). */
module LuaOpcodes {
  import opened Arithmetic

  /** A register number that no frame owns: the pending destination of a TESTSET. */
  const NO_REG: int := 255
  /** Frames have fewer registers than this. */
  const MAXREGS: int := 255
  /** End of a jump list, and the offset of a jump that ends one. */
  const NO_JUMP: int := -1
  const MAXARG_SBX: int := 131071
  const MAXARG_BX: int := 262143
  const MAXARG_AX: int := 67108863
  /** Operands from here on name constants. */
  const BITRK: int := 256
  const MAXINDEXRK: int := 255

  datatype Option<+T> = None | Some(value: T)

  /** Tables stand for the values that have neither an order nor metamethods. */
  datatype Value = Nil | Bool(b: bool) | Int(i: int) | Str(s: string) | Table(id: nat)

  predicate Truthy(v: Value) {
    v != Nil && v != Bool(false)
  }

  datatype CmpOp = OpEQ | OpLT | OpLE

  /** Order of strings, character by character. */
  predicate StrBelow(s: string, t: string, orEqual: bool) {
    if s == "" || t == "" then s == "" && (orEqual || t != "")
    else s[0] < t[0] || (s[0] == t[0] && StrBelow(s[1..], t[1..], orEqual))
  }

  /** Comparison of two values; ordering needs two numbers or two strings. */
  function Compare(op: CmpOp, x: Value, y: Value): Option<bool> {
    match op
    case OpEQ => Some(x == y)
    case OpLT =>
      if x.Int? && y.Int? then Some(x.i < y.i)
      else if x.Str? && y.Str? then Some(StrBelow(x.s, y.s, false)) else None
    case OpLE =>
      if x.Int? && y.Int? then Some(x.i <= y.i)
      else if x.Str? && y.Str? then Some(StrBelow(x.s, y.s, true)) else None
  }

  /** 's' comes before 't' in a dictionary. */
  ghost predicate Lexical(s: string, t: string) {
    (s != t && s <= t) || exists k: nat :: Differ(s, t, k) && s[k] < t[k]
  }

  /** The first difference is at 'k'. */
  predicate Differ(s: string, t: string, k: nat) {
    k < |s| && k < |t| && s[..k] == t[..k] && s[k] != t[k]
  }

  lemma FirstSame(s: string, t: string, k: nat)
    requires Differ(s, t, k) || Differ(t, s, k)
    ensures k > 0 ==> s[0] == t[0]
  {
    assert k > 0 ==> s[..k][0] == s[0] && t[..k][0] == t[0];
  }

  lemma {:induction false} BelowIsLexical(s: string, t: string, orEqual: bool)
    ensures StrBelow(s, t, orEqual) <==> Lexical(s, t) || (orEqual && s == t)
  {
    if s != "" && t != "" {
      if s[0] == t[0] {
        BelowIsLexical(s[1..], t[1..], orEqual);
        assert s == [s[0]] + s[1..] && t == [t[0]] + t[1..];
        LexicalRest(s, t);
      } else {
        assert Differ(s, t, 0);
        forall k: nat | Differ(s, t, k) ensures k == 0 {
          FirstSame(s, t, k);
        }
      }
    }
  }

  lemma LexicalRest(s: string, t: string)
    requires s != "" && t != "" && s[0] == t[0]
    ensures Lexical(s, t) <==> Lexical(s[1..], t[1..])
  {
    var s1, t1 := s[1..], t[1..];
    assert s == [s[0]] + s1 && t == [t[0]] + t1;
    forall k: nat | Differ(s, t, k) ensures k > 0 && Differ(s1, t1, k - 1) {
      assert s1[..k - 1] == s[..k][1..] && t1[..k - 1] == t[..k][1..];
    }
    forall k: nat | Differ(s1, t1, k) ensures Differ(s, t, k + 1) {
      assert s[..k + 1] == [s[0]] + s1[..k] && t[..k + 1] == [t[0]] + t1[..k];
    }
  }

  /** Of two different strings one comes before the other, and not both do. */
  lemma {:induction false} LexicalTotal(s: string, t: string)
    ensures s != t ==> (Lexical(s, t) <==> !Lexical(t, s))
    ensures !Lexical(s, s)
  {
    if s != "" && t != "" && s[0] == t[0] {
      LexicalTotal(s[1..], t[1..]);
      LexicalRest(s, t);
      LexicalRest(t, s);
      assert s == [s[0]] + s[1..] && t == [t[0]] + t[1..];
    } else if s != "" && t != "" {
      assert Differ(s, t, 0) && Differ(t, s, 0);
      forall k: nat | Differ(s, t, k) || Differ(t, s, k) ensures k == 0 {
        FirstSame(s, t, k);
      }
    }
  }

  /** The comparisons are those of a total order of the integers, and of one of the strings:
      '<=' is '<' or equal, and of two different values just one is less (section 3.4.4 of the
      Lua 5.3 Reference Manual). */
  lemma CompareLaw(x: Value, y: Value)
    ensures Compare(OpEQ, x, y) == Some(x == y)
    ensures Compare(OpLT, x, y).Some? <==> (x.Int? && y.Int?) || (x.Str? && y.Str?)
    ensures Compare(OpLE, x, y).Some? == Compare(OpLT, x, y).Some? == Compare(OpLT, y, x).Some?
    ensures Compare(OpLT, x, y).Some? ==>
              && (Compare(OpLE, x, y).value <==> Compare(OpLT, x, y).value || x == y)
              && (x != y ==> (Compare(OpLT, x, y).value <==> !Compare(OpLT, y, x).value))
              && !Compare(OpLT, x, x).value
    ensures x.Int? && y.Int? ==> Compare(OpLT, x, y) == Some(x.i < y.i)
    ensures x.Str? && y.Str? ==> Compare(OpLT, x, y) == Some(Lexical(x.s, y.s))
  {
    hide Lexical;
    if x.Str? && y.Str? {
      BelowIsLexical(x.s, y.s, false);
      BelowIsLexical(x.s, y.s, true);
      BelowIsLexical(y.s, x.s, false);
      BelowIsLexical(x.s, x.s, false);
      LexicalTotal(x.s, y.s);
    }
  }

  datatype Instr =
    | Move(a: int, b: int)
    | LoadK(a: int, bx: int)
    | LoadKX(a: int)
    | LoadBool(a: int, value: bool, skip: bool)
    | LoadNil(a: int, b: int)
    | Not(a: int, b: int)
    | Jmp(sbx: int)
    | Cmp(op: CmpOp, want: bool, rkb: int, rkc: int)
    | Test(a: int, c: bool)
    | TestSet(a: int, b: int, c: bool)
    | Return(a: int)
    | ExtraArg(ax: int)

  /** Opcodes with the T mode bit: the next instruction must be a jump. */
  predicate IsTest(i: Instr) {
    i.Cmp? || i.Test? || i.TestSet?
  }

  type Regs = map<int, Value>

  function Get(R: Regs, r: int): Value {
    if r in R then R[r] else Nil
  }

  /** Registers a to a + b become nil. */
  function SetNil(R: Regs, a: int, b: int): Regs
    decreases b
  {
    if b < 0 then R else SetNil(R, a, b - 1)[a + b := Nil]
  }

  lemma {:induction false} SetNilGet(R: Regs, a: int, b: int, r: int)
    ensures Get(SetNil(R, a, b), r) == if a <= r <= a + b then Nil else Get(R, r)
    decreases b
  {
    if b >= 0 {
      SetNilGet(R, a, b - 1, r);
    }
  }

  /** Nothing is stored while the destination of a TESTSET is still pending. */
  function SetTested(R: Regs, a: int, v: Value): Regs {
    if a == NO_REG then R else R[a := v]
  }

  /** The value of an R/K operand; an index outside the constants has none. */
  function RK(kst: seq<Value>, R: Regs, x: int): Option<Value> {
    if x < BITRK then Some(Get(R, x))
    else if x - BITRK < |kst| then Some(kst[x - BITRK]) else None
  }

  function CompareRK(op: CmpOp, kst: seq<Value>, R: Regs, b: int, c: int): Option<bool> {
    var x, y := RK(kst, R, b), RK(kst, R, c);
    if x.Some? && y.Some? then Compare(op, x.value, y.value) else None
  }

  /** What one instruction does: go on, leave through a pending jump, raise an
      error, or nothing that the opcode table gives a meaning to. */
  datatype Effect = Goto(pc: int, regs: Regs) | Leave(at: int, regs: Regs) | Crash | Bad

  /** A jump at 'pc': a pending one has no destination yet. */
  function Jump(code: seq<Instr>, pend: set<int>, pc: int, R: Regs): Effect {
    if !(0 <= pc < |code|) || !code[pc].Jmp? then Bad
    else if pc in pend then Leave(pc, R)
    else Goto(pc + 1 + code[pc].sbx, R)
  }

  /** One step at 'p'. A test performs the jump that follows it or skips it. */
  function Step(code: seq<Instr>, pend: set<int>, kst: seq<Value>, p: int, R: Regs): Effect
    requires 0 <= p < |code|
  {
    match code[p]
    case Move(a, b) => Goto(p + 1, R[a := Get(R, b)])
    case LoadK(a, bx) => if 0 <= bx < |kst| then Goto(p + 1, R[a := kst[bx]]) else Bad
    case LoadKX(a) =>
      if p + 1 < |code| && code[p + 1].ExtraArg? && 0 <= code[p + 1].ax < |kst|
      then Goto(p + 2, R[a := kst[code[p + 1].ax]]) else Bad
    case LoadBool(a, v, skip) => Goto(if skip then p + 2 else p + 1, R[a := Bool(v)])
    case LoadNil(a, b) => Goto(p + 1, SetNil(R, a, b))
    case Not(a, b) => Goto(p + 1, R[a := Bool(!Truthy(Get(R, b)))])
    case Jmp(_) => Jump(code, pend, p, R)
    case Cmp(op, want, b, c) =>
      (match CompareRK(op, kst, R, b, c)
       case None => Crash
       case Some(res) => if res == want then Jump(code, pend, p + 1, R) else Goto(p + 2, R))
    case Test(a, c) =>
      if Truthy(Get(R, a)) == c then Jump(code, pend, p + 1, R) else Goto(p + 2, R)
    case TestSet(a, b, c) =>
      if Truthy(Get(R, b)) == c then Jump(code, pend, p + 1, SetTested(R, a, Get(R, b)))
      else Goto(p + 2, R)
    case Return(_) => Bad
    case ExtraArg(_) => Bad
  }

  /** How running a piece of code ends: at its end, through a pending jump, with
      a run-time error, or nowhere. */
  datatype Outcome = Fall(regs: Regs) | Exit(at: int, regs: Regs) | Fail | Stuck

  /** Runs 'code' from 'p'. Expressions only ever jump forward. */
  function Run(code: seq<Instr>, pend: set<int>, kst: seq<Value>, p: int, R: Regs): Outcome
    decreases |code| - p
  {
    if p == |code| then Fall(R)
    else if !(0 <= p < |code|) then Stuck
    else
      match Step(code, pend, kst, p, R)
      case Goto(q, R') => if p < q then Run(code, pend, kst, q, R') else Stuck
      case Leave(j, R') => Exit(j, R')
      case Crash => Fail
      case Bad => Stuck
  }

  // ---------- 32 bits (lopcodes.h:35-51, 118-147) ----------

  predicate Register(r: int) {
    0 <= r < 256
  }

  /** A register, or one of 'n' constants: these have the top one of nine bits set. */
  predicate Operand(x: int, n: nat) {
    0 <= x < 256 || (256 <= x < 512 && x - 256 < n)
  }

  /** Arguments have their fields, and name registers and constants. */
  predicate InstrFits(i: Instr, n: nat) {
    match i
    case Move(a, b) => Register(a) && Register(b)
    case LoadK(a, bx) => Register(a) && 0 <= bx < 0x4_0000 && bx < n
    case LoadKX(a) => Register(a)
    case LoadBool(a, _, _) => Register(a)
    case LoadNil(a, b) => 0 <= a && 0 <= b && a + b < 256
    case Not(a, b) => Register(a) && Register(b)
    case Jmp(sbx) => -131071 <= sbx <= 131071
    case Cmp(_, _, b, c) => Operand(b, n) && Operand(c, n)
    case Test(a, _) => Register(a)
    case TestSet(a, b, _) => Register(a) && Register(b)
    case Return(a) => Register(a)
    case ExtraArg(ax) => 0 <= ax < 0x400_0000 && ax < n
  }

  function Bit(b: bool): nat {
    if b then 1 else 0
  }

  /** CREATE_ABC: 6 bits for the opcode, 8 for A, 9 for C, 9 for B, from the lowest on. */
  function CreateABC(op: nat, a: int, b: int, c: int): int {
    op + 0x40 * a + 0x4000 * c + 0x80_0000 * b
  }

  /** CREATE_ABx: 18 bits for Bx, where C and B are. */
  function CreateABx(op: nat, a: int, bx: int): int {
    op + 0x40 * a + 0x4000 * bx
  }

  /** CREATE_Ax: 26 bits */
  function CreateAx(op: nat, ax: int): int {
    op + 0x40 * ax
  }

  /** Opcodes are numbered as in lopcodes.h:171-233; OP_RETURN returns one value. */
  function Encode(i: Instr): int {
    match i
    case Move(a, b) => CreateABC(0, a, b, 0)
    case LoadK(a, bx) => CreateABx(1, a, bx)
    case LoadKX(a) => CreateABx(2, a, 0)
    case LoadBool(a, v, skip) => CreateABC(3, a, Bit(v), Bit(skip))
    case LoadNil(a, b) => CreateABC(4, a, b, 0)
    case Not(a, b) => CreateABC(27, a, b, 0)
    case Jmp(sbx) => CreateABx(30, 0, sbx + 131071)
    case Cmp(op, want, b, c) => CreateABC(match op case OpEQ => 31 case OpLT => 32 case OpLE => 33, Bit(want), b, c)
    case Test(a, c) => CreateABC(34, a, 0, Bit(c))
    case TestSet(a, b, c) => CreateABC(35, a, b, Bit(c))
    case Return(a) => CreateABC(38, a, 2, 0)
    case ExtraArg(ax) => CreateAx(46, ax)
  }

  /** What the machine sees in 32 bits, of these opcodes. */
  function Decode(n: int): Option<Instr>
    requires 0 <= n < 0x1_0000_0000
  {
    var op, a, c, b, bx, ax := n % 0x40, n / 0x40 % 0x100, n / 0x4000 % 0x200, n / 0x80_0000, n / 0x4000, n / 0x40;
    if op == 0 then Some(Move(a, b))
    else if op == 1 then Some(LoadK(a, bx))
    else if op == 2 then Some(LoadKX(a))
    else if op == 3 then Some(LoadBool(a, b != 0, c != 0))
    else if op == 4 then Some(LoadNil(a, b))
    else if op == 27 then Some(Not(a, b))
    else if op == 30 then Some(Jmp(bx - 131071))
    else if op == 31 then Some(Cmp(OpEQ, a != 0, b, c))
    else if op == 32 then Some(Cmp(OpLT, a != 0, b, c))
    else if op == 33 then Some(Cmp(OpLE, a != 0, b, c))
    else if op == 34 then Some(Test(a, c != 0))
    else if op == 35 then Some(TestSet(a, b, c != 0))
    else if op == 38 then Some(Return(a))
    else if op == 46 then Some(ExtraArg(ax))
    else None
  }

  lemma FieldsABC(op: nat, a: int, b: int, c: int)
    requires op < 0x40 && 0 <= a < 0x100 && 0 <= b < 0x200 && 0 <= c < 0x200
    ensures var n := CreateABC(op, a, b, c);
            0 <= n < 0x1_0000_0000 && n % 0x40 == op && n / 0x40 % 0x100 == a && n / 0x4000 % 0x200 == c && n / 0x80_0000 == b
  {
    var n := CreateABC(op, a, b, c);
    ModUnique(n, 0x40, a + 0x100 * (c + 0x200 * b), op);
    ModUnique(a + 0x100 * (c + 0x200 * b), 0x100, c + 0x200 * b, a);
    ModUnique(n, 0x4000, c + 0x200 * b, op + 0x40 * a);
    ModUnique(c + 0x200 * b, 0x200, b, c);
    ModUnique(n, 0x80_0000, b, op + 0x40 * a + 0x4000 * c);
  }

  lemma FieldsABx(op: nat, a: int, bx: int)
    requires op < 0x40 && 0 <= a < 0x100 && 0 <= bx < 0x4_0000
    ensures var n := CreateABx(op, a, bx);
            0 <= n < 0x1_0000_0000 && n % 0x40 == op && n / 0x40 % 0x100 == a && n / 0x4000 == bx
  {
    var n := CreateABx(op, a, bx);
    ModUnique(n, 0x40, a + 0x100 * bx, op);
    ModUnique(a + 0x100 * bx, 0x100, bx, a);
    ModUnique(n, 0x4000, bx, op + 0x40 * a);
  }

  /** Instructions that fit survive their encoding. */
  lemma DecodeEncode(i: Instr, n: nat)
    requires InstrFits(i, n)
    ensures 0 <= Encode(i) < 0x1_0000_0000 && Decode(Encode(i)) == Some(i)
  {
    hide CreateABC, CreateABx;
    match i
    case Move(a, b) => FieldsABC(0, a, b, 0);
    case LoadK(a, bx) => FieldsABx(1, a, bx);
    case LoadKX(a) => FieldsABx(2, a, 0);
    case LoadBool(a, v, skip) => FieldsABC(3, a, Bit(v), Bit(skip));
    case LoadNil(a, b) => FieldsABC(4, a, b, 0);
    case Not(a, b) => FieldsABC(27, a, b, 0);
    case Jmp(sbx) => FieldsABx(30, 0, sbx + 131071);
    case Cmp(op, want, b, c) => FieldsABC(match op case OpEQ => 31 case OpLT => 32 case OpLE => 33, Bit(want), b, c);
    case Test(a, c) => FieldsABC(34, a, 0, Bit(c));
    case TestSet(a, b, c) => FieldsABC(35, a, b, Bit(c));
    case Return(a) => FieldsABC(38, a, 2, 0);
    case ExtraArg(ax) =>
  }

  /** The top one of nine bits tells constants from registers. */
  lemma OperandMeaning(kst: seq<Value>, R: Regs, x: int)
    requires 0 <= x < 0x200
    ensures RK(kst, R, x) == if x / 0x100 == 0 then Some(Get(R, x)) else if x % 0x100 < |kst| then Some(kst[x % 0x100]) else None
  {
  }
}
