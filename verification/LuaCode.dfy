/** The code generator (apps/lua/lcode.c): 'FuncState' emits instructions, threads
    pending jumps through their own offsets and patches them later. */
module LuaCode {
  import opened LuaOpcodes
  import opened LuaFlow
  import opened LuaExprSpec
  import opened LuaEmit
  import opened LuaExprProofs
  import opened LuaExprOps
  import opened LuaExprEnd
  import opened LuaExprJumps
  import opened LuaExprLogic
  import opened LuaExprCombine

  /** A syntax error abandons the compilation. */
  datatype Status = Ok | SyntaxError(msg: string) {
    predicate IsFailure() { SyntaxError? }
    function PropagateFailure(): Status requires SyntaxError? { this }
  }

  lemma JumpFits(n: nat)
    ensures InstrFits(Jmp(NO_JUMP), n)
  {
  }

  lemma ValueFits(s: St, e: ExpDesc, reg: int)
    ensures Register(reg) ==> InstrFits(LoadBool(reg, e.k == VTRUE, false), |s.kst|)
    ensures Register(reg) && KindOK(s, e) && e.k == VLOCAL && s.nact < 256 ==> InstrFits(Move(reg, e.info), |s.kst|)
    ensures Register(reg) && KindOK(s, e) && e.k == VNONRELOC ==> InstrFits(Move(reg, e.info), |s.kst|)
    ensures KindOK(s, e) && e.k == VK ==> 0 <= e.info < |s.kst|
    ensures Register(reg) ==> 0 <= reg && reg + 1 <= 256
  {
  }

  lemma CmpFits(opr: BinOp, rk1: int, rk2: int, n: nat)
    requires opr != And && opr != Or
    ensures Operand(rk1, n) && Operand(rk2, n) ==> InstrFits(CmpFor(opr, rk1, rk2), n)
  {
  }

  /** The instruction is one of 32 bits, and can be read back from them. */
  predicate Survives(i: Instr) {
    0 <= Encode(i) < 0x1_0000_0000 && Decode(Encode(i)) == Some(i)
  }

  lemma AllDecode(code: seq<Instr>, n: nat)
    requires forall p :: 0 <= p < |code| ==> InstrFits(code[p], n)
    ensures forall p :: 0 <= p < |code| ==> Survives(code[p])
  {
    forall p | 0 <= p < |code| ensures Survives(code[p]) {
      DecodeEncode(code[p], n);
    }
  }

  lemma BinFacts(op: BinOp, l: Expr, r: Expr, n: int)
    ensures Size(EBin(op, l, r)) == 1 + Size(l) + Size(r) && Size(l) >= 1 && Size(r) >= 1
    ensures Registers(l) <= Registers(EBin(op, l, r)) && Registers(r) + 1 <= Registers(EBin(op, l, r))
    ensures LocalsBelow(EBin(op, l, r), n) ==> LocalsBelow(l, n) && LocalsBelow(r, n)
  {
  }

  class FuncState {
    var code: seq<Instr>
    var jpc: int
    var lasttarget: int
    var freereg: int
    var maxstacksize: int
    var nactvar: int
    var k: seq<Value>
    var cache: map<Value, int>
    ghost var pend: set<int>
    ghost var here: seq<int>

    ghost function Snap(): St
      reads this
    {
      St(code, pend, here, jpc, lasttarget, freereg, maxstacksize, k, nactvar)
    }

    /** There is room for more code and constants. */
    ghost predicate Room(instructions: nat, constants: nat)
      reads this`code, this`k
    {
      |code| + instructions <= MAXARG_SBX && |k| + constants <= MAXARG_AX
    }

    /** Every instruction fits in 32 bits, and names only constants that are there. */
    ghost predicate Encoded()
      reads this`code, this`k
    {
      |k| <= 0x3ff_ffff && forall q :: 0 <= q < |code| ==> InstrFits(code[q], |k|)
    }

    /** At most so much was added. */
    ghost predicate Grown(s: St, instructions: nat, constants: nat)
      reads this`code, this`k
    {
      |code| <= |s.code| + instructions && |k| <= |s.kst| + constants
    }

    /** A function with 'nactvar' active local variables and no code yet. */
    constructor (nactvar: int)
      requires 0 <= nactvar < MAXREGS - 1
      ensures Snap() == St([], {}, [], NO_JUMP, 0, nactvar, if nactvar < 2 then 2 else nactvar, [], nactvar)
    {
      code, jpc, lasttarget, freereg, this.nactvar := [], NO_JUMP, 0, nactvar, nactvar;
      maxstacksize := if nactvar < 2 then 2 else nactvar;
      k, cache, pend, here := [], map[], {}, [];
    }

    /** lcode.c:90-96 */
    method GetJump(pc: int) returns (dest: int)
      requires 0 <= pc < |code| && code[pc].Jmp?
      ensures dest == Link(code, pc)
    {
      var offset := code[pc].sbx;
      if offset == NO_JUMP {
        return NO_JUMP;
      } else {
        return (pc + 1) + offset;
      }
    }

    /** lcode.c:103-110 */
    method FixJump(pc: int, dest: int) returns (st: Status)
      requires 0 <= pc < |code| && code[pc].Jmp? && dest != NO_JUMP
      modifies this`code
      ensures st.Ok? <==> -MAXARG_SBX <= dest - (pc + 1) <= MAXARG_SBX
      ensures code == if st.Ok? then old(code)[pc := Jmp(dest - (pc + 1))] else old(code)
      ensures st.Ok? && old(Encoded()) ==> Encoded()
    {
      var offset := dest - (pc + 1);
      if offset > MAXARG_SBX || -offset > MAXARG_SBX {
        return SyntaxError("control structure too long");
      }
      code := code[pc := Jmp(offset)];
      return Ok;
    }

    /** lcode.c:116-127: the list 'l1' followed by the list 'l2'. */
    method Concat(l1: int, l2: int, ghost a: seq<int>, ghost b: seq<int>) returns (st: Status, l: int)
      requires IsList(code, l1, a) && IsList(code, l2, b)
      requires forall j :: j in a ==> j !in b
      modifies this`code
      ensures st.Ok? ==> IsList(code, l, a + b) && code == Linked(old(code), a, b)
      ensures |old(code)| <= MAXARG_SBX ==> st.Ok?
      ensures st.Ok? && old(Encoded()) ==> Encoded()
    {
      hide Encoded, InstrFits;
      if l2 == NO_JUMP {
        assert a + b == a;
        return Ok, l1;
      } else if l1 == NO_JUMP {
        assert a + b == b;
        return Ok, l2;
      } else {
        var list := l1;
        ghost var n := 0;
        var next := GetJump(list);
        assert next == NextOf(a, 0);
        while next != NO_JUMP
          invariant code == old(code) && 0 <= n < |a| && list == a[n] && next == NextOf(a, n)
          decreases |a| - n
        {
          list := next;
          n := n + 1;
          next := GetJump(list);
          assert next == NextOf(a, n);
        }
        LinkedList(code, l1, l2, a, b);
        l := l1;
        :- FixJump(list, l2);
        return Ok, l1;
      }
    }

    /** lcode.c:168-171 */
    method GetLabel() returns (pc: int)
      modifies this`lasttarget
      ensures lasttarget == pc == |code|
    {
      lasttarget := |code|;
      return |code|;
    }

    /** lcode.c:179-186: the position of the instruction controlling a jump. */
    function GetJumpControl(pc: int): (c: int)
      requires 0 <= pc < |code|
      reads this
    {
      if pc >= 1 && IsTest(code[pc - 1]) then pc - 1 else pc
    }

    /** lcode.c:195-207 */
    method PatchTestReg(node: int, reg: int) returns (patched: bool)
      requires 0 <= node < |code| && code[node].Jmp?
      modifies this`code
      ensures patched <==> Carries(old(code), node)
      ensures code == if patched then old(code)[node - 1 := PatchTest(old(code)[node - 1], reg)] else old(code)
      ensures old(Encoded()) && Register(reg) ==> Encoded()
    {
      var c := GetJumpControl(node);
      var i := code[c];
      if !i.TestSet? {
        return false;
      }
      if reg != NO_REG && reg != i.b {
        code := code[c := TestSet(reg, i.b, i.c)];
      } else {
        code := code[c := Test(i.b, i.c)];
      }
      return true;
    }

    /** lcode.c:213-216 */
    method RemoveValues(list: int, ghost js: seq<int>)
      requires IsList(code, list, js)
      modifies this`code
      ensures code == Silence(old(code), Elems(js))
      ensures |code| == |old(code)|
      ensures old(Encoded()) ==> Encoded()
    {
      hide Encoded, InstrFits;
      var l := list;
      ghost var n := 0;
      assert code == Silence(code, Elems(js[..0]));
      while l != NO_JUMP
        invariant 0 <= n <= |js| && IsList(code, l, js[n..])
        invariant old(Encoded()) ==> Encoded()
        invariant code == Silence(old(code), Elems(js[..n]))
        decreases |js| - n
      {
        ghost var c := code;
        var _ := PatchTestReg(l, NO_REG);
        SilenceNext(old(code), c, code, js, n);
        PatchTail(c, code, l, js[n..]);
        l := GetJump(l);
        n := n + 1;
      }
      assert js[..n] == js;
    }

    /** One round of 'PatchListAux' (lcode.c:228-231). */
    method PatchJump(j: int, vtarget: int, reg: int, dtarget: int) returns (st: Status)
      requires 0 <= j < |code| && code[j].Jmp?
      requires (if Carries(code, j) then vtarget else dtarget) != NO_JUMP
      modifies this`code
      ensures st.Ok? ==>
                var c := old(code);
                var t := if Carries(c, j) then vtarget else dtarget;
                code == (if Carries(c, j) then c[j - 1 := PatchTest(c[j - 1], reg)] else c)[j := Jmp(t - (j + 1))]
      ensures |old(code)| <= MAXARG_SBX && -1 <= vtarget <= |old(code)| && -1 <= dtarget <= |old(code)| ==> st.Ok?
      ensures |code| == |old(code)|
      ensures st.Ok? && old(Encoded()) && Register(reg) ==> Encoded()
    {
      hide Encoded, InstrFits;
      var patched := PatchTestReg(j, reg);
      if patched {
        :- FixJump(j, vtarget);
      } else {
        :- FixJump(j, dtarget);
      }
      return Ok;
    }

    /** lcode.c:224-234 */
    method PatchListAux(list: int, vtarget: int, reg: int, dtarget: int, ghost js: seq<int>) returns (st: Status)
      requires IsList(code, list, js)
      requires vtarget != NO_JUMP
      requires forall j :: j in js && !Carries(code, j) ==> dtarget != NO_JUMP
      modifies this`code
      ensures st.Ok? ==> code == Patch(old(code), Elems(js), vtarget, reg, dtarget)
      ensures |old(code)| <= MAXARG_SBX && -1 <= vtarget <= |old(code)| && -1 <= dtarget <= |old(code)| ==> st.Ok?
      ensures |code| == |old(code)|
      ensures st.Ok? && old(Encoded()) && Register(reg) ==> Encoded()
    {
      hide Encoded, InstrFits, Patch, PatchTest;
      var l := list;
      ghost var n := 0;
      PatchNone(code, vtarget, reg, dtarget);
      assert Elems(js[..0]) == {};
      while l != NO_JUMP
        invariant 0 <= n <= |js| && IsList(code, l, js[n..])
        invariant old(Encoded()) && Register(reg) ==> Encoded()
        invariant |code| == |old(code)| && code == Patch(old(code), Elems(js[..n]), vtarget, reg, dtarget)
        decreases |js| - n
      {
        ghost var c := code;
        var next := GetJump(l);
        PatchCtl(old(code), js, n, vtarget, reg, dtarget);
        assert js[n] in js;
        :- PatchJump(l, vtarget, reg, dtarget);
        PatchNext(old(code), c, code, js, n, vtarget, reg, dtarget);
        PatchTail(c, code, l, js[n..]);
        l := next;
        n := n + 1;
      }
      assert js[..n] == js;
      return Ok;
    }

    /** lcode.c:242-245 */
    method DischargeJpc() returns (st: Status)
      requires IsList(code, jpc, here)
      modifies this`code, this`jpc, this`pend, this`here
      ensures st.Ok? ==> Snap() == Emitted(old(Snap()), [], {})
      ensures |old(code)| <= MAXARG_SBX ==> st.Ok?
      ensures |code| == |old(code)|
      ensures st.Ok? && old(Encoded()) ==> Encoded()
    {
      hide Encoded, InstrFits;
      st := PatchListAux(jpc, |code|, NO_REG, |code|, here);
      :- st;
      jpc := NO_JUMP;
      pend, here := pend - Elems(here), [];
      return Ok;
    }

    /** lcode.c:252-255 */
    method PatchToHere(list: int, ghost js: seq<int>) returns (st: Status)
      requires IsList(code, jpc, here) && IsList(code, list, js)
      requires forall j :: j in here ==> j !in js
      modifies this`code, this`jpc, this`lasttarget, this`here
      ensures st.Ok? ==> code == Linked(old(code), old(here), js) && here == old(here) + js
      ensures st.Ok? ==> IsList(code, jpc, here) && lasttarget == |code|
      ensures |old(code)| <= MAXARG_SBX ==> st.Ok?
      ensures st.Ok? && old(Encoded()) ==> Encoded()
    {
      hide Encoded, InstrFits;
      var _ := GetLabel();
      st, jpc := Concat(jpc, list, here, js);
      :- st;
      here := here + js;
      return Ok;
    }

    /** lcode.c:293-305: emit one instruction. */
    method Code(i: Instr) returns (st: Status, pc: int)
      requires IsList(code, jpc, here)
      modifies this`code, this`jpc, this`pend, this`here
      ensures st.Ok? ==> Snap() == Emitted(old(Snap()), [i], {}) && pc == |old(code)|
      ensures |old(code)| <= MAXARG_SBX ==> st.Ok?
      ensures st.Ok? ==> |code| == |old(code)| + 1
      ensures st.Ok? && old(Encoded()) && InstrFits(i, |k|) ==> Encoded()
    {
      pc := 0;
      :- DischargeJpc();
      pc := |code|;
      code := code + [i];
      return Ok, pc;
    }

    /** lcode.c:136-143: a jump that keeps the jumps to here on hold with it. */
    method Jump() returns (st: Status, j: int)
      requires IsList(code, jpc, here)
      modifies this`code, this`jpc, this`pend, this`here
      ensures st.Ok? ==> j == |old(code)| && |code| == j + 1 && code[..j] == old(code) && code[j].Jmp?
      ensures st.Ok? ==> (old(here) == [] ==> code[j] == Jmp(NO_JUMP))
      ensures st.Ok? ==> IsList(code, j, [j] + old(here))
      ensures st.Ok? ==> jpc == NO_JUMP && here == [] && pend == old(pend) + {j}
      ensures |old(code)| + 1 <= MAXARG_SBX ==> st.Ok?
      ensures st.Ok? && old(Encoded()) ==> Encoded()
    {
      hide InstrFits, Encoded;
      JumpFits(|k|);
      var saved := jpc;
      ghost var onHold := here;
      jpc, here := NO_JUMP, [];
      PatchNone(code, |code|, NO_REG, |code|);
      st, j := Code(Jmp(NO_JUMP));
      :- st;
      pend := pend + {j};
      ListStays(old(code), code, saved, onHold);
      st, j := Concat(j, saved, [j], onHold);
    }

    /** lcode.c:158-161: a test and the jump it controls. */
    method CondJump(i: Instr) returns (st: Status, j: int)
      requires IsList(code, jpc, here)
      modifies this`code, this`jpc, this`pend, this`here
      ensures st.Ok? ==> j == |old(code)| + 1
      ensures st.Ok? ==> Snap() == Emitted(old(Snap()), [i, Jmp(NO_JUMP)], {j})
      ensures |old(code)| + 2 <= MAXARG_SBX ==> st.Ok?
      ensures st.Ok? ==> |code| == |old(code)| + 2
      ensures st.Ok? && old(Encoded()) && InstrFits(i, |k|) ==> Encoded()
    {
      hide Encoded, InstrFits;
      var pc;
      j := 0;
      st, pc := Code(i);
      :- st;
      ghost var c := code;
      st, j := Jump();
      :- st;
      assert code == c + [Jmp(NO_JUMP)];
      assert c + [Jmp(NO_JUMP)] == Discharged(old(Snap())) + [i, Jmp(NO_JUMP)];
      return Ok, j;
    }

    /** lcode.c:361-369 */
    method CheckStack(n: int) returns (st: Status)
      modifies this`maxstacksize
      ensures st.Ok? ==> freereg + n <= maxstacksize && old(maxstacksize) <= maxstacksize
      ensures st.Ok? && old(maxstacksize) < MAXREGS ==> maxstacksize < MAXREGS
      ensures freereg + n < MAXREGS ==> st.Ok?
    {
      var newstack := freereg + n;
      if newstack > maxstacksize {
        if newstack >= MAXREGS {
          return SyntaxError("function or expression needs too many registers");
        }
        maxstacksize := newstack;
      }
      return Ok;
    }

    /** lcode.c:375-378 */
    method ReserveRegs(n: int) returns (st: Status)
      modifies this`freereg, this`maxstacksize
      ensures st.Ok? ==> freereg == old(freereg) + n <= maxstacksize
      ensures st.Ok? && old(maxstacksize) < MAXREGS ==> maxstacksize < MAXREGS
      ensures old(freereg) + n < MAXREGS ==> st.Ok?
    {
      st := CheckStack(n);
      :- st;
      freereg := freereg + n;
      return Ok;
    }

    /** lcode.c:386-391 */
    method FreeReg(reg: int)
      requires reg < BITRK && reg >= nactvar ==> reg == freereg - 1
      modifies this`freereg
      ensures freereg == if reg < BITRK && reg >= nactvar then old(freereg) - 1 else old(freereg)
    {
      if reg < BITRK && reg >= nactvar {
        freereg := freereg - 1;
        assert reg == freereg;
      }
    }

    /** lcode.c:397-400 */
    method FreeExp(e: ExpDesc)
      requires e.k == VNONRELOC && e.info < BITRK && e.info >= nactvar ==> e.info == freereg - 1
      modifies this`freereg
      ensures freereg == if e.k == VNONRELOC && e.info < BITRK && e.info >= nactvar then old(freereg) - 1 else old(freereg)
    {
      if e.k == VNONRELOC {
        FreeReg(e.info);
      }
    }

    /** lcode.c:428-452: index of a constant; the cache may be out of date. */
    method AddK(v: Value) returns (st: Status, idx: int)
      modifies this`k, this`cache
      ensures st.Ok? ==> 0 <= idx < |k| && k[idx] == v && old(k) <= k
      ensures st.Ok? ==> k == old(k) || k == old(k) + [v]
      ensures |old(k)| < MAXARG_AX ==> st.Ok?
      ensures st.Ok? && old(Encoded()) ==> Encoded()
    {
      if v in cache && 0 <= cache[v] < |k| && k[cache[v]] == v {
        return Ok, cache[v];
      }
      idx := |k|;
      if idx >= MAXARG_AX {
        return SyntaxError("too many constants"), 0;
      }
      cache := cache[v := idx];
      k := k + [v];
      return Ok, idx;
    }

    /** lcode.c:346-355 */
    method CodeK(reg: int, idx: int) returns (st: Status)
      requires IsList(code, jpc, here)
      modifies this`code, this`jpc, this`pend, this`here
      ensures st.Ok? ==> Snap() == Emitted(old(Snap()), KLoad(reg, idx), {})
      ensures |old(code)| + 1 <= MAXARG_SBX ==> st.Ok?
      ensures st.Ok? ==> |code| <= |old(code)| + 2
      ensures st.Ok? && old(Encoded()) && Register(reg) && 0 <= idx < |k| ==> Encoded()
    {
      var pc;
      if idx <= MAXARG_BX {
        st, pc := Code(LoadK(reg, idx));
      } else {
        st, pc := Code(LoadKX(reg));
        :- st;
        ghost var s := Snap();
        PatchNone(code, |code|, NO_REG, |code|);
        st, pc := Code(ExtraArg(idx));
        assert s.code + [ExtraArg(idx)] == Discharged(old(Snap())) + KLoad(reg, idx);
      }
    }

    /** lcode.c:649-652 */
    method CodeLoadBool(a: int, b: bool, skip: bool) returns (st: Status, pc: int)
      requires IsList(code, jpc, here)
      modifies this`code, this`jpc, this`pend, this`here, this`lasttarget
      ensures st.Ok? ==> pc == |old(code)|
      ensures st.Ok? ==> Snap() == Emitted(old(Snap()), [LoadBool(a, b, skip)], {}).(lt := |old(code)|)
      ensures |old(code)| <= MAXARG_SBX ==> st.Ok?
      ensures st.Ok? ==> |code| == |old(code)| + 1
      ensures st.Ok? && old(Encoded()) && Register(a) ==> Encoded()
    {
      var _ := GetLabel();
      st, pc := Code(LoadBool(a, b, skip));
    }

    /** lcode.c:659-665: does some jump of the list need a value loaded? */
    method NeedValue(list: int, ghost js: seq<int>) returns (need: bool)
      requires IsList(code, list, js)
      ensures need <==> exists j :: j in js && !Carries(code, j)
    {
      var l := list;
      ghost var n := 0;
      while l != NO_JUMP
        invariant 0 <= n <= |js| && (l == if n < |js| then js[n] else NO_JUMP)
        invariant forall i :: 0 <= i < n ==> Carries(code, js[i])
        decreases |js| - n
      {
        var i := code[GetJumpControl(l)];
        if !i.TestSet? {
          assert js[n] in js && !Carries(code, js[n]);
          return true;
        }
        assert Link(code, js[n]) == NextOf(js, n);
        l := GetJump(l);
        n := n + 1;
      }
      return false;
    }

    /** lcode.c:64-83: extend the previous LOADNIL when no jump
        lands between the two. */
    method LoadNils(from: int, n: int) returns (st: Status)
      requires IsList(code, jpc, here) && lasttarget >= 0 && n >= 1
      modifies this`code, this`jpc, this`pend, this`here
      ensures st.Ok? ==>
                var s := old(Snap());
                Snap() == if NilMerges(s, from, n) then NilMerged(s, from, n) else Emitted(s, [LoadNil(from, n - 1)], {})
      ensures |old(code)| <= MAXARG_SBX ==> st.Ok?
      ensures st.Ok? ==> |code| <= |old(code)| + 1
      ensures st.Ok? && old(Encoded()) && 0 <= from && from + n <= 256 ==> Encoded()
    {
      var l := from + n - 1;
      if |code| > lasttarget {
        var previous := code[|code| - 1];
        if previous.LoadNil? {
          var pfrom := previous.a;
          var pl := pfrom + previous.b;
          if (pfrom <= from && from <= pl + 1) || (from <= pfrom && pfrom <= l + 1) {
            var from', l' := from, l;
            if pfrom < from {
              from' := pfrom;
            }
            if pl > l {
              l' := pl;
            }
            code := code[|code| - 1 := LoadNil(from', l' - from')];
            return Ok;
          }
        }
      }
      var pc;
      st, pc := Code(LoadNil(from, n - 1));
    }

    /** lcode.c:556-588: 'e' is no longer a variable. */
    method DischargeVars(e: ExpDesc) returns (e': ExpDesc)
      ensures e' == DischargedVars(e)
    {
      e' := if e.k == VLOCAL then e.(k := VNONRELOC) else e;
    }

    /** SETARG_A (lcode.c:618-622) */
    method SetDestination(pc: int, reg: int)
      requires 0 <= pc < |code| && code[pc].Not?
      modifies this`code
      ensures code == old(code)[pc := Not(reg, old(code)[pc].b)]
      ensures old(Encoded()) && Register(reg) ==> Encoded()
    {
      code := code[pc := Not(reg, code[pc].b)];
    }

    /** lcode.c:595-635: the value of 'e', but for its jumps, goes to 'reg'. */
    method Discharge2Reg(e: ExpDesc, reg: int) returns (st: Status, e': ExpDesc)
      requires IsList(code, jpc, here) && lasttarget >= 0
      requires e.k == VRELOCABLE ==> 0 <= e.info < |code| && code[e.info].Not?
      modifies this`code, this`jpc, this`pend, this`here, this`k, this`cache
      ensures st.Ok? ==> Placing(old(Snap()), DischargedVars(e), reg, Snap())
      ensures st.Ok? ==> e' == if e.k == VJMP then e else e.(k := VNONRELOC, info := reg)
      ensures old(Room(2, 1)) ==> st.Ok?
      ensures st.Ok? ==> Grown(old(Snap()), 2, 1)
      ensures st.Ok? && old(Encoded()) && Register(reg) && old(KindOK(Snap(), e)) && nactvar < 256 ==> Encoded()
    {
      hide Encoded, InstrFits, KindOK;
      ValueFits(Snap(), e, reg);
      e' := DischargeVars(e);
      var pc;
      match e'.k {
        case VNIL =>
          :- LoadNils(reg, 1);
        case VTRUE | VFALSE =>
          st, pc := Code(LoadBool(reg, e'.k == VTRUE, false));
          :- st;
        case VK =>
          :- CodeK(reg, e'.info);
        case VKINT =>
          var idx;
          st, idx := AddK(Int(e'.ival));
          :- st;
          :- CodeK(reg, idx);
        case VRELOCABLE =>
          SetDestination(e'.info, reg);
        case VNONRELOC =>
          if reg != e'.info {
            st, pc := Code(Move(reg, e'.info));
            :- st;
          }
        case VJMP =>
          return Ok, e';
      }
      return Ok, e'.(k := VNONRELOC, info := reg);
    }

    /** Emits the loads of false and of true after the code (lcode.c:684-687). */
    method CodeLoads(e: ExpDesc, reg: int) returns (st: Status, pf: int, pt: int)
      requires IsList(code, jpc, here) && (e.k == VJMP ==> here == [])
      modifies this`code, this`jpc, this`pend, this`here, this`lasttarget
      ensures st.Ok? && e.k != VJMP ==> LoadsAfter(old(Snap()), Snap(), reg) && pf == |old(code)| + 1 && pt == pf + 1
      ensures st.Ok? && e.k == VJMP ==>
                && Snap() == old(Snap()).(code := WithLoads(old(code), reg), lt := |old(code)| + 2)
                && pf == |old(code)| && pt == pf + 1
      ensures |old(code)| + 3 <= MAXARG_SBX ==> st.Ok?
      ensures st.Ok? ==> |code| == |old(code)| + (if e.k == VJMP then 2 else 3)
      ensures st.Ok? && old(Encoded()) && Register(reg) ==> Encoded()
    {
      hide Encoded, InstrFits;
      if e.k == VJMP {
        st, pf, pt := CodeBothLoads(reg);
        :- st;
        :- PatchToHere(NO_JUMP, []);
        return Ok, pf, pt;
      }
      st, pf, pt := CodeSkippedLoads(reg);
    }

    /** A jump around the loads (lcode.c:684-687). */
    method CodeSkippedLoads(reg: int) returns (st: Status, pf: int, pt: int)
      requires IsList(code, jpc, here)
      modifies this`code, this`jpc, this`pend, this`here, this`lasttarget
      ensures st.Ok? ==> LoadsAfter(old(Snap()), Snap(), reg) && pf == |old(code)| + 1 && pt == pf + 1
      ensures |old(code)| + 3 <= MAXARG_SBX ==> st.Ok?
      ensures st.Ok? ==> |code| == |old(code)| + 3
      ensures st.Ok? && old(Encoded()) && Register(reg) ==> Encoded()
    {
      hide Encoded, InstrFits, LoadsAfter, IsList;
      pf, pt := NO_JUMP, NO_JUMP;
      var fj;
      st, fj := Jump();
      :- st;
      ghost var c := code;
      NoList(code);
      st, pf, pt := CodeBothLoads(reg);
      :- st;
      ListStays(c, code, fj, [fj] + old(here));
      NoList(code);
      :- PatchToHere(fj, [fj] + old(here));
      assert [] + ([fj] + old(here)) == [fj] + old(here);
      LoadsAfterMade(old(Snap()), c, Snap(), reg);
      return Ok, pf, pt;
    }

    /** lcode.c:685-686 */
    method CodeBothLoads(reg: int) returns (st: Status, pf: int, pt: int)
      requires IsList(code, jpc, here) && here == []
      modifies this`code, this`jpc, this`pend, this`here, this`lasttarget
      ensures st.Ok? ==>
                && Snap() == old(Snap()).(code := WithLoads(old(code), reg), lt := |old(code)| + 1)
                && pf == |old(code)| && pt == pf + 1
      ensures |old(code)| + 2 <= MAXARG_SBX ==> st.Ok?
      ensures st.Ok? ==> |code| == |old(code)| + 2
      ensures st.Ok? && old(Encoded()) && Register(reg) ==> Encoded()
    {
      hide Encoded, InstrFits;
      pf, pt := NO_JUMP, NO_JUMP;
      PatchNone(code, |code|, NO_REG, |code|);
      st, pf := CodeLoadBool(reg, false, true);
      :- st;
      PatchNone(code, |code|, NO_REG, |code|);
      st, pt := CodeLoadBool(reg, true, false);
      :- st;
      assert code == WithLoads(old(code), reg);
      return Ok, pf, pt;
    }

    /** lcode.c:677-689: makes room for the values of jumps that carry none. */
    method PrepareLoads(e: ExpDesc, t: int, f: int, reg: int, ghost s: St, ghost tl: seq<int>, ghost fl: seq<int>)
      returns (st: Status, pf: int, pt: int)
      requires KindOK(s, e) && IsList(code, jpc, here)
      requires Snap() == if e.k == VJMP then s.(code := Linked(s.code, tl, [e.info])) else s
      requires e.k == VJMP ==> forall j :: SameCtl(s.code, code, j)
      requires IsList(code, t, WithTest(e, tl)) && IsList(code, f, fl)
      modifies this`code, this`jpc, this`pend, this`here, this`lasttarget
      ensures st.Ok? ==> Prepared(s, e, tl, fl, reg, pf, pt, Snap())
      ensures |old(code)| + 3 <= MAXARG_SBX ==> st.Ok?
      ensures st.Ok? ==> |code| <= |old(code)| + 3 && pf <= |code| && pt <= |code| && pf >= -1 && pt >= -1
      ensures st.Ok? && old(Encoded()) && Register(reg) ==> Encoded()
    {
      hide Encoded, InstrFits;
      pf, pt := NO_JUMP, NO_JUMP;
      if e.k == VJMP {
        TestNeedsValue(s, code, e, tl);
      }
      var need := NeedValue(t, WithTest(e, tl));
      if !need {
        need := NeedValue(f, fl);
      }
      if need {
        st, pf, pt := CodeLoads(e, reg);
        :- st;
      }
      var final := GetLabel();
      return Ok, pf, pt;
    }

    /** lcode.c:690-691 */
    method PatchEnds(t: int, f: int, final: int, reg: int, pf: int, pt: int, ghost tl: seq<int>, ghost fl: seq<int>)
      returns (st: Status)
      requires IsList(code, f, fl) && final == |code|
      requires forall j :: j in fl && !Carries(code, j) ==> pf != NO_JUMP
      requires var c := Patch(code, Elems(fl), |code|, reg, pf);
               IsList(c, t, tl) && forall j :: j in tl && !Carries(c, j) ==> pt != NO_JUMP
      modifies this`code, this`pend
      ensures st.Ok? ==> Snap() == old(Snap()).(code := Ended(old(code), Elems(tl), Elems(fl), reg, pf, pt),
                                                pend := old(pend) - Elems(fl) - Elems(tl))
      ensures |old(code)| <= MAXARG_SBX && -1 <= pf <= |old(code)| && -1 <= pt <= |old(code)| ==> st.Ok?
      ensures |code| == |old(code)|
      ensures st.Ok? && old(Encoded()) && Register(reg) ==> Encoded()
    {
      hide Encoded, InstrFits;
      st := PatchListAux(f, final, reg, pf, fl);
      :- st;
      :- PatchListAux(t, final, reg, pt, tl);
      pend := pend - Elems(fl) - Elems(tl);
      return Ok;
    }

    /** lcode.c:675-696: the value of 'e', jumps included, goes to 'reg'. */
    method Exp2Reg(e: ExpDesc, reg: int, ghost ctx: Ctx, ghost tl: seq<int>, ghost fl: seq<int>, ghost E: Expr)
      returns (st: Status, e': ExpDesc)
      requires Core(ctx, Snap(), e, tl, fl, E) && 0 <= reg < NO_REG
      modifies this`code, this`jpc, this`pend, this`here, this`k, this`cache, this`lasttarget
      ensures st.Ok? ==> old(k) <= k
      ensures st.Ok? ==> e'.k == VNONRELOC && e'.info == reg && e'.t == NO_JUMP && e'.f == NO_JUMP
      ensures st.Ok? ==> Struct(ctx, Snap(), e', [], []) && Meaning(ctx, Snap(), e', [], [], E, reg)
      ensures old(Room(5, 1)) ==> st.Ok?
      ensures st.Ok? ==> Grown(old(Snap()), 5, 1)
      ensures st.Ok? && old(Encoded()) ==> Encoded()
    {
      hide Encoded, InstrFits;
      VarsCore(ctx, Snap(), e, tl, fl, E);
      st, e' := Discharge2Reg(e, reg);
      :- st;
      if e.k != VJMP {
        PlacedDesc(ctx, old(Snap()), DischargedVars(e), tl, fl, E, reg, Snap());
      }
      st, e' := EndJumps(e', reg, ctx, tl, fl, E);
    }

    /** lcode.c:677-695 */
    method EndJumps(e: ExpDesc, reg: int, ghost ctx: Ctx, ghost tl: seq<int>, ghost fl: seq<int>, ghost E: Expr)
      returns (st: Status, e': ExpDesc)
      requires 0 <= reg < NO_REG
      requires if e.k == VJMP then Core(ctx, Snap(), e, tl, fl, E)
               else e.k == VNONRELOC && e.info == reg && Struct(ctx, Snap(), e, tl, fl) && Meaning(ctx, Snap(), e, tl, fl, E, reg)
      modifies this`code, this`jpc, this`pend, this`here, this`lasttarget
      ensures st.Ok? ==> e'.k == VNONRELOC && e'.info == reg && e'.t == NO_JUMP && e'.f == NO_JUMP
      ensures st.Ok? ==> Struct(ctx, Snap(), e', [], []) && Meaning(ctx, Snap(), e', [], [], E, reg)
      ensures |old(code)| + 3 <= MAXARG_SBX ==> st.Ok?
      ensures st.Ok? ==> |code| <= |old(code)| + 3
      ensures st.Ok? && old(Encoded()) ==> Encoded()
    {
      hide Encoded, InstrFits, Struct, Meaning, IsList, WF, OuterOK, Ended, LoadsAfter, TestLoads, Prepared;
      ghost var s := Snap();
      StructFacts(ctx, s, e, tl, fl);
      e' := e.(k := VNONRELOC, info := reg);
      var t := e.t;
      if e.k == VJMP {
        TestList(s, e);
        st, t := Concat(t, e.info, tl, [e.info]);
        :- st;
        JoinedTest(ctx, s, e, tl, fl);
      }
      if t != e.f {
        var pf, pt;
        st, pf, pt := PrepareLoads(e, t, e.f, reg, s, tl, fl);
        :- st;
        ghost var s1 := Snap();
        ghost var tl' := WithTest(e, tl);
        PreparedDesc(ctx, s, e, tl, fl, E, reg, pf, pt, s1, e'.(t := t));
        StructFacts(ctx, s1, e'.(t := t), tl', fl);
        EndReady(ctx, s1, e'.(t := t), tl', fl, reg, pf, pt);
        EndMiddle(s1, e'.(t := t), tl', fl, reg, pf, pt);
        :- PatchEnds(t, e.f, |code|, reg, pf, pt, tl', fl);
        EndDesc(ctx, s1, e'.(t := t), tl', fl, E, reg, pf, pt, Snap(), e'.(t := NO_JUMP, f := NO_JUMP));
      } else {
        NoJumps(code, t, WithTest(e, tl), e.f, fl);
      }
      return Ok, e'.(t := NO_JUMP, f := NO_JUMP);
    }

    /** What the expression methods leave alone, and the constants they may add. */
    ghost predicate Since(s: St)
      reads this
    {
      nactvar == s.nact && s.kst <= k
    }

    /** lcode.c:641-646 */
    method Discharge2AnyReg(e: ExpDesc, ghost ctx: Ctx, ghost tl: seq<int>, ghost fl: seq<int>, ghost E: Expr)
      returns (st: Status, e': ExpDesc)
      requires Desc(ctx, Snap(), e, tl, fl, E) && e.k != VJMP && e.k != VLOCAL
      modifies this`code, this`jpc, this`pend, this`here, this`k, this`cache, this`freereg, this`maxstacksize
      ensures st.Ok? ==> Since(old(Snap())) && e'.k == VNONRELOC && e'.t == e.t && e'.f == e.f
      ensures st.Ok? ==> Desc(ctx, Snap(), e', tl, fl, E)
      ensures old(Room(2, 1)) && ctx.base + 1 < MAXREGS ==> st.Ok?
      ensures st.Ok? ==> Grown(old(Snap()), 2, 1)
      ensures st.Ok? && old(Encoded()) ==> Encoded()
    {
      hide Encoded, InstrFits, Desc, Struct, Meaning, Placing, Forked, Guard, Negating, IsList, Emitted;
      DescFacts(ctx, Snap(), e, tl, fl, E);
      e' := e;
      if e.k != VNONRELOC {
        :- ReserveRegs(1);
        ghost var s := Snap();
        st, e' := Discharge2Reg(e, freereg - 1);
        :- st;
        AnyRegDesc(ctx, old(Snap()), e, tl, fl, E, s, Snap(), e');
      }
      return Ok, e';
    }

    /** lcode.c:703-708 */
    method Exp2NextReg(e: ExpDesc, ghost ctx: Ctx, ghost tl: seq<int>, ghost fl: seq<int>, ghost E: Expr)
      returns (st: Status, e': ExpDesc)
      requires Desc(ctx, Snap(), e, tl, fl, E)
      modifies this`code, this`jpc, this`pend, this`here, this`k, this`cache, this`lasttarget, this`freereg, this`maxstacksize
      ensures st.Ok? ==> Since(old(Snap()))
      ensures st.Ok? ==> e'.k == VNONRELOC && e'.info == ctx.base && Desc(ctx, Snap(), e', [], [], E)
      ensures old(Room(5, 1)) && ctx.base + 1 < MAXREGS ==> st.Ok?
      ensures st.Ok? ==> Grown(old(Snap()), 5, 1)
      ensures st.Ok? && old(Encoded()) ==> Encoded()
    {
      hide Encoded, InstrFits, Desc, Struct, Meaning, Placing, IsList, Core, WF, OuterOK;
      e' := DischargeVars(e);
      VarsDesc(ctx, Snap(), e, tl, fl, E);
      DescFacts(ctx, Snap(), e', tl, fl, E);
      FreeExp(e');
      :- ReserveRegs(1);
      ReregCore(ctx, old(Snap()), e', tl, fl, E, Snap());
      st, e' := Exp2Reg(e', freereg - 1, ctx, tl, fl, E);
      :- st;
      FinishedDesc(ctx, Snap(), e', E, ctx.base);
      return Ok, e';
    }

    /** lcode.c:715-727 */
    method Exp2AnyReg(e: ExpDesc, ghost ctx: Ctx, ghost tl: seq<int>, ghost fl: seq<int>, ghost E: Expr)
      returns (st: Status, e': ExpDesc)
      requires Desc(ctx, Snap(), e, tl, fl, E)
      modifies this`code, this`jpc, this`pend, this`here, this`k, this`cache, this`lasttarget, this`freereg, this`maxstacksize
      ensures st.Ok? ==> Since(old(Snap()))
      ensures st.Ok? ==> e'.k == VNONRELOC && Desc(ctx, Snap(), e', [], [], E)
      ensures old(Room(5, 1)) && ctx.base + 1 < MAXREGS ==> st.Ok?
      ensures st.Ok? ==> Grown(old(Snap()), 5, 1)
      ensures st.Ok? && old(Encoded()) ==> Encoded()
    {
      hide Encoded, InstrFits;
      e' := DischargeVars(e);
      VarsDesc(ctx, Snap(), e, tl, fl, E);
      if e'.k == VNONRELOC {
        if e'.t == e'.f {
          DescFacts(ctx, Snap(), e', tl, fl, E);
          NoJumps(code, e'.t, tl, e'.f, fl);
          return Ok, e';
        }
        if e'.info >= nactvar {
          st, e' := Exp2Reg(e', e'.info, ctx, tl, fl, E);
          :- st;
          FinishedDesc(ctx, Snap(), e', E, ctx.base);
          return Ok, e';
        }
      }
      st, e' := Exp2NextReg(e', ctx, tl, fl, E);
    }

    /** lcode.c:744-749 */
    method Exp2Val(e: ExpDesc, ghost ctx: Ctx, ghost tl: seq<int>, ghost fl: seq<int>, ghost E: Expr)
      returns (st: Status, e': ExpDesc)
      requires Desc(ctx, Snap(), e, tl, fl, E)
      modifies this`code, this`jpc, this`pend, this`here, this`k, this`cache, this`lasttarget, this`freereg, this`maxstacksize
      ensures st.Ok? ==> Since(old(Snap()))
      ensures st.Ok? ==> e'.k != VLOCAL && Desc(ctx, Snap(), e', [], [], E)
      ensures old(Room(5, 1)) && ctx.base + 1 < MAXREGS ==> st.Ok?
      ensures st.Ok? ==> Grown(old(Snap()), 5, 1)
      ensures st.Ok? && old(Encoded()) ==> Encoded()
    {
      hide Encoded, InstrFits;
      if e.t != e.f {
        st, e' := Exp2AnyReg(e, ctx, tl, fl, E);
      } else {
        e' := DischargeVars(e);
        DescFacts(ctx, Snap(), e, tl, fl, E);
        NoJumps(code, e.t, tl, e.f, fl);
        VarsDesc(ctx, Snap(), e, tl, fl, E);
        st := Ok;
      }
    }

    /** lcode.c:758-776 */
    method Exp2RK(e: ExpDesc, ghost ctx: Ctx, ghost tl: seq<int>, ghost fl: seq<int>, ghost E: Expr)
      returns (st: Status, e': ExpDesc, rk: int)
      requires Desc(ctx, Snap(), e, tl, fl, E)
      modifies this`code, this`jpc, this`pend, this`here, this`k, this`cache, this`lasttarget, this`freereg, this`maxstacksize
      ensures st.Ok? ==> Since(old(Snap()))
      ensures st.Ok? ==> IsRK(e', rk) && Desc(ctx, Snap(), e', [], [], E)
      ensures old(Room(10, 3)) && ctx.base + 1 < MAXREGS ==> st.Ok?
      ensures st.Ok? ==> Grown(old(Snap()), 10, 3)
      ensures st.Ok? && old(Encoded()) ==> Encoded()
    {
      hide Desc, Struct, Meaning, Placing, IsList, WF, OuterOK, Eval, ValueOf;
      rk := 0;
      st, e' := Exp2Val(e, ctx, tl, fl, E);
      :- st;
      if e'.k == VTRUE || e'.k == VFALSE || e'.k == VNIL || e'.k == VKINT {
        ghost var s := Snap();
        var idx;
        st, idx := AddK(ConstOf(e'));
        :- st;
        ConstantDesc(ctx, s, e', [], [], E, k, idx);
        e' := e'.(k := VK, info := idx);
      }
      if e'.k == VK {
        if e'.info <= MAXINDEXRK {
          return Ok, e', e'.info + BITRK;
        }
      }
      st, e' := Exp2AnyReg(e', ctx, [], [], E);
      rk := e'.info;
    }

    /** lcode.c:825-830 */
    method NegateCondition(e: ExpDesc)
      requires KindOK(Snap(), e) && e.k == VJMP
      modifies this`code
      ensures Snap() == Wanting(old(Snap()), !old(code)[|old(code)| - 2].want)
      ensures |code| == |old(code)|
      ensures old(Encoded()) ==> Encoded()
    {
      var c := GetJumpControl(e.info);
      code := code[c := code[c].(want := !code[c].want)];
    }

    /** The NOT at the end goes away (lcode.c:844). */
    method RemoveLast()
      requires |code| > 0
      modifies this`code
      ensures Snap() == CutLast(old(Snap())) && |code| == |old(code)| - 1
      ensures old(Encoded()) ==> Encoded()
    {
      code := code[..|code| - 1];
    }

    /** lcode.c:841-845: a NOT becomes part of the test. */
    method JumpOnNot(e: ExpDesc, cond: bool, ghost ctx: Ctx, ghost tl: seq<int>, ghost fl: seq<int>, ghost E: Expr)
      returns (st: Status, pc: int)
      requires Desc(ctx, Snap(), e, tl, fl, E) && e.k == VRELOCABLE
      modifies this`code, this`jpc, this`pend, this`here, this`k, this`cache, this`freereg, this`maxstacksize
      ensures st.Ok? ==> Since(old(Snap()))
      ensures st.Ok? ==> Forked(ctx, Snap(), !cond, if cond then e.t else e.f, Leaving(!cond, tl, fl),
                                if cond then e.f else e.t, Leaving(cond, tl, fl), pc, E)
      ensures |old(code)| + 1 <= MAXARG_SBX ==> st.Ok?
      ensures st.Ok? ==> |code| == |old(code)| + 1 && k == old(k)
      ensures st.Ok? && old(Encoded()) ==> Encoded()
    {
      hide CutLast, Leaving, Desc, Struct, Meaning, Placing, Forked, Guard, Negating, IsList, Emitted;
      DescFacts(ctx, Snap(), e, tl, fl, E);
      RelocForks(ctx, Snap(), e, tl, fl, E, !cond);
      var ie := code[e.info];
      RemoveLast();
      st, pc := CondJump(Test(ie.b, !cond));
    }

    /** lcode.c:849-850: tests the register that holds the value. */
    method JumpOnReg(e: ExpDesc, cond: bool, ghost ctx: Ctx, ghost tl: seq<int>, ghost fl: seq<int>, ghost E: Expr)
      returns (st: Status, pc: int)
      requires Desc(ctx, Snap(), e, tl, fl, E) && e.k == VNONRELOC
      modifies this`code, this`jpc, this`pend, this`here, this`k, this`cache, this`freereg, this`maxstacksize
      ensures st.Ok? ==> Since(old(Snap()))
      ensures st.Ok? ==> Forked(ctx, Snap(), !cond, if cond then e.t else e.f, Leaving(!cond, tl, fl),
                                if cond then e.f else e.t, Leaving(cond, tl, fl), pc, E)
      ensures |old(code)| + 2 <= MAXARG_SBX ==> st.Ok?
      ensures st.Ok? ==> |code| <= |old(code)| + 2 && k == old(k)
      ensures st.Ok? && old(Encoded()) ==> Encoded()
    {
      hide Leaving, Desc, Struct, Meaning, Placing, Forked, Guard, Negating, IsList, Emitted;
      DescFacts(ctx, Snap(), e, tl, fl, E);
      RegForks(ctx, Snap(), e, tl, fl, E, !cond, Snap().(freereg := ctx.base));
      FreeExp(e);
      st, pc := CondJump(TestSet(NO_REG, e.info, cond));
    }

    /** lcode.c:839-851: a jump when 'e' is 'cond'. */
    method JumpOnCond(e: ExpDesc, cond: bool, ghost ctx: Ctx, ghost tl: seq<int>, ghost fl: seq<int>, ghost E: Expr)
      returns (st: Status, pc: int)
      requires Desc(ctx, Snap(), e, tl, fl, E) && e.k != VJMP && e.k != VLOCAL
      modifies this`code, this`jpc, this`pend, this`here, this`k, this`cache, this`freereg, this`maxstacksize
      ensures st.Ok? ==> Since(old(Snap()))
      ensures st.Ok? ==> Forked(ctx, Snap(), !cond, if cond then e.t else e.f, Leaving(!cond, tl, fl),
                                if cond then e.f else e.t, Leaving(cond, tl, fl), pc, E)
      ensures old(Room(4, 1)) && ctx.base + 1 < MAXREGS ==> st.Ok?
      ensures st.Ok? ==> Grown(old(Snap()), 4, 1)
      ensures st.Ok? && old(Encoded()) ==> Encoded()
    {
      hide Encoded, InstrFits, Desc, Struct, Meaning, Placing, Forked, Guard, Negating, IsList, Emitted;
      pc := NO_JUMP;
      if e.k == VRELOCABLE {
        st, pc := JumpOnNot(e, cond, ctx, tl, fl, E);
      } else {
        var e';
        st, e' := Discharge2AnyReg(e, ctx, tl, fl, E);
        :- st;
        st, pc := JumpOnReg(e', cond, ctx, tl, fl, E);
      }
    }

    /** The end of lcode.c:857-878 and 882-904: the new jump joins the leaving list,
        the other list goes to here. */
    method CloseCondition(xh: int, ah: int, pc: int, ghost goesOn: bool, ghost ctx: Ctx, ghost xl: seq<int>, ghost al: seq<int>, ghost E: Expr)
      returns (st: Status, l: int)
      requires Forked(ctx, Snap(), goesOn, xh, xl, ah, al, pc, E)
      modifies this`code, this`jpc, this`here, this`lasttarget
      ensures st.Ok? ==> Guard(ctx, Snap(), goesOn, l, xl + One(pc), E)
      ensures |old(code)| <= MAXARG_SBX ==> st.Ok?
      ensures st.Ok? ==> |code| == |old(code)|
      ensures st.Ok? && old(Encoded()) ==> Encoded()
    {
      hide Encoded, InstrFits;
      ghost var s := Snap();
      CloseLists(ctx, s, goesOn, xh, xl, ah, al, pc, E);
      st, l := Concat(xh, pc, xl, One(pc));
      :- st;
      :- PatchToHere(ah, al);
      ClosesGuard(ctx, s, goesOn, xh, xl, ah, al, pc, E, Snap(), l);
      return Ok, l;
    }

    /** lcode.c:857-878: go through if 'e' is true, jump otherwise. */
    method GoIfTrue(e: ExpDesc, ghost ctx: Ctx, ghost tl: seq<int>, ghost fl: seq<int>, ghost E: Expr)
      returns (st: Status, e': ExpDesc, ghost xl: seq<int>)
      requires Desc(ctx, Snap(), e, tl, fl, E) && NoFalseK(e, k)
      modifies this`code, this`jpc, this`pend, this`here, this`k, this`cache, this`lasttarget, this`freereg, this`maxstacksize
      ensures st.Ok? ==> Since(old(Snap()))
      ensures st.Ok? ==> e'.t == NO_JUMP && Guard(ctx, Snap(), true, e'.f, xl, E)
      ensures old(Room(4, 1)) && ctx.base + 1 < MAXREGS ==> st.Ok?
      ensures st.Ok? ==> Grown(old(Snap()), 4, 1)
      ensures st.Ok? && old(Encoded()) ==> Encoded()
    {
      hide Encoded, InstrFits, Desc, Struct, Meaning, Placing, Forked, Guard, Negating, IsList, Emitted, Wanting, Eval;
      e' := DischargeVars(e);
      VarsDesc(ctx, Snap(), e, tl, fl, E);
      DescFacts(ctx, Snap(), e', tl, fl, E);
      var pc := NO_JUMP;
      xl := [];
      if e'.k == VJMP {
        TestForks(ctx, Snap(), e', tl, fl, E, true, Wanting(Snap(), !code[|code| - 2].want));
        NegateCondition(e');
        pc := e'.info;
      } else if e'.k == VK || e'.k == VKINT || e'.k == VTRUE {
        ConstForks(ctx, Snap(), e', tl, fl, E, true);
      } else {
        st, pc := JumpOnCond(e', false, ctx, tl, fl, E);
        :- st;
      }
      xl := fl + One(pc);
      var l;
      st, l := CloseCondition(e'.f, e'.t, pc, true, ctx, fl, tl, E);
      :- st;
      return Ok, e'.(t := NO_JUMP, f := l), xl;
    }

    /** lcode.c:882-904: go through if 'e' is false, jump otherwise. */
    method GoIfFalse(e: ExpDesc, ghost ctx: Ctx, ghost tl: seq<int>, ghost fl: seq<int>, ghost E: Expr)
      returns (st: Status, e': ExpDesc, ghost xl: seq<int>)
      requires Desc(ctx, Snap(), e, tl, fl, E)
      modifies this`code, this`jpc, this`pend, this`here, this`k, this`cache, this`lasttarget, this`freereg, this`maxstacksize
      ensures st.Ok? ==> Since(old(Snap()))
      ensures st.Ok? ==> e'.f == NO_JUMP && Guard(ctx, Snap(), false, e'.t, xl, E)
      ensures old(Room(4, 1)) && ctx.base + 1 < MAXREGS ==> st.Ok?
      ensures st.Ok? ==> Grown(old(Snap()), 4, 1)
      ensures st.Ok? && old(Encoded()) ==> Encoded()
    {
      hide Encoded, InstrFits, Desc, Struct, Meaning, Placing, Forked, Guard, Negating, IsList, Emitted, Eval;
      e' := DischargeVars(e);
      VarsDesc(ctx, Snap(), e, tl, fl, E);
      DescFacts(ctx, Snap(), e', tl, fl, E);
      var pc := NO_JUMP;
      xl := [];
      if e'.k == VJMP {
        WantingSame(Snap());
        TestForks(ctx, Snap(), e', tl, fl, E, false, Snap());
        pc := e'.info;
      } else if e'.k == VNIL || e'.k == VFALSE {
        ConstForks(ctx, Snap(), e', tl, fl, E, false);
      } else {
        st, pc := JumpOnCond(e', true, ctx, tl, fl, E);
        :- st;
      }
      xl := tl + One(pc);
      var l;
      st, l := CloseCondition(e'.t, e'.f, pc, false, ctx, tl, fl, E);
      :- st;
      return Ok, e'.(f := NO_JUMP, t := l), xl;
    }

    /** lcode.c:927-929 */
    method CodeNotReg(e: ExpDesc, ghost ctx: Ctx, ghost tl: seq<int>, ghost fl: seq<int>, ghost E: Expr)
      returns (st: Status, e': ExpDesc)
      requires Desc(ctx, Snap(), e, tl, fl, E) && (e.k == VRELOCABLE || e.k == VNONRELOC)
      modifies this`code, this`jpc, this`pend, this`here, this`k, this`cache, this`freereg, this`maxstacksize
      ensures st.Ok? ==> Since(old(Snap())) && e'.k == VRELOCABLE && e'.t == e.t && e'.f == e.f
      ensures st.Ok? ==> Negating(ctx, Snap(), e', tl, fl, E)
      ensures old(Room(3, 1)) && ctx.base + 1 < MAXREGS ==> st.Ok?
      ensures st.Ok? ==> Grown(old(Snap()), 3, 1)
      ensures st.Ok? && old(Encoded()) ==> Encoded()
    {
      hide Desc, Struct, Meaning, Placing, Forked, Guard, Negating, IsList, Emitted;
      st, e' := Discharge2AnyReg(e, ctx, tl, fl, E);
      :- st;
      DescFacts(ctx, Snap(), e', tl, fl, E);
      NegatingReg(ctx, Snap(), e', tl, fl, E, Snap().(freereg := ctx.base), e'.(k := VRELOCABLE, info := |code|));
      FreeExp(e');
      var pc;
      st, pc := Code(Not(0, e'.info));
      :- st;
      return Ok, e'.(k := VRELOCABLE, info := pc);
    }

    /** lcode.c:936-938: interchanges the lists; their values are useless now. */
    method SwapLists(e: ExpDesc, ghost ctx: Ctx, ghost tl: seq<int>, ghost fl: seq<int>, ghost E: Expr) returns (e': ExpDesc)
      requires Negating(ctx, Snap(), e, tl, fl, E)
      modifies this`code
      ensures e'.k == e.k && Desc(ctx, Snap(), e', fl, tl, ENot(E))
      ensures |code| == |old(code)|
      ensures old(Encoded()) ==> Encoded()
    {
      hide Encoded, InstrFits, Desc, Struct, Meaning, Negating, IsList;
      NegatedDesc(ctx, Snap(), e, tl, fl, E);
      e' := e.(t := e.f, f := e.t);
      RemoveValues(e'.f, tl);
      RemoveValues(e'.t, fl);
    }

    /** lcode.c:910-939 */
    method CodeNot(e: ExpDesc, ghost ctx: Ctx, ghost tl: seq<int>, ghost fl: seq<int>, ghost E: Expr)
      returns (st: Status, e': ExpDesc)
      requires Desc(ctx, Snap(), e, tl, fl, E) && NoFalseK(e, k)
      modifies this`code, this`jpc, this`pend, this`here, this`k, this`cache, this`freereg, this`maxstacksize
      ensures st.Ok? ==> Since(old(Snap())) && e'.k != VK
      ensures st.Ok? ==> Desc(ctx, Snap(), e', fl, tl, ENot(E))
      ensures old(Room(3, 1)) && ctx.base + 1 < MAXREGS ==> st.Ok?
      ensures st.Ok? ==> Grown(old(Snap()), 3, 1)
      ensures st.Ok? && old(Encoded()) ==> Encoded()
    {
      hide Encoded, InstrFits, Desc, Struct, Meaning, Placing, Forked, Guard, Negating, IsList, Emitted, Wanting, Eval;
      e' := DischargeVars(e);
      VarsDesc(ctx, Snap(), e, tl, fl, E);
      DescFacts(ctx, Snap(), e', tl, fl, E);
      if e'.k == VNIL || e'.k == VFALSE {
        NegatingConst(ctx, Snap(), e', tl, fl, E);
        e' := e'.(k := VTRUE);
      } else if e'.k == VK || e'.k == VKINT || e'.k == VTRUE {
        NegatingConst(ctx, Snap(), e', tl, fl, E);
        e' := e'.(k := VFALSE);
      } else if e'.k == VJMP {
        NegatingTest(ctx, Snap(), e', tl, fl, E);
        NegateCondition(e');
      } else {
        st, e' := CodeNotReg(e', ctx, tl, fl, E);
        :- st;
      }
      e' := SwapLists(e', ctx, tl, fl, E);
      st := Ok;
    }

    /** lcode.c:407-418 */
    method FreeExps(e1: ExpDesc, e2: ExpDesc, ghost base: int)
      requires 0 <= nactvar <= base
      requires e1.k == VNONRELOC && nactvar <= e1.info < BITRK ==> e1.info == base
      requires e2.k == VNONRELOC && nactvar <= e2.info < BITRK ==>
                 e2.info == base + (if e1.k == VNONRELOC && nactvar <= e1.info < BITRK then 1 else 0)
      requires freereg == base + (if e1.k == VNONRELOC && nactvar <= e1.info < BITRK then 1 else 0)
                               + (if e2.k == VNONRELOC && nactvar <= e2.info < BITRK then 1 else 0)
      requires e1.k == VNONRELOC ==> e1.info >= 0
      requires e2.k == VNONRELOC ==> e2.info >= 0
      modifies this`freereg
      ensures freereg == base
    {
      var r1 := if e1.k == VNONRELOC then e1.info else -1;
      var r2 := if e2.k == VNONRELOC then e2.info else -1;
      if r1 > r2 {
        FreeReg(r1);
        FreeReg(r2);
      } else {
        FreeReg(r2);
        FreeReg(r1);
      }
    }

    /** lcode.c:1042-1058 */
    method CodeCmp(opr: BinOp, rk1: int, rk2: int) returns (st: Status, j: int)
      requires IsList(code, jpc, here) && opr != And && opr != Or
      modifies this`code, this`jpc, this`pend, this`here
      ensures st.Ok? ==> j == |old(code)| + 1
      ensures st.Ok? ==> Snap() == Emitted(old(Snap()), [CmpFor(opr, rk1, rk2), Jmp(NO_JUMP)], {j})
      ensures |old(code)| + 2 <= MAXARG_SBX ==> st.Ok?
      ensures st.Ok? ==> |code| == |old(code)| + 2
      ensures st.Ok? && old(Encoded()) && Operand(rk1, |k|) && Operand(rk2, |k|) ==> Encoded()
    {
      hide Encoded, InstrFits;
      CmpFits(opr, rk1, rk2, |k|);
      if opr == Ne {
        st, j := CondJump(Cmp(OpEQ, false, rk1, rk2));
      } else if opr == Gt || opr == Ge {
        st, j := CondJump(Cmp(if opr == Gt then OpLT else OpLE, true, rk2, rk1));
      } else {
        st, j := CondJump(Cmp(if opr == Eq then OpEQ else if opr == Lt then OpLT else OpLE, true, rk1, rk2));
      }
    }

    /** lcode.c:1037-1060: 'e1' is in R/K form since 'Infix'. */
    method CodeComp(opr: BinOp, e1: ExpDesc, e2: ExpDesc, ghost ctx: Ctx, ghost s1: St, ghost l: Expr,
                    ghost tl: seq<int>, ghost fl: seq<int>, ghost r: Expr)
      returns (st: Status, e': ExpDesc)
      requires opr != And && opr != Or && InRK(e1)
      requires Desc(ctx, s1, e1, [], [], l) && Desc(Here(s1), Snap(), e2, tl, fl, r)
      requires s1.kst <= k && s1.nact == nactvar && LocalsBelow(r, nactvar)
      modifies this`code, this`jpc, this`pend, this`here, this`k, this`cache, this`lasttarget, this`freereg, this`maxstacksize
      ensures st.Ok? ==> Since(old(Snap())) && e'.k != VK
      ensures st.Ok? ==> Desc(ctx, Snap(), e', [], [], EBin(opr, l, r))
      ensures old(Room(12, 3)) && s1.freereg + 1 < MAXREGS ==> st.Ok?
      ensures st.Ok? ==> Grown(old(Snap()), 12, 3)
      ensures st.Ok? && old(Encoded()) ==> Encoded()
    {
      hide Desc, Struct, Meaning, Placing, Forked, Guard, Negating, IsList, Emitted, StOK, LocalsBelow, Core, WF, CmpFor, Encoded, InstrFits;
      var rk1 := if e1.k == VK then e1.info + BITRK else e1.info;
      var e2', rk2;
      e' := e1;
      st, e2', rk2 := Exp2RK(e2, Here(s1), tl, fl, r);
      :- st;
      DescFacts(ctx, s1, e1, [], [], l);
      DescFacts(Here(s1), Snap(), e2', [], [], r);
      CompRegs(ctx, s1, e1, l, Snap(), e2', r, Snap().(freereg := ctx.base));
      FreeExps(e1, e2', ctx.base);
      CompDesc(ctx, s1, e1, l, Snap(), e2', r, opr, rk1, rk2, ExpDesc(VJMP, |code| + 1, e1.ival, NO_JUMP, NO_JUMP));
      CompLists(ctx, s1, e1, l);
      var j;
      st, j := CodeCmp(opr, rk1, rk2);
      :- st;
      return Ok, e1.(k := VJMP, info := j);
    }

    /** lcode.c:1086-1115: the first operand, before the second one is read. */
    method Infix(op: BinOp, v: ExpDesc, ghost ctx: Ctx, ghost tl: seq<int>, ghost fl: seq<int>, ghost E: Expr)
      returns (st: Status, v': ExpDesc, ghost xl: seq<int>)
      requires Desc(ctx, Snap(), v, tl, fl, E) && NoFalseK(v, k)
      modifies this`code, this`jpc, this`pend, this`here, this`k, this`cache, this`lasttarget, this`freereg, this`maxstacksize
      ensures st.Ok? ==> Since(old(Snap()))
      ensures st.Ok? && op == And ==> v'.t == NO_JUMP && Guard(ctx, Snap(), true, v'.f, xl, E)
      ensures st.Ok? && op == Or ==> v'.f == NO_JUMP && Guard(ctx, Snap(), false, v'.t, xl, E)
      ensures st.Ok? && op != And && op != Or ==> InRK(v') && Desc(ctx, Snap(), v', [], [], E)
      ensures old(Room(10, 3)) && ctx.base + 1 < MAXREGS ==> st.Ok?
      ensures st.Ok? ==> Grown(old(Snap()), 10, 3)
      ensures st.Ok? && old(Encoded()) ==> Encoded()
    {
      hide Encoded, InstrFits, Desc, Guard;
      if op == And {
        st, v', xl := GoIfTrue(v, ctx, tl, fl, E);
      } else if op == Or {
        st, v', xl := GoIfFalse(v, ctx, tl, fl, E);
      } else {
        var rk;
        xl := [];
        st, v', rk := Exp2RK(v, ctx, tl, fl, E);
      }
    }

    /** lcode.c:1066-1079, for 'not'. */
    method Prefix(e: ExpDesc, ghost ctx: Ctx, ghost tl: seq<int>, ghost fl: seq<int>, ghost E: Expr)
      returns (st: Status, e': ExpDesc)
      requires Desc(ctx, Snap(), e, tl, fl, E) && NoFalseK(e, k)
      modifies this`code, this`jpc, this`pend, this`here, this`k, this`cache, this`lasttarget, this`freereg, this`maxstacksize
      ensures st.Ok? ==> Since(old(Snap())) && e'.k != VK
      ensures st.Ok? ==> Desc(ctx, Snap(), e', fl, tl, ENot(E))
      ensures old(Room(3, 1)) && ctx.base + 1 < MAXREGS ==> st.Ok?
      ensures st.Ok? ==> Grown(old(Snap()), 3, 1)
      ensures st.Ok? && old(Encoded()) ==> Encoded()
    {
      hide Encoded, InstrFits, Desc;
      st, e' := CodeNot(e, ctx, tl, fl, E);
    }

    /** lcode.c:1127-1140: 'and' and 'or', after the second operand. */
    method PosfixLogic(isAnd: bool, e1: ExpDesc, e2: ExpDesc, ghost ctx: Ctx, ghost s1: St, ghost xl: seq<int>, ghost l: Expr,
                       ghost tl: seq<int>, ghost fl: seq<int>, ghost r: Expr)
      returns (st: Status, e': ExpDesc)
      requires Guard(ctx, s1, isAnd, if isAnd then e1.f else e1.t, xl, l)
      requires Desc(Here(s1), Snap(), e2, tl, fl, r)
      requires s1.kst <= k && s1.nact == nactvar && NoFalseK(e2, k)
      modifies this`code
      ensures st.Ok? ==> NoFalseK(e', k)
      ensures st.Ok? ==> Desc(ctx, Snap(), e', if isAnd then tl else tl + xl, if isAnd then fl + xl else fl,
                              EBin(if isAnd then And else Or, l, r))
      ensures |old(code)| <= MAXARG_SBX ==> st.Ok?
      ensures st.Ok? ==> |code| == |old(code)|
      ensures st.Ok? && old(Encoded()) ==> Encoded()
    {
      hide Encoded, InstrFits, Desc, Struct, Meaning, Placing, Forked, Guard, Negating, IsList, Emitted, StOK, LocalsBelow, Core, WF;
      e' := DischargeVars(e2);
      VarsDesc(Here(s1), Snap(), e2, tl, fl, r);
      DescFacts(Here(s1), Snap(), e', tl, fl, r);
      ghost var s := Snap();
      OperandList(ctx, s1, isAnd, if isAnd then e1.f else e1.t, xl, l, s, e', tl, fl, r);
      var j;
      if isAnd {
        st, j := Concat(e'.f, e1.f, fl, xl);
        :- st;
        BothDesc(ctx, s1, true, e1.f, xl, l, s, e', tl, fl, r, j);
        e' := e'.(f := j);
      } else {
        st, j := Concat(e'.t, e1.t, tl, xl);
        :- st;
        BothDesc(ctx, s1, false, e1.t, xl, l, s, e', tl, fl, r, j);
        e' := e'.(t := j);
      }
      return Ok, e';
    }

    /** lcode.c:1124-1171 */
    method Posfix(op: BinOp, e1: ExpDesc, e2: ExpDesc, ghost ctx: Ctx, ghost s1: St, ghost xl: seq<int>, ghost l: Expr,
                  ghost tl: seq<int>, ghost fl: seq<int>, ghost r: Expr)
      returns (st: Status, e': ExpDesc, ghost tl': seq<int>, ghost fl': seq<int>)
      requires op == And ==> Guard(ctx, s1, true, e1.f, xl, l)
      requires op == Or ==> Guard(ctx, s1, false, e1.t, xl, l)
      requires op != And && op != Or ==> InRK(e1) && Desc(ctx, s1, e1, [], [], l)
      requires Desc(Here(s1), Snap(), e2, tl, fl, r) && NoFalseK(e2, k)
      requires s1.kst <= k && s1.nact == nactvar && LocalsBelow(r, nactvar)
      modifies this`code, this`jpc, this`pend, this`here, this`k, this`cache, this`lasttarget, this`freereg, this`maxstacksize
      ensures st.Ok? ==> Since(old(Snap())) && NoFalseK(e', k)
      ensures st.Ok? ==> Desc(ctx, Snap(), e', tl', fl', EBin(op, l, r))
      ensures old(Room(12, 3)) && s1.freereg + 1 < MAXREGS ==> st.Ok?
      ensures st.Ok? ==> Grown(old(Snap()), 12, 3)
      ensures st.Ok? && old(Encoded()) ==> Encoded()
    {
      hide Encoded, InstrFits, Desc, Struct, Meaning, Placing, Forked, Guard, Negating, IsList, Emitted, StOK, LocalsBelow, Core;
      tl', fl' := [], [];
      if op == And || op == Or {
        tl', fl' := if op == And then tl else tl + xl, if op == And then fl + xl else fl;
        st, e' := PosfixLogic(op == And, e1, e2, ctx, s1, xl, l, tl, fl, r);
      } else {
        st, e' := CodeComp(op, e1, e2, ctx, s1, l, tl, fl, r);
      }
    }

    /** The order in which 'subexpr' (lparser.c:1048-1075) and 'simpleexp' call the
        code generator, on the tree of the expression. */
    method Expression(E: Expr) returns (st: Status, e: ExpDesc, ghost tl: seq<int>, ghost fl: seq<int>)
      requires StOK(Snap()) && LocalsBelow(E, nactvar)
      modifies this`code, this`jpc, this`pend, this`here, this`k, this`cache, this`lasttarget, this`freereg, this`maxstacksize
      ensures st.Ok? ==> Since(old(Snap())) && NoFalseK(e, k)
      ensures st.Ok? ==> Desc(Here(old(Snap())), Snap(), e, tl, fl, E)
      ensures old(Room(22 * Size(E), 6 * Size(E))) && old(freereg) + Registers(E) < MAXREGS ==> st.Ok?
      ensures st.Ok? ==> Grown(old(Snap()), 22 * Size(E), 6 * Size(E))
      ensures st.Ok? && old(Encoded()) ==> Encoded()
      decreases E, 1
    {
      hide Encoded, InstrFits, Desc, Guard, StOK, Struct, Meaning, IsList, InRK, Forked;
      ghost var ctx := Here(Snap());
      tl, fl := [], [];
      match E {
        case ENil =>
          e := ExpDesc(VNIL, 0, 0, NO_JUMP, NO_JUMP);
          LeafDesc(Snap(), e, E);
        case ETrue =>
          e := ExpDesc(VTRUE, 0, 0, NO_JUMP, NO_JUMP);
          LeafDesc(Snap(), e, E);
        case EFalse =>
          e := ExpDesc(VFALSE, 0, 0, NO_JUMP, NO_JUMP);
          LeafDesc(Snap(), e, E);
        case EInt(i) =>
          e := ExpDesc(VKINT, 0, i, NO_JUMP, NO_JUMP);
          LeafDesc(Snap(), e, E);
        case ELocal(r) =>
          e := ExpDesc(VLOCAL, r, 0, NO_JUMP, NO_JUMP);
          LeafDesc(Snap(), e, E);
        case EStr(t) =>
          var idx;
          e := ExpDesc(VK, 0, 0, NO_JUMP, NO_JUMP);
          st, idx := AddK(Str(t));
          :- st;
          e := e.(info := idx);
          ConstGrown(old(Snap()), Snap());
          LeafDesc(Snap(), e, E);
        case EParen(a) =>
          st, e, tl, fl := Expression(a);
          :- st;
          ghost var e0 := e;
          e := DischargeVars(e);
          VarsDesc(ctx, Snap(), e0, tl, fl, a);
          ParenDesc(ctx, Snap(), e, tl, fl, a);
        case ENot(a) =>
          ghost var tl0, fl0;
          st, e, tl0, fl0 := Expression(a);
          :- st;
          st, e := Prefix(e, ctx, tl0, fl0, a);
          :- st;
          tl, fl := fl0, tl0;
        case EBin(op, l, r) =>
          st, e, tl, fl := Binary(op, l, r);
          :- st;
      }
      st := Ok;
    }

    method Binary(op: BinOp, l: Expr, r: Expr) returns (st: Status, e: ExpDesc, ghost tl: seq<int>, ghost fl: seq<int>)
      requires StOK(Snap()) && LocalsBelow(EBin(op, l, r), nactvar)
      modifies this`code, this`jpc, this`pend, this`here, this`k, this`cache, this`lasttarget, this`freereg, this`maxstacksize
      ensures st.Ok? ==> Since(old(Snap())) && NoFalseK(e, k)
      ensures st.Ok? ==> Desc(Here(old(Snap())), Snap(), e, tl, fl, EBin(op, l, r))
      ensures old(Room(22 * Size(EBin(op, l, r)), 6 * Size(EBin(op, l, r)))) && old(freereg) + Registers(EBin(op, l, r)) < MAXREGS ==> st.Ok?
      ensures st.Ok? ==> Grown(old(Snap()), 22 * Size(EBin(op, l, r)), 6 * Size(EBin(op, l, r)))
      ensures st.Ok? && old(Encoded()) ==> Encoded()
      decreases EBin(op, l, r), 0
    {
      hide Size, Registers, LocalsBelow, Encoded, InstrFits, Desc, Guard, StOK, Struct, Meaning, IsList, InRK, Forked;
      BinFacts(op, l, r, nactvar);
      ghost var ctx := Here(Snap());
      ghost var xl;
      tl, fl := [], [];
      st, e, xl := FirstOperand(op, l);
      :- st;
      st, e, tl, fl := SecondOperand(op, e, r, ctx, xl, l);
    }

    /** The second operand, and the operator on both. */
    method SecondOperand(op: BinOp, e1: ExpDesc, r: Expr, ghost ctx: Ctx, ghost xl: seq<int>, ghost l: Expr)
      returns (st: Status, e: ExpDesc, ghost tl: seq<int>, ghost fl: seq<int>)
      requires StOK(Snap()) && LocalsBelow(r, nactvar)
      requires op == And ==> Guard(ctx, Snap(), true, e1.f, xl, l)
      requires op == Or ==> Guard(ctx, Snap(), false, e1.t, xl, l)
      requires op != And && op != Or ==> InRK(e1) && Desc(ctx, Snap(), e1, [], [], l)
      modifies this`code, this`jpc, this`pend, this`here, this`k, this`cache, this`lasttarget, this`freereg, this`maxstacksize
      ensures st.Ok? ==> Since(old(Snap())) && NoFalseK(e, k)
      ensures st.Ok? ==> Desc(ctx, Snap(), e, tl, fl, EBin(op, l, r))
      ensures old(Room(22 * Size(r) + 12, 6 * Size(r) + 3)) && old(freereg) + Registers(r) < MAXREGS ==> st.Ok?
      ensures st.Ok? ==> Grown(old(Snap()), 22 * Size(r) + 12, 6 * Size(r) + 3)
      ensures st.Ok? && old(Encoded()) ==> Encoded()
      decreases r, 2
    {
      hide Encoded, InstrFits, Desc, Guard, StOK, Struct, Meaning, IsList, InRK, Forked;
      ghost var s1 := Snap();
      ghost var tl2, fl2;
      tl, fl := [], [];
      var e2;
      e := e1;
      st, e2, tl2, fl2 := Expression(r);
      :- st;
      st, e, tl, fl := Posfix(op, e1, e2, ctx, s1, xl, l, tl2, fl2, r);
    }

    /** The first operand, and what is done with it before the second one. */
    method FirstOperand(op: BinOp, l: Expr) returns (st: Status, e: ExpDesc, ghost xl: seq<int>)
      requires StOK(Snap()) && LocalsBelow(l, nactvar)
      modifies this`code, this`jpc, this`pend, this`here, this`k, this`cache, this`lasttarget, this`freereg, this`maxstacksize
      ensures st.Ok? ==> Since(old(Snap())) && StOK(Snap()) && freereg <= old(freereg) + 1
      ensures st.Ok? && op == And ==> Guard(Here(old(Snap())), Snap(), true, e.f, xl, l)
      ensures st.Ok? && op == Or ==> Guard(Here(old(Snap())), Snap(), false, e.t, xl, l)
      ensures st.Ok? && op != And && op != Or ==> InRK(e) && Desc(Here(old(Snap())), Snap(), e, [], [], l)
      ensures old(Room(22 * Size(l) + 10, 6 * Size(l) + 3)) && old(freereg) + Registers(l) < MAXREGS ==> st.Ok?
      ensures st.Ok? ==> Grown(old(Snap()), 22 * Size(l) + 10, 6 * Size(l) + 3)
      ensures st.Ok? && old(Encoded()) ==> Encoded()
      decreases l, 2
    {
      hide Encoded, InstrFits, Desc, Guard, StOK, Struct, Meaning, IsList, InRK, Forked;
      ghost var ctx := Here(Snap());
      ghost var tl, fl;
      xl := [];
      st, e, tl, fl := Expression(l);
      :- st;
      st, e, xl := Infix(op, e, ctx, tl, fl, l);
      :- st;
      InfixOK(ctx, Snap(), op, e, xl, l);
    }

    /** lcode.c:149-151, for one result. */
    method Ret(first: int) returns (st: Status)
      requires IsList(code, jpc, here)
      modifies this`code, this`jpc, this`pend, this`here
      ensures st.Ok? ==> Snap() == Emitted(old(Snap()), [Return(first)], {})
      ensures |old(code)| <= MAXARG_SBX ==> st.Ok?
      ensures st.Ok? && old(Encoded()) && Register(first) ==> Encoded()
    {
      var pc;
      st, pc := Code(Return(first));
    }
  }

  /** The code of a function with 'nactvar' parameters that returns 'E'. Whatever the
      values of its locals, running it returns the value of 'E' and leaves the locals
      alone, or raises an error exactly when 'E' does. */
  method CompileReturn(nactvar: int, E: Expr) returns (st: Status, code: seq<Instr>, kst: seq<Value>)
    requires 0 <= nactvar < 254 && LocalsBelow(E, nactvar)
    ensures nactvar + Registers(E) < 255 && 22 * Size(E) + 5 <= 131071 ==> st.Ok?
    ensures st.Ok? ==> forall p :: 0 <= p < |code| ==> Survives(code[p]) && InstrFits(code[p], |kst|)
    ensures st.Ok? ==> forall R ::
              (match Eval(E, R)
               case None => Exec(code, kst, 0, R) == Raised
               case Some(v) => Exec(code, kst, 0, R).Returned? && Exec(code, kst, 0, R).value == v
                               && Agree(R, Exec(code, kst, 0, R).regs, nactvar, -1))
  {
    hide Survives, InstrFits;
    code, kst := [], [];
    var fs := new FuncState(nactvar);
    ghost var s0 := fs.Snap();
    FreshOK(s0);
    ghost var tl, fl;
    var e;
    st, e, tl, fl := fs.Expression(E);
    :- st;
    st, e := fs.Exp2NextReg(e, Here(s0), tl, fl, E);
    :- st;
    ghost var s := fs.Snap();
    DescFacts(Here(s0), s, e, [], [], E);
    :- fs.Ret(e.info);
    code, kst := fs.code, fs.k;
    AllDecode(code, |kst|);
    forall R {
      ReturnsValue(s0, s, e, E, code, kst, R);
    }
    return Ok, code, kst;
  }
}
