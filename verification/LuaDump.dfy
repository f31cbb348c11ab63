/** Writing precompiled chunks (apps/lua/ldump.c). */
module LuaDump {
  import opened LuaChunk

  /** From 'before', writing 'bytes' leads to 'after': all of them if the writer takes that
      many, and a part with an error if not; nothing once it has failed. */
  predicate Wrote(capacity: nat, before: seq<byte>, st: int, bytes: seq<byte>, after: seq<byte>, st': int) {
    if st != 0 then after == before && st' == st
    else
      |before| <= capacity ==>
        if |before + bytes| <= capacity then st' == 0 && after == before + bytes
        else st' != 0 && |before| <= |after| <= capacity && after == (before + bytes)[..|after|]
  }

  lemma WroteBoth(capacity: nat, o: seq<byte>, st: int, a: seq<byte>, o': seq<byte>, st': int, b: seq<byte>, o'': seq<byte>, st'': int)
    requires Wrote(capacity, o, st, a, o', st') && Wrote(capacity, o', st', b, o'', st'')
    ensures Wrote(capacity, o, st, a + b, o'', st'')
  {
    Assoc(o, a, b);
    if st == 0 && |o| <= capacity {
      if |o + a| > capacity {
        assert (o + a + b)[..|o'|] == (o + a)[..|o'|];
      }
    }
  }

  lemma {:induction false} EncodeSnoc<T>(xs: seq<T>, i: nat, e: T -> seq<byte>)
    requires i < |xs|
    ensures Encode(xs[..i + 1], e) == Encode(xs[..i], e) + e(xs[i])
    decreases i
  {
    if i == 0 {
      assert xs[..1] == [xs[0]] && Encode(xs[..0], e) == [] && Encode([xs[0]][1..], e) == [];
    } else {
      assert xs[..i + 1][1..] == xs[1..][..i] && xs[..i][1..] == xs[1..][..i - 1];
      EncodeSnoc(xs[1..], i - 1, e);
      Assoc(e(xs[0]), Encode(xs[1..][..i - 1], e), e(xs[i]));
    }
  }

  lemma {:induction false} FunctionsSnoc(ps: seq<Proto>, i: nat, psource: Option<seq<byte>>, strip: bool, same: (seq<byte>, seq<byte>) -> bool)
    requires i < |ps|
    ensures EncFunctions(ps[..i + 1], psource, strip, same)
            == EncFunctions(ps[..i], psource, strip, same) + EncFunction(ps[i], psource, strip, same)
    decreases i
  {
    if i == 0 {
      assert ps[..1] == [ps[0]] && ps[..0] == [];
      assert EncFunctions([ps[0]][1..], psource, strip, same) == [];
    } else {
      assert ps[..i + 1][1..] == ps[1..][..i] && ps[..i][1..] == ps[1..][..i - 1];
      FunctionsSnoc(ps[1..], i - 1, psource, strip, same);
      Assoc(EncFunction(ps[0], psource, strip, same), EncFunctions(ps[1..][..i - 1], psource, strip, same),
            EncFunction(ps[i], psource, strip, same));
    }
  }

  class DumpState {
    const strip: bool
    const same: (seq<byte>, seq<byte>) -> bool
    /** What the writer takes before it fails. */
    const capacity: nat
    var out: seq<byte>
    var status: int

    constructor (strip: bool, same: (seq<byte>, seq<byte>) -> bool, capacity: nat)
      ensures this.strip == strip && this.same == same && this.capacity == capacity && out == [] && status == 0
    {
      this.strip, this.same, this.capacity := strip, same, capacity;
      out, status := [], 0;
    }

    /** DumpBlock (ldump.c:40-46) */
    method DumpBlock(b: seq<byte>)
      modifies this
      ensures Wrote(capacity, old(out), old(status), b, out, status)
    {
      if status == 0 && |b| > 0 {
        if |out| + |b| <= capacity {
          out := out + b;
        } else {
          status := 1;
        }
      }
    }

    /** DumpString (ldump.c:73-87) */
    method DumpString(s: Option<seq<byte>>)
      modifies this
      ensures Wrote(capacity, old(out), old(status), EncString(s), out, status)
    {
      match s {
        case None => DumpBlock([0]);
        case Some(t) =>
          ghost var o, st := out, status;
          var size := |t| + 1;
          if size < 255 {
            DumpBlock([size]);
          } else {
            DumpBlock([255]);
            ghost var o1, st1 := out, status;
            DumpBlock(EncLength(size));
            WroteBoth(capacity, o, st, [255], o1, st1, EncLength(size), out, status);
          }
          ghost var o2, st2 := out, status;
          DumpBlock(t);
          WroteBoth(capacity, o, st, if size < 255 then [size] else [255] + EncLength(size), o2, st2, t, out, status);
      }
    }

    /** DumpInt and DumpVector together: a count and its elements (ldump.c:90-93). */
    method DumpCode(f: Proto)
      modifies this
      ensures Wrote(capacity, old(out), old(status), EncCode(f), out, status)
    {
      DumpBlock(EncCount(|f.code|));
      ghost var o, st := out, status;
      DumpBlock(Encode(f.code, EncWord));
      WroteBoth(capacity, old(out), old(status), EncCount(|f.code|), o, st, Encode(f.code, EncWord), out, status);
    }

    /** The loop of DumpConstants (ldump.c:102-124). */
    method DumpConstant(c: Constant)
      modifies this
      ensures Wrote(capacity, old(out), old(status), EncConstant(c), out, status)
    {
      match c {
        case Nil => DumpBlock([0]);
        case Bool(b) =>
          DumpBlock([1]);
          ghost var o, st := out, status;
          DumpBlock([b]);
          WroteBoth(capacity, old(out), old(status), [1], o, st, [b], out, status);
          assert [1] + [b] == EncConstant(c);
        case Float(x) =>
          DumpBlock([3]);
          ghost var o, st := out, status;
          DumpBlock(EncLong(x));
          WroteBoth(capacity, old(out), old(status), [3], o, st, EncLong(x), out, status);
        case Int(i) =>
          DumpBlock([19]);
          ghost var o, st := out, status;
          DumpBlock(EncInteger(i));
          WroteBoth(capacity, old(out), old(status), [19], o, st, EncInteger(i), out, status);
        case String(s) =>
          var tag := if |s| <= MAXSHORTLEN then 4 else 20;
          DumpBlock([tag]);
          ghost var o, st := out, status;
          DumpString(Some(s));
          WroteBoth(capacity, old(out), old(status), [tag], o, st, EncString(Some(s)), out, status);
      }
    }

    method DumpConstants(f: Proto)
      modifies this
      ensures Wrote(capacity, old(out), old(status), EncConstants(f), out, status)
    {
      DumpBlock(EncCount(|f.k|));
      ghost var o, st := out, status;
      for i := 0 to |f.k|
        invariant Wrote(capacity, o, st, Encode(f.k[..i], EncConstant), out, status)
      {
        ghost var o1, st1 := out, status;
        DumpConstant(f.k[i]);
        WroteBoth(capacity, o, st, Encode(f.k[..i], EncConstant), o1, st1, EncConstant(f.k[i]), out, status);
        EncodeSnoc(f.k, i, EncConstant);
      }
      assert f.k[..|f.k|] == f.k;
      WroteBoth(capacity, old(out), old(status), EncCount(|f.k|), o, st, Encode(f.k, EncConstant), out, status);
    }

    /** DumpUpvalues (ldump.c:137-144) */
    method DumpUpvalues(f: Proto)
      modifies this
      ensures Wrote(capacity, old(out), old(status), EncUpvalues(f), out, status)
    {
      var us := f.upvalues;
      DumpBlock(EncCount(|us|));
      ghost var o, st := out, status;
      for i := 0 to |us|
        invariant Wrote(capacity, o, st, Encode(us[..i], EncUpvalue), out, status)
      {
        ghost var o1, st1 := out, status;
        DumpBlock([us[i].instack]);
        ghost var o2, st2 := out, status;
        DumpBlock([us[i].idx]);
        WroteBoth(capacity, o1, st1, [us[i].instack], o2, st2, [us[i].idx], out, status);
        assert [us[i].instack] + [us[i].idx] == EncUpvalue(us[i]);
        WroteBoth(capacity, o, st, Encode(us[..i], EncUpvalue), o1, st1, EncUpvalue(us[i]), out, status);
        EncodeSnoc(us, i, EncUpvalue);
      }
      assert us[..|us|] == us;
      WroteBoth(capacity, old(out), old(status), EncCount(|us|), o, st, Encode(us, EncUpvalue), out, status);
    }

    method DumpLines(ls: seq<int32>)
      modifies this
      ensures Wrote(capacity, old(out), old(status), EncLines(ls), out, status)
    {
      DumpBlock(EncCount(|ls|));
      ghost var o, st := out, status;
      DumpBlock(Encode(ls, EncInt));
      WroteBoth(capacity, old(out), old(status), EncCount(|ls|), o, st, Encode(ls, EncInt), out, status);
    }

    method DumpLocVar(l: LocVar)
      modifies this
      ensures Wrote(capacity, old(out), old(status), EncLocVar(l), out, status)
    {
      DumpString(l.varname);
      ghost var o, st := out, status;
      DumpBlock(EncInt(l.startpc));
      WroteBoth(capacity, old(out), old(status), EncString(l.varname), o, st, EncInt(l.startpc), out, status);
      ghost var o', st' := out, status;
      DumpBlock(EncInt(l.endpc));
      WroteBoth(capacity, old(out), old(status), EncString(l.varname) + EncInt(l.startpc), o', st', EncInt(l.endpc), out, status);
    }

    method DumpLocVars(ls: seq<LocVar>)
      modifies this
      ensures Wrote(capacity, old(out), old(status), EncLocVars(ls), out, status)
    {
      DumpBlock(EncCount(|ls|));
      ghost var o, st := out, status;
      for i := 0 to |ls|
        invariant Wrote(capacity, o, st, Encode(ls[..i], EncLocVar), out, status)
      {
        ghost var o1, st1 := out, status;
        DumpLocVar(ls[i]);
        WroteBoth(capacity, o, st, Encode(ls[..i], EncLocVar), o1, st1, EncLocVar(ls[i]), out, status);
        EncodeSnoc(ls, i, EncLocVar);
      }
      assert ls[..|ls|] == ls;
      WroteBoth(capacity, old(out), old(status), EncCount(|ls|), o, st, Encode(ls, EncLocVar), out, status);
    }

    method DumpNames(us: seq<Upvalue>)
      modifies this
      ensures Wrote(capacity, old(out), old(status), EncNames(us), out, status)
    {
      DumpBlock(EncCount(|us|));
      ghost var o, st := out, status;
      for i := 0 to |us|
        invariant Wrote(capacity, o, st, Encode(us[..i], EncName), out, status)
      {
        ghost var o1, st1 := out, status;
        DumpString(us[i].name);
        WroteBoth(capacity, o, st, Encode(us[..i], EncName), o1, st1, EncName(us[i]), out, status);
        EncodeSnoc(us, i, EncName);
      }
      assert us[..|us|] == us;
      WroteBoth(capacity, old(out), old(status), EncCount(|us|), o, st, Encode(us, EncName), out, status);
    }

    /** DumpDebug (ldump.c:147-163) */
    method DumpDebug(f: Proto)
      modifies this
      ensures Wrote(capacity, old(out), old(status), EncDebug(f, strip), out, status)
    {
      var lines, locvars, us := if strip then [] else f.lineinfo, if strip then [] else f.locvars, if strip then [] else f.upvalues;
      DumpLines(lines);
      ghost var o, st := out, status;
      DumpLocVars(locvars);
      WroteBoth(capacity, old(out), old(status), EncLines(lines), o, st, EncLocVars(locvars), out, status);
      ghost var o', st' := out, status;
      DumpNames(us);
      WroteBoth(capacity, old(out), old(status), EncLines(lines) + EncLocVars(locvars), o', st', EncNames(us), out, status);
    }

    method DumpFixed(f: Proto)
      modifies this
      ensures Wrote(capacity, old(out), old(status), EncFixed(f), out, status)
    {
      DumpBlock(EncInt(f.linedefined));
      ghost var o, st := out, status;
      DumpBlock(EncInt(f.lastlinedefined));
      WroteBoth(capacity, old(out), old(status), EncInt(f.linedefined), o, st, EncInt(f.lastlinedefined), out, status);
      ghost var o1, st1 := out, status;
      DumpBlock([f.numparams]);
      ghost var o2, st2 := out, status;
      DumpBlock([f.isvararg]);
      WroteBoth(capacity, o1, st1, [f.numparams], o2, st2, [f.isvararg], out, status);
      ghost var o3, st3 := out, status;
      DumpBlock([f.maxstacksize]);
      WroteBoth(capacity, o1, st1, [f.numparams] + [f.isvararg], o3, st3, [f.maxstacksize], out, status);
      assert [f.numparams] + [f.isvararg] + [f.maxstacksize] == [f.numparams, f.isvararg, f.maxstacksize];
      WroteBoth(capacity, old(out), old(status), EncInt(f.linedefined) + EncInt(f.lastlinedefined), o1, st1,
                [f.numparams, f.isvararg, f.maxstacksize], out, status);
    }

    method DumpFront(f: Proto, psource: Option<seq<byte>>)
      modifies this
      ensures Wrote(capacity, old(out), old(status), EncFront(f, psource, strip, same), out, status)
    {
      if strip || SameSource(f.source, psource, same) {
        DumpString(None);
      } else {
        DumpString(f.source);
      }
      ghost var a := EncSource(f, psource, strip, same);
      ghost var o1, st1 := out, status;
      DumpFixed(f);
      WroteBoth(capacity, old(out), old(status), a, o1, st1, EncFixed(f), out, status);
      ghost var o2, st2 := out, status;
      DumpCode(f);
      WroteBoth(capacity, old(out), old(status), a + EncFixed(f), o2, st2, EncCode(f), out, status);
      ghost var o3, st3 := out, status;
      DumpConstants(f);
      WroteBoth(capacity, old(out), old(status), a + EncFixed(f) + EncCode(f), o3, st3, EncConstants(f), out, status);
      ghost var o4, st4 := out, status;
      DumpUpvalues(f);
      WroteBoth(capacity, old(out), old(status), a + EncFixed(f) + EncCode(f) + EncConstants(f), o4, st4, EncUpvalues(f), out, status);
    }

    /** DumpFunction (ldump.c:166-181) */
    method DumpFunction(f: Proto, psource: Option<seq<byte>>)
      modifies this
      ensures Wrote(capacity, old(out), old(status), EncFunction(f, psource, strip, same), out, status)
      decreases f, 0
    {
      DumpFront(f, psource);
      ghost var a, o1, st1 := EncFront(f, psource, strip, same), out, status;
      DumpBlock(EncCount(|f.p|));
      WroteBoth(capacity, old(out), old(status), a, o1, st1, EncCount(|f.p|), out, status);
      ghost var o2, st2 := out, status;
      DumpFunctions(f.p, f.source);
      WroteBoth(capacity, old(out), old(status), a + EncCount(|f.p|), o2, st2, EncFunctions(f.p, f.source, strip, same), out, status);
      ghost var o3, st3 := out, status;
      DumpDebug(f);
      WroteBoth(capacity, old(out), old(status), a + EncCount(|f.p|) + EncFunctions(f.p, f.source, strip, same), o3, st3,
                EncDebug(f, strip), out, status);
    }

    /** The loop of DumpProtos (ldump.c:128-134). */
    method DumpFunctions(ps: seq<Proto>, psource: Option<seq<byte>>)
      modifies this
      ensures Wrote(capacity, old(out), old(status), EncFunctions(ps, psource, strip, same), out, status)
      decreases ps, 1
    {
      hide EncFunction;
      for i := 0 to |ps|
        invariant Wrote(capacity, old(out), old(status), EncFunctions(ps[..i], psource, strip, same), out, status)
      {
        ghost var o, st := out, status;
        DumpFunction(ps[i], psource);
        WroteBoth(capacity, old(out), old(status), EncFunctions(ps[..i], psource, strip, same), o, st,
                  EncFunction(ps[i], psource, strip, same), out, status);
        FunctionsSnoc(ps, i, psource, strip, same);
      }
      assert ps[..|ps|] == ps;
    }

    /** luaU_dump (ldump.c:202-214). The header is a literal. */
    method Dump(f: Proto) returns (st: int)
      requires |f.upvalues| < 256 && out == [] && status == 0
      modifies this
      ensures st == status && Wrote(capacity, [], 0, EncChunk(f, strip, same), out, status)
    {
      DumpBlock([0x1b] + EncHeader());
      ghost var o1, st1 := out, status;
      DumpBlock([|f.upvalues|]);
      WroteBoth(capacity, [], 0, [0x1b] + EncHeader(), o1, st1, [|f.upvalues|], out, status);
      ghost var o2, st2 := out, status;
      DumpFunction(f, None);
      WroteBoth(capacity, [], 0, [0x1b] + EncHeader() + [|f.upvalues|], o2, st2, EncFunction(f, None, strip, same), out, status);
      return status;
    }
  }
}
