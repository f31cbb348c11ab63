/** Precompiled chunks byte by byte: the header, and a function in which all fields differ
    (apps/lua/ldump.c:63-214, apps/lua/lua.h:31, apps/lua/lundump.h:15-22). */
module LuaChunkBytes {
  import opened LuaChunk

  /** Bytes of numbers, least significant first. */
  lemma SmallBytes(b: byte)
    ensures Bytes(4, b) == [b, 0, 0, 0] && Bytes(8, b) == [b, 0, 0, 0, 0, 0, 0, 0]
  {
    assert Bytes(8, b) == [b] + Bytes(7, 0) && Bytes(4, b) == [b] + Bytes(3, 0);
    assert Bytes(7, 0) == [0] + Bytes(6, 0) && Bytes(6, 0) == [0] + Bytes(5, 0);
    assert Bytes(5, 0) == [0] + Bytes(4, 0) && Bytes(4, 0) == [0] + Bytes(3, 0);
    assert Bytes(3, 0) == [0] + Bytes(2, 0) && Bytes(2, 0) == [0] + Bytes(1, 0) && Bytes(1, 0) == [0];
  }

  lemma FirstByte(n: nat, v: nat, lo: byte, hi: nat)
    requires n > 0 && v == lo + 256 * hi
    ensures Bytes(n, v) == [lo] + Bytes(n - 1, hi)
  {
    assert v % 256 == lo && v / 256 == hi;
  }

  lemma CheckBytes()
    ensures Bytes(8, 0x5678) == [0x78, 0x56, 0, 0, 0, 0, 0, 0]
    ensures Bytes(8, 0x4077_2800_0000_0000) == [0, 0, 0, 0, 0, 0x28, 0x77, 0x40]
  {
    hide Bytes;
    SmallBytes(0);
    SmallBytes(0x56);
    SmallBytes(0x40);
    FirstByte(8, 0x56, 0x56, 0);
    FirstByte(8, 0x5678, 0x78, 0x56);
    FirstByte(7, 0x56, 0x56, 0);
    FirstByte(7, 0, 0, 0);
    FirstByte(8, 0, 0, 0);
    assert Bytes(6, 0) == Bytes(8, 0)[2..] == [0, 0, 0, 0, 0, 0];
    FirstByte(8, 0x4077_2800_0000_0000, 0, 0x40_7728_0000_0000);
    FirstByte(7, 0x40_7728_0000_0000, 0, 0x4077_2800_0000);
    FirstByte(6, 0x4077_2800_0000, 0, 0x40_7728_0000);
    FirstByte(5, 0x40_7728_0000, 0, 0x4077_2800);
    FirstByte(4, 0x4077_2800, 0, 0x40_7728);
    FirstByte(3, 0x40_7728, 0x28, 0x4077);
    FirstByte(2, 0x4077, 0x77, 0x40);
    FirstByte(4, 0x40, 0x40, 0);
    FirstByte(1, 0x40, 0x40, 0);
    assert Bytes(0, 0) == [];
  }

  /** The header of version 5.3: '\eLua', version and format, the data that catches conversion
      errors, the sizes of int, size_t, Instruction, lua_Integer and lua_Number, and the numbers 0x5678 and 370.5. */
  lemma HeaderBytes()
    ensures [0x1b] + EncHeader()
            == [0x1b, 'L' as int, 'u' as int, 'a' as int, 0x53, 0, 0x19, 0x93, 0x0d, 0x0a, 0x1a, 0x0a, 4, 8, 4, 8, 8,
                0x78, 0x56, 0, 0, 0, 0, 0, 0, 0, 0, 0, 0, 0, 0x28, 0x77, 0x40]
  {
    hide Bytes;
    CheckBytes();
  }

  /** The tags of constants. */
  lemma ConstantBytes(b: byte)
    ensures EncConstant(Nil) == [0] && EncConstant(Bool(b)) == [1, b]
    ensures EncConstant(Float(0x4077_2800_0000_0000)) == [3, 0, 0, 0, 0, 0, 0x28, 0x77, 0x40]
    ensures EncConstant(Int(b)) == [19, b, 0, 0, 0, 0, 0, 0, 0]
  {
    hide Bytes;
    CheckBytes();
    SmallBytes(b);
  }

  /** Strings are short up to 40 bytes, and say their size with a byte if they have at most 253. */
  lemma StringBytes(s: seq<byte>)
    ensures |s| <= 253 ==> EncConstant(String(s)) == [if |s| <= 40 then 4 else 20, |s| + 1] + s
    ensures |s| > 253 ==> EncConstant(String(s)) == [20, 255] + Bytes(8, |s| + 1) + s
  {
    hide EncString, Bytes;
    SizeBytes(s);
    assert EncLength(|s| + 1) == Bytes(8, |s| + 1);
    var t := EncString(Option.Some(s));
    if |s| <= 253 {
      Glue([if |s| <= 40 then 4 else 20], [|s| + 1], s);
      assert EncConstant(String(s)) == [if |s| <= 40 then 4 else 20] + t;
    } else {
      Glue([20], [255], Bytes(8, |s| + 1) + s);
      Glue([20, 255], Bytes(8, |s| + 1), s);
      Glue([255], Bytes(8, |s| + 1), s);
      assert EncConstant(String(s)) == [20] + t;
    }
  }

  lemma SizeBytes(s: seq<byte>)
    ensures |s| <= 253 ==> EncString(Option.Some(s)) == [|s| + 1] + s
    ensures |s| > 253 ==> EncString(Option.Some(s)) == [255] + EncLength(|s| + 1) + s
  {
    hide Bytes, EncLength;
  }

  lemma Glue(a: seq<byte>, b: seq<byte>, c: seq<byte>)
    ensures a + (b + c) == a + b + c
    ensures |a| == 1 && |b| == 1 ==> a + b == [a[0], b[0]]
  {
  }

  lemma One<T>(xs: seq<T>, e: T -> seq<byte>)
    requires |xs| == 1
    ensures Encode(xs, e) == e(xs[0])
  {
    assert Encode(xs[1..], e) == [];
    assert e(xs[0]) + [] == e(xs[0]);
  }

  const Sample := Proto(Option.Some([5]), 1, 2, 3, 4, 6, [7], [Bool(8)],
                        [Upvalue(Option.Some([9]), 10, 11)], [], [12], [LocVar(Option.Some([13]), 14, 15)])

  function OneCount(): seq<byte> {
    [1, 0, 0, 0]
  }

  lemma SampleFront()
    ensures EncFront(Sample, None, false, (s, t) => s == t)
            == [2, 5]
               + [1, 0, 0, 0] + [2, 0, 0, 0] + [3, 4, 6]
               + OneCount() + [7, 0, 0, 0]
               + OneCount() + [1, 8]
               + OneCount() + [10, 11]
  {
    hide Bytes, Encode;
    var f := Sample;
    SmallBytes(1);
    SmallBytes(2);
    SmallBytes(7);
    One(f.code, EncWord);
    One(f.k, EncConstant);
    One(f.upvalues, EncUpvalue);
    assert EncSource(f, None, false, (s, t) => s == t) == [2, 5];
    assert EncFixed(f) == [1, 0, 0, 0] + [2, 0, 0, 0] + [3, 4, 6];
    assert EncCode(f) == OneCount() + [7, 0, 0, 0];
    assert EncConstants(f) == OneCount() + [1, 8];
    assert EncUpvalues(f) == OneCount() + [10, 11];
  }

  lemma SampleDebug()
    ensures EncDebug(Sample, false)
            == OneCount() + [12, 0, 0, 0]
               + OneCount() + [2, 13] + [14, 0, 0, 0] + [15, 0, 0, 0]
               + OneCount() + [2, 9]
  {
    hide Bytes, Encode;
    var f := Sample;
    SmallBytes(1);
    SmallBytes(12);
    SmallBytes(14);
    SmallBytes(15);
    One(f.lineinfo, EncInt);
    One(f.locvars, EncLocVar);
    One(f.upvalues, EncName);
    assert EncLines(f.lineinfo) == OneCount() + [12, 0, 0, 0];
    assert EncLocVars(f.locvars) == OneCount() + [2, 13] + [14, 0, 0, 0] + [15, 0, 0, 0];
    assert EncNames(f.upvalues) == OneCount() + [2, 9];
  }

  /** Order and width of all fields: source; lines, parameters, vararg, stack size; code; constants;
      upvalues; nested functions; line numbers; locals; names of upvalues. */
  lemma SampleBytes()
    ensures EncFunction(Sample, None, false, (s, t) => s == t)
            == [2, 5]
               + [1, 0, 0, 0] + [2, 0, 0, 0] + [3, 4, 6]
               + [1, 0, 0, 0] + [7, 0, 0, 0]
               + [1, 0, 0, 0] + [1, 8]
               + [1, 0, 0, 0] + [10, 11]
               + [0, 0, 0, 0]
               + [1, 0, 0, 0] + [12, 0, 0, 0]
               + [1, 0, 0, 0] + [2, 13] + [14, 0, 0, 0] + [15, 0, 0, 0]
               + [1, 0, 0, 0] + [2, 9]
  {
    hide Bytes, EncFront, EncDebug;
    SmallBytes(0);
    SampleFront();
    SampleDebug();
    assert EncCount(|Sample.p|) == [0, 0, 0, 0];
    assert EncFunctions(Sample.p, Sample.source, false, (s, t) => s == t) == [];
  }
}
