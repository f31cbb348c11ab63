/** Reading precompiled chunks from a buffered stream (apps/lua/lzio.c, apps/lua/lundump.c). */
module LuaUndump {
  import opened LuaChunk

  const EOZ := -1

  datatype Result<+T> = Ok(value: T) | Err(e: Error)
  {
    predicate IsFailure() {
      Err?
    }

    function PropagateFailure<U>(): Result<U>
      requires Err?
    {
      Err(e)
    }

    function Extract(): T
      requires Ok?
    {
      value
    }
  }

  /** The bytes that a reader returns, chunk by chunk; an empty chunk ends the stream. */
  function Stream(chunks: seq<seq<byte>>): seq<byte> {
    if chunks == [] || chunks[0] == [] then [] else chunks[0] + Stream(chunks[1..])
  }

  function Join(chunks: seq<seq<byte>>): seq<byte> {
    if chunks == [] then [] else chunks[0] + Join(chunks[1..])
  }

  /** Any division into chunks that are not empty gives the same stream. */
  lemma {:induction false} AnyChunking(chunks: seq<seq<byte>>)
    requires forall i :: 0 <= i < |chunks| ==> chunks[i] != []
    ensures Stream(chunks) == Join(chunks)
  {
    if chunks != [] {
      AnyChunking(chunks[1..]);
    }
  }

  lemma FirstByte(b: seq<byte>, rest: seq<byte>)
    requires b != []
    ensures (b + rest)[0] == b[0] && (b + rest)[1..] == b[1..] + rest
  {
  }

  /** ZIO (lzio.h), with the chunks that its reader is going to return. */
  class Zio {
    var chunks: seq<seq<byte>>
    var buff: seq<byte>
    var p: nat
    var n: nat

    ghost predicate Valid()
      reads this
    {
      p + n == |buff|
    }

    /** The bytes to come. */
    ghost function Contents(): seq<byte>
      reads this
      requires Valid()
    {
      buff[p..] + Stream(chunks)
    }

    /** luaZ_init (lzio.c:38-44) */
    constructor (chunks: seq<seq<byte>>)
      ensures Valid() && Contents() == Stream(chunks)
    {
      this.chunks := chunks;
      buff, p, n := [], 0, 0;
    }

    /** luaZ_fill (lzio.c:23-35) */
    method Fill() returns (c: int)
      requires Valid() && n == 0
      modifies this
      ensures old(Contents()) == [] ==> c == EOZ
      ensures old(Contents()) != [] ==> Valid() && p > 0 && c == old(Contents())[0] == buff[p - 1] && Contents() == old(Contents())[1..]
    {
      assert buff[p..] == [] && Contents() == Stream(chunks);
      if chunks == [] || chunks[0] == [] {
        return EOZ;
      }
      FirstByte(chunks[0], Stream(chunks[1..]));
      buff, chunks, n, p := chunks[0], chunks[1..], |chunks[0]| - 1, 1;
      return buff[0];
    }

    /** Filling the buffer and putting the first byte back (lzio.c:51-58). */
    method Refill() returns (more: bool)
      requires Valid() && n == 0
      modifies this
      ensures if more then Valid() && n > 0 && Contents() == old(Contents()) else old(Contents()) == []
    {
      var c := Fill();
      if c == EOZ {
        return false;
      }
      PutBack(buff, p - 1, Stream(chunks), old(Contents()));
      n, p := n + 1, p - 1;
      return true;
    }

    /** luaZ_read (lzio.c:48-67): the bytes read, and how many are missing. */
    method Read(size: nat) returns (b: seq<byte>, missing: nat)
      requires Valid()
      modifies this
      ensures missing == 0 <==> size <= |old(Contents())|
      ensures missing == 0 ==> Valid() && b == old(Contents())[..size] && Contents() == old(Contents())[size..]
      ensures missing > 0 ==> b == old(Contents()) && missing == size - |b|
    {
      hide Stream;
      var left: nat := size;
      b := [];
      while left > 0
        invariant Valid() && left + |b| == size && old(Contents()) == b + Contents()
      {
        if n == 0 {
          var more := Refill();
          if !more {
            return b, left;
          }
        }
        var m := if left <= n then left else n;
        Taken(b, buff, p, m, Stream(chunks));
        b := b + buff[p..p + m];
        n, p, left := n - m, p + m, left - m;
      }
      return b, 0;
    }
  }

  lemma PutBack(buff: seq<byte>, p: nat, rest: seq<byte>, before: seq<byte>)
    requires p < |buff| && before != [] && before[0] == buff[p] && before[1..] == buff[p + 1..] + rest
    ensures buff[p..] + rest == before
  {
    assert buff[p..] == [buff[p]] + buff[p + 1..];
  }

  lemma Taken(b: seq<byte>, buff: seq<byte>, p: nat, m: nat, rest: seq<byte>)
    requires p + m <= |buff|
    ensures b + (buff[p..] + rest) == b + buff[p..p + m] + (buff[p + m..] + rest)
  {
    assert buff[p..] == buff[p..p + m] + buff[p + m..];
  }

  lemma {:induction false} WordsMissing(s: seq<byte>, n: nat, acc: seq<uint32>)
    requires |s| < 4 * n
    ensures ParseMany(s, n, acc, ParseWord) == Fail(Truncated)
    decreases n
  {
    if |s| >= 4 {
      WordsMissing(s[4..], n - 1, acc + [ParseWord(s).value]);
    }
  }

  function Word(b: seq<byte>): uint32
    requires |b| == 4
  {
    NumberBound(b);
    Number(b)
  }

  lemma WordAt(s: seq<byte>, i: nat, b: seq<byte>, n: nat)
    requires i < n && |b| == 4 * n <= |s| && b == s[..4 * n]
    ensures ParseWord(s[4 * i..]) == Done(Word(b[4 * i..4 * i + 4]), s[4 * (i + 1)..])
  {
    assert s[4 * i..][..4] == b[4 * i..4 * i + 4] && s[4 * i..][4..] == s[4 * (i + 1)..];
  }

  lemma CountConsumes(s: seq<byte>)
    ensures ParseCount(s).Done? ==> |ParseCount(s).rest| < |s|
  {
  }

  lemma FunctionConsumes(s: seq<byte>, psource: Option<seq<byte>>)
    ensures ParseFunction(s, psource).Done? ==> |ParseFunction(s, psource).rest| < |s|
  {
  }

  /** LoadState (lundump.c:32-36) and the functions that fill a prototype. */
  class LoadState {
    const z: Zio

    constructor (z: Zio)
      ensures this.z == z
    {
      this.z := z;
    }

    /** The result is the one that the bytes stand for, and exactly they were consumed. */
    ghost predicate Agrees<T>(r: Result<T>, expected: Parsed<T>)
      reads z
    {
      match r
      case Ok(v) => z.Valid() && expected == Done(v, z.Contents())
      case Err(e) => expected == Fail(e)
    }

    method LoadBlock(size: nat) returns (r: Result<seq<byte>>)
      requires z.Valid()
      modifies z
      ensures Agrees(r, ParseBytes(old(z.Contents()), size))
    {
      var b, missing := z.Read(size);
      return if missing != 0 then Err(Truncated) else Ok(b);
    }

    method LoadByte() returns (r: Result<byte>)
      requires z.Valid()
      modifies z
      ensures Agrees(r, ParseByte(old(z.Contents())))
    {
      r := Err(Truncated);
      var b :- LoadBlock(1);
      return Ok(b[0]);
    }

    method LoadInt() returns (r: Result<int32>)
      requires z.Valid()
      modifies z
      ensures Agrees(r, ParseInt(old(z.Contents())))
    {
      r := Err(Truncated);
      var b :- LoadBlock(4);
      NumberBound(b);
      return Ok(Signed32(Number(b)));
    }

    method LoadLong() returns (r: Result<uint64>)
      requires z.Valid()
      modifies z
      ensures Agrees(r, ParseLong(old(z.Contents())))
    {
      r := Err(Truncated);
      var b :- LoadBlock(8);
      NumberBound(b);
      return Ok(Number(b));
    }

    method LoadInteger() returns (r: Result<int64>)
      requires z.Valid()
      modifies z
      ensures Agrees(r, ParseInteger(old(z.Contents())))
    {
      r := Err(Truncated);
      var x :- LoadLong();
      return Ok(Signed64(x));
    }

    /** LoadString (lundump.c:88-104) */
    method LoadString() returns (r: Result<Option<seq<byte>>>)
      requires z.Valid()
      modifies z
      ensures Agrees(r, ParseString(old(z.Contents())))
    {
      hide ParseByte, ParseLong, ParseBytes, Stream;
      r := Err(Truncated);
      var b :- LoadByte();
      var size: int := b;
      if size == 255 {
        var long :- LoadLong();
        size := long;
      }
      if size == 0 {
        return Ok(None);
      }
      var t :- LoadBlock(size - 1);
      return Ok(Some(t));
    }

    /** A count of elements to allocate. */
    method LoadCount() returns (r: Result<nat>)
      requires z.Valid()
      modifies z
      ensures Agrees(r, ParseCount(old(z.Contents())))
    {
      r := Err(Truncated);
      var n :- LoadInt();
      return if n < 0 then Err(NotEnoughMemory) else Ok(n);
    }

    /** LoadCode (lundump.c:107-112) */
    method LoadCode() returns (r: Result<seq<uint32>>)
      requires z.Valid()
      modifies z
      ensures Agrees(r, ParseVector(old(z.Contents()), ParseWord))
    {
      hide Bytes, Number;
      r := Err(Truncated);
      var n :- LoadCount();
      ghost var s := z.Contents();
      if |s| < 4 * n {
        WordsMissing(s, n, []);
      }
      var b :- LoadBlock(4 * n);
      var code: seq<uint32> := [];
      for i := 0 to n
        invariant |code| == i && z.Valid() && z.Contents() == s[4 * n..]
        invariant ParseMany(s, n, [], ParseWord) == ParseMany(s[4 * i..], n - i, code, ParseWord)
      {
        WordAt(s, i, b, n);
        code := code + [Word(b[4 * i..4 * i + 4])];
      }
      return Ok(code);
    }

    /** The body of the loop of LoadConstants (lundump.c:126-148). */
    method LoadConstant() returns (r: Result<Constant>)
      requires z.Valid()
      modifies z
      ensures Agrees(r, ParseConstant(old(z.Contents())))
    {
      r := Err(Truncated);
      var tag :- LoadByte();
      if tag == 1 {
        var b :- LoadByte();
        return Ok(Bool(b));
      } else if tag == 3 {
        var x :- LoadLong();
        return Ok(Float(x));
      } else if tag == 19 {
        var i :- LoadInteger();
        return Ok(Int(i));
      } else if tag == 4 || tag == 20 {
        var s :- LoadString();
        match s {
          case Some(t) => return Ok(String(t));
          case None => return Err(Malformed);
        }
      }
      return Ok(Nil);
    }

    method LoadUpvalue() returns (r: Result<Upvalue>)
      requires z.Valid()
      modifies z
      ensures Agrees(r, ParseUpvalue(old(z.Contents())))
    {
      r := Err(Truncated);
      var instack :- LoadByte();
      var idx :- LoadByte();
      return Ok(Upvalue(None, instack, idx));
    }

    method LoadLocVar() returns (r: Result<LocVar>)
      requires z.Valid()
      modifies z
      ensures Agrees(r, ParseLocVar(old(z.Contents())))
    {
      r := Err(Truncated);
      var varname :- LoadString();
      var startpc :- LoadInt();
      var endpc :- LoadInt();
      return Ok(LocVar(varname, startpc, endpc));
    }

    /** LoadConstants (lundump.c:118-149) */
    method LoadConstants() returns (r: Result<seq<Constant>>)
      requires z.Valid()
      modifies z
      ensures Agrees(r, ParseVector(old(z.Contents()), ParseConstant))
    {
      hide ParseCount, ParseConstant, ParseUpvalue, ParseLocVar, ParseInt, Stream, Consumes;
      AllConsume();
      r := Err(Truncated);
      var n :- LoadCount();
      ghost var s := z.Contents();
      var xs: seq<Constant> := [];
      for i := 0 to n
        invariant z.Valid() && ParseMany(s, n, [], ParseConstant) == ParseMany(z.Contents(), n - i, xs, ParseConstant)
      {
        var x :- LoadConstant();
        xs := xs + [x];
      }
      return Ok(xs);
    }

    /** LoadUpvalues (lundump.c:166-177) */
    method LoadUpvalues() returns (r: Result<seq<Upvalue>>)
      requires z.Valid()
      modifies z
      ensures Agrees(r, ParseVector(old(z.Contents()), ParseUpvalue))
    {
      hide ParseCount, ParseConstant, ParseUpvalue, ParseLocVar, ParseInt, Stream, Consumes;
      AllConsume();
      r := Err(Truncated);
      var n :- LoadCount();
      ghost var s := z.Contents();
      var xs: seq<Upvalue> := [];
      for i := 0 to n
        invariant z.Valid() && ParseMany(s, n, [], ParseUpvalue) == ParseMany(z.Contents(), n - i, xs, ParseUpvalue)
      {
        var x :- LoadUpvalue();
        xs := xs + [x];
      }
      return Ok(xs);
    }

    /** (lundump.c:187-195) */
    method LoadLocVars() returns (r: Result<seq<LocVar>>)
      requires z.Valid()
      modifies z
      ensures Agrees(r, ParseVector(old(z.Contents()), ParseLocVar))
    {
      hide ParseCount, ParseConstant, ParseUpvalue, ParseLocVar, ParseInt, Stream, Consumes;
      AllConsume();
      r := Err(Truncated);
      var n :- LoadCount();
      ghost var s := z.Contents();
      var xs: seq<LocVar> := [];
      for i := 0 to n
        invariant z.Valid() && ParseMany(s, n, [], ParseLocVar) == ParseMany(z.Contents(), n - i, xs, ParseLocVar)
      {
        var x :- LoadLocVar();
        xs := xs + [x];
      }
      return Ok(xs);
    }

    /** (lundump.c:182-185) */
    method LoadLines() returns (r: Result<seq<int32>>)
      requires z.Valid()
      modifies z
      ensures Agrees(r, ParseVector(old(z.Contents()), ParseInt))
    {
      hide ParseCount, ParseConstant, ParseUpvalue, ParseLocVar, ParseInt, Stream, Consumes;
      AllConsume();
      r := Err(Truncated);
      var n :- LoadCount();
      ghost var s := z.Contents();
      var xs: seq<int32> := [];
      for i := 0 to n
        invariant z.Valid() && ParseMany(s, n, [], ParseInt) == ParseMany(z.Contents(), n - i, xs, ParseInt)
      {
        var x :- LoadInt();
        xs := xs + [x];
      }
      return Ok(xs);
    }

    /** LoadDebug (lundump.c:180-199) */
    method LoadDebug(us: seq<Upvalue>) returns (r: Result<(seq<int32>, seq<LocVar>, seq<Upvalue>)>)
      requires z.Valid()
      modifies z
      ensures Agrees(r, ParseDebug(old(z.Contents()), us))
    {
      r := Err(Truncated);
      var lineinfo :- LoadLines();
      var locvars :- LoadLocVars();
      var count :- LoadInt();
      if count > |us| {
        return Err(Malformed);
      }
      ghost var s := z.Contents();
      var n: nat := if count < 0 then 0 else count;
      var named := us;
      for i := 0 to n
        invariant z.Valid() && |named| == |us| && ParseNames(s, 0, n, us) == ParseNames(z.Contents(), i, n, named)
      {
        var name :- LoadString();
        named := named[i := named[i].(name := name)];
      }
      return Ok((lineinfo, locvars, named));
    }

    method LoadFront(psource: Option<seq<byte>>) returns (r: Result<Proto>)
      requires z.Valid()
      modifies z
      ensures Agrees(r, ParseFront(old(z.Contents()), psource))
    {
      r := Err(Truncated);
      var source :- LoadString();
      if source.None? {
        source := psource;
      }
      var linedefined :- LoadInt();
      var lastlinedefined :- LoadInt();
      var numparams :- LoadByte();
      var isvararg :- LoadByte();
      var maxstacksize :- LoadByte();
      var code :- LoadCode();
      var k :- LoadConstants();
      var upvalues :- LoadUpvalues();
      return Ok(Proto(source, linedefined, lastlinedefined, numparams, isvararg, maxstacksize, code, k, upvalues, [], [], []));
    }

    /** LoadFunction (lundump.c:202-216) */
    method LoadFunction(psource: Option<seq<byte>>) returns (r: Result<Proto>)
      requires z.Valid()
      modifies z
      ensures Agrees(r, ParseFunction(old(z.Contents()), psource))
      decreases |z.Contents()|, 0
    {
      r := Err(Truncated);
      var f :- LoadFront(psource);
      var p :- LoadProtos(f.source);
      var debug :- LoadDebug(f.upvalues);
      return Ok(f.(p := p, lineinfo := debug.0, locvars := debug.1, upvalues := debug.2));
    }

    /** LoadProtos (lundump.c:152-163) */
    method LoadProtos(psource: Option<seq<byte>>) returns (r: Result<seq<Proto>>)
      requires z.Valid()
      modifies z
      ensures var c := ParseCount(old(z.Contents()));
              Agrees(r, if c.Fail? then Fail(c.e) else ParseFunctions(c.rest, c.value, [], psource))
      decreases |z.Contents()|, 1
    {
      hide ParseCount, ParseFunction, Stream;
      CountConsumes(z.Contents());
      r := Err(Truncated);
      var n :- LoadCount();
      ghost var s := z.Contents();
      var ps: seq<Proto> := [];
      for i := 0 to n
        invariant z.Valid() && |z.Contents()| <= |s|
        invariant ParseFunctions(s, n, [], psource) == ParseFunctions(z.Contents(), n - i, ps, psource)
      {
        FunctionConsumes(z.Contents(), psource);
        var f :- LoadFunction(psource);
        ps := ps + [f];
      }
      return Ok(ps);
    }

    /** checkliteral (lundump.c:219-225) */
    method CheckLiteral(t: seq<byte>, e: Error) returns (r: Result<()>)
      requires z.Valid()
      modifies z
      ensures Agrees(r, ParseLiteral(old(z.Contents()), t, e))
    {
      r := Err(Truncated);
      var b :- LoadBlock(|t|);
      return if b != t then Err(e) else Ok(());
    }

    /** fchecksize for each of the types (lundump.c:228-231, 243-247). */
    method CheckSizes(sizes: seq<byte>) returns (r: Result<()>)
      requires z.Valid()
      modifies z
      ensures Agrees(r, ParseSizes(old(z.Contents()), sizes))
    {
      ghost var s := z.Contents();
      for i := 0 to |sizes|
        invariant z.Valid() && ParseSizes(s, sizes) == ParseSizes(z.Contents(), sizes[i..])
      {
        var b :- LoadByte();
        if b != sizes[i] {
          return Err(SizeMismatch);
        }
        assert sizes[i..][1..] == sizes[i + 1..];
      }
      return Ok(());
    }

    /** checkHeader (lundump.c:236-252) */
    method CheckHeader() returns (r: Result<()>)
      requires z.Valid()
      modifies z
      ensures Agrees(r, ParseHeader(old(z.Contents())))
      ensures r.Ok? <==> EncHeader() <= old(z.Contents())
    {
      HeaderOnly(z.Contents());
      hide EncHeader;
      r := Err(Truncated);
      var _ :- CheckLiteral(Signature, NotAChunk);
      var version :- LoadByte();
      if version != Version {
        return Err(VersionMismatch);
      }
      var format :- LoadByte();
      if format != Format {
        return Err(FormatMismatch);
      }
      var _ :- CheckLiteral(Check, Corrupted);
      var _ :- CheckSizes([4, 8, 4, 8, 8]);
      var i :- LoadInteger();
      if i != CheckInteger {
        return Err(EndiannessMismatch);
      }
      var x :- LoadLong();
      return if x != CheckNumber then Err(FloatMismatch) else Ok(());
    }

    /** luaU_undump (lundump.c:258-278), whose caller has read the first byte. */
    method Undump() returns (r: Result<(byte, Proto)>)
      requires z.Valid()
      modifies z
      ensures Agrees(r, ParseChunk(old(z.Contents())))
    {
      r := Err(Truncated);
      var _ :- CheckHeader();
      var n :- LoadByte();
      var f :- LoadFunction(None);
      return Ok((n, f));
    }

    /** Reading what was dumped, however the reader divides it: the function again, and what
        follows is left in the stream. */
    method UndumpDumped(f: Proto, strip: bool, same: (seq<byte>, seq<byte>) -> bool, rest: seq<byte>) returns (r: Result<(byte, Proto)>)
      requires Fits(f) && SameMeansEqual(same) && |f.upvalues| < 256
      requires z.Valid() && z.Contents() == EncChunk(f, strip, same)[1..] + rest
      modifies z
      ensures z.Valid() && z.Contents() == rest && r == Ok((|f.upvalues|, Loaded(f, strip, None)))
      ensures !strip ==> (r.value.1 == f <==> Named(f, None))
    {
      ChunkRead(f, strip, same, rest);
      SameIffNamed(f, None);
      r := Undump();
    }
  }
}
