/** Precompiled chunks: the bytes of a function prototype, and the prototype that bytes
    stand for (apps/lua/ldump.c, apps/lua/lundump.c), on a machine with 4-byte 'int', 8-byte
    'size_t', 'lua_Integer' and 'lua_Number', least significant byte first. */
module LuaChunk {

  type byte = b: int | 0 <= b < 256
  type uint32 = n: int | 0 <= n < 0x1_0000_0000
  type int32 = n: int | -0x8000_0000 <= n < 0x8000_0000
  type uint64 = n: int | 0 <= n < 0x1_0000_0000_0000_0000
  type int64 = n: int | -0x8000_0000_0000_0000 <= n < 0x8000_0000_0000_0000

  datatype Option<T> = None | Some(value: T)

  /** Constants; a float is given by its representation. */
  datatype Constant =
    | Nil
    | Bool(b: byte)
    | Float(bits: uint64)
    | Int(i: int64)
    | String(s: seq<byte>)

  datatype Upvalue = Upvalue(name: Option<seq<byte>>, instack: byte, idx: byte)

  datatype LocVar = LocVar(varname: Option<seq<byte>>, startpc: int32, endpc: int32)

  datatype Proto = Proto(
    source: Option<seq<byte>>, linedefined: int32, lastlinedefined: int32,
    numparams: byte, isvararg: byte, maxstacksize: byte,
    code: seq<uint32>, k: seq<Constant>, upvalues: seq<Upvalue>, p: seq<Proto>,
    lineinfo: seq<int32>, locvars: seq<LocVar>)

  const MAXSHORTLEN := 40
  const MAXINT := 0x7fff_ffff

  // ---------- numbers ----------

  function Pow256(n: nat): (r: nat)
    ensures r > 0
  {
    if n == 0 then 1 else 256 * Pow256(n - 1)
  }

  /** The 'n' low bytes of a number. */
  function Bytes(n: nat, v: nat): (s: seq<byte>)
    ensures |s| == n
  {
    if n == 0 then [] else [v % 256] + Bytes(n - 1, v / 256)
  }

  function Number(s: seq<byte>): nat {
    if s == [] then 0 else s[0] + 256 * Number(s[1..])
  }

  lemma {:induction false} NumberOfBytes(n: nat, v: nat)
    requires v < Pow256(n)
    ensures Number(Bytes(n, v)) == v
  {
    if n > 0 {
      assert Bytes(n, v)[1..] == Bytes(n - 1, v / 256);
      NumberOfBytes(n - 1, v / 256);
    }
  }

  lemma {:induction false} NumberBound(s: seq<byte>)
    ensures Number(s) < Pow256(|s|)
  {
    if s != [] {
      NumberBound(s[1..]);
    }
  }

  function Unsigned32(x: int32): uint32 {
    if x < 0 then x + 0x1_0000_0000 else x
  }

  function Signed32(x: uint32): int32 {
    if x < 0x8000_0000 then x else x - 0x1_0000_0000
  }

  function Unsigned64(x: int64): uint64 {
    if x < 0 then x + 0x1_0000_0000_0000_0000 else x
  }

  function Signed64(x: uint64): int64 {
    if x < 0x8000_0000_0000_0000 then x else x - 0x1_0000_0000_0000_0000
  }

  // ---------- writing ----------

  function EncWord(x: uint32): seq<byte> {
    Bytes(4, x)
  }

  function EncInt(x: int32): seq<byte> {
    Bytes(4, Unsigned32(x))
  }

  function EncLong(x: uint64): seq<byte> {
    Bytes(8, x)
  }

  function EncInteger(x: int64): seq<byte> {
    Bytes(8, Unsigned64(x))
  }

  /** DumpString (ldump.c:73-87) */
  function EncString(s: Option<seq<byte>>): seq<byte> {
    match s
    case None => [0]
    case Some(t) =>
      if |t| + 1 < 255 then [|t| + 1] + t else [255] + EncLength(|t| + 1) + t
  }

  /** Lengths fit in a 'size_t'. */
  function EncLength(n: nat): seq<byte> {
    Bytes(8, n)
  }

  function Encode<T>(xs: seq<T>, e: T -> seq<byte>): seq<byte> {
    if xs == [] then [] else e(xs[0]) + Encode(xs[1..], e)
  }

  function EncCount(n: nat): seq<byte> {
    Bytes(4, n)
  }

  function EncConstant(c: Constant): seq<byte> {
    match c
    case Nil => [0]
    case Bool(b) => [1, b]
    case Float(bits) => [3] + EncLong(bits)
    case Int(i) => [19] + EncInteger(i)
    case String(s) => [if |s| <= MAXSHORTLEN then 4 else 20] + EncString(Some(s))
  }

  function EncUpvalue(u: Upvalue): seq<byte> {
    [u.instack, u.idx]
  }

  function EncName(u: Upvalue): seq<byte> {
    EncString(u.name)
  }

  function EncLocVar(l: LocVar): seq<byte> {
    EncString(l.varname) + EncInt(l.startpc) + EncInt(l.endpc)
  }

  function EncLines(ls: seq<int32>): seq<byte> {
    EncCount(|ls|) + Encode(ls, EncInt)
  }

  function EncLocVars(ls: seq<LocVar>): seq<byte> {
    EncCount(|ls|) + Encode(ls, EncLocVar)
  }

  function EncNames(us: seq<Upvalue>): seq<byte> {
    EncCount(|us|) + Encode(us, EncName)
  }

  /** DumpDebug (ldump.c:147-163) */
  function EncDebug(f: Proto, strip: bool): seq<byte> {
    EncLines(if strip then [] else f.lineinfo) + EncLocVars(if strip then [] else f.locvars) + EncNames(if strip then [] else f.upvalues)
  }

  /** 'same' says when two sources are the same object; then they have the same contents. */
  predicate SameSource(a: Option<seq<byte>>, b: Option<seq<byte>>, same: (seq<byte>, seq<byte>) -> bool) {
    (a.None? && b.None?) || (a.Some? && b.Some? && same(a.value, b.value))
  }

  function EncSource(f: Proto, psource: Option<seq<byte>>, strip: bool, same: (seq<byte>, seq<byte>) -> bool): seq<byte> {
    if strip || SameSource(f.source, psource, same) then EncString(None) else EncString(f.source)
  }

  function EncFixed(f: Proto): seq<byte> {
    EncInt(f.linedefined) + EncInt(f.lastlinedefined) + [f.numparams, f.isvararg, f.maxstacksize]
  }

  function EncCode(f: Proto): seq<byte> {
    EncCount(|f.code|) + Encode(f.code, EncWord)
  }

  function EncConstants(f: Proto): seq<byte> {
    EncCount(|f.k|) + Encode(f.k, EncConstant)
  }

  function EncUpvalues(f: Proto): seq<byte> {
    EncCount(|f.upvalues|) + Encode(f.upvalues, EncUpvalue)
  }

  /** What stands before the nested functions. */
  function EncFront(f: Proto, psource: Option<seq<byte>>, strip: bool, same: (seq<byte>, seq<byte>) -> bool): seq<byte> {
    EncSource(f, psource, strip, same) + EncFixed(f) + EncCode(f) + EncConstants(f) + EncUpvalues(f)
  }

  /** DumpFunction (ldump.c:166-181) */
  function EncFunction(f: Proto, psource: Option<seq<byte>>, strip: bool, same: (seq<byte>, seq<byte>) -> bool): seq<byte>
    decreases f, 0
  {
    EncFront(f, psource, strip, same) + EncCount(|f.p|) + EncFunctions(f.p, f.source, strip, same) + EncDebug(f, strip)
  }

  function EncFunctions(ps: seq<Proto>, psource: Option<seq<byte>>, strip: bool, same: (seq<byte>, seq<byte>) -> bool): seq<byte>
    decreases ps, 1
  {
    if ps == [] then [] else EncFunction(ps[0], psource, strip, same) + EncFunctions(ps[1..], psource, strip, same)
  }

  const Signature: seq<byte> := [76, 117, 97]
  const Version: byte := 0x53
  const Format: byte := 0
  const Check: seq<byte> := [0x19, 0x93, 13, 10, 0x1a, 10]
  const CheckInteger: int64 := 0x5678
  /** 370.5 */
  const CheckNumber: uint64 := 0x4077_2800_0000_0000

  /** DumpHeader (ldump.c:184-196), after the first byte of the signature. */
  function EncHeader(): seq<byte> {
    Signature + [Version, Format] + Check + [4, 8, 4, 8, 8] + EncInteger(CheckInteger) + EncLong(CheckNumber)
  }

  /** luaU_dump (ldump.c:202-214) */
  function EncChunk(f: Proto, strip: bool, same: (seq<byte>, seq<byte>) -> bool): seq<byte>
    requires |f.upvalues| < 256
  {
    [0x1b] + EncHeader() + [|f.upvalues|] + EncFunction(f, None, strip, same)
  }

  // ---------- reading ----------

  datatype Error =
    | Truncated | NotAChunk | VersionMismatch | FormatMismatch | Corrupted | SizeMismatch
    | EndiannessMismatch | FloatMismatch | NotEnoughMemory | Malformed

  datatype Parsed<+T> = Done(value: T, rest: seq<byte>) | Fail(e: Error)
  {
    predicate IsFailure() {
      Fail?
    }

    function PropagateFailure<U>(): Parsed<U>
      requires Fail?
    {
      Fail(e)
    }

    function Extract(): (T, seq<byte>)
      requires Done?
    {
      (value, rest)
    }
  }

  function ParseBytes(s: seq<byte>, n: nat): Parsed<seq<byte>> {
    if n <= |s| then Done(s[..n], s[n..]) else Fail(Truncated)
  }

  function ParseByte(s: seq<byte>): (r: Parsed<byte>)
    ensures r.Done? ==> |r.rest| == |s| - 1
  {
    if s != [] then Done(s[0], s[1..]) else Fail(Truncated)
  }

  function ParseInt(s: seq<byte>): (r: Parsed<int32>)
    ensures r.Done? ==> |r.rest| < |s|
  {
    match ParseBytes(s, 4)
    case Done(b, rest) => NumberBound(b); Done(Signed32(Number(b)), rest)
    case Fail(e) => Fail(e)
  }

  function ParseLong(s: seq<byte>): (r: Parsed<uint64>)
    ensures r.Done? ==> |r.rest| < |s|
  {
    match ParseBytes(s, 8)
    case Done(b, rest) => NumberBound(b); Done(Number(b), rest)
    case Fail(e) => Fail(e)
  }

  function ParseInteger(s: seq<byte>): (r: Parsed<int64>)
    ensures r.Done? ==> |r.rest| < |s|
  {
    match ParseLong(s)
    case Done(x, rest) => Done(Signed64(x), rest)
    case Fail(e) => Fail(e)
  }

  /** LoadString (lundump.c:88-104) */
  function ParseString(s: seq<byte>): (r: Parsed<Option<seq<byte>>>)
    ensures r.Done? ==> |r.rest| < |s|
  {
    var byte1 := ParseByte(s);
    if byte1.Fail? then Fail(byte1.e)
    else
      var size := if byte1.value == 255 then ParseLong(byte1.rest) else Done(byte1.value, byte1.rest);
      if size.Fail? then Fail(size.e)
      else if size.value == 0 then Done(None, size.rest)
      else
        match ParseBytes(size.rest, size.value - 1)
        case Done(t, rest) => Done(Some(t), rest)
        case Fail(e) => Fail(e)
  }

  /** A number of elements to allocate. */
  function ParseCount(s: seq<byte>): (r: Parsed<nat>)
    ensures r.Done? ==> |r.rest| < |s|
  {
    match ParseInt(s)
    case Done(n, rest) => if n < 0 then Fail(NotEnoughMemory) else Done(n, rest)
    case Fail(e) => Fail(e)
  }

  /** 'p' reads from the front. */
  ghost predicate Consumes<T>(p: seq<byte> -> Parsed<T>) {
    forall t :: p(t).Done? ==> |p(t).rest| <= |t|
  }

  /** 'n' elements, after those already read. */
  function ParseMany<T>(s: seq<byte>, n: nat, acc: seq<T>, p: seq<byte> -> Parsed<T>): (r: Parsed<seq<T>>)
    requires Consumes(p)
    ensures r.Done? ==> |r.rest| <= |s|
    decreases n
  {
    if n == 0 then Done(acc, s)
    else
      match p(s)
      case Done(x, rest) => ParseMany(rest, n - 1, acc + [x], p)
      case Fail(e) => Fail(e)
  }

  function ParseWord(s: seq<byte>): (r: Parsed<uint32>)
    ensures r.Done? ==> |r.rest| < |s|
  {
    match ParseBytes(s, 4)
    case Done(b, rest) => NumberBound(b); Done(Number(b), rest)
    case Fail(e) => Fail(e)
  }

  /** LoadConstants (lundump.c:118-149): an unknown tag leaves nil. */
  function ParseConstant(s: seq<byte>): (r: Parsed<Constant>)
    ensures r.Done? ==> |r.rest| < |s|
  {
    match ParseByte(s)
    case Fail(e) => Fail(e)
    case Done(tag, rest) =>
      if tag == 1 then
        match ParseByte(rest)
        case Done(b, rest') => Done(Bool(b), rest')
        case Fail(e) => Fail(e)
      else if tag == 3 then
        match ParseLong(rest)
        case Done(x, rest') => Done(Float(x), rest')
        case Fail(e) => Fail(e)
      else if tag == 19 then
        match ParseInteger(rest)
        case Done(i, rest') => Done(Int(i), rest')
        case Fail(e) => Fail(e)
      else if tag == 4 || tag == 20 then
        match ParseString(rest)
        case Done(Some(t), rest') => Done(String(t), rest')
        case Done(None, _) => Fail(Malformed)
        case Fail(e) => Fail(e)
      else Done(Nil, rest)
  }

  function ParseUpvalue(s: seq<byte>): (r: Parsed<Upvalue>)
    ensures r.Done? ==> |r.rest| < |s|
  {
    if |s| < 2 then Fail(Truncated) else Done(Upvalue(None, s[0], s[1]), s[2..])
  }

  function ParseLocVar(s: seq<byte>): (r: Parsed<LocVar>)
    ensures r.Done? ==> |r.rest| < |s|
  {
    match ParseString(s)
    case Fail(e) => Fail(e)
    case Done(name, rest) =>
      match ParseInt(rest)
      case Fail(e) => Fail(e)
      case Done(startpc, rest') =>
        match ParseInt(rest')
        case Fail(e) => Fail(e)
        case Done(endpc, rest'') => Done(LocVar(name, startpc, endpc), rest'')
  }

  /** The names of the upvalues from 'i' to 'n'. */
  function ParseNames(s: seq<byte>, i: nat, n: nat, us: seq<Upvalue>): (r: Parsed<seq<Upvalue>>)
    requires i <= n <= |us|
    ensures r.Done? ==> |r.rest| <= |s|
    decreases n - i
  {
    if i == n then Done(us, s)
    else
      match ParseString(s)
      case Done(name, rest) => ParseNames(rest, i + 1, n, us[i := us[i].(name := name)])
      case Fail(e) => Fail(e)
  }

  function ParseVector<T>(s: seq<byte>, p: seq<byte> -> Parsed<T>): (r: Parsed<seq<T>>)
    requires Consumes(p)
    ensures r.Done? ==> |r.rest| < |s|
  {
    match ParseCount(s)
    case Done(n, rest) => ParseMany(rest, n, [], p)
    case Fail(e) => Fail(e)
  }

  /** LoadDebug (lundump.c:180-199). More names than upvalues would be written past the end
      of an array. */
  function ParseDebug(s: seq<byte>, us: seq<Upvalue>): (r: Parsed<(seq<int32>, seq<LocVar>, seq<Upvalue>)>)
    ensures r.Done? ==> |r.rest| < |s|
  {
    var (lineinfo, s1) :- ParseVector(s, ParseInt);
    var (locvars, s2) :- ParseVector(s1, ParseLocVar);
    var (n, s3) :- ParseInt(s2);
    if n > |us| then Fail(Malformed)
    else
      var (us', s4) :- ParseNames(s3, 0, if n < 0 then 0 else n, us);
      Done((lineinfo, locvars, us'), s4)
  }

  /** What stands before the nested functions. */
  function ParseFront(s: seq<byte>, psource: Option<seq<byte>>): (r: Parsed<Proto>)
    ensures r.Done? ==> |r.rest| < |s|
  {
    var (source, s1) :- ParseString(s);
    var (linedefined, s2) :- ParseInt(s1);
    var (lastlinedefined, s3) :- ParseInt(s2);
    var (numparams, s4) :- ParseByte(s3);
    var (isvararg, s5) :- ParseByte(s4);
    var (maxstacksize, s6) :- ParseByte(s5);
    var (code, s7) :- ParseVector(s6, ParseWord);
    var (k, s8) :- ParseVector(s7, ParseConstant);
    var (upvalues, s9) :- ParseVector(s8, ParseUpvalue);
    Done(Proto(if source.None? then psource else source, linedefined, lastlinedefined, numparams, isvararg, maxstacksize,
               code, k, upvalues, [], [], []), s9)
  }

  /** LoadFunction (lundump.c:202-216) */
  function ParseFunction(s: seq<byte>, psource: Option<seq<byte>>): (r: Parsed<Proto>)
    ensures r.Done? ==> |r.rest| < |s|
    decreases |s|, 0, 0
  {
    var (f, s1) :- ParseFront(s, psource);
    var (n, s2) :- ParseCount(s1);
    var (p, s3) :- ParseFunctions(s2, n, [], f.source);
    var (debug, s4) :- ParseDebug(s3, f.upvalues);
    Done(f.(p := p, lineinfo := debug.0, locvars := debug.1, upvalues := debug.2), s4)
  }

  function ParseFunctions(s: seq<byte>, n: nat, acc: seq<Proto>, psource: Option<seq<byte>>): (r: Parsed<seq<Proto>>)
    ensures r.Done? ==> |r.rest| <= |s|
    decreases |s|, 1, n
  {
    if n == 0 then Done(acc, s)
    else
      match ParseFunction(s, psource)
      case Done(f, rest) => ParseFunctions(rest, n - 1, acc + [f], psource)
      case Fail(e) => Fail(e)
  }

  function ParseLiteral(s: seq<byte>, t: seq<byte>, e: Error): (r: Parsed<()>)
    ensures r.Done? ==> |r.rest| <= |s|
  {
    match ParseBytes(s, |t|)
    case Done(b, rest) => if b == t then Done((), rest) else Fail(e)
    case Fail(e') => Fail(e')
  }

  /** The sizes of types, one byte each. */
  function ParseSizes(s: seq<byte>, sizes: seq<byte>): (r: Parsed<()>)
    ensures r.Done? ==> |r.rest| <= |s|
    decreases |sizes|
  {
    if sizes == [] then Done((), s)
    else
      match ParseByte(s)
      case Done(b, rest) => if b == sizes[0] then ParseSizes(rest, sizes[1..]) else Fail(SizeMismatch)
      case Fail(e) => Fail(e)
  }

  /** checkHeader (lundump.c:236-252), behind the first byte of the signature. */
  function ParseHeader(s: seq<byte>): (r: Parsed<()>) {
    var (_, s1) :- ParseLiteral(s, Signature, NotAChunk);
    var (version, s2) :- ParseByte(s1);
    if version != Version then Fail(VersionMismatch)
    else
      var (format, s3) :- ParseByte(s2);
      if format != Format then Fail(FormatMismatch)
      else
        var (_, s4) :- ParseLiteral(s3, Check, Corrupted);
        var (_, s5) :- ParseSizes(s4, [4, 8, 4, 8, 8]);
        var (i, s6) :- ParseInteger(s5);
        if i != CheckInteger then Fail(EndiannessMismatch)
        else
          var (x, s7) :- ParseLong(s6);
          if x != CheckNumber then Fail(FloatMismatch) else Done((), s7)
  }

  /** What luaU_undump makes of a chunk: the number of upvalues of the closure, and the
      function (lundump.c:258-278). */
  function ParseChunk(s: seq<byte>): Parsed<(byte, Proto)> {
    var (_, s1) :- ParseHeader(s);
    var (n, s2) :- ParseByte(s1);
    var (f, s3) :- ParseFunction(s2, None);
    Done((n, f), s3)
  }

  // ---------- the round trip ----------

  /** What a machine can hold. */
  predicate StringOK(s: Option<seq<byte>>) {
    s.Some? ==> |s.value| + 1 < 0x1_0000_0000_0000_0000
  }

  ghost predicate Fits(f: Proto)
    decreases f
  {
    && StringOK(f.source)
    && |f.code| <= MAXINT && |f.k| <= MAXINT && |f.upvalues| <= MAXINT && |f.p| <= MAXINT && |f.lineinfo| <= MAXINT && |f.locvars| <= MAXINT
    && (forall c :: c in f.k ==> ConstantOK(c))
    && (forall u :: u in f.upvalues ==> StringOK(u.name))
    && (forall l :: l in f.locvars ==> StringOK(l.varname))
    && (forall g :: g in f.p ==> Fits(g))
  }

  predicate ConstantOK(c: Constant) {
    c.String? ==> StringOK(Some(c.s))
  }

  /** A prototype without debug information. */
  function Stripped(f: Proto): Proto
    decreases f, 0
  {
    f.(source := None, lineinfo := [], locvars := [], upvalues := Nameless(f.upvalues), p := StrippedAll(f.p))
  }

  function StrippedAll(ps: seq<Proto>): (r: seq<Proto>)
    ensures |r| == |ps|
    decreases ps, 1
  {
    if ps == [] then [] else [Stripped(ps[0])] + StrippedAll(ps[1..])
  }

  function Nameless(us: seq<Upvalue>): (r: seq<Upvalue>)
    ensures |r| == |us| && forall i :: 0 <= i < |us| ==> r[i] == us[i].(name := None)
  {
    if us == [] then [] else [us[0].(name := None)] + Nameless(us[1..])
  }

  /** A prototype in which functions without a source have that of the function around. */
  function Inherited(f: Proto, psource: Option<seq<byte>>): Proto
    decreases f, 0
  {
    var source := if f.source.None? then psource else f.source;
    f.(source := source, p := InheritedAll(f.p, source))
  }

  function InheritedAll(ps: seq<Proto>, psource: Option<seq<byte>>): (r: seq<Proto>)
    ensures |r| == |ps|
    decreases ps, 1
  {
    if ps == [] then [] else [Inherited(ps[0], psource)] + InheritedAll(ps[1..], psource)
  }

  /** Functions inside one that has a source have one. */
  ghost predicate Named(f: Proto, psource: Option<seq<byte>>)
    decreases f
  {
    (f.source.None? ==> psource.None?) && forall g :: g in f.p ==> Named(g, f.source)
  }

  lemma Assoc(a: seq<byte>, b: seq<byte>, c: seq<byte>)
    ensures a + b + c == a + (b + c)
  {
  }

  lemma BytesRead(b: seq<byte>, rest: seq<byte>)
    ensures ParseBytes(b + rest, |b|) == Done(b, rest)
  {
  }

  lemma WordRead(x: uint32, rest: seq<byte>)
    ensures ParseWord(EncWord(x) + rest) == Done(x, rest)
  {
    BytesRead(EncWord(x), rest);
    NumberOfBytes(4, x);
  }

  lemma IntRead(x: int32, rest: seq<byte>)
    ensures ParseInt(EncInt(x) + rest) == Done(x, rest)
  {
    BytesRead(EncInt(x), rest);
    NumberOfBytes(4, Unsigned32(x));
  }

  lemma LongRead(x: uint64, rest: seq<byte>)
    ensures ParseLong(EncLong(x) + rest) == Done(x, rest)
  {
    BytesRead(EncLong(x), rest);
    NumberOfBytes(8, x);
  }

  lemma IntegerRead(x: int64, rest: seq<byte>)
    ensures ParseInteger(EncInteger(x) + rest) == Done(x, rest)
  {
    LongRead(Unsigned64(x), rest);
  }

  lemma CountRead(n: nat, rest: seq<byte>)
    requires n <= MAXINT
    ensures ParseCount(EncCount(n) + rest) == Done(n, rest)
  {
    IntRead(n, rest);
  }

  lemma StringRead(s: Option<seq<byte>>, rest: seq<byte>)
    requires StringOK(s)
    ensures ParseString(EncString(s) + rest) == Done(s, rest)
  {
    match s
    case None =>
    case Some(t) =>
      BytesRead(t, rest);
      if |t| + 1 < 255 {
        Assoc([|t| + 1], t, rest);
      } else {
        Assoc([255] + EncLength(|t| + 1), t, rest);
        Assoc([255], EncLength(|t| + 1), t + rest);
        LongRead(|t| + 1, t + rest);
      }
  }

  lemma ConstantRead(c: Constant, rest: seq<byte>)
    requires ConstantOK(c)
    ensures ParseConstant(EncConstant(c) + rest) == Done(c, rest)
  {
    match c
    case Nil =>
    case Bool(b) =>
    case Float(x) =>
      Assoc([3], EncLong(x), rest);
      LongRead(x, rest);
    case Int(i) =>
      Assoc([19], EncInteger(i), rest);
      IntegerRead(i, rest);
    case String(t) =>
      Assoc([if |t| <= MAXSHORTLEN then 4 else 20], EncString(Some(t)), rest);
      StringRead(Some(t), rest);
  }

  lemma LocVarRead(l: LocVar, rest: seq<byte>)
    requires StringOK(l.varname)
    ensures ParseLocVar(EncLocVar(l) + rest) == Done(l, rest)
  {
    Assoc(EncString(l.varname) + EncInt(l.startpc), EncInt(l.endpc), rest);
    Assoc(EncString(l.varname), EncInt(l.startpc), EncInt(l.endpc) + rest);
    StringRead(l.varname, EncInt(l.startpc) + (EncInt(l.endpc) + rest));
    IntRead(l.startpc, EncInt(l.endpc) + rest);
    IntRead(l.endpc, rest);
  }

  /** 'p' reads what 'e' writes for 'x', as 'y'. */
  ghost predicate Reads<T, U>(e: T -> seq<byte>, p: seq<byte> -> Parsed<U>, x: T, y: U) {
    forall r :: p(e(x) + r) == Done(y, r)
  }

  lemma {:induction false} ManyRead<T, U>(xs: seq<T>, ys: seq<U>, e: T -> seq<byte>, p: seq<byte> -> Parsed<U>, acc: seq<U>, rest: seq<byte>)
    requires Consumes(p)
    requires |ys| == |xs| && forall i :: 0 <= i < |xs| ==> Reads(e, p, xs[i], ys[i])
    ensures ParseMany(Encode(xs, e) + rest, |xs|, acc, p) == Done(acc + ys, rest)
    decreases |xs|
  {
    if xs != [] {
      Assoc(e(xs[0]), Encode(xs[1..], e), rest);
      assert Reads(e, p, xs[0], ys[0]);
      var xs', ys' := xs[1..], ys[1..];
      assert forall i :: 0 <= i < |xs'| ==> xs'[i] == xs[1 + i] && ys'[i] == ys[1 + i];
      ManyRead(xs', ys', e, p, acc + [ys[0]], rest);
      assert acc + [ys[0]] + ys' == acc + ys;
    } else {
      assert Encode(xs, e) + rest == rest && acc + ys == acc;
    }
  }

  lemma VectorRead<T, U>(xs: seq<T>, ys: seq<U>, e: T -> seq<byte>, p: seq<byte> -> Parsed<U>, rest: seq<byte>)
    requires Consumes(p)
    requires |xs| <= MAXINT && |ys| == |xs| && forall i :: 0 <= i < |xs| ==> Reads(e, p, xs[i], ys[i])
    ensures ParseVector(EncCount(|xs|) + Encode(xs, e) + rest, p) == Done(ys, rest)
  {
    Assoc(EncCount(|xs|), Encode(xs, e), rest);
    CountRead(|xs|, Encode(xs, e) + rest);
    ManyRead(xs, ys, e, p, [], rest);
    assert [] + ys == ys;
  }

  lemma LinesRead(ls: seq<int32>, rest: seq<byte>)
    requires |ls| <= MAXINT
    ensures ParseVector(EncLines(ls) + rest, ParseInt) == Done(ls, rest)
  {
    forall i | 0 <= i < |ls| ensures Reads(EncInt, ParseInt, ls[i], ls[i]) {
      forall r: seq<byte> {
        IntRead(ls[i], r);
      }
    }
    VectorRead(ls, ls, EncInt, ParseInt, rest);
  }

  lemma LocVarsRead(ls: seq<LocVar>, rest: seq<byte>)
    requires |ls| <= MAXINT && forall l :: l in ls ==> StringOK(l.varname)
    ensures ParseVector(EncLocVars(ls) + rest, ParseLocVar) == Done(ls, rest)
  {
    forall i | 0 <= i < |ls| ensures Reads(EncLocVar, ParseLocVar, ls[i], ls[i]) {
      forall r: seq<byte> {
        LocVarRead(ls[i], r);
      }
    }
    VectorRead(ls, ls, EncLocVar, ParseLocVar, rest);
  }

  lemma CodeRead(f: Proto, rest: seq<byte>)
    requires |f.code| <= MAXINT
    ensures ParseVector(EncCode(f) + rest, ParseWord) == Done(f.code, rest)
  {
    forall i | 0 <= i < |f.code| ensures Reads(EncWord, ParseWord, f.code[i], f.code[i]) {
      forall r: seq<byte> {
        WordRead(f.code[i], r);
      }
    }
    VectorRead(f.code, f.code, EncWord, ParseWord, rest);
  }

  lemma ConstantsRead(f: Proto, rest: seq<byte>)
    requires |f.k| <= MAXINT && forall c :: c in f.k ==> ConstantOK(c)
    ensures ParseVector(EncConstants(f) + rest, ParseConstant) == Done(f.k, rest)
  {
    forall i | 0 <= i < |f.k| ensures Reads(EncConstant, ParseConstant, f.k[i], f.k[i]) {
      forall r: seq<byte> {
        ConstantRead(f.k[i], r);
      }
    }
    VectorRead(f.k, f.k, EncConstant, ParseConstant, rest);
  }

  lemma UpvaluesRead(f: Proto, rest: seq<byte>)
    requires |f.upvalues| <= MAXINT
    ensures ParseVector(EncUpvalues(f) + rest, ParseUpvalue) == Done(Nameless(f.upvalues), rest)
  {
    var us := f.upvalues;
    forall i | 0 <= i < |us| ensures Reads(EncUpvalue, ParseUpvalue, us[i], Nameless(us)[i]) {
      forall r: seq<byte> ensures ParseUpvalue(EncUpvalue(us[i]) + r) == Done(Nameless(us)[i], r) {
        assert (EncUpvalue(us[i]) + r)[2..] == r;
      }
    }
    VectorRead(us, Nameless(us), EncUpvalue, ParseUpvalue, rest);
  }

  /** The first 'i' names have been read. */
  ghost predicate NamedUpTo(us: seq<Upvalue>, vs: seq<Upvalue>, i: nat) {
    |us| == |vs| && i <= |us| && us[..i] == vs[..i] && us[i..] == Nameless(vs)[i..]
  }

  lemma {:induction false} NamesRead(us: seq<Upvalue>, vs: seq<Upvalue>, i: nat, rest: seq<byte>)
    requires NamedUpTo(us, vs, i) && forall v :: v in vs ==> StringOK(v.name)
    ensures ParseNames(Encode(vs[i..], EncName) + rest, i, |us|, us) == Done(vs, rest)
    decreases |us| - i
  {
    if i < |us| {
      assert vs[i..][0] == vs[i] && vs[i..][1..] == vs[i + 1..];
      Assoc(EncName(vs[i]), Encode(vs[i + 1..], EncName), rest);
      StringRead(vs[i].name, Encode(vs[i + 1..], EncName) + rest);
      assert us[i] == us[i..][0] && us[i] == vs[i].(name := None);
      var us' := us[i := us[i].(name := vs[i].name)];
      assert us'[..i + 1] == us[..i] + [vs[i]] && vs[..i + 1] == vs[..i] + [vs[i]];
      assert us'[i + 1..] == us[i..][1..] && Nameless(vs)[i + 1..] == Nameless(vs)[i..][1..];
      NamesRead(us', vs, i + 1, rest);
    } else {
      assert us == us[..i] && vs == vs[..i];
      assert Encode(vs[i..], EncName) + rest == rest;
    }
  }

  /** The debug information that is read. */
  lemma DebugRead(f: Proto, strip: bool, rest: seq<byte>)
    requires Fits(f)
    ensures ParseDebug(EncDebug(f, strip) + rest, Nameless(f.upvalues))
            == Done(if strip then ([], [], Nameless(f.upvalues)) else (f.lineinfo, f.locvars, f.upvalues), rest)
  {
    var lines, locvars, us := if strip then [] else f.lineinfo, if strip then [] else f.locvars, if strip then [] else f.upvalues;
    Assoc(EncLines(lines) + EncLocVars(locvars), EncNames(us), rest);
    Assoc(EncLines(lines), EncLocVars(locvars), EncNames(us) + rest);
    LinesRead(lines, EncLocVars(locvars) + (EncNames(us) + rest));
    LocVarsRead(locvars, EncNames(us) + rest);
    Assoc(EncCount(|us|), Encode(us, EncName), rest);
    IntRead(|us|, Encode(us, EncName) + rest);
    if strip {
      assert Encode(us, EncName) + rest == rest;
    } else {
      assert us[0..] == us;
      NamesRead(Nameless(us), us, 0, rest);
    }
  }

  ghost predicate SameMeansEqual(same: (seq<byte>, seq<byte>) -> bool) {
    forall s, t :: same(s, t) ==> s == t
  }

  /** The source that a function has after it was read. */
  function LoadedSource(f: Proto, strip: bool, psource: Option<seq<byte>>): Option<seq<byte>> {
    if strip || f.source.None? then psource else f.source
  }

  lemma SourceRead(f: Proto, psource: Option<seq<byte>>, strip: bool, same: (seq<byte>, seq<byte>) -> bool,
                   loaded: Option<seq<byte>>, rest: seq<byte>)
    requires StringOK(f.source) && SameMeansEqual(same) && (psource.Some? && !strip ==> loaded == psource)
    ensures var r := ParseString(EncSource(f, psource, strip, same) + rest);
            && r.Done? && r.rest == rest
            && (if r.value.None? then loaded else r.value) == LoadedSource(f, strip, loaded)
  {
    StringRead(None, rest);
    StringRead(f.source, rest);
  }

  lemma FixedRead(f: Proto, rest: seq<byte>)
    ensures var s1 := ParseInt(EncFixed(f) + rest);
            && s1.Done? && s1.value == f.linedefined
            && ParseInt(s1.rest) == Done(f.lastlinedefined, [f.numparams, f.isvararg, f.maxstacksize] + rest)
  {
    var bytes := [f.numparams, f.isvararg, f.maxstacksize];
    Assoc(EncInt(f.linedefined) + EncInt(f.lastlinedefined), bytes, rest);
    Assoc(EncInt(f.linedefined), EncInt(f.lastlinedefined), bytes + rest);
    IntRead(f.linedefined, EncInt(f.lastlinedefined) + (bytes + rest));
    IntRead(f.lastlinedefined, bytes + rest);
  }

  lemma ThreeBytes(a: byte, b: byte, c: byte, rest: seq<byte>)
    ensures ParseByte([a, b, c] + rest) == Done(a, [b, c] + rest)
    ensures ParseByte([b, c] + rest) == Done(b, [c] + rest)
    ensures ParseByte([c] + rest) == Done(c, rest)
  {
    assert ([a, b, c] + rest)[1..] == [b, c] + rest;
    assert ([b, c] + rest)[1..] == [c] + rest;
  }

  lemma FrontRead(f: Proto, psource: Option<seq<byte>>, strip: bool, same: (seq<byte>, seq<byte>) -> bool,
                  loaded: Option<seq<byte>>, rest: seq<byte>)
    requires Fits(f) && SameMeansEqual(same) && (psource.Some? && !strip ==> loaded == psource)
    ensures ParseFront(EncFront(f, psource, strip, same) + rest, loaded)
            == Done(f.(source := LoadedSource(f, strip, loaded), upvalues := Nameless(f.upvalues), p := [], lineinfo := [], locvars := []), rest)
  {
    var source, fixed, code, k, upvalues := EncSource(f, psource, strip, same), EncFixed(f), EncCode(f), EncConstants(f), EncUpvalues(f);
    Assoc(source + fixed + code + k, upvalues, rest);
    Assoc(source + fixed + code, k, upvalues + rest);
    Assoc(source + fixed, code, k + (upvalues + rest));
    Assoc(source, fixed, code + (k + (upvalues + rest)));
    SourceRead(f, psource, strip, same, loaded, fixed + (code + (k + (upvalues + rest))));
    FixedRead(f, code + (k + (upvalues + rest)));
    ThreeBytes(f.numparams, f.isvararg, f.maxstacksize, code + (k + (upvalues + rest)));
    CodeRead(f, k + (upvalues + rest));
    ConstantsRead(f, upvalues + rest);
    UpvaluesRead(f, rest);
  }

  /** What a function becomes when it is written and read. */
  function Loaded(f: Proto, strip: bool, psource: Option<seq<byte>>): Proto {
    if strip then Stripped(f) else Inherited(f, psource)
  }

  function LoadedAll(ps: seq<Proto>, strip: bool, psource: Option<seq<byte>>): seq<Proto> {
    if strip then StrippedAll(ps) else InheritedAll(ps, psource)
  }

  lemma {:induction false} FunctionRead(f: Proto, psource: Option<seq<byte>>, strip: bool, same: (seq<byte>, seq<byte>) -> bool,
                                        loaded: Option<seq<byte>>, rest: seq<byte>)
    requires Fits(f) && SameMeansEqual(same) && (if strip then loaded.None? else psource.Some? ==> loaded == psource)
    ensures ParseFunction(EncFunction(f, psource, strip, same) + rest, loaded) == Done(Loaded(f, strip, loaded), rest)
    decreases f, 0
  {
    hide EncFront, EncCount, EncFunctions, EncDebug, ParseFront, ParseCount, ParseFunctions, ParseDebug, SameMeansEqual;
    var front, count, ps, debug := EncFront(f, psource, strip, same), EncCount(|f.p|), EncFunctions(f.p, f.source, strip, same), EncDebug(f, strip);
    Assoc(front + count + ps, debug, rest);
    Assoc(front + count, ps, debug + rest);
    Assoc(front, count, ps + (debug + rest));
    var source := LoadedSource(f, strip, loaded);
    FrontRead(f, psource, strip, same, loaded, count + (ps + (debug + rest)));
    CountRead(|f.p|, ps + (debug + rest));
    FunctionsRead(f.p, f.source, strip, same, [], source, debug + rest);
    assert [] + LoadedAll(f.p, strip, source) == LoadedAll(f.p, strip, source);
    DebugRead(f, strip, rest);
  }

  lemma {:induction false} FunctionsRead(ps: seq<Proto>, psource: Option<seq<byte>>, strip: bool, same: (seq<byte>, seq<byte>) -> bool,
                                         acc: seq<Proto>, loaded: Option<seq<byte>>, rest: seq<byte>)
    requires (forall g :: g in ps ==> Fits(g)) && SameMeansEqual(same)
    requires if strip then loaded.None? else psource.Some? ==> loaded == psource
    ensures ParseFunctions(EncFunctions(ps, psource, strip, same) + rest, |ps|, acc, loaded) == Done(acc + LoadedAll(ps, strip, loaded), rest)
    decreases ps, 1
  {
    hide EncFunction, ParseFunction, SameMeansEqual, Fits;
    if ps == [] {
      assert EncFunctions(ps, psource, strip, same) + rest == rest && acc + LoadedAll(ps, strip, loaded) == acc;
    } else {
      var g, gs := ps[0], ps[1..];
      Assoc(EncFunction(g, psource, strip, same), EncFunctions(gs, psource, strip, same), rest);
      FunctionRead(g, psource, strip, same, loaded, EncFunctions(gs, psource, strip, same) + rest);
      FunctionsRead(gs, psource, strip, same, acc + [Loaded(g, strip, loaded)], loaded, rest);
      assert acc + [Loaded(g, strip, loaded)] + LoadedAll(gs, strip, loaded) == acc + LoadedAll(ps, strip, loaded);
    }
  }

  /** The literals of the header. */
  lemma LiteralsRead(rest: seq<byte>)
    ensures var s1 := ParseLiteral(Signature + [Version, Format] + Check + rest, Signature, NotAChunk);
            && s1 == Done((), [Version, Format] + (Check + rest))
            && ParseByte(s1.rest) == Done(Version, [Format] + (Check + rest))
            && ParseByte([Format] + (Check + rest)) == Done(Format, Check + rest)
            && ParseLiteral(Check + rest, Check, Corrupted) == Done((), rest)
  {
    Assoc(Signature + [Version, Format], Check, rest);
    Assoc(Signature, [Version, Format], Check + rest);
    BytesRead(Signature, [Version, Format] + (Check + rest));
    assert ([Version, Format] + (Check + rest))[1..] == [Format] + (Check + rest);
    assert ([Format] + (Check + rest))[1..] == Check + rest;
    BytesRead(Check, rest);
  }

  lemma HeaderRead(rest: seq<byte>)
    ensures ParseHeader(EncHeader() + rest) == Done((), rest)
  {
    hide EncInteger, EncLong, ParseInteger, ParseLong, ParseLiteral, ParseByte, ParseSizes;
    var sizes: seq<byte> := [4, 8, 4, 8, 8];
    var t3 := EncLong(CheckNumber) + rest;
    var t2 := EncInteger(CheckInteger) + t3;
    var start := Signature + [Version, Format] + Check;
    Assoc(start + sizes + EncInteger(CheckInteger), EncLong(CheckNumber), rest);
    Assoc(start + sizes, EncInteger(CheckInteger), t3);
    Assoc(start, sizes, t2);
    LiteralsRead(sizes + t2);
    SizesRead(sizes, t2);
    IntegerRead(CheckInteger, t3);
    LongRead(CheckNumber, rest);
  }

  lemma {:induction false} SizesRead(sizes: seq<byte>, rest: seq<byte>)
    ensures ParseSizes(sizes + rest, sizes) == Done((), rest)
    decreases |sizes|
  {
    if sizes == [] {
      assert sizes + rest == rest;
    } else {
      assert (sizes + rest)[1..] == sizes[1..] + rest;
      SizesRead(sizes[1..], rest);
    }
  }

  /** Reading a chunk that was written: exactly its bytes are consumed, and the function is
      the same except for debug information that was left out and sources that were missing. */
  lemma ChunkRead(f: Proto, strip: bool, same: (seq<byte>, seq<byte>) -> bool, rest: seq<byte>)
    requires Fits(f) && SameMeansEqual(same) && |f.upvalues| < 256
    ensures ParseChunk(EncChunk(f, strip, same)[1..] + rest) == Done((|f.upvalues|, Loaded(f, strip, None)), rest)
  {
    hide EncHeader, EncFunction, ParseHeader, ParseFunction, Fits, SameMeansEqual;
    var body := EncFunction(f, None, strip, same);
    assert EncChunk(f, strip, same)[1..] == EncHeader() + [|f.upvalues|] + body;
    Assoc(EncHeader() + [|f.upvalues|], body, rest);
    Assoc(EncHeader(), [|f.upvalues|], body + rest);
    HeaderRead([|f.upvalues|] + (body + rest));
    assert ([|f.upvalues|] + (body + rest))[1..] == body + rest;
    FunctionRead(f, None, strip, same, None, rest);
  }

  // ---------- when nothing changes ----------

  lemma {:induction false} SameIffNamed(f: Proto, psource: Option<seq<byte>>)
    ensures Inherited(f, psource) == f <==> Named(f, psource)
    decreases f, 0
  {
    AllSameIffNamed(f.p, if f.source.None? then psource else f.source);
  }

  lemma {:induction false} AllSameIffNamed(ps: seq<Proto>, psource: Option<seq<byte>>)
    ensures InheritedAll(ps, psource) == ps <==> forall g :: g in ps ==> Named(g, psource)
    decreases ps, 1
  {
    if ps != [] {
      SameIffNamed(ps[0], psource);
      AllSameIffNamed(ps[1..], psource);
      var qs := InheritedAll(ps, psource);
      assert qs == [Inherited(ps[0], psource)] + InheritedAll(ps[1..], psource);
      assert ps == [ps[0]] + ps[1..];
      assert qs == ps ==> qs[0] == ps[0] && qs[1..] == ps[1..];
    }
  }

  /** Dumping and undumping gives the same function if and only if every function inside one
      with a source has a source itself. */
  lemma RoundTrip(f: Proto, same: (seq<byte>, seq<byte>) -> bool, rest: seq<byte>)
    requires Fits(f) && SameMeansEqual(same) && |f.upvalues| < 256
    ensures ParseChunk(EncChunk(f, false, same)[1..] + rest) == Done((|f.upvalues|, f), rest) <==> Named(f, None)
  {
    ChunkRead(f, false, same, rest);
    SameIffNamed(f, None);
  }

  /** A nested function without a source comes back with that of the function around it. */
  lemma SourceGained(same: (seq<byte>, seq<byte>) -> bool)
    requires SameMeansEqual(same)
    ensures var inner := Proto(None, 1, 1, 0, 0, 2, [], [], [], [], [], []);
            var outer := inner.(source := Some([64]), p := [inner]);
            ParseChunk(EncChunk(outer, false, same)[1..]) == Done((0, outer.(p := [inner.(source := Some([64]))])), [])
  {
    var inner := Proto(None, 1, 1, 0, 0, 2, [], [], [], [], [], []);
    var outer := inner.(source := Some([64]), p := [inner]);
    assert EncChunk(outer, false, same)[1..] + [] == EncChunk(outer, false, same)[1..];
    ChunkRead(outer, false, same, []);
    assert InheritedAll([inner], Some([64])) == [inner.(source := Some([64]))] by {
      assert InheritedAll([], Some([64])) == [];
      assert Inherited(inner, Some([64])) == inner.(source := Some([64]));
    }
  }

  lemma AllConsume()
    ensures Consumes(ParseInt) && Consumes(ParseWord) && Consumes(ParseConstant) && Consumes(ParseUpvalue) && Consumes(ParseLocVar)
  {
  }

  lemma ParsedBytes(s: seq<byte>, n: nat)
    requires ParseBytes(s, n).Done?
    ensures s == ParseBytes(s, n).value + ParseBytes(s, n).rest && |ParseBytes(s, n).value| == n
  {
  }

  lemma {:induction false} BytesOfNumber(s: seq<byte>)
    ensures Bytes(|s|, Number(s)) == s
  {
    if s != [] {
      BytesOfNumber(s[1..]);
      assert Number(s) % 256 == s[0] && Number(s) / 256 == Number(s[1..]);
    }
  }

  /** Eight bytes read as a number are the bytes of that number. */
  lemma LongBytes(s: seq<byte>)
    requires ParseLong(s).Done?
    ensures s == EncLong(ParseLong(s).value) + ParseLong(s).rest
  {
    ParsedBytes(s, 8);
    BytesOfNumber(s[..8]);
  }

  lemma IntegerBytes(s: seq<byte>)
    requires ParseInteger(s).Done?
    ensures s == EncInteger(ParseInteger(s).value) + ParseInteger(s).rest
  {
    LongBytes(s);
    var x := ParseLong(s).value;
    assert Unsigned64(Signed64(x)) == x;
  }

  lemma {:induction false} SizesBytes(s: seq<byte>, sizes: seq<byte>)
    requires ParseSizes(s, sizes).Done?
    ensures s == sizes + ParseSizes(s, sizes).rest
    decreases |sizes|
  {
    if sizes != [] {
      SizesBytes(s[1..], sizes[1..]);
      assert s == [s[0]] + s[1..] && sizes == [sizes[0]] + sizes[1..];
    }
  }

  /** What follows the literals of a header that was accepted. */
  lemma LiteralBytes(s: seq<byte>)
    requires ParseHeader(s).Done?
    ensures 11 <= |s| && s == Signature + [Version, Format] + Check + s[11..]
    ensures ParseHeader(s).rest == ParseLong(ParseInteger(ParseSizes(s[11..], [4, 8, 4, 8, 8]).rest).rest).rest
  {
    hide ParseSizes, ParseInteger, ParseLong;
    assert s[3..][1..] == s[4..] && s[4..][1..] == s[5..] && s[5..][6..] == s[11..];
    assert s[..3] == Signature && s[5..][..6] == Check;
    assert s == s[..3] + s[3..] && s[3..] == [s[3]] + s[4..] && s[4..] == [s[4]] + s[5..] && s[5..] == s[5..][..6] + s[11..];
  }

  /** A header is accepted just when it is that of this machine and version. */
  lemma HeaderOnly(s: seq<byte>)
    ensures ParseHeader(s).Done? <==> EncHeader() <= s
  {
    if ParseHeader(s).Done? {
      AcceptedHeader(s);
    }
    if EncHeader() <= s {
      assert s == EncHeader() + s[|EncHeader()|..];
      HeaderRead(s[|EncHeader()|..]);
    }
  }

  lemma AcceptedHeader(s: seq<byte>)
    requires ParseHeader(s).Done?
    ensures s == EncHeader() + ParseHeader(s).rest
  {
    hide EncInteger, EncLong, ParseInteger, ParseLong, ParseSizes;
    LiteralBytes(s);
    ChecksPass(s);
    var sizes: seq<byte> := [4, 8, 4, 8, 8];
    var s1 := ParseSizes(s[11..], sizes).rest;
    var s2 := ParseInteger(s1).rest;
    SizesBytes(s[11..], sizes);
    IntegerBytes(s1);
    LongBytes(s2);
    var start := Signature + [Version, Format] + Check;
    Assoc(start, sizes, s1);
    Assoc(start + sizes, EncInteger(CheckInteger), s2);
    Assoc(start + sizes + EncInteger(CheckInteger), EncLong(CheckNumber), ParseLong(s2).rest);
  }

  lemma ChecksPass(s: seq<byte>)
    requires ParseHeader(s).Done? && 11 <= |s|
    ensures var s0 := ParseSizes(s[11..], [4, 8, 4, 8, 8]);
            && s0.Done? && ParseInteger(s0.rest).Done? && ParseInteger(s0.rest).value == CheckInteger
            && var s2 := ParseInteger(s0.rest).rest; ParseLong(s2).Done? && ParseLong(s2).value == CheckNumber
  {
    hide ParseSizes, ParseInteger, ParseLong;
    assert s[3..][1..] == s[4..] && s[4..][1..] == s[5..] && s[5..][6..] == s[11..];
  }
}
