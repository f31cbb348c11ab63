/** string.pack, string.packsize and string.unpack (apps/lua/lstrlib.c:1098-1537; section
    6.4.2 of the Lua 5.3 Reference Manual), on a little-endian machine with 4-byte 'int' and
    8-byte 'long', 'size_t', 'lua_Integer' and 'double'. */
module LuaPack {
  import opened Arithmetic
  import opened LuaChunk
  import opened LuaPackInt

  const MAXALIGN := 8
  /** INT_MAX */
  const MAXSIZE := 0x7fff_ffff

  datatype PackError =
    | BadOption | BadLimits | MissingSize | BadX | BadAlignment
    | BadArgument | IntegerOverflow | StringTooLong | LengthTooBig | ContainsZeros
    | VariableLength | TooLarge | TooShort | DoesNotFit

  datatype Kind = KInt | KUInt | KFloat | KChar | KString | KZstr | KPadding | KPadAlign | KNop

  /** Header: the settings that options change. */
  datatype Header = Header(little: bool, maxalign: nat)

  /** An option, with the position behind it. */
  datatype Opt = Opt(kind: Kind, size: nat, at: nat, h: Header) | NoOpt(e: PackError)

  /** An option with its padding. */
  datatype Step = Step(kind: Kind, size: nat, pad: nat, at: nat, h: Header) | NoStep(e: PackError)

  /** What is packed: a float by its representation in the type of its option. */
  datatype Item = Int(i: int64) | Str(s: seq<byte>) | Float(rep: seq<byte>)

  datatype Outcome<+T> = Good(value: T) | Bad(e: PackError)

  /** '*fmt': formats end with a zero byte. */
  function C(fmt: seq<byte>, at: nat): byte {
    if at < |fmt| then fmt[at] else 0
  }

  // ---------- options (lstrlib.c:1174-1286) ----------

  predicate Digit(c: int) {
    48 <= c <= 57
  }

  /** The loop of getnum: it stops before the number could get too large. */
  function Numeral(fmt: seq<byte>, at: nat, a: nat): (r: (nat, nat))
    requires Digit(C(fmt, at)) && a <= (MAXSIZE - 9) / 10
    ensures at < r.1 <= |fmt| && r.0 <= MAXSIZE
    decreases |fmt| - at
  {
    var a' := 10 * a + (C(fmt, at) - 48);
    if Digit(C(fmt, at + 1)) && a' <= (MAXSIZE - 9) / 10 then Numeral(fmt, at + 1, a') else (a', at + 1)
  }

  /** getnum; 'd' stands for a missing number. */
  function GetNum(fmt: seq<byte>, at: nat, d: int): (r: (int, nat))
    ensures at <= r.1 && (at <= |fmt| ==> r.1 <= |fmt|) && (r.0 >= 0 || r.0 == d)
  {
    if Digit(C(fmt, at)) then Numeral(fmt, at, 0) else (d, at)
  }

  /** getnumlimit */
  function Limited(fmt: seq<byte>, at: nat, d: nat): (r: Outcome<(nat, nat)>)
    ensures r.Good? ==> 1 <= r.value.0 <= MAXINTSIZE && at <= r.value.1 && (at <= |fmt| ==> r.value.1 <= |fmt|)
  {
    var n := GetNum(fmt, at, d);
    if n.0 > MAXINTSIZE || n.0 <= 0 then Bad(BadLimits) else Good(n)
  }

  function Sized(kind: Kind, fmt: seq<byte>, at: nat, d: nat, h: Header): (o: Opt)
    ensures o.Opt? ==> o.kind == kind && o.h == h && 1 <= o.size <= MAXINTSIZE && at <= o.at && (at <= |fmt| ==> o.at <= |fmt|)
  {
    match Limited(fmt, at, d)
    case Good(n) => Opt(kind, n.0, n.1, h)
    case Bad(e) => NoOpt(e)
  }

  /** getoption (lstrlib.c:1221-1256) */
  function GetOption(fmt: seq<byte>, at: nat, h: Header): (o: Opt)
    requires at < |fmt| && 1 <= h.maxalign <= MAXINTSIZE
    ensures o.Opt? ==> at < o.at <= |fmt| && 1 <= o.h.maxalign <= MAXINTSIZE
    ensures o.Opt? && (o.kind == KInt || o.kind == KUInt || o.kind == KString) ==> 1 <= o.size <= MAXINTSIZE
    ensures o.Opt? && o.kind == KFloat ==> 1 <= o.size <= 8
    ensures o.Opt? && o.kind == KPadding ==> o.size == 1
    ensures o.Opt? && (o.kind == KZstr || o.kind == KPadAlign || o.kind == KNop) ==> o.size == 0
  {
    var c := fmt[at] as char;
    var p := at + 1;
    if c == 'b' then Opt(KInt, 1, p, h)
    else if c == 'B' then Opt(KUInt, 1, p, h)
    else if c == 'h' then Opt(KInt, 2, p, h)
    else if c == 'H' then Opt(KUInt, 2, p, h)
    else if c == 'l' || c == 'j' then Opt(KInt, 8, p, h)
    else if c == 'L' || c == 'J' || c == 'T' then Opt(KUInt, 8, p, h)
    else if c == 'f' then Opt(KFloat, 4, p, h)
    else if c == 'd' || c == 'n' then Opt(KFloat, 8, p, h)
    else if c == 'i' then Sized(KInt, fmt, p, 4, h)
    else if c == 'I' then Sized(KUInt, fmt, p, 4, h)
    else if c == 's' then Sized(KString, fmt, p, 8, h)
    else if c == 'c' then
      var n := GetNum(fmt, p, -1);
      if n.0 == -1 then NoOpt(MissingSize) else Opt(KChar, n.0, n.1, h)
    else if c == 'z' then Opt(KZstr, 0, p, h)
    else if c == 'x' then Opt(KPadding, 1, p, h)
    else if c == 'X' then Opt(KPadAlign, 0, p, h)
    else if c == ' ' then Opt(KNop, 0, p, h)
    else if c == '<' || c == '=' then Opt(KNop, 0, p, h.(little := true))
    else if c == '>' then Opt(KNop, 0, p, h.(little := false))
    else if c == '!' then
      match Limited(fmt, p, MAXALIGN)
      case Good(n) => Opt(KNop, 0, n.1, h.(maxalign := n.0))
      case Bad(e) => NoOpt(e)
    else NoOpt(BadOption)
  }

  predicate PowerOf2(n: nat) {
    n == 1 || n == 2 || n == 4 || n == 8 || n == 16
  }

  /** (align - (total & (align - 1))) & (align - 1) */
  function Padding(total: nat, align: nat): (pad: nat)
    requires align > 0
    ensures pad < align && (total + pad) % align == 0
  {
    var r := total % align;
    assert total == align * (total / align) + r;
    if r == 0 then 0
    else
      ModUnique(total + (align - r), align, total / align + 1, 0);
      align - r
  }

  function Aligned(o: Opt, total: nat, align: nat, at: nat, h: Header): (s: Step)
    requires o.Opt?
    ensures s.Step? ==> s.kind == o.kind && s.size == o.size && s.at == at && s.h == h
    ensures s.Step? && s.pad > 0 ==> o.kind != KChar
    ensures s.Step? ==> s.pad < MAXINTSIZE
  {
    if align <= 1 || o.kind == KChar then Step(o.kind, o.size, 0, at, h)
    else
      var a := if align > h.maxalign then h.maxalign else align;
      if !PowerOf2(a) then NoStep(BadAlignment) else Step(o.kind, o.size, Padding(total, a), at, h)
  }

  /** getdetails (lstrlib.c:1268-1286); 'X' takes its alignment from the option behind it. */
  function GetDetails(fmt: seq<byte>, at: nat, h: Header, total: nat): (s: Step)
    requires at < |fmt| && 1 <= h.maxalign <= MAXINTSIZE
    ensures s.Step? ==> at < s.at <= |fmt| && 1 <= s.h.maxalign <= MAXINTSIZE
    ensures s.Step? && (s.kind == KInt || s.kind == KUInt || s.kind == KString) ==> 1 <= s.size <= MAXINTSIZE
    ensures s.Step? && s.kind == KFloat ==> 1 <= s.size <= 8
    ensures s.Step? && s.kind == KPadding ==> s.size == 1
    ensures s.Step? && (s.kind == KZstr || s.kind == KPadAlign || s.kind == KNop) ==> s.size == 0
  {
    var o := GetOption(fmt, at, h);
    match o
    case NoOpt(e) => NoStep(e)
    case Opt(kind, size, at', h') =>
      if kind == KPadAlign then
        if C(fmt, at') == 0 then NoStep(BadX)
        else
          match GetOption(fmt, at', h')
          case NoOpt(e) => NoStep(e)
          case Opt(kind'', align, at'', h'') =>
            if kind'' == KChar || align == 0 then NoStep(BadX) else Aligned(o, total, align, at'', h'')
      else Aligned(o, total, size, at', h')
  }

  /** Before the first option. */
  const Start := Header(true, 1)

  // ---------- one item ----------

  /** Options that take an argument. */
  predicate Takes(kind: Kind) {
    kind != KPadding && kind != KPadAlign && kind != KNop
  }

  /** What an option writes for an argument, behind its padding. */
  function EncItem(kind: Kind, size: nat, little: bool, v: Item): (r: Outcome<seq<byte>>)
    requires kind == KInt || kind == KUInt || kind == KString ==> 1 <= size
  {
    match kind
    case KInt =>
      if !v.Int? then Bad(BadArgument)
      else if !FitsIn(v.i, size, true) then Bad(IntegerOverflow)
      else Good(Endian(little, IntBytes(Unsigned64(v.i), size, v.i < 0)))
    case KUInt =>
      if !v.Int? then Bad(BadArgument)
      else if !FitsIn(v.i, size, false) then Bad(IntegerOverflow)
      else Good(Endian(little, IntBytes(Unsigned64(v.i), size, false)))
    case KFloat =>
      if !v.Float? || |v.rep| != size then Bad(BadArgument) else Good(Endian(little, v.rep))
    case KChar =>
      if !v.Str? then Bad(BadArgument)
      else if |v.s| > size then Bad(StringTooLong)
      else Good(v.s + Fill(size - |v.s|, 0))
    case KString =>
      if !v.Str? || |v.s| >= TWO64 / 2 then Bad(BadArgument)
      else if size < SZINT && |v.s| >= Pow256(size) then Bad(LengthTooBig)
      else Good(Endian(little, IntBytes(|v.s|, size, false)) + v.s)
    case KZstr =>
      if !v.Str? then Bad(BadArgument) else if 0 in v.s then Bad(ContainsZeros) else Good(v.s + [0])
    case _ => Good(Fill(size, 0))
  }

  /** The first zero byte from 'pos' on; strings end with one. */
  function ZeroFrom(data: seq<byte>, pos: nat): (r: nat)
    requires pos <= |data|
    ensures pos <= r <= |data| && (r < |data| ==> data[r] == 0) && forall i :: pos <= i < r ==> data[i] != 0
    decreases |data| - pos
  {
    if pos == |data| || data[pos] == 0 then pos else ZeroFrom(data, pos + 1)
  }

  /** What an option reads at 'pos', with the position behind it. */
  function DecItem(kind: Kind, size: nat, little: bool, data: seq<byte>, pos: nat): (r: Outcome<(Item, nat)>)
    requires pos + size <= |data| && Takes(kind)
    requires kind == KInt || kind == KUInt || kind == KString ==> 1 <= size
  {
    var b := data[pos..pos + size];
    if kind == KInt || kind == KUInt then
      match IntOf(Endian(little, b), kind == KInt)
      case Some(n) => Good((Item.Int(Signed64(n)), pos + size))
      case None => Bad(DoesNotFit)
    else if kind == KFloat then Good((Item.Float(Endian(little, b)), pos + size))
    else if kind == KChar then Good((Str(b), pos + size))
    else if kind == KString then
      match IntOf(Endian(little, b), false)
      case None => Bad(DoesNotFit)
      case Some(len) =>
        if pos + len + size <= |data| then Good((Str(data[pos + size..pos + size + len]), pos + size + len)) else Bad(TooShort)
    else
      var e := ZeroFrom(data, pos);
      Good((Str(data[pos..e]), e + 1))
  }

  /** What comes back: fixed-size strings with their padding. */
  function Returned(kind: Kind, size: nat, v: Item): Item {
    if kind == KChar && v.Str? && |v.s| <= size then Str(v.s + Fill(size - |v.s|, 0)) else v
  }

  /** Reading what was written, wherever it stands and whatever follows. */
  lemma ItemBack(kind: Kind, size: nat, little: bool, v: Item, before: seq<byte>, rest: seq<byte>)
    requires Takes(kind) && (kind == KInt || kind == KUInt || kind == KString ==> 1 <= size <= MAXINTSIZE)
    requires kind == KZstr ==> size == 0
    requires EncItem(kind, size, little, v).Good?
    ensures var b := EncItem(kind, size, little, v).value;
            && |b| >= size
            && DecItem(kind, size, little, before + b + rest, |before|) == Good((Returned(kind, size, v), |before + b|))
  {
    hide EncItem, DecItem;
    if kind == KInt || kind == KUInt {
      IntItemBack(kind, size, little, v, before, rest);
    } else if kind == KFloat || kind == KChar {
      FixedBack(kind, size, little, v, before, rest);
    } else if kind == KString {
      StringBack(size, little, v, before, rest);
    } else {
      ZstrBack(little, v, before, rest);
    }
  }

  lemma IntItemBack(kind: Kind, size: nat, little: bool, v: Item, before: seq<byte>, rest: seq<byte>)
    requires (kind == KInt || kind == KUInt) && 1 <= size <= MAXINTSIZE && EncItem(kind, size, little, v).Good?
    ensures var b := EncItem(kind, size, little, v).value;
            |b| == size && DecItem(kind, size, little, before + b + rest, |before|) == Good((v, |before + b|))
  {
    hide IntBytes, IntOf, Endian, FitsIn;
    var b := EncItem(kind, size, little, v).value;
    assert (before + b + rest)[|before|..|before| + |b|] == b;
    IntBack(v.i, size, kind == KInt);
    EndianTwice(little, IntBytes(Unsigned64(v.i), size, kind == KInt && v.i < 0));
  }

  lemma FixedBack(kind: Kind, size: nat, little: bool, v: Item, before: seq<byte>, rest: seq<byte>)
    requires (kind == KFloat || kind == KChar) && EncItem(kind, size, little, v).Good?
    ensures var b := EncItem(kind, size, little, v).value;
            && |b| == size
            && DecItem(kind, size, little, before + b + rest, |before|) == Good((Returned(kind, size, v), |before + b|))
  {
    var b := EncItem(kind, size, little, v).value;
    assert (before + b + rest)[|before|..|before| + |b|] == b;
    if kind == KFloat {
      EndianTwice(little, v.rep);
    }
  }

  lemma StringBack(size: nat, little: bool, v: Item, before: seq<byte>, rest: seq<byte>)
    requires 1 <= size <= MAXINTSIZE && EncItem(KString, size, little, v).Good?
    ensures var b := EncItem(KString, size, little, v).value;
            && |b| >= size
            && DecItem(KString, size, little, before + b + rest, |before|) == Good((v, |before + b|))
  {
    hide IntBytes, IntOf, Endian;
    var b := EncItem(KString, size, little, v).value;
    EndianLength(little, size, |v.s|);
    assert (before + b + rest)[|before|..|before| + |b|] == b;
    LengthBack(size, little, v.s, before + b + rest, |before|);
  }

  lemma EndianLength(little: bool, size: nat, n: nat)
    requires n < TWO64
    ensures |Endian(little, IntBytes(n, size, false))| == size
  {
  }

  lemma ZstrBack(little: bool, v: Item, before: seq<byte>, rest: seq<byte>)
    requires EncItem(KZstr, 0, little, v).Good?
    ensures var b := EncItem(KZstr, 0, little, v).value;
            DecItem(KZstr, 0, little, before + b + rest, |before|) == Good((v, |before + b|))
  {
    hide ZeroFrom;
    var b := EncItem(KZstr, 0, little, v).value;
    assert (before + b + rest)[|before|..|before| + |b|] == b;
    ZeroBack(v.s, before + b + rest, |before|);
  }

  lemma LengthBack(size: nat, little: bool, s: seq<byte>, data: seq<byte>, pos: nat)
    requires 1 <= size <= MAXINTSIZE && |s| < TWO64 / 2 && (size < SZINT ==> |s| < Pow256(size))
    requires pos + size + |s| <= |data|
    requires data[pos..pos + size + |s|] == Endian(little, IntBytes(|s|, size, false)) + s
    ensures IntOf(Endian(little, data[pos..pos + size]), false) == Some(|s|)
    ensures data[pos + size..pos + size + |s|] == s
  {
    var head := Endian(little, IntBytes(|s|, size, false));
    assert data[pos..pos + size] == data[pos..pos + size + |s|][..size] == head;
    assert data[pos + size..pos + size + |s|] == data[pos..pos + size + |s|][size..];
    EndianTwice(little, IntBytes(|s|, size, false));
    IntBack(|s|, size, false);
  }

  lemma ZeroBack(s: seq<byte>, data: seq<byte>, pos: nat)
    requires 0 !in s && pos + |s| < |data| && data[pos..pos + |s| + 1] == s + [0]
    ensures ZeroFrom(data, pos) == pos + |s| && data[pos..pos + |s|] == s
  {
    var z := ZeroFrom(data, pos);
    forall i | pos <= i < pos + |s| ensures data[i] != 0 {
      assert data[i] == data[pos..pos + |s| + 1][i - pos] == s[i - pos];
    }
    assert data[pos + |s|] == data[pos..pos + |s| + 1][|s|] == 0;
    assert data[pos..pos + |s|] == data[pos..pos + |s| + 1][..|s|];
  }

  // ---------- whole formats ----------

  /** str_pack (lstrlib.c:1330-1414): what the options from 'at' on add to 'out'. */
  function Packed(fmt: seq<byte>, at: nat, h: Header, out: seq<byte>, args: seq<Item>): (r: Outcome<seq<byte>>)
    requires 1 <= h.maxalign <= MAXINTSIZE
    ensures r.Good? ==> out <= r.value
    decreases |fmt| - at
  {
    if C(fmt, at) == 0 then Good(out)
    else
      match GetDetails(fmt, at, h, |out|)
      case NoStep(e) => Bad(e)
      case Step(kind, size, pad, at', h') =>
        if Takes(kind) && args == [] then Bad(BadArgument)
        else
          match EncItem(kind, size, h'.little, if Takes(kind) then args[0] else Str([]))
          case Bad(e) => Bad(e)
          case Good(b) => Packed(fmt, at', h', out + Fill(pad, 0) + b, if Takes(kind) then args[1..] else args)
  }

  /** str_unpack (lstrlib.c:1476-1537): what the options from 'at' on read from 'pos' on, and
      where they end. */
  function Unpacked(fmt: seq<byte>, at: nat, h: Header, data: seq<byte>, pos: nat, acc: seq<Item>): Outcome<(seq<Item>, nat)>
    requires 1 <= h.maxalign <= MAXINTSIZE
    decreases |fmt| - at
  {
    if C(fmt, at) == 0 then Good((acc, pos))
    else
      match GetDetails(fmt, at, h, pos)
      case NoStep(e) => Bad(e)
      case Step(kind, size, pad, at', h') =>
        if pos + pad + size > |data| then Bad(TooShort)
        else if !Takes(kind) then Unpacked(fmt, at', h', data, pos + pad + size, acc)
        else
          match DecItem(kind, size, h'.little, data, pos + pad)
          case Bad(e) => Bad(e)
          case Good(v) => Unpacked(fmt, at', h', data, v.1, acc + [v.0])
  }

  /** The arguments that a format uses, as they come back. */
  function Results(fmt: seq<byte>, at: nat, h: Header, out: seq<byte>, args: seq<Item>): seq<Item>
    requires 1 <= h.maxalign <= MAXINTSIZE && Packed(fmt, at, h, out, args).Good?
    decreases |fmt| - at
  {
    if C(fmt, at) == 0 then []
    else
      var s := GetDetails(fmt, at, h, |out|);
      var b := EncItem(s.kind, s.size, s.h.little, if Takes(s.kind) then args[0] else Str([])).value;
      if Takes(s.kind) then [Returned(s.kind, s.size, args[0])] + Results(fmt, s.at, s.h, out + Fill(s.pad, 0) + b, args[1..])
      else Results(fmt, s.at, s.h, out + Fill(s.pad, 0) + b, args)
  }

  /** Unpacking what was packed gives the arguments, and ends at its end. */
  lemma {:induction false} PackedBack(fmt: seq<byte>, at: nat, h: Header, out: seq<byte>, args: seq<Item>, acc: seq<Item>, rest: seq<byte>)
    requires 1 <= h.maxalign <= MAXINTSIZE && Packed(fmt, at, h, out, args).Good?
    ensures var data := Packed(fmt, at, h, out, args).value;
            Unpacked(fmt, at, h, data + rest, |out|, acc) == Good((acc + Results(fmt, at, h, out, args), |data|))
    decreases |fmt| - at
  {
    hide GetDetails, EncItem, DecItem, Returned, Takes;
    var data := Packed(fmt, at, h, out, args).value;
    if C(fmt, at) == 0 {
      assert acc + Results(fmt, at, h, out, args) == acc;
    } else {
      var s := GetDetails(fmt, at, h, |out|);
      DetailsFacts(fmt, at, h, |out|);
      var before := out + Fill(s.pad, 0);
      var b := EncItem(s.kind, s.size, s.h.little, if Takes(s.kind) then args[0] else Str([])).value;
      var rest' := data[|before + b|..] + rest;
      assert data == before + b + data[|before + b|..];
      assert data + rest == before + b + rest';
      if Takes(s.kind) {
        ItemBack(s.kind, s.size, s.h.little, args[0], before, rest');
        PackedBack(fmt, s.at, s.h, before + b, args[1..], acc + [Returned(s.kind, s.size, args[0])], rest);
        var more := Results(fmt, s.at, s.h, before + b, args[1..]);
        assert acc + [Returned(s.kind, s.size, args[0])] + more == acc + ([Returned(s.kind, s.size, args[0])] + more);
      } else {
        NothingTaken(s.kind, s.size, s.h.little, Str([]));
        PackedBack(fmt, s.at, s.h, before + b, args, acc, rest);
      }
    }
  }

  lemma DetailsFacts(fmt: seq<byte>, at: nat, h: Header, total: nat)
    requires at < |fmt| && 1 <= h.maxalign <= MAXINTSIZE
    ensures var s := GetDetails(fmt, at, h, total);
            s.Step? ==>
              && at < s.at <= |fmt| && 1 <= s.h.maxalign <= MAXINTSIZE
              && (s.kind == KInt || s.kind == KUInt || s.kind == KString ==> 1 <= s.size <= MAXINTSIZE)
              && (s.kind == KZstr ==> s.size == 0)
  {
  }

  lemma NothingTaken(kind: Kind, size: nat, little: bool, v: Item)
    requires !Takes(kind)
    ensures EncItem(kind, size, little, v).Good? && |EncItem(kind, size, little, v).value| == size
  {
  }

  /** string.unpack(fmt, string.pack(fmt, ...)) returns the arguments, and one more than the
      length: for every format, sizes from 1 to 16, either order of bytes. Whatever follows
      does not matter. */
  lemma UnpackPacked(fmt: seq<byte>, args: seq<Item>, rest: seq<byte>)
    requires Packed(fmt, 0, Start, [], args).Good?
    ensures var data := Packed(fmt, 0, Start, [], args).value;
            Unpacked(fmt, 0, Start, data + rest, 0, []) == Good((Results(fmt, 0, Start, [], args), |data|))
  {
    PackedBack(fmt, 0, Start, [], args, [], rest);
    assert [] + Results(fmt, 0, Start, [], args) == Results(fmt, 0, Start, [], args);
  }

  /** A fixed-size string has exactly its size. */
  predicate Exact(kind: Kind, size: nat, v: Item) {
    kind == KChar && v.Str? ==> |v.s| >= size
  }

  lemma ExactBack(kind: Kind, size: nat, v: Item)
    ensures Returned(kind, size, v) == v <==> Exact(kind, size, v)
  {
    if kind == KChar && v.Str? && |v.s| == size {
      assert v.s + Fill(0, 0) == v.s;
    }
    if kind == KChar && v.Str? && |v.s| < size {
      assert |v.s + Fill(size - |v.s|, 0)| > |v.s|;
    }
  }

  /** All fixed-size strings among the arguments that the format uses are. */
  predicate AllExact(fmt: seq<byte>, at: nat, h: Header, out: seq<byte>, args: seq<Item>)
    requires 1 <= h.maxalign <= MAXINTSIZE && Packed(fmt, at, h, out, args).Good?
    decreases |fmt| - at
  {
    C(fmt, at) == 0 ||
    var s := GetDetails(fmt, at, h, |out|);
    var b := EncItem(s.kind, s.size, s.h.little, if Takes(s.kind) then args[0] else Str([])).value;
    && (Takes(s.kind) ==> Exact(s.kind, s.size, args[0]))
    && AllExact(fmt, s.at, s.h, out + Fill(s.pad, 0) + b, if Takes(s.kind) then args[1..] else args)
  }

  /** The arguments that the format uses come back as they were, if and only if all
      fixed-size strings among them have exactly their size. */
  lemma {:induction false} ResultsAreArguments(fmt: seq<byte>, at: nat, h: Header, out: seq<byte>, args: seq<Item>)
    requires 1 <= h.maxalign <= MAXINTSIZE && Packed(fmt, at, h, out, args).Good?
    ensures var r := Results(fmt, at, h, out, args);
            |r| <= |args| && (r == args[..|r|] <==> AllExact(fmt, at, h, out, args))
    decreases |fmt| - at
  {
    hide GetDetails, EncItem, Returned, Takes, Exact;
    if C(fmt, at) != 0 {
      var s := GetDetails(fmt, at, h, |out|);
      DetailsFacts(fmt, at, h, |out|);
      var b := EncItem(s.kind, s.size, s.h.little, if Takes(s.kind) then args[0] else Str([])).value;
      var out' := out + Fill(s.pad, 0) + b;
      if Takes(s.kind) {
        ExactBack(s.kind, s.size, args[0]);
        ResultsAreArguments(fmt, s.at, s.h, out', args[1..]);
        FirstAndRest(Returned(s.kind, s.size, args[0]), Results(fmt, s.at, s.h, out', args[1..]), args);
      } else {
        ResultsAreArguments(fmt, s.at, s.h, out', args);
      }
    }
  }

  lemma FirstAndRest(x: Item, r: seq<Item>, args: seq<Item>)
    requires |r| < |args|
    ensures [x] + r == args[..|r| + 1] <==> x == args[0] && r == args[1..][..|r|]
  {
    assert args[..|r| + 1] == [args[0]] + args[1..][..|r|];
    assert ([x] + r)[0] == x && ([x] + r)[1..] == r;
  }

  // ---------- sizes ----------

  /** str_packsize (lstrlib.c:1417-1439) */
  function SizeOf(fmt: seq<byte>, at: nat, h: Header, total: nat): Outcome<nat>
    requires 1 <= h.maxalign <= MAXINTSIZE
    decreases |fmt| - at
  {
    if C(fmt, at) == 0 then Good(total)
    else
      match GetDetails(fmt, at, h, total)
      case NoStep(e) => Bad(e)
      case Step(kind, size, pad, at', h') =>
        if total > MAXSIZE - (size + pad) then Bad(TooLarge)
        else if kind == KString || kind == KZstr then Bad(VariableLength)
        else SizeOf(fmt, at', h', total + size + pad)
  }

  /** A format with a size packs to that size, whatever the arguments. */
  lemma {:induction false} SizeIsLength(fmt: seq<byte>, at: nat, h: Header, out: seq<byte>, args: seq<Item>)
    requires 1 <= h.maxalign <= MAXINTSIZE && Packed(fmt, at, h, out, args).Good? && SizeOf(fmt, at, h, |out|).Good?
    ensures |Packed(fmt, at, h, out, args).value| == SizeOf(fmt, at, h, |out|).value
    decreases |fmt| - at
  {
    hide GetDetails, EncItem, Takes;
    if C(fmt, at) != 0 {
      var s := GetDetails(fmt, at, h, |out|);
      DetailsFacts(fmt, at, h, |out|);
      var v := if Takes(s.kind) then args[0] else Str([]);
      FixedLength(s.kind, s.size, s.h.little, v);
      SizeIsLength(fmt, s.at, s.h, out + Fill(s.pad, 0) + EncItem(s.kind, s.size, s.h.little, v).value,
                   if Takes(s.kind) then args[1..] else args);
    }
  }

  lemma FixedLength(kind: Kind, size: nat, little: bool, v: Item)
    requires kind != KString && kind != KZstr && (kind == KInt || kind == KUInt ==> 1 <= size)
    requires EncItem(kind, size, little, v).Good?
    ensures |EncItem(kind, size, little, v).value| == size
  {
  }
}
