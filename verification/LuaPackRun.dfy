/** The loops of string.pack, string.packsize and string.unpack
    (apps/lua/lstrlib.c:1098-1537). */
module LuaPackRun {
  import opened LuaChunk
  import opened LuaPackInt
  import opened LuaPack

  /** The format being read, and the settings that its options change. */
  class Format {
    const fmt: seq<byte>
    var at: nat
    var little: bool
    var maxalign: nat

    constructor (fmt: seq<byte>)
      ensures this.fmt == fmt && at == 0 && H() == Start
    {
      this.fmt := fmt;
      at, little, maxalign := 0, true, 1;
    }

    ghost function H(): Header
      reads this
    {
      Header(little, maxalign)
    }

    ghost predicate Valid()
      reads this
    {
      1 <= maxalign <= MAXINTSIZE
    }

    /** getnum (lstrlib.c:1182-1192) */
    method ReadNum(d: int) returns (a: int)
      modifies this`at
      ensures (a, at) == GetNum(fmt, old(at), d)
    {
      if !Digit(C(fmt, at)) {
        return d;
      }
      a := 0;
      while true
        invariant old(at) <= at && Digit(C(fmt, at)) && 0 <= a <= (MAXSIZE - 9) / 10
        invariant Numeral(fmt, at, a) == Numeral(fmt, old(at), 0)
        decreases |fmt| - at
      {
        a := 10 * a + (C(fmt, at) - 48);
        at := at + 1;
        if !(Digit(C(fmt, at)) && a <= (MAXSIZE - 9) / 10) {
          return;
        }
      }
    }

    /** getnumlimit (lstrlib.c:1199-1205) */
    method ReadLimited(d: nat) returns (r: Outcome<nat>)
      modifies this`at
      ensures match Limited(fmt, old(at), d)
              case Good(n) => r == Good(n.0) && at == n.1
              case Bad(e) => r == Bad(e)
    {
      var sz := ReadNum(d);
      if sz > MAXINTSIZE || sz <= 0 {
        return Bad(BadLimits);
      }
      return Good(sz);
    }

    /** The result of reading an option, which the format has gone past. */
    ghost predicate Read(o: Opt, r: Outcome<(Kind, nat)>)
      reads this
    {
      match o
      case Opt(kind, size, at', h) => r == Good((kind, size)) && at == at' && H() == h
      case NoOpt(e) => r == Bad(e)
    }

    method ReadSized(kind: Kind, d: nat) returns (r: Outcome<(Kind, nat)>)
      modifies this`at
      ensures Read(Sized(kind, fmt, old(at), d, H()), r)
    {
      var n := ReadLimited(d);
      r := if n.Good? then Good((kind, n.value)) else Bad(n.e);
    }

    /** getoption (lstrlib.c:1221-1256) */
    method ReadOption() returns (r: Outcome<(Kind, nat)>)
      requires Valid() && at < |fmt|
      modifies this
      ensures Read(GetOption(fmt, old(at), old(H())), r)
      ensures r.Good? ==> Valid()
    {
      hide Sized, Limited, GetNum;
      var c := fmt[at] as char;
      at := at + 1;
      if c == 'b' {
        return Good((KInt, 1));
      } else if c == 'B' {
        return Good((KUInt, 1));
      } else if c == 'h' {
        return Good((KInt, 2));
      } else if c == 'H' {
        return Good((KUInt, 2));
      } else if c == 'l' || c == 'j' {
        return Good((KInt, 8));
      } else if c == 'L' || c == 'J' || c == 'T' {
        return Good((KUInt, 8));
      } else if c == 'f' {
        return Good((KFloat, 4));
      } else if c == 'd' || c == 'n' {
        return Good((KFloat, 8));
      } else if c == 'i' {
        r := ReadSized(KInt, 4);
      } else if c == 'I' {
        r := ReadSized(KUInt, 4);
      } else if c == 's' {
        r := ReadSized(KString, 8);
      } else if c == 'c' {
        var n := ReadNum(-1);
        NumOrDefault(fmt, old(at) + 1);
        return if n == -1 then Bad(MissingSize) else Good((KChar, n));
      } else if c == 'z' {
        return Good((KZstr, 0));
      } else if c == 'x' {
        return Good((KPadding, 1));
      } else if c == 'X' {
        return Good((KPadAlign, 0));
      } else {
        r := ReadSetting(c);
      }
    }

    /** Options that change settings only (lstrlib.c:1248-1252). */
    method ReadSetting(c: char) returns (r: Outcome<(Kind, nat)>)
      requires Valid()
      modifies this
      ensures if c == ' ' then r == Good((KNop, 0)) && at == old(at) && H() == old(H())
              else if c == '<' || c == '=' then r == Good((KNop, 0)) && at == old(at) && H() == old(H()).(little := true)
              else if c == '>' then r == Good((KNop, 0)) && at == old(at) && H() == old(H()).(little := false)
              else if c == '!' then
                (match Limited(fmt, old(at), MAXALIGN)
                 case Good(n) => r == Good((KNop, 0)) && at == n.1 && H() == old(H()).(maxalign := n.0)
                 case Bad(e) => r == Bad(e))
              else r == Bad(BadOption)
    {
      if c == '<' || c == '=' {
        little := true;
      } else if c == '>' {
        little := false;
      } else if c == '!' {
        var n := ReadLimited(MAXALIGN);
        if n.Bad? {
          return Bad(n.e);
        }
        maxalign := n.value;
      } else if c != ' ' {
        return Bad(BadOption);
      }
      return Good((KNop, 0));
    }

    /** getdetails (lstrlib.c:1268-1286) */
    method ReadDetails(total: nat) returns (r: Outcome<(Kind, nat, nat)>)
      requires Valid() && at < |fmt|
      modifies this
      ensures match GetDetails(fmt, old(at), old(H()), total)
              case Step(kind, size, pad, at', h) => r == Good((kind, size, pad)) && at == at' && H() == h && Valid()
              case NoStep(e) => r == Bad(e)
    {
      hide GetOption;
      var o := ReadOption();
      if o.Bad? {
        return Bad(o.e);
      }
      var kind, size := o.value.0, o.value.1;
      var align := size;
      if kind == KPadAlign {
        if C(fmt, at) == 0 {
          return Bad(BadX);
        }
        o := ReadOption();
        if o.Bad? {
          return Bad(o.e);
        }
        align := o.value.1;
        if o.value.0 == KChar || align == 0 {
          return Bad(BadX);
        }
      }
      if align <= 1 || kind == KChar {
        return Good((kind, size, 0));
      }
      if align > maxalign {
        align := maxalign;
      }
      if !PowerOf2(align) {
        return Bad(BadAlignment);
      }
      return Good((kind, size, Padding(total, align)));
    }
  }

  lemma NumOrDefault(fmt: seq<byte>, at: nat)
    ensures GetNum(fmt, at, -1).0 >= -1
  {
  }

  /** copywithendian (lstrlib.c:1316-1327) */
  method CopyWithEndian(src: seq<byte>, little: bool) returns (dest: seq<byte>)
    ensures dest == Endian(little, src)
  {
    if little {
      return src;
    }
    var buff := new byte[|src|](_ => 0);
    for i := 0 to |src|
      invariant forall j :: 0 <= j < i ==> buff[|src| - 1 - j] == src[j]
    {
      buff[|src| - 1 - i] := src[i];
    }
    dest := buff[..];
    forall k | 0 <= k < |src| ensures dest[k] == Reversed(src)[k] {
      assert buff[|src| - 1 - (|src| - 1 - k)] == src[|src| - 1 - k];
    }
  }

  /** The cases of str_pack (lstrlib.c:1342-1410): the bytes for one argument. */
  method PackItem(kind: Kind, size: nat, little: bool, v: Item) returns (r: Outcome<seq<byte>>)
    requires kind == KInt || kind == KUInt || kind == KString ==> 1 <= size
    ensures r == EncItem(kind, size, little, v)
  {
    match kind {
      case KInt =>
        if !v.Int? {
          return Bad(BadArgument);
        }
        if !FitsIn(v.i, size, true) {
          return Bad(IntegerOverflow);
        }
        var b := PackInt(Unsigned64(v.i), little, size, v.i < 0);
        return Good(b);
      case KUInt =>
        if !v.Int? {
          return Bad(BadArgument);
        }
        if !FitsIn(v.i, size, false) {
          return Bad(IntegerOverflow);
        }
        var b := PackInt(Unsigned64(v.i), little, size, false);
        return Good(b);
      case KFloat =>
        if !v.Float? || |v.rep| != size {
          return Bad(BadArgument);
        }
        var b := CopyWithEndian(v.rep, little);
        return Good(b);
      case KChar =>
        if !v.Str? {
          return Bad(BadArgument);
        }
        if |v.s| > size {
          return Bad(StringTooLong);
        }
        var b := v.s;
        while |b| < size
          invariant |v.s| <= |b| <= size && b == v.s + Fill(|b| - |v.s|, 0)
        {
          b := b + [0];
        }
        return Good(b);
      case KString =>
        if !v.Str? || |v.s| >= TWO64 / 2 {
          return Bad(BadArgument);
        }
        if size < SZINT && |v.s| >= Pow256(size) {
          return Bad(LengthTooBig);
        }
        var b := PackInt(|v.s|, little, size, false);
        return Good(b + v.s);
      case KZstr =>
        if !v.Str? {
          return Bad(BadArgument);
        }
        if 0 in v.s {
          return Bad(ContainsZeros);
        }
        return Good(v.s + [0]);
      case _ => return Good(Fill(size, 0));
    }
  }

  /** str_pack (lstrlib.c:1330-1414); 'totalsize' follows the length of the result. */
  method Pack(fmt: seq<byte>, args: seq<Item>) returns (r: Outcome<seq<byte>>)
    ensures r == Packed(fmt, 0, Start, [], args)
  {
    hide GetDetails, EncItem;
    var f := new Format(fmt);
    var out: seq<byte> := [];
    var arg: nat, totalsize: nat := 0, 0;
    assert args[0..] == args;
    while C(fmt, f.at) != 0
      invariant f.fmt == fmt && f.Valid() && arg <= |args| && totalsize == |out|
      invariant Packed(fmt, f.at, f.H(), out, args[arg..]) == Packed(fmt, 0, Start, [], args)
      decreases |fmt| - f.at
    {
      DetailsFacts(fmt, f.at, f.H(), totalsize);
      var d := f.ReadDetails(totalsize);
      if d.Bad? {
        return Bad(d.e);
      }
      var kind, size, ntoalign := d.value.0, d.value.1, d.value.2;
      if Takes(kind) && arg >= |args| {
        return Bad(BadArgument);
      }
      ghost var rest := args[arg..];
      var b := PackItem(kind, size, f.little, if Takes(kind) then args[arg] else Str([]));
      if b.Bad? {
        return Bad(b.e);
      }
      out := out + Fill(ntoalign, 0) + b.value;
      totalsize := totalsize + ntoalign + |b.value|;
      if Takes(kind) {
        arg := arg + 1;
        assert args[arg..] == rest[1..];
      }
    }
    return Good(out);
  }

  /** str_packsize (lstrlib.c:1417-1439) */
  method PackSize(fmt: seq<byte>) returns (r: Outcome<nat>)
    ensures r == SizeOf(fmt, 0, Start, 0)
  {
    hide GetDetails;
    var f := new Format(fmt);
    var totalsize: nat := 0;
    while C(fmt, f.at) != 0
      invariant f.fmt == fmt && f.Valid()
      invariant SizeOf(fmt, f.at, f.H(), totalsize) == SizeOf(fmt, 0, Start, 0)
      decreases |fmt| - f.at
    {
      DetailsFacts(fmt, f.at, f.H(), totalsize);
      var d := f.ReadDetails(totalsize);
      if d.Bad? {
        return Bad(d.e);
      }
      var kind, size := d.value.0, d.value.1 + d.value.2;
      if totalsize > MAXSIZE - size {
        return Bad(TooLarge);
      }
      totalsize := totalsize + size;
      if kind == KString || kind == KZstr {
        return Bad(VariableLength);
      }
    }
    return Good(totalsize);
  }

  /** strlen */
  method StrLen(data: seq<byte>, pos: nat) returns (e: nat)
    requires pos <= |data|
    ensures e == ZeroFrom(data, pos)
  {
    e := pos;
    while e < |data| && data[e] != 0
      invariant pos <= e <= |data| && ZeroFrom(data, e) == ZeroFrom(data, pos)
    {
      e := e + 1;
    }
  }

  /** The cases of str_unpack (lstrlib.c:1494-1532): one value, and the position behind it. */
  method UnpackItem(kind: Kind, size: nat, little: bool, data: seq<byte>, pos: nat) returns (r: Outcome<(Item, nat)>)
    requires pos + size <= |data| && Takes(kind) && (kind == KInt || kind == KUInt || kind == KString ==> 1 <= size)
    ensures r == DecItem(kind, size, little, data, pos)
  {
    hide Endian, IntOf, ZeroFrom;
    var b := data[pos..pos + size];
    if kind == KInt || kind == KUInt {
      var n := UnpackInt(b, little, kind == KInt);
      if n.None? {
        return Bad(DoesNotFit);
      }
      return Good((Item.Int(Signed64(n.value)), pos + size));
    } else if kind == KFloat {
      var rep := CopyWithEndian(b, little);
      return Good((Item.Float(rep), pos + size));
    } else if kind == KChar {
      return Good((Str(b), pos + size));
    } else if kind == KString {
      var len := UnpackInt(b, little, false);
      if len.None? {
        return Bad(DoesNotFit);
      }
      if pos + len.value + size > |data| {
        return Bad(TooShort);
      }
      return Good((Str(data[pos + size..pos + size + len.value]), pos + size + len.value));
    } else {
      var e := StrLen(data, pos);
      EndOfString(data, pos);
      return Good((Str(data[pos..e]), e + 1));
    }
  }

  lemma EndOfString(data: seq<byte>, pos: nat)
    requires pos <= |data|
    ensures pos <= ZeroFrom(data, pos) <= |data|
  {
  }

  /** str_unpack (lstrlib.c:1476-1537) from the first position on: the values, and the next
      position, counted from 1. */
  method Unpack(fmt: seq<byte>, data: seq<byte>) returns (r: Outcome<(seq<Item>, nat)>)
    ensures match Unpacked(fmt, 0, Start, data, 0, [])
            case Good(v) => r == Good((v.0, v.1 + 1))
            case Bad(e) => r == Bad(e)
  {
    hide GetDetails, DecItem;
    var f := new Format(fmt);
    var values: seq<Item> := [];
    var pos: nat := 0;
    while C(fmt, f.at) != 0
      invariant f.fmt == fmt && f.Valid()
      invariant Unpacked(fmt, f.at, f.H(), data, pos, values) == Unpacked(fmt, 0, Start, data, 0, [])
      decreases |fmt| - f.at
    {
      DetailsFacts(fmt, f.at, f.H(), pos);
      var d := f.ReadDetails(pos);
      if d.Bad? {
        return Bad(d.e);
      }
      var kind, size, ntoalign := d.value.0, d.value.1, d.value.2;
      if pos + ntoalign + size > |data| {
        return Bad(TooShort);
      }
      pos := pos + ntoalign;
      if Takes(kind) {
        var v := UnpackItem(kind, size, f.little, data, pos);
        if v.Bad? {
          return Bad(v.e);
        }
        values, pos := values + [v.value.0], v.value.1;
      } else {
        pos := pos + size;
      }
    }
    return Good((values, pos + 1));
  }

  /** What is packed can be unpacked: the same values, and the position behind the end. If
      the format has a size, it is the length. */
  method PackAndUnpack(fmt: seq<byte>, args: seq<Item>) returns (packed: Outcome<seq<byte>>, back: Outcome<(seq<Item>, nat)>, size: Outcome<nat>)
    ensures packed == Packed(fmt, 0, Start, [], args)
    ensures packed.Good? ==>
              && back == Good((Results(fmt, 0, Start, [], args), |packed.value| + 1))
              && |back.value.0| <= |args|
              && (back.value.0 == args[..|back.value.0|] <==> AllExact(fmt, 0, Start, [], args))
              && (size.Good? ==> size.value == |packed.value|)
  {
    hide Packed, Unpacked, Results, SizeOf, AllExact;
    packed := Pack(fmt, args);
    size := PackSize(fmt);
    back := Bad(TooShort);
    if packed.Good? {
      UnpackPacked(fmt, args, []);
      ResultsAreArguments(fmt, 0, Start, [], args);
      assert packed.value + [] == packed.value;
      if size.Good? {
        SizeIsLength(fmt, 0, Start, [], args);
      }
      back := Unpack(fmt, packed.value);
    }
  }
}
