/** Where string.pack puts the bytes of an item, and which bytes they are (sections 6.4.2
    of the Lua 5.3 Reference Manual; apps/lua/lstrlib.c:1221-1309). */
module LuaLayout {
  import opened Arithmetic
  import opened LuaChunk
  import opened LuaPackInt
  import opened LuaPack

  // ---------- options ----------

  /** The character 'c' is an option of this kind and size. */
  predicate IsOption(fmt: seq<byte>, at: nat, h: Header, c: char, kind: Kind, size: nat)
    requires at < |fmt| && 1 <= h.maxalign <= 16
  {
    fmt[at] as char == c ==> GetOption(fmt, at, h) == Opt(kind, size, at + 1, h)
  }

  /** Options without a number, with their sizes in bytes. */
  lemma LettersRead(fmt: seq<byte>, at: nat, h: Header)
    requires at < |fmt| && 1 <= h.maxalign <= 16 && !(48 <= C(fmt, at + 1) <= 57)
    ensures IsOption(fmt, at, h, 'b', KInt, 1) && IsOption(fmt, at, h, 'B', KUInt, 1)
    ensures IsOption(fmt, at, h, 'h', KInt, 2) && IsOption(fmt, at, h, 'H', KUInt, 2)
    ensures IsOption(fmt, at, h, 'i', KInt, 4) && IsOption(fmt, at, h, 'I', KUInt, 4)
    ensures IsOption(fmt, at, h, 'l', KInt, 8) && IsOption(fmt, at, h, 'L', KUInt, 8)
    ensures IsOption(fmt, at, h, 'j', KInt, 8) && IsOption(fmt, at, h, 'J', KUInt, 8) && IsOption(fmt, at, h, 'T', KUInt, 8)
    ensures IsOption(fmt, at, h, 'f', KFloat, 4) && IsOption(fmt, at, h, 'd', KFloat, 8) && IsOption(fmt, at, h, 'n', KFloat, 8)
    ensures IsOption(fmt, at, h, 's', KString, 8) && IsOption(fmt, at, h, 'z', KZstr, 0)
    ensures IsOption(fmt, at, h, 'x', KPadding, 1) && IsOption(fmt, at, h, 'X', KPadAlign, 0) && IsOption(fmt, at, h, ' ', KNop, 0)
  {
    assert GetNum(fmt, at + 1, 4) == (4, at + 1) && GetNum(fmt, at + 1, 8) == (8, at + 1);
  }

  /** The settings: the order of bytes, and the greatest alignment, which is 8 unless a number says
      otherwise. */
  lemma SettingsRead(fmt: seq<byte>, at: nat, h: Header)
    requires at < |fmt| && 1 <= h.maxalign <= 16
    ensures fmt[at] as char == '<' || fmt[at] as char == '=' ==> GetOption(fmt, at, h) == Opt(KNop, 0, at + 1, Header(true, h.maxalign))
    ensures fmt[at] as char == '>' ==> GetOption(fmt, at, h) == Opt(KNop, 0, at + 1, Header(false, h.maxalign))
    ensures fmt[at] as char == '!' && !(48 <= C(fmt, at + 1) <= 57) ==> GetOption(fmt, at, h) == Opt(KNop, 0, at + 1, Header(h.little, 8))
    ensures Start == Header(true, 1)
  {
  }

  // ---------- alignment ----------

  /** The alignment of an item: its size, but no more than the greatest one; strings of a
      fixed size have none. */
  function Alignment(kind: Kind, size: nat, maxalign: nat): nat {
    if kind == KChar || size <= 1 then 1 else if size < maxalign then size else maxalign
  }

  /** From 'total' to 'start' there are just the bytes it takes to get to a multiple of 'a'. */
  predicate NextMultiple(total: nat, start: nat, a: nat)
    requires a > 0
  {
    total <= start < total + a && start % a == 0
  }

  predicate IsAlignment(a: nat) {
    a in {1, 2, 4, 8, 16}
  }

  /** Options fail for their alignment just when it is not a power of 2; padding leads to the
      next multiple. 'X' is aligned as the option behind it would be. */
  lemma DetailsAlign(fmt: seq<byte>, at: nat, h: Header, total: nat)
    requires at < |fmt| && 1 <= h.maxalign <= 16 && GetOption(fmt, at, h).Opt?
    ensures var o, s := GetOption(fmt, at, h), GetDetails(fmt, at, h, total);
            o.kind != KPadAlign ==>
              var a := Alignment(o.kind, o.size, o.h.maxalign);
              && (s.Step? <==> IsAlignment(a)) && (s.NoStep? ==> s.e == BadAlignment)
              && (s.Step? ==> s.kind == o.kind && s.size == o.size && s.h == o.h && NextMultiple(total, total + s.pad, a))
    ensures var o, s := GetOption(fmt, at, h), GetDetails(fmt, at, h, total);
            o.kind == KPadAlign && s.Step? ==>
              && at + 1 < |fmt| && s.kind == KPadAlign && s.size == 0
              && var next := GetOption(fmt, at + 1, h);
                 && next.Opt? && next.kind != KChar && next.size > 0 && IsAlignment(Alignment(next.kind, next.size, h.maxalign))
                 && NextMultiple(total, total + s.pad, Alignment(next.kind, next.size, h.maxalign))
  {
    hide GetOption, Padding;
    PadAlignAt(fmt, at, h);
    var o := GetOption(fmt, at, h);
    AlignedTo(o, total, o.size, o.at, o.h);
    if o.kind == KPadAlign && at + 1 < |fmt| {
      var next := GetOption(fmt, at + 1, h);
      if next.Opt? {
        OnlySettings(fmt, at + 1, h);
        AlignedTo(o, total, next.size, next.at, next.h);
      }
    }
  }

  lemma PadAlignAt(fmt: seq<byte>, at: nat, h: Header)
    requires at < |fmt| && 1 <= h.maxalign <= 16
    ensures var o := GetOption(fmt, at, h); o.Opt? && o.kind == KPadAlign ==> o.at == at + 1 && o.h == h && o.size == 0
  {
  }

  lemma OnlySettings(fmt: seq<byte>, at: nat, h: Header)
    requires at < |fmt| && 1 <= h.maxalign <= 16
    ensures var o := GetOption(fmt, at, h); o.Opt? && o.size > 0 ==> o.h == h
  {
  }

  lemma AlignedTo(o: Opt, total: nat, align: nat, at: nat, h: Header)
    requires o.Opt? && h.maxalign >= 1
    ensures var a, s := Alignment(o.kind, align, h.maxalign), Aligned(o, total, align, at, h);
            && (s.Step? <==> IsAlignment(a)) && (s.NoStep? ==> s.e == BadAlignment)
            && (s.Step? ==> s.h == h && NextMultiple(total, total + s.pad, a))
  {
  }

  /** The bytes of 'data' from 'from' to 'to' are zero. */
  predicate Zeros(data: seq<byte>, from: nat, to: nat)
    requires from <= to <= |data|
  {
    forall i :: from <= i < to ==> data[i] == 0
  }

  /** An item is at the next multiple of its alignment, with zeros in front. */
  lemma PackedPlace(fmt: seq<byte>, at: nat, h: Header, out: seq<byte>, args: seq<Item>)
    returns (start: nat)
    requires 1 <= h.maxalign <= 16 && at < |fmt| && fmt[at] != 0 && Packed(fmt, at, h, out, args).Good?
    requires GetOption(fmt, at, h).Opt? && GetOption(fmt, at, h).kind != KPadAlign
    ensures var o, data := GetOption(fmt, at, h), Packed(fmt, at, h, out, args).value;
            var v := if Takes(o.kind) then args[0] else Str([]);
            && (Takes(o.kind) ==> args != [])
            && NextMultiple(|out|, start, Alignment(o.kind, o.size, o.h.maxalign))
            && EncItem(o.kind, o.size, o.h.little, v).Good?
            && var b := EncItem(o.kind, o.size, o.h.little, v).value;
               && start + |b| <= |data| && data[..|out|] == out && Zeros(data, |out|, start) && data[start..start + |b|] == b
  {
    hide GetOption, GetDetails, EncItem;
    DetailsAlign(fmt, at, h, |out|);
    DetailsFacts(fmt, at, h, |out|);
    var s := GetDetails(fmt, at, h, |out|);
    start := |out| + s.pad;
    var data := Packed(fmt, at, h, out, args).value;
    var b := EncItem(s.kind, s.size, s.h.little, if Takes(s.kind) then args[0] else Str([])).value;
    var before := out + Fill(s.pad, 0);
    assert before + b <= data;
    assert before == data[..start] && b == data[start..start + |b|];
    assert forall i :: |out| <= i < start ==> data[i] == before[i] == 0;
    assert data[..|out|] == before[..|out|] == out;
  }

  // ---------- the bytes of integers ----------

  lemma {:induction false} ShiftedIs(v: nat, i: nat)
    ensures Shifted(v, i) == v / Pow256(i)
  {
    if i > 0 {
      ShiftedIs(v, i - 1);
      DivTwice(v, Pow256(i - 1));
    }
  }

  lemma DivTwice(v: int, p: nat)
    requires p > 0
    ensures v / p / 256 == v / (256 * p)
  {
    var q := v / p;
    var r := q % 256 * p + v % p;
    assert v == p * q + v % p;
    assert q == 256 * (q / 256) + q % 256;
    assert p * q == 256 * p * (q / 256) + q % 256 * p;
    Below(q % 256, p, v % p);
    ModUnique(v, 256 * p, q / 256, r);
  }

  lemma Below(a: nat, p: nat, b: nat)
    requires a < 256 && b < p
    ensures a * p + b < 256 * p
  {
    assert (255 - a) * p >= 0;
  }

  /** Adding 2^64 changes none of the low 8 bytes. */
  lemma LowByteSame(n: int, k: nat)
    requires k < 8
    ensures (n + TWO64) / Pow256(k) % 256 == n / Pow256(k) % 256
  {
    var q := Pow256(7 - k);
    assert Pow256(8 - k) == 256 * q;
    PowAdd(k, 8 - k);
    Pow8();
    AddLow(n, Pow256(k), q);
  }

  lemma AddLow(n: int, p: nat, q: nat)
    requires p > 0
    ensures (n + p * (256 * q)) / p % 256 == n / p % 256
  {
    var d := n / p;
    assert n == p * d + n % p;
    assert p * (d + 256 * q) == p * d + p * (256 * q);
    ModUnique(n + p * (256 * q), p, d + 256 * q, n % p);
    ModUnique(d + 256 * q, 256, d / 256 + q, d % 256);
  }

  /** Byte number 'k', counted from the end where the least significant one is, is the
      digit of 256^k: of the number itself, or, without a sign, of its 64 bits. */
  lemma ByteOrder(kind: Kind, size: nat, n: int64, k: nat)
    requires (kind == KInt || kind == KUInt) && 1 <= size && k < size
    requires EncItem(kind, size, true, Item.Int(n)).Good?
    ensures var m := if kind == KInt then n else n % 0x1_0000_0000_0000_0000;
            var little := EncItem(kind, size, true, Item.Int(n)).value;
            var big := EncItem(kind, size, false, Item.Int(n));
            && |little| == size && big.Good? && |big.value| == size
            && little[k] == big.value[size - 1 - k] == m / Pow256(k) % 256
  {
    hide FitsIn, IntBytes, Pow256, Shifted;
    var v := Unsigned64(n);
    IntByteAt(v, size, kind == KInt && n < 0, k);
    ShiftedIs(v, k);
    if kind == KInt && n < 0 {
      if k < SZINT {
        LowByteSame(n, k);
      } else {
        SignByte(n, k);
      }
    } else {
      assert v == if kind == KInt then n else n % TWO64;
    }
  }

  lemma SignByte(n: int, k: nat)
    requires -TWO64 <= n < 0 && k >= 8
    ensures n / Pow256(k) % 256 == 255
  {
    Pow8();
    PowMono(8, k);
    ModUnique(n, Pow256(k), -1, n + Pow256(k));
  }
}
