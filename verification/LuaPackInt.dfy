/** Integers as bytes: packint and unpackint of string.pack (apps/lua/lstrlib.c:1295-1309,
    1425-1456). */
module LuaPackInt {
  import opened Arithmetic
  import opened LuaChunk

  /** The size of a lua_Integer. */
  const SZINT := 8
  const MAXINTSIZE := 16
  const TWO64: int := 0x1_0000_0000_0000_0000

  function Fill(n: nat, b: byte): (s: seq<byte>)
    ensures |s| == n && forall i :: 0 <= i < n ==> s[i] == b
  {
    seq(n, i => b)
  }

  function Reversed(s: seq<byte>): (r: seq<byte>)
    ensures |r| == |s| && forall i :: 0 <= i < |s| ==> r[i] == s[|s| - 1 - i]
  {
    seq(|s|, i requires 0 <= i < |s| => s[|s| - 1 - i])
  }

  /** Bytes in memory, for those from the least significant one on. */
  function Endian(little: bool, s: seq<byte>): (r: seq<byte>)
    ensures |r| == |s|
  {
    if little then s else Reversed(s)
  }

  lemma EndianTwice(little: bool, s: seq<byte>)
    ensures Endian(little, Endian(little, s)) == s
  {
  }

  /** The bytes of an integer, least significant first: those of its 64 bits, and then its
      sign if it has one. */
  function IntBytes(v: uint64, size: nat, neg: bool): (s: seq<byte>)
    ensures |s| == size
  {
    if size <= SZINT then Bytes(size, v) else Bytes(SZINT, v) + Fill(size - SZINT, if neg then 255 else 0)
  }

  // ---------- what the bytes mean ----------

  lemma {:induction false} NumberConcat(a: seq<byte>, b: seq<byte>)
    ensures Number(a + b) == Number(a) + Pow256(|a|) * Number(b)
  {
    if a == [] {
      assert a + b == b;
    } else {
      assert (a + b)[1..] == a[1..] + b;
      NumberConcat(a[1..], b);
      assert 256 * (Pow256(|a| - 1) * Number(b)) == Pow256(|a|) * Number(b);
    }
  }

  lemma {:induction false} NumberFill(n: nat, b: byte)
    requires b == 0 || b == 255
    ensures Number(Fill(n, b)) == if b == 0 then 0 else Pow256(n) - 1
  {
    if n > 0 {
      assert Fill(n, b)[1..] == Fill(n - 1, b);
      NumberFill(n - 1, b);
    }
  }

  lemma {:induction false} PowAdd(m: nat, n: nat)
    ensures Pow256(m + n) == Pow256(m) * Pow256(n)
  {
    if m > 0 {
      PowAdd(m - 1, n);
    }
  }

  /** Two's complement, in any size: the number is 'n' up to a multiple of 256^size. */
  lemma TwosComplement(n: int64, size: nat)
    requires size >= SZINT
    ensures Number(IntBytes(Unsigned64(n), size, n < 0)) == if n < 0 then n + Pow256(size) else n
  {
    var v := Unsigned64(n);
    var k := size - SZINT;
    Pow8();
    NumberOfBytes(SZINT, v);
    NumberConcat(Bytes(SZINT, v), Fill(k, if n < 0 then 255 else 0));
    NumberFill(k, if n < 0 then 255 else 0);
    PowAdd(SZINT, k);
    if size == SZINT {
      assert Fill(0, if n < 0 then 255 else 0) == [];
    }
    assert Pow256(SZINT) * (Pow256(k) - 1) == Pow256(size) - Pow256(SZINT);
  }

  lemma Pow8()
    ensures Pow256(0) == 1 && Pow256(1) == 0x100 && Pow256(2) == 0x1_0000 && Pow256(3) == 0x100_0000
    ensures Pow256(4) == 0x1_0000_0000 && Pow256(5) == 0x100_0000_0000 && Pow256(6) == 0x1_0000_0000_0000
    ensures Pow256(7) == 0x100_0000_0000_0000 && Pow256(8) == TWO64
  {
    assert Pow256(4) == 256 * Pow256(3);
    assert Pow256(8) == 256 * Pow256(7);
  }

  // ---------- writing (lstrlib.c:1295-1309) ----------

  /** What is left of a number when its low bytes have been shifted out. */
  function Shifted(v: nat, i: nat): nat {
    if i == 0 then v else Shifted(v, i - 1) / 256
  }

  lemma {:induction false} ByteAt(n: nat, v: nat, i: nat)
    requires i < n
    ensures Bytes(n, v)[i] == Shifted(v, i) % 256
  {
    if i > 0 {
      ByteAt(n - 1, v / 256, i - 1);
      ShiftFirst(v, i - 1);
    }
  }

  lemma {:induction false} ShiftFirst(v: nat, i: nat)
    ensures Shifted(v / 256, i) == Shifted(v, i + 1)
  {
    if i > 0 {
      ShiftFirst(v, i - 1);
    }
  }

  lemma {:induction false} ShiftedOut(v: nat, i: nat, n: nat)
    requires v < Pow256(n) && i <= n
    ensures Shifted(v, i) < Pow256(n - i)
  {
    if i > 0 {
      ShiftedOut(v, i - 1, n);
    }
  }

  lemma ShiftedZero(v: uint64, i: nat)
    requires i >= SZINT
    ensures Shifted(v, i) == 0
    decreases i
  {
    if i == SZINT {
      Pow8();
      ShiftedOut(v, SZINT, SZINT);
    } else {
      ShiftedZero(v, i - 1);
    }
  }

  /** The byte at 'i', before signs are corrected. */
  lemma IntByteAt(v: uint64, size: nat, neg: bool, i: nat)
    requires i < size
    ensures IntBytes(v, size, neg)[i] == if neg && i >= SZINT then 255 else Shifted(v, i) % 256
  {
    if i < SZINT {
      ByteAt(if size <= SZINT then size else SZINT, v, i);
    } else {
      ShiftedZero(v, i);
    }
  }

  /** Where the byte number 'j' goes. */
  function Place(little: bool, size: nat, j: nat): (p: nat)
    requires j < size
    ensures p < size
  {
    if little then j else size - 1 - j
  }

  /** The byte at 'j' of a number in a buffer. */
  function At(buff: array<byte>, little: bool, j: nat): byte
    requires j < buff.Length
    reads buff
  {
    buff[Place(little, buff.Length, j)]
  }

  /** The loop that shifts the number out (lstrlib.c:1298-1303). */
  method ShiftBytes(buff: array<byte>, v: uint64, little: bool)
    requires buff.Length > 0
    modifies buff
    ensures forall j :: 0 <= j < buff.Length ==> At(buff, little, j) == Shifted(v, j) % 256
  {
    hide Shifted;
    FirstShift(v, 0);
    var n: nat := v;
    buff[Place(little, buff.Length, 0)] := n % 256;
    for i := 1 to buff.Length
      invariant n == Shifted(v, i - 1)
      invariant forall j :: 0 <= j < i ==> At(buff, little, j) == Shifted(v, j) % 256
    {
      FirstShift(v, i);
      n := n / 256;
      buff[Place(little, buff.Length, i)] := n % 256;
    }
  }

  lemma FirstShift(v: nat, i: nat)
    ensures Shifted(v, i) == if i == 0 then v else Shifted(v, i - 1) / 256
  {
  }

  /** The loop that extends the sign (lstrlib.c:1304-1307). */
  method SignBytes(buff: array<byte>, little: bool)
    requires buff.Length > SZINT
    modifies buff
    ensures forall j :: 0 <= j < buff.Length ==> At(buff, little, j) == if j >= SZINT then 255 else old(At(buff, little, j))
  {
    for i := SZINT to buff.Length
      invariant forall j :: 0 <= j < buff.Length ==>
                  At(buff, little, j) == if SZINT <= j < i then 255 else old(At(buff, little, j))
    {
      buff[Place(little, buff.Length, i)] := 255;
    }
  }

  /** packint: fills a buffer from either end. */
  method PackInt(v: uint64, little: bool, size: nat, neg: bool) returns (b: seq<byte>)
    requires size > 0
    ensures b == Endian(little, IntBytes(v, size, neg))
  {
    hide Shifted, IntBytes, Endian;
    var buff := new byte[size](_ => 0);
    ShiftBytes(buff, v, little);
    if neg && size > SZINT {
      SignBytes(buff, little);
    }
    b := buff[..];
    forall j | 0 <= j < size ensures b[Place(little, size, j)] == IntBytes(v, size, neg)[j] {
      IntByteAt(v, size, neg, j);
      assert At(buff, little, j) == b[Place(little, size, j)];
    }
    EndianAt(little, b, IntBytes(v, size, neg));
  }

  lemma EndianAt(little: bool, b: seq<byte>, s: seq<byte>)
    requires |b| == |s| && forall j :: 0 <= j < |s| ==> b[Place(little, |s|, j)] == s[j]
    ensures b == Endian(little, s)
  {
    forall j | 0 <= j < |s| ensures b[j] == Endian(little, s)[j] {
      var k := Place(little, |s|, j);
      assert b[Place(little, |s|, k)] == s[k];
    }
  }

  // ---------- reading (lstrlib.c:1450-1473) ----------

  /** (res ^ mask) - mask in 64 bits, for a 'mask' of one bit. */
  function Extended(res: uint64, mask: nat): uint64
    requires mask > 0
  {
    var flipped := if res / mask % 2 == 1 then res - mask else res + mask;
    (flipped - mask) % TWO64
  }

  /** The 64 bits of the integer that bytes stand for, least significant first; nothing if it
      does not fit. */
  function IntOf(s: seq<byte>, signed: bool): Option<uint64>
    requires 0 < |s|
  {
    var limit := if |s| <= SZINT then |s| else SZINT;
    NumberBound(s[..limit]);
    Pow8();
    PowMono(limit, SZINT);
    var res := Number(s[..limit]);
    if |s| < SZINT then Some(if signed then Extended(res, Pow256(|s|) / 2) else res)
    else
      var sign: byte := if !signed || res < TWO64 / 2 then 0 else 255;
      if s[limit..] == Fill(|s| - limit, sign) then Some(res) else None
  }

  lemma {:induction false} PowMono(m: nat, n: nat)
    requires m <= n
    ensures Pow256(m) <= Pow256(n)
    decreases n
  {
    if m < n {
      PowMono(m, n - 1);
    }
  }

  /** The loop that collects the low bytes (lstrlib.c:1455-1458). */
  method LowNumber(b: seq<byte>, little: bool, limit: nat) returns (res: nat)
    requires limit <= |b| && limit <= SZINT
    ensures res == Number(Endian(little, b)[..limit])
  {
    hide Endian;
    ghost var s := Endian(little, b);
    res := 0;
    var i := limit - 1;
    while i >= 0
      invariant -1 <= i < limit && res == Number(s[i + 1..limit])
    {
      assert s[i..limit][1..] == s[i + 1..limit];
      EndianPlace(little, b, i);
      res := 256 * res + b[Place(little, |b|, i)];
      i := i - 1;
    }
    assert s[..limit] == s[0..limit];
  }

  lemma EndianPlace(little: bool, b: seq<byte>, j: nat)
    requires j < |b|
    ensures Endian(little, b)[j] == b[Place(little, |b|, j)]
  {
  }

  /** The loop over the unread bytes (lstrlib.c:1465-1471). */
  method AllBytes(b: seq<byte>, little: bool, limit: nat, mask: byte) returns (ok: bool)
    requires limit <= |b|
    ensures ok <==> Endian(little, b)[limit..] == Fill(|b| - limit, mask)
  {
    hide Endian;
    ghost var s := Endian(little, b);
    var j := limit;
    while j < |b|
      invariant limit <= j <= |b| && forall k :: limit <= k < j ==> s[k] == mask
    {
      EndianPlace(little, b, j);
      if b[Place(little, |b|, j)] != mask {
        assert s[limit..][j - limit] != Fill(|b| - limit, mask)[j - limit];
        return false;
      }
      j := j + 1;
    }
    assert s[limit..] == Fill(|b| - limit, mask);
    ok := true;
  }

  /** unpackint: the 64 bits of an integer, or the error that it does not fit. */
  method UnpackInt(b: seq<byte>, little: bool, signed: bool) returns (r: Option<uint64>)
    requires 0 < |b|
    ensures r == IntOf(Endian(little, b), signed)
  {
    hide Endian, Number, Extended;
    var size := |b|;
    var limit := if size <= SZINT then size else SZINT;
    NumberBound(Endian(little, b)[..limit]);
    Pow8();
    PowMono(limit, SZINT);
    var res := LowNumber(b, little, limit);
    if size < SZINT {
      return Some(if signed then Extended(res, Pow256(size) / 2) else res);
    }
    var ok := AllBytes(b, little, limit, if !signed || res < TWO64 / 2 then 0 else 255);
    r := if ok then Some(res) else None;
  }

  // ---------- the round trip ----------

  /** What string.pack accepts for 'size' bytes (lstrlib.c:1347-1360). */
  predicate FitsIn(n: int64, size: nat, signed: bool) {
    size < SZINT ==>
      if signed then -(Pow256(size) / 2) <= n < Pow256(size) / 2 else Unsigned64(n) < Pow256(size)
  }

  lemma {:induction false} LowBytes(n: nat, v: nat)
    ensures Number(Bytes(n, v)) == v % Pow256(n)
  {
    if n > 0 {
      LowBytes(n - 1, v / 256);
      assert Bytes(n, v)[1..] == Bytes(n - 1, v / 256);
      ModStep(v, Pow256(n - 1));
    }
  }

  lemma ModStep(v: nat, p: nat)
    requires p > 0
    ensures v % (256 * p) == v % 256 + 256 * (v / 256 % p)
  {
    var q := v / 256;
    var x := v % 256 + 256 * (q % p);
    assert v == 256 * q + v % 256;
    assert q == p * (q / p) + q % p;
    assert v == 256 * p * (q / p) + x;
    assert 0 <= x < 256 * p;
    ModUnique(v, 256 * p, q / p, x);
  }

  /** Packing and unpacking an integer gives it back, in 1 to 16 bytes and either order. */
  lemma IntBack(n: int64, size: nat, signed: bool)
    requires 1 <= size <= MAXINTSIZE && FitsIn(n, size, signed)
    ensures IntOf(IntBytes(Unsigned64(n), size, signed && n < 0), signed) == Some(Unsigned64(n))
  {
    var v := Unsigned64(n);
    var s := IntBytes(v, size, signed && n < 0);
    Pow8();
    if size < SZINT {
      LowBytes(size, v);
      assert s[..size] == s;
      SmallBack(n, size, signed);
    } else {
      NumberOfBytes(SZINT, v);
      assert s[..SZINT] == Bytes(SZINT, v);
      assert s[SZINT..] == Fill(size - SZINT, if signed && n < 0 then 255 else 0);
    }
  }

  /** string.pack accepts just the integers that come back. */
  lemma AcceptsIff(n: int64, size: nat, signed: bool)
    requires 1 <= size <= MAXINTSIZE
    ensures FitsIn(n, size, signed) <==> IntOf(IntBytes(Unsigned64(n), size, signed && n < 0), signed) == Some(Unsigned64(n))
  {
    if FitsIn(n, size, signed) {
      IntBack(n, size, signed);
    } else {
      NotBack(n, IntBytes(Unsigned64(n), size, signed && n < 0), signed);
    }
  }

  lemma NotBack(n: int64, s: seq<byte>, signed: bool)
    requires 1 <= |s| && !FitsIn(n, |s|, signed)
    ensures IntOf(s, signed) != Some(Unsigned64(n))
  {
    hide Extended, Number, Pow256, Unsigned64;
    NumberBound(s);
    assert s[..|s|] == s;
    HalfPow(|s|);
    TooWide(n, Pow256(|s|) / 2, Number(s), signed);
  }

  lemma HalfPow(size: nat)
    requires 1 <= size < SZINT
    ensures Pow256(size) == 2 * (Pow256(size) / 2) && 0 < Pow256(size) <= TWO64
  {
    Pow8();
    PowMono(size, SZINT);
    assert Pow256(size) == 256 * Pow256(size - 1);
  }

  lemma TooWide(n: int64, half: nat, res: nat, signed: bool)
    requires 0 <= res < 2 * half <= TWO64
    requires if signed then !(0 <= n + half < 2 * half) else Unsigned64(n) >= 2 * half
    ensures (if signed then Extended(res, half) else res) != Unsigned64(n)
  {
    hide Extended;
    ExtendedIs(res, half);
  }

  lemma ExtendedIs(m: nat, half: nat)
    requires m < 2 * half && 2 * half <= TWO64
    ensures Extended(m, half) == if m < half then m else m - 2 * half + TWO64
  {
    if m < half {
      ExtendedSmall(m, half);
    } else {
      ExtendedLarge(m - 2 * half, half);
    }
  }

  lemma SmallBack(n: int64, size: nat, signed: bool)
    requires 1 <= size < SZINT && FitsIn(n, size, signed)
    ensures var m := Unsigned64(n) % Pow256(size);
            m < TWO64 && (if signed then Extended(m, Pow256(size) / 2) else m) == Unsigned64(n)
  {
    hide Extended;
    Pow8();
    PowMono(size, SZINT);
    var p := Pow256(size);
    var half := p / 2;
    assert p == 2 * half && half > 0 by {
      assert p == 256 * Pow256(size - 1);
    }
    if n >= 0 {
      ModUnique(n, p, 0, n);
      ExtendedSmall(n, half);
    } else if signed {
      PowAdd(size, SZINT - size);
      assert p * (Pow256(SZINT - size) - 1) == TWO64 - p;
      ModUnique(n + TWO64, p, Pow256(SZINT - size) - 1, n + p);
      ExtendedLarge(n, half);
    }
  }

  lemma ExtendedSmall(n: int, half: nat)
    requires 0 <= n < TWO64 && half > 0
    ensures n < half ==> Extended(n, half) == n
  {
    if n < half {
      ModUnique(n, half, 0, n);
    }
  }

  lemma ExtendedLarge(n: int, half: nat)
    requires 0 <= n + half && n < 0 < half && 2 * half <= TWO64
    ensures Extended(n + 2 * half, half) == n + TWO64
  {
    ModUnique(n + 2 * half, half, 1, n + half);
    ModUnique(n, TWO64, -1, n + TWO64);
  }
}
