/** Quoting a string for the lexer, and reading it: the '%q' option of string.format
    (apps/lua/lstrlib.c:908-928) and read_string (apps/lua/llex.c:151-159, 312-426). */
module LuaQuote {

  type byte = b: int | 0 <= b < 256

  /** The end of the stream. */
  const EOZ := -1

  const NEWLINE: byte := 10
  const QUOTE: byte := 34
  const APOSTROPHE: byte := 39
  const BACKSLASH: byte := 92

  predicate IsDigit(c: int) {
    48 <= c <= 57
  }

  /** iscntrl in the C locale */
  predicate IsCntrl(c: int) {
    0 <= c < 32 || c == 127
  }

  predicate IsSpace(c: int) {
    c == 32 || 9 <= c <= 13
  }

  predicate IsNewline(c: int) {
    c == 10 || c == 13
  }

  predicate IsHex(c: int) {
    IsDigit(c) || 65 <= c <= 70 || 97 <= c <= 102
  }

  function HexValue(c: int): (r: nat)
    requires IsHex(c)
    ensures r < 16
  {
    if IsDigit(c) then c - 48 else if c <= 70 then c - 65 + 10 else c - 97 + 10
  }

  function First(s: seq<byte>): int {
    if s == [] then EOZ else s[0]
  }

  // ---------- writing ----------

  function Digit(d: nat): byte
    requires d < 10
  {
    48 + d
  }

  /** sprintf's "%d" for a byte */
  function Decimal(c: byte): seq<byte> {
    if c < 10 then [Digit(c)]
    else if c < 100 then [Digit(c / 10), Digit(c % 10)]
    else Decimal3(c)
  }

  /** "%03d" */
  function Decimal3(c: byte): seq<byte> {
    [Digit(c / 100), Digit(c / 10 % 10), Digit(c % 10)]
  }

  /** One byte of a string whose next byte is 'next'; strings end in a zero byte. */
  function QuotedByte(c: byte, next: int): seq<byte> {
    if c == QUOTE || c == BACKSLASH || c == NEWLINE then [BACKSLASH, c]
    else if IsCntrl(c) then [BACKSLASH] + (if !IsDigit(next) then Decimal(c) else Decimal3(c))
    else [c]
  }

  function QuotedBytes(s: seq<byte>): seq<byte> {
    if s == [] then [] else QuotedByte(s[0], First(s[1..])) + QuotedBytes(s[1..])
  }

  function Quoted(s: seq<byte>): seq<byte> {
    [QUOTE] + QuotedBytes(s) + [QUOTE]
  }

  /** addquoted (lstrlib.c:908-928) */
  method AddQuoted(b: seq<byte>, s: seq<byte>) returns (r: seq<byte>)
    ensures r == b + Quoted(s)
  {
    hide QuotedByte;
    r := b + [QUOTE];
    var i := 0;
    assert s[0..] == s;
    while i < |s|
      invariant i <= |s| && r + QuotedBytes(s[i..]) == b + [QUOTE] + QuotedBytes(s)
    {
      assert s[i..][1..] == s[i + 1..];
      ghost var r0 := r;
      r := AddOne(r, s[i], if i + 1 < |s| then s[i + 1] else 0);
      NextAlike(s, i);
      assert r + QuotedBytes(s[i + 1..]) == r0 + QuotedBytes(s[i..]);
      i := i + 1;
    }
    assert s[i..] == [];
    assert r + [] == r;
    r := r + [QUOTE];
    assert r == b + ([QUOTE] + QuotedBytes(s) + [QUOTE]);
  }

  /** At the end of the string comes a zero byte, which is no digit. */
  lemma NextAlike(s: seq<byte>, i: nat)
    requires i < |s|
    ensures QuotedByte(s[i], if i + 1 < |s| then s[i + 1] else 0) == QuotedByte(s[i], First(s[i + 1..]))
  {
  }

  /** One byte, before 'next' (lstrlib.c:911-925). */
  method AddOne(b: seq<byte>, c: byte, next: byte) returns (r: seq<byte>)
    ensures r == b + QuotedByte(c, next)
  {
    r := b;
    if c == QUOTE || c == BACKSLASH || c == NEWLINE {
      r := r + [BACKSLASH];
      r := r + [c];
    } else if IsCntrl(c) {
      var buff := if !IsDigit(next) then [BACKSLASH] + Decimal(c) else [BACKSLASH] + Decimal3(c);
      r := r + buff;
    } else {
      r := r + [c];
    }
  }

  // ---------- reading ----------

  /** luaO_utf8esc (lobject.c:346-361), for code points up to 10FFFF */
  function Utf8(x: nat): seq<byte>
    requires x <= 0x10FFFF
  {
    if x < 0x80 then [x]
    else if x < 0x800 then [0xC0 + x / 0x40, 0x80 + x % 0x40]
    else if x < 0x10000 then [0xE0 + x / 0x1000, 0x80 + x / 0x40 % 0x40, 0x80 + x % 0x40]
    else [0xF0 + x / 0x40000, 0x80 + x / 0x1000 % 0x40, 0x80 + x / 0x40 % 0x40, 0x80 + x % 0x40]
  }

  datatype Error = Unfinished | BadEscape | HexExpected | DecimalTooLarge | BadUtf8

  /** The bytes that an escape stands for, what follows it, and the lines it spans. */
  datatype Read = Read(bytes: seq<byte>, rest: seq<byte>, lines: nat) | Failed(error: Error)

  /** What inclinenumber skips (llex.c:151-159). */
  function AfterNewline(ts: seq<byte>): (r: seq<byte>)
    requires ts != [] && IsNewline(ts[0])
    ensures |r| < |ts|
  {
    if IsNewline(First(ts[1..])) && First(ts[1..]) != ts[0] then ts[2..] else ts[1..]
  }

  /** What '\z' skips. */
  function Zap(ts: seq<byte>): (p: (seq<byte>, nat))
    ensures |p.0| <= |ts|
    decreases |ts|
  {
    if !IsSpace(First(ts)) then (ts, 0)
    else if IsNewline(ts[0]) then
      var p := Zap(AfterNewline(ts));
      (p.0, p.1 + 1)
    else Zap(ts[1..])
  }

  /** Up to 'n' digits: their value after 'r', and what follows. */
  function Digits(ts: seq<byte>, n: nat, r: nat): (p: (nat, seq<byte>))
    ensures |p.1| <= |ts|
    decreases n
  {
    if n > 0 && IsDigit(First(ts)) then Digits(ts[1..], n - 1, 10 * r + (ts[0] - 48)) else (r, ts)
  }

  /** Hexadecimal digits of a code point; none when it gets too large. */
  function CodePoint(ts: seq<byte>, r: nat): (p: (bool, nat, seq<byte>))
    requires r <= 0x10FFFF
    ensures |p.2| <= |ts| && (p.0 ==> p.1 <= 0x10FFFF)
    decreases |ts|
  {
    if IsHex(First(ts)) then
      var r1 := 16 * r + HexValue(ts[0]);
      if r1 <= 0x10FFFF then CodePoint(ts[1..], r1) else (false, 0, ts)
    else (true, r, ts)
  }

  /** '\xXX' */
  function HexEscape(ts: seq<byte>): (e: Read)
    requires First(ts) == 120
    ensures e.Read? ==> |e.rest| < |ts|
  {
    if IsHex(First(ts[1..])) && IsHex(First(ts[2..])) then
      Read([16 * HexValue(ts[1]) + HexValue(ts[2])], ts[3..], 0)
    else Failed(HexExpected)
  }

  /** '\u{XXX}' */
  function Utf8Escape(ts: seq<byte>): (e: Read)
    requires First(ts) == 117
    ensures e.Read? ==> |e.rest| < |ts|
  {
    if First(ts[1..]) == 123 && IsHex(First(ts[2..])) then
      var p := CodePoint(ts[3..], HexValue(ts[2]));
      if p.0 && First(p.2) == 125 then Read(Utf8(p.1), p.2[1..], 0) else Failed(BadUtf8)
    else Failed(BadUtf8)
  }

  /** The control characters that letters stand for: a, b, f, n, r, t, v */
  function Letter(c: int): (r: int)
    ensures r == EOZ || 7 <= r <= 13
  {
    if c == 97 then 7 else if c == 98 then 8 else if c == 102 then 12 else if c == 110 then 10
    else if c == 114 then 13 else if c == 116 then 9 else if c == 118 then 11 else EOZ
  }

  /** An escape sequence, after its backslash (llex.c:377-417). At the end of the stream
      the next turn of the loop fails. */
  function Escape(ts: seq<byte>): (e: Read)
    ensures e.Read? ==> |e.rest| <= |ts|
  {
    var c := First(ts);
    if c == EOZ then Failed(Unfinished)
    else if Letter(c) != EOZ then Read([Letter(c)], ts[1..], 0)
    else if c == 120 then HexEscape(ts)
    else if c == 117 then Utf8Escape(ts)
    else if IsNewline(c) then Read([NEWLINE], AfterNewline(ts), 1)
    else if c == BACKSLASH || c == QUOTE || c == APOSTROPHE then Read([ts[0]], ts[1..], 0)
    else if c == 122 then
      var p := Zap(ts[1..]);
      Read([], p.0, p.1)
    else if IsDigit(c) then
      var p := Digits(ts, 3, 0);
      if p.0 <= 255 then Read([p.0], p.1, 0) else Failed(DecimalTooLarge)
    else Failed(BadEscape)
  }

  /** Escapes of one character, and the bytes they stand for. */
  const Escapes: seq<(char, byte)> := [
    ('a', 7), ('b', 8), ('t', 9), ('n', 10), ('v', 11), ('f', 12), ('r', 13), ('\\', 92), ('"', 34), ('\'', 39)]

  /** They are read as those bytes. */
  lemma EscapesRead(c: byte, rest: seq<byte>)
    ensures forall e :: e in Escapes && e.0 == c as char ==> Escape([c] + rest) == Read([e.1], rest, 0)
  {
    assert ([c] + rest)[1..] == rest && First([c] + rest) == c;
  }

  lemma HexDigit(a: nat)
    requires a < 16
    ensures var c := "0123456789abcdef"[a] as int; c < 256 && IsHex(c) && HexValue(c) == a
    ensures var c := "0123456789ABCDEF"[a] as int; c < 256 && IsHex(c) && HexValue(c) == a
  {
  }

  /** Two hexadecimal digits, of either case, are a byte. */
  lemma HexRead(a: nat, b: nat, c: byte, d: byte, rest: seq<byte>)
    requires a < 16 && b < 16
    requires c as char == "0123456789abcdef"[a] || c as char == "0123456789ABCDEF"[a]
    requires d as char == "0123456789abcdef"[b] || d as char == "0123456789ABCDEF"[b]
    ensures Escape(['x' as int, c, d] + rest) == Read([16 * a + b], rest, 0)
  {
    hide HexValue, IsHex;
    HexDigit(a);
    HexDigit(b);
    var ts: seq<byte> := ['x' as int, c, d] + rest;
    assert First(ts) == 120 && Letter(120) == EOZ && !IsNewline(120);
    assert ts[3..] == rest && First(ts[1..]) == c && First(ts[2..]) == d;
  }

  /** The bits that the bytes of a code point hold. */
  function Bits(u: seq<byte>): int {
    if |u| == 1 then u[0]
    else if |u| == 2 then (u[0] as int - 0xC0) * 0x40 + (u[1] as int - 0x80)
    else if |u| == 3 then (u[0] as int - 0xE0) * 0x1000 + (u[1] as int - 0x80) * 0x40 + (u[2] as int - 0x80)
    else if |u| == 4 then
      (u[0] as int - 0xF0) * 0x4_0000 + (u[1] as int - 0x80) * 0x1000 + (u[2] as int - 0x80) * 0x40 + (u[3] as int - 0x80)
    else -1
  }

  /** Code points take as few bytes as can hold their bits; the first byte says how many, and the
      others are marked (section 3 of RFC 3629). */
  lemma Utf8Bits(x: nat)
    requires x <= 0x10FFFF
    ensures var u := Utf8(x);
            && Bits(u) == x && |u| == (if x < 0x80 then 1 else if x < 0x800 then 2 else if x < 0x1_0000 then 3 else 4)
            && (if |u| == 1 then u[0] < 0x80 else if |u| == 2 then 0xC0 <= u[0] < 0xE0
                else if |u| == 3 then 0xE0 <= u[0] < 0xF0 else 0xF0 <= u[0] < 0xF8)
            && forall i :: 1 <= i < |u| ==> 0x80 <= u[i] < 0xC0
  {
    var q, r := x / 0x40, x % 0x40;
    if x >= 0x1_0000 {
      assert x / 0x1000 == q / 0x40 && x / 0x4_0000 == q / 0x40 / 0x40;
    } else if x >= 0x800 {
      assert x / 0x1000 == q / 0x40;
    }
  }

  function Then(bytes: seq<byte>, lines: nat, r: Read): Read {
    if r.Read? then Read(bytes + r.bytes, r.rest, lines + r.lines) else r
  }

  /** A string up to its closing delimiter (llex.c:366-422). */
  function Body(ts: seq<byte>, del: byte): (r: Read)
    decreases |ts|
  {
    if ts == [] then Failed(Unfinished)
    else if ts[0] == del then Read([], ts[1..], 0)
    else if IsNewline(ts[0]) then Failed(Unfinished)
    else if ts[0] == BACKSLASH then
      var e := Escape(ts[1..]);
      if e.Read? then Then(e.bytes, e.lines, Body(e.rest, del)) else e
    else Then([ts[0]], 0, Body(ts[1..], del))
  }

  // ---------- reading back ----------

  function Lines(s: seq<byte>): nat {
    if s == [] then 0 else (if s[0] == NEWLINE then 1 else 0) + Lines(s[1..])
  }

  /** A control byte written in decimal is read whole, whatever follows. */
  lemma DecimalRead(c: byte, ts: seq<byte>, next: int)
    requires next == First(ts)
    ensures var d := if !IsDigit(next) then Decimal(c) else Decimal3(c);
            Digits(d + ts, 3, 0) == (c as nat, ts)
  {
    var d := if !IsDigit(next) then Decimal(c) else Decimal3(c);
    assert (d + ts)[1..] == d[1..] + ts;
    if |d| > 1 {
      assert (d[1..] + ts)[1..] == d[2..] + ts;
      if |d| > 2 {
        assert (d[2..] + ts)[1..] == ts;
      } else {
        assert d[2..] + ts == ts;
      }
    } else {
      assert d[1..] + ts == ts;
    }
  }

  /** What follows a byte begins like what follows it in the string, as far as digits go. */
  lemma NextDigit(s: seq<byte>, rest: seq<byte>)
    ensures IsDigit(First(QuotedBytes(s) + ([QUOTE] + rest))) <==> IsDigit(First(s))
  {
    if s != [] {
      var q := QuotedByte(s[0], First(s[1..]));
      assert (QuotedBytes(s) + ([QUOTE] + rest))[0] == q[0];
    } else {
      assert QuotedBytes(s) + ([QUOTE] + rest) == [QUOTE] + rest;
    }
  }

  lemma NeverNewline(s: seq<byte>, rest: seq<byte>)
    ensures !IsNewline(First(QuotedBytes(s) + ([QUOTE] + rest)))
  {
    if s != [] {
      var q := QuotedByte(s[0], First(s[1..]));
      assert (QuotedBytes(s) + ([QUOTE] + rest))[0] == q[0];
    } else {
      assert QuotedBytes(s) + ([QUOTE] + rest) == [QUOTE] + rest;
    }
  }

  lemma EscapedRead(c: byte, s: seq<byte>, rest: seq<byte>)
    requires c == QUOTE || c == BACKSLASH || c == NEWLINE
    ensures var tail := QuotedBytes(s) + ([QUOTE] + rest);
            Escape([c] + tail) == Read([c], tail, if c == NEWLINE then 1 else 0)
  {
    var tail := QuotedBytes(s) + ([QUOTE] + rest);
    assert ([c] + tail)[1..] == tail;
    NeverNewline(s, rest);
  }

  lemma ControlRead(c: byte, s: seq<byte>, rest: seq<byte>)
    ensures var tail := QuotedBytes(s) + ([QUOTE] + rest);
            Escape((if !IsDigit(First(s)) then Decimal(c) else Decimal3(c)) + tail) == Read([c], tail, 0)
  {
    hide Digits, Escape;
    var tail := QuotedBytes(s) + ([QUOTE] + rest);
    NextDigit(s, rest);
    DecimalRead(c, tail, First(tail));
    var d := if !IsDigit(First(s)) then Decimal(c) else Decimal3(c);
    assert (d + tail)[0] == d[0] && IsDigit(d[0]);
    DigitEscape(d + tail);
  }

  lemma DigitEscape(ts: seq<byte>)
    requires IsDigit(First(ts))
    ensures var p := Digits(ts, 3, 0);
            Escape(ts) == if p.0 <= 255 then Read([p.0], p.1, 0) else Failed(DecimalTooLarge)
  {
    hide Digits;
  }

  /** Each byte is read back, with as many lines as it takes. */
  lemma ByteRead(c: byte, s: seq<byte>, rest: seq<byte>)
    ensures var tail := QuotedBytes(s) + ([QUOTE] + rest);
            Body(QuotedByte(c, First(s)) + tail, QUOTE) == Then([c], if c == NEWLINE then 1 else 0, Body(tail, QUOTE))
  {
    hide Escape, Decimal, Decimal3;
    var q := QuotedByte(c, First(s));
    var tail := QuotedBytes(s) + ([QUOTE] + rest);
    var ts := q + tail;
    assert ts[0] == q[0] && ts[1..] == q[1..] + tail;
    if c == QUOTE || c == BACKSLASH || c == NEWLINE {
      assert q[1..] == [c];
      EscapedRead(c, s, rest);
    } else if IsCntrl(c) {
      assert q[1..] == if !IsDigit(First(s)) then Decimal(c) else Decimal3(c);
      ControlRead(c, s, rest);
    } else {
      assert q[1..] + tail == tail;
    }
  }

  /** Every string is read back from its quoted form, whatever comes next, and its newlines
      are counted. */
  lemma {:induction false} QuotedRead(s: seq<byte>, rest: seq<byte>)
    ensures Body(QuotedBytes(s) + ([QUOTE] + rest), QUOTE) == Read(s, rest, Lines(s))
  {
    hide QuotedByte, Escape;
    var end := [QUOTE] + rest;
    if s == [] {
      assert QuotedBytes(s) + end == end;
      assert end[1..] == rest;
    } else {
      var q := QuotedByte(s[0], First(s[1..]));
      QuotedRead(s[1..], rest);
      ByteRead(s[0], s[1..], rest);
      assert QuotedBytes(s) + end == q + (QuotedBytes(s[1..]) + end);
      assert [s[0]] + s[1..] == s;
    }
  }

  // ---------- the reader as it is written ----------

  /** The lexer: where it is in its input, its buffer, and the line. */
  class LexState {
    const input: seq<byte>
    var pos: nat
    var buff: seq<byte>
    var linenumber: nat

    constructor (input: seq<byte>)
      ensures this.input == input && pos == 0 && buff == [] && linenumber == 1
    {
      this.input := input;
      pos, buff, linenumber := 0, [], 1;
    }

    ghost function Ahead(): seq<byte>
      reads this
    {
      if pos <= |input| then input[pos..] else []
    }

    /** ls->current */
    function Current(): (c: int)
      reads this
      ensures c == First(Ahead())
    {
      if pos < |input| then input[pos] else EOZ
    }

    method Next()
      requires pos < |input|
      modifies this`pos
      ensures Ahead() == old(Ahead())[1..] && pos == old(pos) + 1 <= |input|
    {
      pos := pos + 1;
    }

    method Save(c: byte)
      modifies this`buff
      ensures buff == old(buff) + [c]
    {
      buff := buff + [c];
    }

    method SaveAndNext()
      requires pos < |input|
      modifies this`pos, this`buff
      ensures Ahead() == old(Ahead())[1..] && pos == old(pos) + 1 <= |input|
      ensures buff == old(buff) + [input[old(pos)]] && input[old(pos)] == old(Ahead())[0]
    {
      Save(input[pos]);
      Next();
    }

    /** luaZ_buffremove */
    method Remove(n: nat)
      requires n <= |buff|
      modifies this`buff
      ensures buff == old(buff)[..|old(buff)| - n]
    {
      buff := buff[..|buff| - n];
    }

    /** inclinenumber (llex.c:151-159) */
    method IncLineNumber()
      requires pos < |input| && IsNewline(Current())
      modifies this`pos, this`linenumber
      ensures Ahead() == AfterNewline(old(Ahead())) && old(pos) < pos <= |input| && linenumber == old(linenumber) + 1
    {
      ghost var ts := Ahead();
      var was := Current();
      Next();
      if IsNewline(Current()) && Current() != was {
        Next();
        assert ts[1..][1..] == ts[2..];
      }
      linenumber := linenumber + 1;
    }

    /** readdecesc (llex.c:353-363): the digits leave the buffer again. */
    method ReadDecEsc() returns (ok: bool, r: nat)
      requires pos <= |input|
      modifies this`pos, this`buff
      ensures pos <= |input| && (ok <==> Digits(old(Ahead()), 3, 0).0 <= 255)
      ensures (r, Ahead()) == Digits(old(Ahead()), 3, 0) && (ok ==> buff == old(buff)) && pos >= old(pos)
    {
      var i;
      i, r := SaveDigits();
      if r > 255 {
        return false, r;
      }
      Remove(i);
      ok := true;
    }

    /** The loop of readdecesc (llex.c:356-359). */
    method SaveDigits() returns (i: nat, r: nat)
      requires pos <= |input|
      modifies this`pos, this`buff
      ensures old(pos) <= pos <= |input| && (r, Ahead()) == Digits(old(Ahead()), 3, 0)
      ensures |buff| == |old(buff)| + i && buff[..|old(buff)|] == old(buff)
    {
      ghost var ts := Ahead();
      i, r := 0, 0;
      while i < 3 && IsDigit(Current())
        invariant i <= 3 && old(pos) <= pos <= |input| && Digits(Ahead(), 3 - i, r) == Digits(ts, 3, 0)
        invariant |buff| == |old(buff)| + i && buff[..|old(buff)|] == old(buff)
      {
        r := 10 * r + (Current() - 48);
        SaveAndNext();
        i := i + 1;
      }
    }

    /** readhexaesc (llex.c:319-324): 'x' and the first digit leave the buffer again; the
        second digit is still to be skipped. */
    method ReadHexEsc() returns (ok: bool, r: nat)
      requires pos < |input| && Current() == 120
      modifies this`pos, this`buff
      ensures pos <= |input| && (ok <==> IsHex(First(old(Ahead())[1..])) && IsHex(First(old(Ahead())[2..])))
      ensures ok ==> r == 16 * HexValue(old(Ahead())[1]) + HexValue(old(Ahead())[2]) < 256
      ensures ok ==> buff == old(buff) && Ahead() == old(Ahead())[2..] && old(pos) < pos < |input|
    {
      ghost var ts := Ahead();
      r := 0;
      SaveAndNext();
      ok := IsHex(Current());
      if !ok {
        assert ts[1..] == Ahead();
        return;
      }
      r := HexValue(Current());
      SaveAndNext();
      assert ts[1..][1..] == ts[2..];
      ok := IsHex(Current());
      if !ok {
        return;
      }
      r := 16 * r + HexValue(Current());
      Remove(2);
    }

    /** readutf8esc (llex.c:327-342): everything saved since the backslash leaves the buffer. */
    method ReadUtf8Esc() returns (ok: bool, r: nat)
      requires pos < |input| && Current() == 117 && |buff| > 0
      modifies this`pos, this`buff
      ensures pos <= |input|
      ensures var e := Utf8Escape(old(Ahead()));
              && ok == e.Read?
              && (ok ==> r <= 0x10FFFF && e == Read(Utf8(r), Ahead(), 0))
      ensures ok ==> buff == old(buff)[..|old(buff)| - 1] && pos > old(pos)
    {
      hide Utf8, HexValue, CodePoint, IsHex;
      var n;
      ok, r := SaveBrace();
      if !ok {
        return;
      }
      ok, r, n := SaveCodePoint(r);
      if !ok {
        return;
      }
      ok := Current() == 125;
      if !ok {
        return;
      }
      Next();
      Remove(4 + n);
    }

    /** 'u', the brace and the first digit (llex.c:330-333). */
    method SaveBrace() returns (ok: bool, r: nat)
      requires pos < |input| && Current() == 117
      modifies this`pos, this`buff
      ensures pos <= |input| && (ok <==> First(old(Ahead())[1..]) == 123 && IsHex(First(old(Ahead())[2..])))
      ensures ok ==> r == HexValue(old(Ahead())[2]) && Ahead() == old(Ahead())[3..] && pos > old(pos)
      ensures ok ==> |buff| == |old(buff)| + 3 && buff[..|old(buff)|] == old(buff)
    {
      hide HexValue;
      ghost var ts := Ahead();
      r := 0;
      SaveAndNext();
      ok := Current() == 123;
      if !ok {
        return;
      }
      SaveAndNext();
      assert ts[1..][1..] == ts[2..];
      ok := IsHex(Current());
      if !ok {
        return;
      }
      r := HexValue(Current());
      SaveAndNext();
      assert ts[2..][1..] == ts[3..];
    }

    /** The loop of readutf8esc (llex.c:334-338): the digits behind the first one. */
    method SaveCodePoint(r0: nat) returns (ok: bool, r: nat, n: nat)
      requires pos <= |input| && r0 <= 0x10FFFF
      modifies this`pos, this`buff
      ensures old(pos) <= pos <= |input| && ok == CodePoint(old(Ahead()), r0).0
      ensures ok ==> (true, r, Ahead()) == CodePoint(old(Ahead()), r0) && r <= 0x10FFFF
      ensures |buff| == |old(buff)| + n && buff[..|old(buff)|] == old(buff)
    {
      hide HexValue;
      r, n := r0, 0;
      while IsHex(Current())
        invariant old(pos) <= pos <= |input| && r <= 0x10FFFF && CodePoint(Ahead(), r) == CodePoint(old(Ahead()), r0)
        invariant |buff| == |old(buff)| + n && buff[..|old(buff)|] == old(buff)
        decreases |input| - pos
      {
        r := 16 * r + HexValue(Current());
        if r > 0x10FFFF {
          return false, r, n;
        }
        SaveAndNext();
        n := n + 1;
      }
      ok := true;
    }

    /** utf8esc (llex.c:345-350) */
    method SaveAll(bytes: seq<byte>)
      modifies this`buff
      ensures buff == old(buff) + bytes
    {
      var i := 0;
      while i < |bytes|
        invariant i <= |bytes| && buff == old(buff) + bytes[..i]
      {
        Save(bytes[i]);
        i := i + 1;
      }
      assert bytes[..i] == bytes;
    }

    /** The span of spaces that '\z' skips (llex.c:395-403). */
    method ZapSpaces()
      requires pos <= |input|
      modifies this`pos, this`linenumber
      ensures var p := Zap(old(Ahead())); Ahead() == p.0 && linenumber == old(linenumber) + p.1
      ensures old(pos) <= pos <= |input|
    {
      hide AfterNewline, IsNewline;
      ghost var ts := Ahead();
      while IsSpace(Current())
        invariant old(pos) <= pos <= |input| && linenumber >= old(linenumber)
        invariant Zap(ts) == (Zap(Ahead()).0, linenumber - old(linenumber) + Zap(Ahead()).1)
        decreases |input| - pos
      {
        if IsNewline(Current()) {
          IncLineNumber();
        } else {
          Next();
        }
      }
    }

    /** read_save: the escaped character itself is skipped, the backslash gives way to 'c'. */
    method ReadSave(c: byte)
      requires pos < |input| && |buff| > 0
      modifies this`pos, this`buff
      ensures Ahead() == old(Ahead())[1..] && pos == old(pos) + 1 <= |input| && buff == old(buff)[..|old(buff)| - 1] + [c]
    {
      Next();
      OnlySave(c);
    }

    method OnlySave(c: byte)
      requires |buff| > 0
      modifies this`buff
      ensures buff == old(buff)[..|old(buff)| - 1] + [c]
    {
      Remove(1);
      Save(c);
    }

    lemma LetterIsNone()
      ensures Letter(120) == Letter(117) == Letter(122) == EOZ
    {
    }

    /** The buffer ends in the backslash; 'b' came before it. */
    ghost predicate AfterBackslash(b: seq<byte>)
      reads this
    {
      pos <= |input| && |buff| == |b| + 1 && buff[..|b|] == b
    }

    /** Escapes of several characters: hexadecimal, code points, and '\z' (llex.c:388-403). */
    method ReadLongEscape(ghost b: seq<byte>) returns (ok: bool)
      requires AfterBackslash(b) && (Current() == 120 || Current() == 117 || Current() == 122)
      modifies this
      ensures pos <= |input| && ok == Escape(old(Ahead())).Read?
      ensures ok ==> var e := Escape(old(Ahead()));
                     buff == b + e.bytes && Ahead() == e.rest && linenumber == old(linenumber) + e.lines
      ensures ok ==> pos > old(pos)
    {
      hide Digits, Zap, CodePoint, Utf8, AfterNewline, HexValue, Letter, Utf8Escape;
      LetterIsNone();
      ghost var ts := Ahead();
      var c := Current();
      if c == 120 {
        var r;
        ok, r := ReadHexEsc();
        if ok {
          assert ts[2..][1..] == ts[3..];
          ReadSave(r);
        }
      } else if c == 117 {
        var r;
        ok, r := ReadUtf8Esc();
        if ok {
          SaveAll(Utf8(r));
        }
      } else {
        Remove(1);
        Next();
        ZapSpaces();
        ok := true;
      }
    }

    /** Escapes of one character, and in decimal (llex.c:380-394, 404-417). */
    method ReadShortEscape(ghost b: seq<byte>) returns (ok: bool)
      requires AfterBackslash(b) && Current() != 120 && Current() != 117 && Current() != 122
      modifies this
      ensures pos <= |input| && ok == Escape(old(Ahead())).Read?
      ensures ok ==> var e := Escape(old(Ahead()));
                     buff == b + e.bytes && Ahead() == e.rest && linenumber == old(linenumber) + e.lines
      ensures ok ==> pos >= old(pos)
    {
      hide Digits, Zap, CodePoint, Utf8, AfterNewline, HexValue, Letter, Utf8Escape, HexEscape;
      var c := Current();
      ok := true;
      if c == EOZ {
        ok := false;
      } else if Letter(c) != EOZ {
        ReadSave(Letter(c));
      } else if IsNewline(c) {
        IncLineNumber();
        OnlySave(NEWLINE);
      } else if c == BACKSLASH || c == QUOTE || c == APOSTROPHE {
        ReadSave(input[pos]);
      } else if IsDigit(c) {
        var r;
        ok, r := ReadDecEsc();
        if ok {
          OnlySave(r);
        }
      } else {
        ok := false;
      }
    }

    /** One escape sequence (llex.c:377-417). */
    method ReadEscape() returns (ok: bool)
      requires pos < |input| && Current() == BACKSLASH
      modifies this
      ensures pos <= |input| && ok == Escape(old(Ahead())[1..]).Read?
      ensures ok ==> var e := Escape(old(Ahead())[1..]);
                     buff == old(buff) + e.bytes && Ahead() == e.rest && linenumber == old(linenumber) + e.lines
      ensures ok ==> pos > old(pos)
    {
      hide Escape;
      ghost var b := buff;
      SaveAndNext();
      if Current() == 120 || Current() == 117 || Current() == 122 {
        ok := ReadLongEscape(b);
      } else {
        ok := ReadShortEscape(b);
      }
    }

    /** read_string (llex.c:366-426), between the delimiters: bytes go to the buffer. */
    method ReadBody(del: byte) returns (ok: bool)
      requires pos <= |input|
      modifies this
      ensures pos <= |input| && ok == Body(old(Ahead()), del).Read?
      ensures ok ==> var p := Body(old(Ahead()), del);
                     && buff == old(buff) + p.bytes + [del] && Ahead() == p.rest
                     && linenumber == old(linenumber) + p.lines
    {
      hide Body;
      ghost var ts := Ahead();
      ghost var read: seq<byte>, lines: nat := [], 0;
      SameBody(Body(ts, del));
      while Current() != del
        invariant pos <= |input| && buff == old(buff) + read && linenumber == old(linenumber) + lines
        invariant Body(ts, del) == Then(read, lines, Body(Ahead(), del))
        decreases |input| - pos
      {
        ghost var bytes, n;
        ok, bytes, n := ReadPiece(del);
        if !ok {
          return;
        }
        AppendThen(read, lines, bytes, n, Body(Ahead(), del));
        read, lines := read + bytes, lines + n;
      }
      BodyEnds(Ahead(), del);
      assert read + [] == read;
      SaveAndNext();
      ok := true;
    }

    /** One turn of the loop: a byte, or an escape sequence (llex.c:368-421). */
    method ReadPiece(del: byte) returns (ok: bool, ghost bytes: seq<byte>, ghost n: nat)
      requires pos <= |input| && Current() != del
      modifies this
      ensures pos <= |input| && (!ok ==> !Body(old(Ahead()), del).Read?)
      ensures ok ==> pos > old(pos) && buff == old(buff) + bytes && linenumber == old(linenumber) + n
                     && Body(old(Ahead()), del) == Then(bytes, n, Body(Ahead(), del))
    {
      hide Escape, IsNewline;
      bytes, n := [], 0;
      if Current() == EOZ || IsNewline(Current()) {
        return false, bytes, n;
      } else if Current() == BACKSLASH {
        ghost var e := Escape(Ahead()[1..]);
        ok := ReadEscape();
        if ok {
          bytes, n := e.bytes, e.lines;
        }
      } else {
        bytes := [Ahead()[0]];
        SaveAndNext();
        ok := true;
      }
    }

    /** read_string (llex.c:366-426) */
    method ReadString(del: byte) returns (ok: bool, s: seq<byte>)
      requires pos < |input| && Current() == del
      modifies this
      ensures ok == Body(old(Ahead())[1..], del).Read?
      ensures ok ==> var p := Body(old(Ahead())[1..], del);
                     s == p.bytes && Ahead() == p.rest && linenumber == old(linenumber) + p.lines
    {
      hide Body;
      buff := [];
      SaveAndNext();
      ok := ReadBody(del);
      s := if ok then buff[1..|buff| - 1] else [];
    }
  }

  /** What '%q' writes, the lexer reads. */
  method QuoteAndRead(s: seq<byte>, rest: seq<byte>) returns (ok: bool, t: seq<byte>)
    ensures ok && t == s
  {
    hide Body, QuotedBytes;
    var q := AddQuoted([], s);
    assert (q + rest)[1..] == QuotedBytes(s) + ([QUOTE] + rest);
    QuotedRead(s, rest);
    var ls := new LexState(q + rest);
    assert (q + rest)[0..] == q + rest;
    ok, t := ls.ReadString(QUOTE);
  }

  lemma SameBody(r: Read)
    ensures r == Then([], 0, r)
  {
    if r.Read? {
      assert [] + r.bytes == r.bytes;
    }
  }

  lemma BodyEnds(ts: seq<byte>, del: byte)
    requires First(ts) == del
    ensures Body(ts, del) == Read([], ts[1..], 0)
  {
  }

  lemma AppendThen(a: seq<byte>, m: nat, b: seq<byte>, n: nat, r: Read)
    ensures Then(a, m, Then(b, n, r)) == Then(a + b, m + n, r)
  {
    if r.Read? {
      assert a + (b + r.bytes) == (a + b) + r.bytes;
    }
  }
}
