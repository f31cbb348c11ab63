/** Patterns as they are written (section 6.4.1 of the Lua 5.3 Reference Manual): every item
    is read back from its text (apps/lua/lstrlib.c:258-330, 447-524). */
module LuaPatternText {
  import opened LuaPattern

  function Suffix(rep: Repeat): seq<byte> {
    match rep
    case Once => []
    case Optional => ['?' as int]
    case Star => ['*' as int]
    case Plus => ['+' as int]
    case Lazy => ['-' as int]
  }

  function ElementText(e: Element): (t: seq<byte>)
    ensures |t| > 0
  {
    match e
    case Class(cl) => ['%' as int, cl]
    case Range(lo, hi) => if lo == hi then [lo] else [lo, '-' as int, hi]
  }

  function ElementsText(es: seq<Element>): (t: seq<byte>)
    ensures es != [] ==> |t| > 0
  {
    if es == [] then [] else ElementText(es[0]) + ElementsText(es[1..])
  }

  function SetText(cs: CharSet): seq<byte> {
    match cs
    case Any => ['.' as int]
    case Escaped(cl) => ['%' as int, cl]
    case Only(b) => [b]
    case Bracket(positive, es) => (if positive then ['[' as int] else ['[' as int, '^' as int]) + ElementsText(es) + [']' as int]
  }

  /** Characters with a meaning in a set are written as classes. */
  predicate Writable(e: Element) {
    e.Range? ==> e.lo as char !in "%]^-" && e.hi as char !in "%]^-"
  }

  predicate WritableSet(cs: CharSet) {
    match cs
    case Any => true
    case Escaped(cl) => cl as char !in "bf0123456789"
    case Only(b) => b as char !in "%.[()$"
    case Bracket(_, es) => es != [] && forall e :: e in es ==> Writable(e)
  }

  /** The elements 'es' are written from 'i' on, up to the bracket at 'ec'. */
  predicate WrittenAt(pat: seq<byte>, i: nat, es: seq<Element>, ec: nat) {
    && i <= ec < |pat| && pat[ec] == ']' as int && pat[i..ec] == ElementsText(es)
    && forall e :: e in es ==> Writable(e)
  }

  /** The first element, and what comes behind it. */
  lemma FirstWritten(pat: seq<byte>, i: nat, es: seq<Element>, ec: nat)
    requires WrittenAt(pat, i, es, ec) && es != []
    ensures var t := ElementText(es[0]);
            && i + |t| <= ec && pat[i..i + |t|] == t && Writable(es[0])
            && WrittenAt(pat, i + |t|, es[1..], ec) && (es[1..] == [] ==> i + |t| == ec)
            && pat[i + |t|] != '-' as int && (es[1..] == [] || pat[i + |t|] != ']' as int)
  {
    var t, u := ElementText(es[0]), ElementsText(es[1..]);
    assert pat[i..ec][..|t|] == t && pat[i..ec][|t|..] == u;
    assert pat[i + |t|..ec] == pat[i..ec][|t|..];
    assert pat[i..i + |t|] == pat[i..ec][..|t|];
    assert Writable(es[0]) && forall e :: e in es[1..] ==> e in es;
    if es[1..] != [] {
      var f := es[1..][0];
      assert Writable(f);
      assert pat[i + |t|] == u[0] == ElementText(f)[0];
    }
  }

  lemma {:induction false} ElementsRead(pat: seq<byte>, i: nat, es: seq<Element>, ec: nat)
    requires WrittenAt(pat, i, es, ec)
    ensures Elements(pat, i, ec) == es
    decreases |es|
  {
    hide WrittenAt, ElementsText;
    EcIs(pat, i, es, ec);
    if es != [] {
      FirstWritten(pat, i, es, ec);
      var t := ElementText(es[0]);
      ElementsRead(pat, i + |t|, es[1..], ec);
      ElementHere(pat, i, es[0]);
      assert es == [es[0]] + es[1..];
    }
  }

  /** The bytes of an element. */
  lemma ElementHere(pat: seq<byte>, i: nat, e: Element)
    requires var t := ElementText(e); i + |t| <= |pat| && pat[i..i + |t|] == t
    ensures match e
            case Class(cl) => pat[i] == '%' as int && pat[i + 1] == cl
            case Range(lo, hi) => pat[i] == lo && (lo != hi ==> pat[i + 1] == '-' as int && pat[i + 2] == hi)
  {
    var t := ElementText(e);
    assert forall j :: i <= j < i + |t| ==> pat[j] == pat[i..i + |t|][j - i];
  }

  lemma {:induction false} BracketRead(pat: seq<byte>, i: nat, es: seq<Element>, ec: nat)
    requires WrittenAt(pat, i, es, ec) && es != []
    ensures BracketEnd(pat, i) == Some(ec + 1)
    decreases |es|
  {
    hide WrittenAt;
    FirstWritten(pat, i, es, ec);
    var t := ElementText(es[0]);
    ElementHere(pat, i, es[0]);
    EndOf(pat, i, ec, es, t);
    if es[1..] != [] {
      BracketRead(pat, i + |t|, es[1..], ec);
    }
  }

  /** Past one element. */
  lemma EndOf(pat: seq<byte>, i: nat, ec: nat, es: seq<Element>, t: seq<byte>)
    requires WrittenAt(pat, i, es, ec) && es != [] && t == ElementText(es[0])
    ensures i + |t| <= ec && BracketEnd(pat, i) == if es[1..] == [] then Some(ec + 1) else BracketEnd(pat, i + |t|)
  {
    hide WrittenAt;
    EcIs(pat, i, es, ec);
    FirstWritten(pat, i, es, ec);
    ElementHere(pat, i, es[0]);
    if es[0].Range? && es[0].lo != es[0].hi {
      assert BracketEnd(pat, i) == BracketEnd(pat, i + 1);
      assert BracketEnd(pat, i + 1) == BracketEnd(pat, i + 2);
    }
  }

  lemma EcIs(pat: seq<byte>, i: nat, es: seq<Element>, ec: nat)
    requires WrittenAt(pat, i, es, ec)
    ensures i <= ec < |pat| && pat[ec] == ']' as int && (es == [] ==> i == ec)
  {
    assert |pat[i..ec]| == ec - i;
  }

  /** A set of characters with its suffix, wherever it stands. */
  lemma ItemRead(before: seq<byte>, cs: CharSet, rep: Repeat, rest: seq<byte>)
    requires WritableSet(cs) && (rep == Once && rest != [] ==> rest[0] as char !in "*+-?")
    ensures var p := before + SetText(cs) + Suffix(rep);
            ItemAt(p + rest, |before|) == Chars(cs, rep, |p|)
  {
    hide ItemAt, ClassEnd, SetAt, SetText, WritableSet;
    var p := before + SetText(cs) + Suffix(rep);
    var pat := p + rest;
    var e := |before| + |SetText(cs)|;
    assert pat[|before|..e] == SetText(cs);
    SuffixRead(before + SetText(cs), rep, rest);
    SetHere(pat, |before|, cs, e);
  }

  lemma SetHere(pat: seq<byte>, p: nat, cs: CharSet, e: nat)
    requires p <= e <= |pat| && pat[p..e] == SetText(cs) && WritableSet(cs)
    ensures p < e && ItemAt(pat, p) == CharsAt(pat, p) && ClassEnd(pat, p) == Ends(e) && SetAt(pat, p, e) == cs
  {
    hide CharsAt, FrontierAt, BracketEnd, BracketAt;
    assert forall j :: p <= j < e ==> pat[j] == pat[p..e][j - p];
    if cs.Bracket? {
      BracketSet(pat, p, cs.positive, cs.elements, e);
    }
  }

  lemma SuffixRead(before: seq<byte>, rep: Repeat, rest: seq<byte>)
    requires rep == Once && rest != [] ==> rest[0] as char !in "*+-?"
    ensures RepeatOf(C(before + Suffix(rep) + rest, |before|)) == rep
  {
    var pat := before + Suffix(rep) + rest;
    if rep != Once {
      assert pat[|before|] == Suffix(rep)[0];
    } else if rest != [] {
      assert pat[|before|] == rest[0];
    }
  }

  lemma BracketSet(pat: seq<byte>, p: nat, positive: bool, es: seq<Element>, e: nat)
    requires p < e <= |pat| && pat[p..e] == SetText(Bracket(positive, es)) && WritableSet(Bracket(positive, es))
    ensures ClassEnd(pat, p) == Ends(e) && SetAt(pat, p, e) == BracketAt(pat, p, e - 1) == Bracket(positive, es)
  {
    hide BracketEnd, Elements, WrittenAt;
    var i := if positive then p + 1 else p + 2;
    BracketWritten(pat, p, positive, es, e);
    FirstWritten(pat, i, es, e - 1);
    ElementHere(pat, i, es[0]);
    ElementsRead(pat, i, es, e - 1);
    BracketRead(pat, i, es, e - 1);
  }

  lemma BracketWritten(pat: seq<byte>, p: nat, positive: bool, es: seq<Element>, e: nat)
    requires p < e <= |pat| && pat[p..e] == SetText(Bracket(positive, es)) && WritableSet(Bracket(positive, es))
    ensures pat[p] == '[' as int && (!positive ==> p + 1 < |pat| && pat[p + 1] == '^' as int)
    ensures WrittenAt(pat, if positive then p + 1 else p + 2, es, e - 1)
  {
    var t, u := SetText(Bracket(positive, es)), ElementsText(es);
    var n := if positive then 1 else 2;
    assert forall j :: p <= j < e ==> pat[j] == pat[p..e][j - p];
    assert pat[p + n..e - 1] == pat[p..e][n..|t| - 1] == u;
  }

  /** The other items. */
  lemma OtherItems(before: seq<byte>, x: byte, y: byte, rest: seq<byte>)
    ensures ItemAt(before, |before|) == End
    ensures ItemAt(before + ['$' as int], |before|) == AtEnd
    ensures ItemAt(before + ['(' as int, ')' as int] + rest, |before|) == Open(POSITION, |before| + 2)
    ensures rest == [] || rest[0] != ')' as int ==> ItemAt(before + ['(' as int] + rest, |before|) == Open(UNFINISHED, |before| + 1)
    ensures ItemAt(before + [')' as int] + rest, |before|) == Close(|before| + 1)
    ensures ItemAt(before + ['%' as int, 'b' as int, x, y] + rest, |before|) == Balance(x, y, |before| + 4)
    ensures '0' <= x as char <= '9' ==> ItemAt(before + ['%' as int, x] + rest, |before|) == BackReference(x, |before| + 2)
  {
    hide CharsAt, FrontierAt;
    At(before, ['$' as int], []);
    At(before, ['(' as int, ')' as int], rest);
    At(before, ['(' as int], rest);
    At(before, [')' as int], rest);
    At(before, ['%' as int, 'b' as int, x, y], rest);
    At(before, ['%' as int, x], rest);
  }

  lemma At(before: seq<byte>, t: seq<byte>, rest: seq<byte>)
    ensures forall i :: 0 <= i < |t| ==> (before + t + rest)[|before| + i] == t[i]
    ensures before + t + [] == before + t
    ensures rest != [] ==> (before + t + rest)[|before| + |t|] == rest[0]
  {
  }

  /** A frontier, of a set between brackets. */
  lemma FrontierRead(before: seq<byte>, positive: bool, es: seq<Element>, rest: seq<byte>)
    requires WritableSet(Bracket(positive, es))
    ensures var p := before + ['%' as int, 'f' as int] + SetText(Bracket(positive, es));
            ItemAt(p + rest, |before|) == Frontier(Bracket(positive, es), |p|)
  {
    var t := SetText(Bracket(positive, es));
    var p := before + ['%' as int, 'f' as int] + t;
    var pat := p + rest;
    assert pat[|before|] == '%' as int && pat[|before| + 1] == 'f' as int && pat[|before| + 2] == t[0];
    assert pat[|before| + 2..|p|] == t;
    BracketSet(pat, |before| + 2, positive, es, |p|);
  }
}
