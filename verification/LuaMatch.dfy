/** The pattern matcher (apps/lua/lstrlib.c:206-524, 607-651), which keeps its captures in
    place and undoes them when it backtracks. */
module LuaMatch {
  import opened LuaPattern
  import opened LuaSearch

  const MAXCCALLS := 200

  /** A result of 'match': a position, NULL, or the error that ends the call. */
  datatype Verdict = Matched(end: nat) | NoMatch | Error(e: Error)

  /** Going on with the next item, or ending the loop of 'match'. */
  datatype Move = Continue(s: nat, p: nat) | Break(r: Verdict)

  /** A result of the search through the source. */
  datatype Finding = At(start: nat, end: nat, caps: seq<Capture>) | Nowhere | Failed(e: Error)

  ghost predicate CaptureOK(src: seq<byte>, s: nat, c: Capture) {
    c.init <= s && POSITION <= c.len && c.init + c.len <= |src|
  }

  ghost predicate CapturesOK(src: seq<byte>, s: nat, caps: seq<Capture>) {
    s <= |src| && forall i :: 0 <= i < |caps| ==> CaptureOK(src, s, caps[i])
  }

  /** The value of a capture: a text, or a position counted from 1. */
  datatype Captured = Text(t: seq<byte>) | Position(p: int)

  /** An unfinished capture has none. */
  function ValueOf(src: seq<byte>, c: Capture): Captured {
    if c.len == POSITION then Position(c.init + 1)
    else if 0 <= c.len && c.init + c.len <= |src| then Text(src[c.init..c.init + c.len])
    else Text([])
  }

  function ValuesOf(src: seq<byte>, caps: seq<Capture>): (vs: seq<Captured>)
    ensures |vs| == |caps| && forall i :: 0 <= i < |caps| ==> vs[i] == ValueOf(src, caps[i])
  {
    seq(|caps|, i requires 0 <= i < |caps| => ValueOf(src, caps[i]))
  }

  /** The values of all captures, if all are finished. */
  ghost function Values(src: seq<byte>, caps: seq<Capture>, whole: Option<(nat, nat)>): Option<seq<Captured>> {
    if caps == [] then
      Some(if whole.Some? && whole.value.0 <= whole.value.1 <= |src| then [Text(src[whole.value.0..whole.value.1])] else [])
    else if exists i :: 0 <= i < |caps| && caps[i].len == UNFINISHED then None
    else Some(ValuesOf(src, caps))
  }

  ghost predicate AnyElement(c: byte, es: seq<Element>) {
    exists e :: e in es && InElement(c, e)
  }

  lemma ElementsStep(c: byte, e: Element, es: seq<Element>)
    ensures AnyElement(c, [e] + es) <==> InElement(c, e) || AnyElement(c, es)
  {
    if AnyElement(c, [e] + es) {
      var x :| x in [e] + es && InElement(c, x);
      assert x == e || x in es;
    }
    if InElement(c, e) {
      assert e in [e] + es;
    }
    if AnyElement(c, es) {
      var x :| x in es && InElement(c, x);
      assert x in [e] + es;
    }
  }

  /** matchbracketclass (lstrlib.c:302-322); 'ec' is the closing bracket. */
  method MatchBracketClass(pat: seq<byte>, c: byte, p: nat, ec: nat) returns (r: bool)
    ensures r <==> InSet(c, BracketAt(pat, p, ec))
  {
    var sig, i := true, p + 1;
    if C(pat, p + 1) == CARET {
      sig, i := false, p + 2;
    }
    ghost var es := Elements(pat, i, ec);
    assert InSet(c, BracketAt(pat, p, ec)) <==> sig == AnyElement(c, es);
    while i < ec
      invariant AnyElement(c, es) <==> AnyElement(c, Elements(pat, i, ec))
      decreases ec - i
    {
      if C(pat, i) == ESC {
        ElementsStep(c, Class(C(pat, i + 1)), Elements(pat, i + 2, ec));
        if InClass(c, C(pat, i + 1)) {
          return sig;
        }
        i := i + 2;
      } else if C(pat, i + 1) == MINUS && i + 2 < ec {
        ElementsStep(c, Range(C(pat, i), C(pat, i + 2)), Elements(pat, i + 3, ec));
        if C(pat, i) <= c <= C(pat, i + 2) {
          return sig;
        }
        i := i + 3;
      } else {
        ElementsStep(c, Range(C(pat, i), C(pat, i)), Elements(pat, i + 1, ec));
        if C(pat, i) == c {
          return sig;
        }
        i := i + 1;
      }
    }
    assert !AnyElement(c, []);
    r := !sig;
  }

  /** classend (lstrlib.c:258-279) */
  method FindClassEnd(pat: seq<byte>, p: nat) returns (r: ClassExtent)
    requires p < |pat|
    ensures r == ClassEnd(pat, p)
  {
    var i := p + 1;
    if pat[p] == ESC {
      if i == |pat| {
        return Malformed(EndsWithEscape);
      }
      return Ends(i + 1);
    } else if pat[p] == LBRACKET {
      if C(pat, i) == CARET {
        i := i + 1;
      }
      ghost var first := i;
      while true
        invariant BracketEnd(pat, first) == BracketEnd(pat, i)
        invariant i <= |pat|
        decreases |pat| - i
      {
        if i == |pat| {
          return Malformed(MissingBracket);
        }
        var c := pat[i];
        i := i + 1;
        if c == ESC && i < |pat| {
          i := i + 1;
        }
        if C(pat, i) == RBRACKET {
          return Ends(i + 1);
        }
      }
    } else {
      return Ends(i);
    }
  }

  /** matchbalance (lstrlib.c:341-358) */
  method MatchBalance(src: seq<byte>, s: nat, x: byte, y: byte) returns (r: Option<nat>)
    requires s <= |src|
    ensures match r
            case Some(e) => Balanced(src, s, x, y, e)
            case None => forall e: nat :: !Balanced(src, s, x, y, e)
  {
    r := None;
    if C(src, s) == x && s < |src| {
      var cont, i := 1, s + 1;
      ghost var first := i;
      while i < |src|
        invariant first <= i <= |src| && cont >= 1
        invariant cont == 1 + Nesting(src[first..i], x, y)
        invariant forall j: nat :: first <= j <= i ==> !Undone(src, first, j, x, y)
      {
        assert src[first..i + 1] == src[first..i] + [src[i]];
        NestingSnoc(src[first..i], src[i], x, y);
        if src[i] == y {
          cont := cont - 1;
          if cont == 0 {
            return Some(i + 1);
          }
        } else if src[i] == x {
          cont := cont + 1;
        }
        i := i + 1;
      }
    }
  }

  class MatchState {
    const src: seq<byte>
    const pat: seq<byte>
    var matchdepth: int
    var level: nat
    const capture: array<Capture>

    constructor (src: seq<byte>, pat: seq<byte>)
      ensures Valid() && this.src == src && this.pat == pat && matchdepth == MAXCCALLS && level == 0 && fresh(capture)
    {
      this.src, this.pat := src, pat;
      matchdepth, level := MAXCCALLS, 0;
      capture := new Capture[MAXCAPTURES](i => Capture(0, 0));
    }

    ghost predicate Valid()
      reads this
    {
      level <= MAXCAPTURES == capture.Length
    }

    ghost function Caps(): seq<Capture>
      reads this, capture
      requires Valid()
    {
      capture[..level]
    }

    ghost predicate Ready(s: nat, p: nat)
      reads this, capture
    {
      Valid() && p <= |pat| && CapturesOK(src, s, Caps()) && matchdepth >= 0
    }

    /** How a result fits what the search should find: a failure leaves no trace. 'room' is
        how deep calls can nest when the pattern is too complex. */
    ghost predicate Fits(r: Verdict, expected: Outcome, s: nat, before: seq<Capture>, depth: int, room: int)
      reads this, capture
    {
      && Valid()
      && match r
         case Matched(e) => expected == Found(e, Caps()) && s <= e && CapturesOK(src, e, Caps()) && matchdepth == depth
         case NoMatch => expected.Stuck? && Caps() == before && matchdepth == depth
         case Error(e) => if e.TooComplex? then depth <= room else expected == Raise(e)
    }

    /** check_capture (lstrlib.c:242-247) */
    method CheckCapture(l: byte) returns (r: Option<nat>)
      requires Valid()
      ensures r == if Referable(Caps(), l) then Some(l - 49) else None
    {
      var i := l - 49;
      if i < 0 || i >= level || capture[i].len == UNFINISHED {
        return None;
      }
      return Some(i);
    }

    /** capture_to_close (lstrlib.c:250-255) */
    method CaptureToClose() returns (r: Option<nat>)
      requires Valid()
      ensures r == ToClose(Caps())
    {
      var l := level - 1;
      while l >= 0
        invariant -1 <= l < level
        invariant forall i :: l < i < level ==> capture[i].len != UNFINISHED
      {
        if capture[l].len == UNFINISHED {
          return Some(l);
        }
        l := l - 1;
      }
      return None;
    }

    /** singlematch (lstrlib.c:325-338) */
    method SingleMatch(s: nat, p: nat, ep: nat) returns (r: bool)
      requires p < |pat| && ep > 0
      ensures r <==> Single(src, s, SetAt(pat, p, ep))
    {
      if s >= |src| {
        return false;
      }
      var c := src[s];
      if pat[p] == DOT {
        return true;
      } else if pat[p] == ESC {
        return InClass(c, C(pat, p + 1));
      } else if pat[p] == LBRACKET {
        r := MatchBracketClass(pat, c, p, ep - 1);
      } else {
        return pat[p] == c;
      }
    }

    /** max_expand (lstrlib.c:361-373) */
    method MaxExpand(s: nat, p: nat, ep: nat) returns (r: Verdict)
      requires p < ep < |pat| && Ready(s, ep + 1)
      modifies this, capture
      ensures Fits(r, old(Longest(src, pat, ep + 1, s, Caps(), MaxRun(src, s, SetAt(pat, p, ep)))), s,
                   old(Caps()), old(matchdepth), |pat| - (ep + 1))
      decreases |pat| - (ep + 1), 4
    {
      ghost var before := Caps();
      var i: int := CountRun(s, p, ep);
      ghost var n := i;
      while i >= 0
        invariant -1 <= i && s + i <= |src| && Ready(s, ep + 1) && Caps() == before && matchdepth == old(matchdepth)
        invariant if i >= 0 then Longest(src, pat, ep + 1, s, before, n) == Longest(src, pat, ep + 1, s, before, i)
                  else Longest(src, pat, ep + 1, s, before, n).Stuck?
      {
        Later(s, s + i);
        r := Match(s + i, ep + 1);
        if !r.NoMatch? {
          return;
        }
        i := i - 1;
      }
      return NoMatch;
    }

    /** The first loop of max_expand (lstrlib.c:363-365). */
    method CountRun(s: nat, p: nat, ep: nat) returns (i: nat)
      requires p < |pat| && ep > 0 && s <= |src|
      ensures i == MaxRun(src, s, SetAt(pat, p, ep)) && s + i <= |src|
    {
      hide Single;
      ghost var cs := SetAt(pat, p, ep);
      i := 0;
      while true
        invariant s + i <= |src| && i + MaxRun(src, s + i, cs) == MaxRun(src, s, cs)
        decreases |src| - (s + i)
      {
        var more := SingleMatch(s + i, p, ep);
        if !more {
          return;
        }
        SingleInside(s + i, cs);
        i := i + 1;
      }
    }

    lemma SingleInside(s: nat, cs: CharSet)
      requires Single(src, s, cs)
      ensures s < |src|
    {
    }

    /** Captures that are right stay right further on. */
    lemma Later(s: nat, s': nat)
      requires Valid() && CapturesOK(src, s, Caps()) && s <= s' <= |src|
      ensures CapturesOK(src, s', Caps())
    {
      forall i | 0 <= i < |Caps()| ensures CaptureOK(src, s', Caps()[i]) {
        assert CaptureOK(src, s, Caps()[i]);
      }
    }

    /** min_expand (lstrlib.c:376-386) */
    method MinExpand(s0: nat, p: nat, ep: nat) returns (r: Verdict)
      requires p < ep < |pat| && Ready(s0, ep + 1)
      modifies this, capture
      ensures Fits(r, old(Shortest(src, pat, ep + 1, s0, Caps(), SetAt(pat, p, ep))), s0,
                   old(Caps()), old(matchdepth), |pat| - (ep + 1))
      decreases |pat| - (ep + 1), 4
    {
      ghost var cs, before := SetAt(pat, p, ep), Caps();
      var s := s0;
      while true
        invariant s0 <= s && Ready(s, ep + 1) && Caps() == before && matchdepth == old(matchdepth)
        invariant Shortest(src, pat, ep + 1, s0, before, cs) == Shortest(src, pat, ep + 1, s, before, cs)
        decreases |src| - s
      {
        r := Match(s, ep + 1);
        if !r.NoMatch? {
          return;
        }
        var more := SingleMatch(s, p, ep);
        if !more {
          return NoMatch;
        }
        Later(s, s + 1);
        s := s + 1;
      }
    }

    /** start_capture (lstrlib.c:389-400) */
    method StartCapture(s: nat, p: nat, what: int) returns (r: Verdict)
      requires Ready(s, p) && (what == POSITION || what == UNFINISHED)
      modifies this, capture
      ensures Fits(r, old(if level < MAXCAPTURES then Eval(src, pat, p, s, Caps() + [Capture(s, what)]) else Raise(TooManyCaptures)),
                   s, old(Caps()), old(matchdepth), |pat| - p)
      decreases |pat| - p, 4
    {
      if level >= MAXCAPTURES {
        return Error(TooManyCaptures);
      }
      ghost var before := Caps();
      capture[level] := Capture(s, what);
      level := level + 1;
      assert Caps() == before + [Capture(s, what)];
      r := Match(s, p);
      if r.NoMatch? {
        assert Caps()[..|before|] == before;
        level := level - 1;
        assert Caps() == before;
      }
    }

    /** end_capture (lstrlib.c:403-411) */
    method EndCapture(s: nat, p: nat) returns (r: Verdict)
      requires Ready(s, p)
      modifies this, capture
      ensures Fits(r, old(match ToClose(Caps())
                          case Some(l) => Eval(src, pat, p, s, Closed(Caps(), l, s))
                          case None => Raise(InvalidCapture)),
                   s, old(Caps()), old(matchdepth), |pat| - p)
      decreases |pat| - p, 4
    {
      var close := CaptureToClose();
      match close {
        case None => return Error(InvalidCapture);
        case Some(l) =>
          ghost var before := Caps();
          assert CaptureOK(src, s, before[l]);
          capture[l] := Capture(capture[l].init, s - capture[l].init);
          assert Caps() == Closed(before, l, s);
          r := Match(s, p);
          if r.NoMatch? {
            capture[l] := Capture(capture[l].init, UNFINISHED);
            assert Caps() == before;
          }
      }
    }

    /** match_capture (lstrlib.c:414-422) */
    method MatchCapture(s: nat, l: byte) returns (r: Verdict)
      requires Valid() && CapturesOK(src, s, Caps())
      ensures r == if !Referable(Caps(), l) then Error(InvalidIndex(l - 48))
                   else if Repeated(src, s, Caps()[l - 49]) then Matched(s + Caps()[l - 49].len)
                   else NoMatch
    {
      var index := CheckCapture(l);
      match index {
        case None => return Error(InvalidIndex(l - 48));
        case Some(i) =>
          assert CaptureOK(src, s, Caps()[i]);
          var c := capture[i];
          // as an unsigned number, CAP_POSITION is longer than any string
          if 0 <= c.len <= |src| - s && src[c.init..c.init + c.len] == src[s..s + c.len] {
            return Matched(s + c.len);
          }
          return NoMatch;
      }
    }

    /** The escape sequences that are no class (lstrlib.c:448-482). */
    method MatchEscape(s: nat, p: nat) returns (m: Move)
      requires Ready(s, p) && p < |pat| && !ItemAt(pat, p).Chars?
      requires pat[p] == ESC && (C(pat, p + 1) == LETTER_B || C(pat, p + 1) == LETTER_F || IsDigit(C(pat, p + 1)))
      ensures Moves(m, s, p)
    {
      if pat[p + 1] == LETTER_B {
        m := MatchBalanced(s, p);
      } else if pat[p + 1] == LETTER_F {
        m := MatchFrontier(s, p);
      } else {
        var r := MatchCapture(s, pat[p + 1]);
        match r {
          case Matched(e) =>
            Later(s, e);
            return Continue(e, p + 2);
          case _ => return Break(r);
        }
      }
    }

    /** '%b' (lstrlib.c:450-456) */
    method MatchBalanced(s: nat, p: nat) returns (m: Move)
      requires Ready(s, p) && p + 1 < |pat| && pat[p] == ESC && pat[p + 1] == LETTER_B
      ensures Moves(m, s, p)
    {
      if p + 2 >= |pat| - 1 {
        return Break(Error(MissingArguments));
      }
      ghost var x, y := pat[p + 2], pat[p + 3];
      var end := MatchBalance(src, s, pat[p + 2], pat[p + 3]);
      match end {
        case None => return Break(NoMatch);
        case Some(e) =>
          forall e': nat | Balanced(src, s, x, y, e') ensures e' == e {
            BalancedOnce(src, s, x, y, e, e');
          }
          Later(s, e);
          return Continue(e, p + 4);
      }
    }

    /** '%f' (lstrlib.c:457-470) */
    method MatchFrontier(s: nat, p: nat) returns (m: Move)
      requires Ready(s, p) && p + 1 < |pat| && pat[p] == ESC && pat[p + 1] == LETTER_F
      ensures Moves(m, s, p)
    {
      if C(pat, p + 2) != LBRACKET {
        return Break(Error(MissingSet));
      }
      var extent := FindClassEnd(pat, p + 2);
      match extent {
        case Malformed(e) => return Break(Error(e));
        case Ends(ep) =>
          var previous := if s == 0 then 0 else src[s - 1];
          var before := MatchBracketClass(pat, previous, p + 2, ep - 1);
          var behind := MatchBracketClass(pat, C(src, s), p + 2, ep - 1);
          if !before && behind {
            return Continue(s, ep);
          }
          return Break(NoMatch);
      }
    }

    /** A step of the loop without nested calls: to a later item that decides, or to the end. */
    ghost predicate Moves(m: Move, s: nat, p: nat)
      reads this, capture
      requires Valid()
    {
      match m
      case Continue(s', p') =>
        s <= s' && p < p' && Ready(s', p') && Eval(src, pat, p, s, Caps()) == Eval(src, pat, p', s', Caps())
      case Break(r) => Fits(r, Eval(src, pat, p, s, Caps()), s, Caps(), matchdepth, -1) && !r.Matched?
    }

    /** A set of characters with its suffix (lstrlib.c:484-520). */
    method MatchChars(s: nat, p: nat) returns (m: Move)
      requires Ready(s, p) && p < |pat| && ItemAt(pat, p) == CharsAt(pat, p)
      modifies this, capture
      ensures match m
              case Continue(s', p') =>
                s <= s' && p < p' && Ready(s', p') && Caps() == old(Caps()) && matchdepth == old(matchdepth)
                && old(Eval(src, pat, p, s, Caps())) == Eval(src, pat, p', s', Caps())
              case Break(r) => Fits(r, old(Eval(src, pat, p, s, Caps())), s, old(Caps()), old(matchdepth), |pat| - p - 1)
      decreases |pat| - p, 1
    {
      var extent := FindClassEnd(pat, p);
      if extent.Malformed? {
        return Break(Error(extent.e));
      }
      var ep := extent.ep;
      var suffix := C(pat, ep);
      var one := SingleMatch(s, p, ep);
      if !one {
        if suffix == STAR || suffix == QUESTION || suffix == MINUS {
          return Continue(s, ep + 1);
        }
        return Break(NoMatch);
      }
      Later(s, s + 1);
      if suffix == QUESTION {
        var r := Match(s + 1, ep + 1);
        if r.NoMatch? {
          return Continue(s, ep + 1);
        }
        return Break(r);
      } else if suffix == PLUS {
        var r := MaxExpand(s + 1, p, ep);
        return Break(r);
      } else if suffix == STAR {
        var r := MaxExpand(s, p, ep);
        return Break(r);
      } else if suffix == MINUS {
        var r := MinExpand(s, p, ep);
        return Break(r);
      } else {
        return Continue(s + 1, ep);
      }
    }

    /** The switch of 'match' (lstrlib.c:430-521). */
    method MatchItem(s: nat, p: nat) returns (m: Move)
      requires Ready(s, p) && p < |pat|
      modifies this, capture
      ensures match m
              case Continue(s', p') =>
                s <= s' && p < p' && Ready(s', p') && Caps() == old(Caps()) && matchdepth == old(matchdepth)
                && old(Eval(src, pat, p, s, Caps())) == Eval(src, pat, p', s', Caps())
              case Break(r) => Fits(r, old(Eval(src, pat, p, s, Caps())), s, old(Caps()), old(matchdepth), |pat| - p - 1)
      decreases |pat| - p, 2
    {
      if pat[p] == OPEN {
        var position := C(pat, p + 1) == CLOSE;
        var r := StartCapture(s, if position then p + 2 else p + 1, if position then POSITION else UNFINISHED);
        return Break(r);
      } else if pat[p] == CLOSE {
        var r := EndCapture(s, p + 1);
        return Break(r);
      } else if pat[p] == DOLLAR && p + 1 == |pat| {
        return Break(if s == |src| then Matched(s) else NoMatch);
      } else if pat[p] == ESC && (C(pat, p + 1) == LETTER_B || C(pat, p + 1) == LETTER_F || IsDigit(C(pat, p + 1))) {
        m := MatchEscape(s, p);
      } else {
        m := MatchChars(s, p);
      }
    }

    /** match (lstrlib.c:425-524) */
    method Match(s0: nat, p0: nat) returns (r: Verdict)
      requires Ready(s0, p0)
      modifies this, capture
      ensures Fits(r, old(Eval(src, pat, p0, s0, Caps())), s0, old(Caps()), old(matchdepth), |pat| - p0)
      decreases |pat| - p0, 3
    {
      if matchdepth == 0 {
        matchdepth := -1;
        return Error(TooComplex);
      }
      matchdepth := matchdepth - 1;
      var s, p := s0, p0;
      while p != |pat|
        invariant s0 <= s && p0 <= p && Ready(s, p) && Caps() == old(Caps()) && matchdepth == old(matchdepth) - 1
        invariant old(Eval(src, pat, p0, s0, Caps())) == Eval(src, pat, p, s, Caps())
        decreases |pat| - p
      {
        var m := MatchItem(s, p);
        match m {
          case Continue(s', p') => s, p := s', p';
          case Break(r') =>
            if !r'.Error? {
              matchdepth := matchdepth + 1;
            }
            return r';
        }
      }
      matchdepth := matchdepth + 1;
      return Matched(s);
    }

    /** push_captures (lstrlib.c:550-576): the values of the captures, or the whole match if
        there are none and it is wanted; nothing if a capture was not closed. */
    method PushCaptures(s: nat, e: nat, whole: bool) returns (r: Option<seq<Captured>>)
      requires Valid() && s <= e <= |src| && CapturesOK(src, e, Caps())
      ensures r == Values(src, Caps(), if whole then Some((s, e)) else None)
    {
      ghost var caps := Caps();
      if level == 0 {
        return Some(if whole then [Text(src[s..e])] else []);
      }
      var values: seq<Captured> := [];
      for i := 0 to level
        invariant Caps() == caps && |values| == i
        invariant forall j :: 0 <= j < i ==> caps[j].len != UNFINISHED && values[j] == ValueOf(src, caps[j])
      {
        assert CaptureOK(src, e, caps[i]);
        var c := capture[i];
        if c.len == UNFINISHED {
          return None;
        }
        values := values + [if c.len == POSITION then Position(c.init + 1) else Text(src[c.init..c.init + c.len])];
      }
      assert values == ValuesOf(src, caps);
      return Some(values);
    }

    /** The search for the first match from 'init' on, or at 'init' only
        (lstrlib.c:601-604, 628-647). */
    method Search(init: nat, anchor: bool) returns (r: Finding)
      requires Valid() && matchdepth == MAXCCALLS && init <= |src|
      modifies this, capture
      ensures Valid() && (!r.Failed? ==> matchdepth == MAXCCALLS)
      ensures r == Failed(TooComplex) ==> MAXCCALLS <= |pat|
      ensures r != Failed(TooComplex) ==> IsFirst(src, pat, init, anchor, r)
    {
      var s := init;
      while true
        invariant Valid() && init <= s <= |src| && matchdepth == MAXCCALLS && (anchor ==> s == init)
        invariant forall i: nat :: init <= i < s ==> Best(src, pat, 0, i, [], Stuck)
        decreases |src| - s
      {
        level := 0;
        assert Caps() == [];
        var v := Match(s, 0);
        SearchIsBest(src, pat, 0, s, [], Eval(src, pat, 0, s, []));
        match v {
          case Matched(e) =>
            return At(s, e, capture[..level]);
          case Error(e) =>
            assert e.TooComplex? || FirstAt(src, pat, init, anchor, s, Raise(e));
            return Failed(e);
          case NoMatch =>
            assert Best(src, pat, 0, s, [], Stuck);
            if s == |src| || anchor {
              return Nowhere;
            }
        }
        s := s + 1;
      }
    }
  }

  /** 'r' tells the best match at the first place from 'init' on that has one. */
  ghost predicate IsFirst(src: seq<byte>, pat: seq<byte>, init: nat, anchor: bool, r: Finding) {
    match r
    case At(s, e, caps) => FirstAt(src, pat, init, anchor, s, Found(e, caps))
    case Failed(e) => exists s: nat :: FirstAt(src, pat, init, anchor, s, Raise(e))
    case Nowhere => forall s: nat :: init <= s <= (if anchor then init else |src|) ==> Best(src, pat, 0, s, [], Stuck)
  }

  ghost predicate FirstAt(src: seq<byte>, pat: seq<byte>, init: nat, anchor: bool, s: nat, o: Outcome) {
    && init <= s <= |src| && (anchor ==> s == init) && Best(src, pat, 0, s, [], o)
    && forall i: nat :: init <= i < s ==> Best(src, pat, 0, i, [], Stuck)
  }
}
