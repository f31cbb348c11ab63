/** Backtracking finds the best match of a pattern (apps/lua/lstrlib.c:361-524). */
module LuaSearch {
  import opened LuaPattern

  // ---------- the order of preference ----------

  lemma {:induction false} PreferredOneWay(pat: seq<byte>, p: nat, ks: seq<nat>, ks': seq<nat>)
    requires Preferred(pat, p, ks, ks')
    ensures !Preferred(pat, p, ks', ks)
    decreases |pat| - p
  {
    var item := ItemAt(pat, p);
    if !item.Chars? {
      PreferredOneWay(pat, item.next, ks, ks');
    } else if ks[0] == ks'[0] {
      PreferredOneWay(pat, item.next, ks[1..], ks'[1..]);
    }
  }

  lemma BestIsOne(src: seq<byte>, pat: seq<byte>, p: nat, s: nat, caps: seq<Capture>, r: Outcome, r': Outcome)
    requires Best(src, pat, p, s, caps, r) && Best(src, pat, p, s, caps, r')
    ensures r == r'
  {
    if !r.Stuck? && !r'.Stuck? {
      var ks :| BestChoice(src, pat, p, s, caps, r, ks);
      var ks' :| BestChoice(src, pat, p, s, caps, r', ks');
      if ks != ks' {
        PreferredOneWay(pat, p, ks, ks');
      }
    }
  }

  // ---------- balanced texts ----------

  lemma BalancedOnce(src: seq<byte>, s: nat, x: byte, y: byte, e: nat, e': nat)
    requires Balanced(src, s, x, y, e) && Balanced(src, s, x, y, e')
    ensures e == e'
  {
  }

  lemma {:induction false} NestingSnoc(t: seq<byte>, c: byte, x: byte, y: byte)
    ensures Nesting(t + [c], x, y) == Nesting(t, x, y) + (if c == y then -1 else if c == x then 1 else 0)
  {
    if t == [] {
      assert t + [c] == [c];
    } else {
      assert (t + [c])[1..] == t[1..] + [c];
      NestingSnoc(t[1..], c, x, y);
    }
  }

  // ---------- backtracking ----------

  ghost function MaxRun(src: seq<byte>, s: nat, cs: CharSet): nat
    decreases |src| - s
  {
    if Single(src, s, cs) then 1 + MaxRun(src, s + 1, cs) else 0
  }

  lemma {:induction false} RunsUpTo(src: seq<byte>, s: nat, cs: CharSet, k: nat)
    ensures Run(src, s, cs, k) <==> k <= MaxRun(src, s, cs)
    decreases |src| - s
  {
    if Single(src, s, cs) && k > 0 {
      RunsUpTo(src, s + 1, cs, k - 1);
      assert Run(src, s, cs, k) <==> Run(src, s + 1, cs, k - 1);
    }
  }

  /** What the search finds from 's' on with the pattern from 'p' on. */
  ghost function Eval(src: seq<byte>, pat: seq<byte>, p: nat, s: nat, caps: seq<Capture>): Outcome
    decreases |pat| - p, 0, 0
  {
    match ItemAt(pat, p)
    case End => Found(s, caps)
    case AtEnd => if s == |src| then Found(s, caps) else Stuck
    case Bad(e) => Raise(e)
    case Open(len, q) =>
      if |caps| < MAXCAPTURES then Eval(src, pat, q, s, caps + [Capture(s, len)]) else Raise(TooManyCaptures)
    case Close(q) =>
      (match ToClose(caps)
       case Some(l) => Eval(src, pat, q, s, Closed(caps, l, s))
       case None => Raise(InvalidCapture))
    case Balance(x, y, q) => if e: nat :| Balanced(src, s, x, y, e) then Eval(src, pat, q, e, caps) else Stuck
    case Frontier(cs, q) => if AtFrontier(src, s, cs) then Eval(src, pat, q, s, caps) else Stuck
    case BackReference(l, q) =>
      if !Referable(caps, l) then Raise(InvalidIndex(l - 48))
      else if Repeated(src, s, caps[l - 49]) then Eval(src, pat, q, s + caps[l - 49].len, caps)
      else Stuck
    case Chars(cs, rep, q) =>
      match rep
      case Once => if Single(src, s, cs) then Eval(src, pat, q, s + 1, caps) else Stuck
      case Optional =>
        if Single(src, s, cs) && !Eval(src, pat, q, s + 1, caps).Stuck? then Eval(src, pat, q, s + 1, caps)
        else Eval(src, pat, q, s, caps)
      case Star => Longest(src, pat, q, s, caps, MaxRun(src, s, cs))
      case Plus => if Single(src, s, cs) then Longest(src, pat, q, s + 1, caps, MaxRun(src, s + 1, cs)) else Stuck
      case Lazy => Shortest(src, pat, q, s, caps, cs)
  }

  /** 'k' characters, or fewer. */
  ghost function Longest(src: seq<byte>, pat: seq<byte>, q: nat, s: nat, caps: seq<Capture>, k: nat): Outcome
    decreases |pat| - q, 1, k
  {
    var r := Eval(src, pat, q, s + k, caps);
    if r.Stuck? && k > 0 then Longest(src, pat, q, s, caps, k - 1) else r
  }

  ghost function Shortest(src: seq<byte>, pat: seq<byte>, q: nat, s: nat, caps: seq<Capture>, cs: CharSet): Outcome
    decreases |pat| - q, 1, |src| - s
  {
    var r := Eval(src, pat, q, s, caps);
    if r.Stuck? && Single(src, s, cs) then Shortest(src, pat, q, s + 1, caps, cs) else r
  }

  /** 't' is where the set of characters has been used. */
  lemma {:induction false} LongestFirst(src: seq<byte>, pat: seq<byte>, q: nat, s: nat, caps: seq<Capture>, n: nat) returns (t: nat)
    ensures s <= t <= s + n && Longest(src, pat, q, s, caps, n) == Eval(src, pat, q, t, caps)
    ensures forall i: nat :: t < i <= s + n ==> Eval(src, pat, q, i, caps).Stuck?
    ensures Eval(src, pat, q, t, caps).Stuck? ==> t == s
    decreases n
  {
    if Eval(src, pat, q, s + n, caps).Stuck? && n > 0 {
      t := LongestFirst(src, pat, q, s, caps, n - 1);
    } else {
      t := s + n;
    }
  }

  lemma {:induction false} ShortestFirst(src: seq<byte>, pat: seq<byte>, q: nat, s: nat, caps: seq<Capture>, cs: CharSet) returns (t: nat)
    ensures s <= t <= s + MaxRun(src, s, cs) && Shortest(src, pat, q, s, caps, cs) == Eval(src, pat, q, t, caps)
    ensures forall i: nat :: s <= i < t ==> Eval(src, pat, q, i, caps).Stuck?
    ensures Eval(src, pat, q, t, caps).Stuck? ==> t == s + MaxRun(src, s, cs)
    decreases |src| - s
  {
    if Eval(src, pat, q, s, caps).Stuck? && Single(src, s, cs) {
      t := ShortestFirst(src, pat, q, s + 1, caps, cs);
    } else {
      t := s;
    }
  }

  // ---------- it is the best match ----------

  /** An end of the repetition that 'rep' likes better. */
  predicate Sooner(rep: Repeat, t: nat, u: nat) {
    if rep == Lazy then t < u else t > u
  }

  ghost predicate Usable(src: seq<byte>, s: nat, cs: CharSet, rep: Repeat, t: nat) {
    s <= t && Allowed(rep, t - s) && Run(src, s, cs, t - s)
  }

  lemma CharsBest(src: seq<byte>, pat: seq<byte>, p: nat, s: nat, caps: seq<Capture>, r: Outcome, t: nat)
    requires var item := ItemAt(pat, p);
             && item.Chars? && Usable(src, s, item.cs, item.rep, t) && Best(src, pat, item.next, t, caps, r) && !r.Stuck?
             && forall u: nat :: Usable(src, s, item.cs, item.rep, u) && Sooner(item.rep, u, t) ==> Best(src, pat, item.next, u, caps, Stuck)
    ensures Best(src, pat, p, s, caps, r)
  {
    var item := ItemAt(pat, p);
    var q := item.next;
    var rest :| BestChoice(src, pat, q, t, caps, r, rest);
    var ks := [t - s] + rest;
    assert ks[1..] == rest;
    forall ks' | ks' != ks && !Follow(src, pat, p, s, caps, ks').Stuck? ensures Preferred(pat, p, ks, ks') {
      var u := s + ks'[0];
      assert Usable(src, s, item.cs, item.rep, u);
      assert ks' == [ks'[0]] + ks'[1..];
      if u == t {
        assert ks'[1..] != rest;
      } else {
        assert !Follow(src, pat, q, u, caps, ks'[1..]).Stuck?;
      }
    }
    assert BestChoice(src, pat, p, s, caps, r, ks);
  }

  lemma CharsStuck(src: seq<byte>, pat: seq<byte>, p: nat, s: nat, caps: seq<Capture>)
    requires var item := ItemAt(pat, p);
             && item.Chars?
             && forall u: nat :: Usable(src, s, item.cs, item.rep, u) ==> Best(src, pat, item.next, u, caps, Stuck)
    ensures Best(src, pat, p, s, caps, Stuck)
  {
    var item := ItemAt(pat, p);
    forall ks | ks != [] && Usable(src, s, item.cs, item.rep, s + ks[0]) ensures Follow(src, pat, p, s, caps, ks).Stuck? {
      assert Best(src, pat, item.next, s + ks[0], caps, Stuck);
    }
  }

  /** How far the search uses a set of characters. */
  lemma CharsChosen(src: seq<byte>, pat: seq<byte>, p: nat, s: nat, caps: seq<Capture>) returns (t: nat)
    requires ItemAt(pat, p).Chars?
    ensures var item := ItemAt(pat, p); var r := Eval(src, pat, p, s, caps);
            && (!r.Stuck? ==> Usable(src, s, item.cs, item.rep, t) && Eval(src, pat, item.next, t, caps) == r)
            && forall u: nat :: Usable(src, s, item.cs, item.rep, u) && (r.Stuck? || Sooner(item.rep, u, t)) ==>
                 Eval(src, pat, item.next, u, caps).Stuck?
  {
    var item := ItemAt(pat, p);
    var cs, rep, q, n := item.cs, item.rep, item.next, MaxRun(src, s, item.cs);
    forall u: nat ensures Usable(src, s, cs, rep, u) <==> s <= u <= s + n && Allowed(rep, u - s) {
      if s <= u {
        RunsUpTo(src, s, cs, u - s);
      }
    }
    match rep
    case Once => t := s + 1;
    case Optional => t := if Single(src, s, cs) && !Eval(src, pat, q, s + 1, caps).Stuck? then s + 1 else s;
    case Star => t := LongestFirst(src, pat, q, s, caps, n);
    case Plus =>
      t := s + 1;
      if Single(src, s, cs) {
        t := LongestFirst(src, pat, q, s + 1, caps, n - 1);
      }
    case Lazy => t := ShortestFirst(src, pat, q, s, caps, cs);
  }

  lemma {:induction false} EvalBest(src: seq<byte>, pat: seq<byte>, p: nat, s: nat, caps: seq<Capture>)
    ensures Best(src, pat, p, s, caps, Eval(src, pat, p, s, caps))
    decreases |pat| - p, 0
  {
    match ItemAt(pat, p)
    case End => assert BestChoice(src, pat, p, s, caps, Found(s, caps), []);
    case AtEnd =>
      if s == |src| {
        assert BestChoice(src, pat, p, s, caps, Found(s, caps), []);
      }
    case Bad(e) => assert BestChoice(src, pat, p, s, caps, Raise(e), []);
    case Open(len, q) =>
      if |caps| < MAXCAPTURES {
        BestNext(src, pat, p, s, caps, q, s, caps + [Capture(s, len)]);
      } else {
        assert BestChoice(src, pat, p, s, caps, Raise(TooManyCaptures), []);
      }
    case Close(q) =>
      match ToClose(caps) {
        case Some(l) => BestNext(src, pat, p, s, caps, q, s, Closed(caps, l, s));
        case None => assert BestChoice(src, pat, p, s, caps, Raise(InvalidCapture), []);
      }
    case Balance(x, y, q) =>
      if e: nat :| Balanced(src, s, x, y, e) {
        forall e': nat | Balanced(src, s, x, y, e') ensures e' == e {
          BalancedOnce(src, s, x, y, e, e');
        }
        BestNext(src, pat, p, s, caps, q, e, caps);
      }
    case Frontier(cs, q) =>
      if AtFrontier(src, s, cs) {
        BestNext(src, pat, p, s, caps, q, s, caps);
      }
    case BackReference(l, q) =>
      if !Referable(caps, l) {
        assert BestChoice(src, pat, p, s, caps, Raise(InvalidIndex(l - 48)), []);
      } else if Repeated(src, s, caps[l - 49]) {
        BestNext(src, pat, p, s, caps, q, s + caps[l - 49].len, caps);
      }
    case Chars(cs, rep, q) =>
      forall t: nat ensures Best(src, pat, q, t, caps, Eval(src, pat, q, t, caps)) {
        EvalBest(src, pat, q, t, caps);
      }
      var t := CharsChosen(src, pat, p, s, caps);
      if Eval(src, pat, p, s, caps).Stuck? {
        CharsStuck(src, pat, p, s, caps);
      } else {
        CharsBest(src, pat, p, s, caps, Eval(src, pat, p, s, caps), t);
      }
  }

  /** Items without a choice hand it on. */
  lemma {:induction false} BestNext(src: seq<byte>, pat: seq<byte>, p: nat, s: nat, caps: seq<Capture>, q: nat, s': nat, caps': seq<Capture>)
    requires var item := ItemAt(pat, p); !item.End? && !item.Bad? && !item.AtEnd? && !item.Chars? && item.next == q
    requires forall ks :: Follow(src, pat, p, s, caps, ks) == Follow(src, pat, q, s', caps', ks)
    requires Eval(src, pat, p, s, caps) == Eval(src, pat, q, s', caps')
    ensures Best(src, pat, p, s, caps, Eval(src, pat, p, s, caps))
    decreases |pat| - q, 1
  {
    var r := Eval(src, pat, q, s', caps');
    EvalBest(src, pat, q, s', caps');
    if !r.Stuck? {
      var ks :| BestChoice(src, pat, q, s', caps', r, ks);
      assert BestChoice(src, pat, p, s, caps, r, ks);
    }
  }

  /** The search finds the best match and nothing else. */
  lemma SearchIsBest(src: seq<byte>, pat: seq<byte>, p: nat, s: nat, caps: seq<Capture>, r: Outcome)
    ensures r == Eval(src, pat, p, s, caps) <==> Best(src, pat, p, s, caps, r)
  {
    EvalBest(src, pat, p, s, caps);
    if Best(src, pat, p, s, caps, r) {
      BestIsOne(src, pat, p, s, caps, r, Eval(src, pat, p, s, caps));
    }
  }
}
