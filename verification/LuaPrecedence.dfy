/** The precedence of operators, as section 3.4.8 of the Lua 5.3 Reference Manual lists it,
    and what 'subexpr' makes of a chain of them (apps/lua/lparser.c:986-1075). */
module LuaPrecedence {
  import opened LuaSubexpr

  /** The groups of binary operators as they are written, from the lowest on. */
  const Levels: seq<seq<(Tok, BinOp)>> := [
    [(TOr, Or)],
    [(TAnd, And)],
    [(TLt, Lt), (TGt, Gt), (TLe, Le), (TGe, Ge), (TNe, Ne), (TEq, Eq)],
    [(TBOr, BOr)],
    [(TTilde, BXor)],
    [(TBAnd, BAnd)],
    [(TShl, Shl), (TShr, Shr)],
    [(TConcat, Concat)],
    [(TAdd, Add), (TMinus, Sub)],
    [(TMul, Mul), (TDiv, Div), (TIDiv, IDiv), (TMod, Mod)],
    [(TPow, Pow)]]

  /** The groups that associate to the right: concatenation and exponentiation. */
  const RightGroups: set<nat> := {7, 10}

  const POWER := 10

  /** Unary operators as they are written. */
  const Unaries: seq<(Tok, UnOp)> := [(TNot, Not), (THash, Len), (TMinus, Minus), (TTilde, BNot)]

  /** An operator of a group. */
  predicate At(g: nat, t: Tok, o: BinOp) {
    g < |Levels| && (t, o) in Levels[g]
  }

  /** The tree that all the tokens are read as. */
  function ReadAs(ts: seq<Tok>): Option<Tree> {
    var p := SubExpr(ts, 0);
    if p.Parsed? && p.rest == [] then Some(Strip(p.text)) else None
  }

  /** After the operator of group 'g', that of group 'h' waits. */
  predicate Before(g: nat, h: nat) {
    g > h || (g == h && g !in RightGroups)
  }

  // ---------- the priorities agree with the list ----------

  function LeftOf(g: nat): nat {
    if g == 0 then 1 else if g == 1 then 2 else if g == 2 then 3 else if g == 3 then 4 else if g == 4 then 5
    else if g == 5 then 6 else if g == 6 then 7 else if g == 7 then 9 else if g == 8 then 10 else if g == 9 then 11 else 14
  }

  predicate Ranked(g: nat, e: (Tok, BinOp)) {
    GetBinOpr(e.0) == Some(e.1) && Left(e.1) == LeftOf(g) && Right(e.1) == if g in RightGroups then LeftOf(g) - 1 else LeftOf(g)
  }

  lemma ComparisonsRanked()
    ensures forall e :: e in Levels[2] ==> Ranked(2, e)
  {
    assert Levels[2] == [(TLt, Lt), (TGt, Gt), (TLe, Le), (TGe, Ge), (TNe, Ne), (TEq, Eq)];
  }

  lemma LowRanked(g: nat)
    requires g < 5 && g != 2
    ensures forall e :: e in Levels[g] ==> Ranked(g, e)
  {
    if g == 0 {
      assert Levels[0] == [(TOr, Or)];
    } else if g == 1 {
      assert Levels[1] == [(TAnd, And)];
    } else if g == 3 {
      assert Levels[3] == [(TBOr, BOr)];
    } else {
      assert Levels[4] == [(TTilde, BXor)];
    }
  }

  lemma HighRanked(g: nat)
    requires 5 <= g < |Levels|
    ensures forall e :: e in Levels[g] ==> Ranked(g, e)
  {
    if g == 5 {
      assert Levels[5] == [(TBAnd, BAnd)];
    } else if g == 6 {
      assert Levels[6] == [(TShl, Shl), (TShr, Shr)];
    } else if g == 7 {
      assert Levels[7] == [(TConcat, Concat)];
    } else if g == 8 {
      assert Levels[8] == [(TAdd, Add), (TMinus, Sub)];
    } else if g == 9 {
      assert Levels[9] == [(TMul, Mul), (TDiv, Div), (TIDiv, IDiv), (TMod, Mod)];
    } else {
      assert Levels[10] == [(TPow, Pow)];
    }
  }

  lemma Priorities(g: nat, t: Tok, o: BinOp)
    requires At(g, t, o)
    ensures GetBinOpr(t) == Some(o) && Left(o) == LeftOf(g) && Right(o) == (if g in RightGroups then LeftOf(g) - 1 else LeftOf(g))
  {
    hide Levels, GetBinOpr, Left, Right, LeftOf;
    if g == 2 {
      ComparisonsRanked();
    } else if g < 5 {
      LowRanked(g);
    } else {
      HighRanked(g);
    }
    assert Ranked(g, (t, o));
  }

  lemma InList(g: nat, t: Tok, o: BinOp)
    requires At(g, t, o)
    ensures g <= POWER
  {
  }

  lemma Waits(g: nat, t: Tok, o: BinOp, h: nat, u: Tok, q: BinOp)
    requires At(g, t, o) && At(h, u, q)
    ensures Left(q) <= Right(o) <==> Before(g, h)
  {
    hide Left, Right, GetBinOpr, Levels;
    InList(g, t, o);
    InList(h, u, q);
    Priorities(g, t, o);
    Priorities(h, u, q);
  }

  lemma UnaryToken(t: Tok, o: UnOp)
    requires (t, o) in Unaries
    ensures GetUnOpr(t) == Some(o)
  {
  }

  /** All operators are in the list. */
  lemma AllListed(o: BinOp)
    ensures exists g: nat, t :: At(g, t, o)
  {
    var t := TokOf(o);
    assert At(0, t, o) || At(1, t, o) || At(2, t, o) || At(3, t, o) || At(4, t, o) || At(5, t, o) || At(6, t, o)
           || At(7, t, o) || At(8, t, o) || At(9, t, o) || At(10, t, o);
  }

  // ---------- what is read ----------

  lemma AtomRead(a: nat, rest: seq<Tok>, limit: nat)
    ensures SubExpr([Atom(a)] + rest, limit) == Expand(Word(a), rest, limit)
  {
    assert ([Atom(a)] + rest)[1..] == rest;
  }

  lemma EndRead(x: Text, limit: nat)
    ensures Expand(x, [], limit) == Parsed(x, [])
  {
  }

  lemma OpRead(x: Text, t: Tok, o: BinOp, rest: seq<Tok>, limit: nat)
    requires GetBinOpr(t) == Some(o) && Left(o) > limit
    ensures var p := SubExpr(rest, Right(o));
            Expand(x, [t] + rest, limit) == if p.Parsed? then Expand(Op(o, x, p.text), p.rest, limit) else SyntaxError
  {
    assert ([t] + rest)[1..] == rest;
  }

  lemma OpWaits(x: Text, t: Tok, o: BinOp, rest: seq<Tok>, limit: nat)
    requires GetBinOpr(t) == Some(o) && Left(o) <= limit
    ensures Expand(x, [t] + rest, limit) == Parsed(x, [t] + rest)
  {
  }

  lemma Above0(o: BinOp)
    ensures Left(o) > 0
  {
  }

  /** 'x o c', read to its end. */
  lemma LastRead(x: Text, t: Tok, o: BinOp, c: nat, limit: nat)
    requires GetBinOpr(t) == Some(o) && Left(o) > limit
    ensures Expand(x, [t, Atom(c)], limit) == Parsed(Op(o, x, Word(c)), [])
  {
    assert [t, Atom(c)] == [t] + [Atom(c)] && [Atom(c)] == [Atom(c)] + [];
    OpRead(x, t, o, [Atom(c)], limit);
    AtomRead(c, [], Right(o));
    EndRead(Word(c), Right(o));
    EndRead(Op(o, x, Word(c)), limit);
  }

  /** After 'a o x', where 'x' is complete. */
  lemma TailRead(g: nat, t: Tok, o: BinOp, x: Text, h: nat, u: Tok, q: BinOp, a: nat, c: nat)
    requires At(g, t, o) && At(h, u, q)
    ensures var p := Expand(x, [u, Atom(c)], Right(o));
            p.Parsed? && Expand(Op(o, Word(a), p.text), p.rest, 0)
                         == Parsed(if Before(g, h) then Op(q, Op(o, Word(a), x), Word(c)) else Op(o, Word(a), Op(q, x, Word(c))), [])
  {
    hide SubExpr, Expand, Left, Right, Levels, RightGroups;
    Priorities(h, u, q);
    Waits(g, t, o, h, u, q);
    Above0(q);
    assert [u, Atom(c)] == [u] + [Atom(c)];
    if Before(g, h) {
      OpWaits(x, u, q, [Atom(c)], Right(o));
      LastRead(Op(o, Word(a), x), u, q, c, 0);
    } else {
      LastRead(x, u, q, c, Right(o));
      EndRead(Op(o, Word(a), Op(q, x, Word(c))), 0);
    }
  }

  lemma StripOp(o: BinOp, l: Text, r: Text)
    ensures Strip(Op(o, l, r)) == Bin(o, Strip(l), Strip(r))
  {
  }

  lemma StripPre(v: UnOp, x: Text)
    ensures Strip(Pre(v, x)) == Un(v, Strip(x))
  {
  }

  /** Two binary operators between three atoms. */
  lemma BinaryLaw(g: nat, t: Tok, o: BinOp, h: nat, u: Tok, q: BinOp, a: nat, b: nat, c: nat)
    requires At(g, t, o) && At(h, u, q)
    ensures ReadAs([Atom(a), t, Atom(b), u, Atom(c)])
            == Some(if Before(g, h) then Bin(q, Bin(o, Leaf(a), Leaf(b)), Leaf(c)) else Bin(o, Leaf(a), Bin(q, Leaf(b), Leaf(c))))
  {
    hide SubExpr, Expand, Left, Right, GetBinOpr, Levels, RightGroups, Strip;
    Priorities(g, t, o);
    Above0(o);
    var tail := [u, Atom(c)];
    assert [Atom(a), t, Atom(b), u, Atom(c)] == [Atom(a)] + ([t] + ([Atom(b)] + tail));
    AtomRead(a, [t] + ([Atom(b)] + tail), 0);
    OpRead(Word(a), t, o, [Atom(b)] + tail, 0);
    AtomRead(b, tail, Right(o));
    TailRead(g, t, o, Word(b), h, u, q, a, c);
    BinaryStrip(o, q, a, b, c);
  }

  lemma BinaryStrip(o: BinOp, q: BinOp, a: nat, b: nat, c: nat)
    ensures Strip(Op(q, Op(o, Word(a), Word(b)), Word(c))) == Bin(q, Bin(o, Leaf(a), Leaf(b)), Leaf(c))
    ensures Strip(Op(o, Word(a), Op(q, Word(b), Word(c)))) == Bin(o, Leaf(a), Bin(q, Leaf(b), Leaf(c)))
  {
    StripOp(o, Word(a), Word(b));
    StripOp(q, Word(b), Word(c));
    StripOp(q, Op(o, Word(a), Word(b)), Word(c));
    StripOp(o, Word(a), Op(q, Word(b), Word(c)));
  }

  /** A unary operator before an atom, and what follows it: it binds below '^' only. */
  lemma UnaryRead(t: Tok, v: UnOp, b: nat, h: nat, u: Tok, q: BinOp, c: nat, limit: nat)
    requires (t, v) in Unaries && At(h, u, q)
    ensures SubExpr([t, Atom(b), u, Atom(c)], limit)
            == if h == POWER then Parsed(Pre(v, Op(q, Word(b), Word(c))), [])
               else Expand(Pre(v, Word(b)), [u, Atom(c)], limit)
  {
    hide Expand, Left, Right, GetBinOpr;
    UnaryToken(t, v);
    Priorities(h, u, q);
    var tail := [u, Atom(c)];
    assert [t, Atom(b), u, Atom(c)][1..] == [Atom(b)] + tail;
    assert tail == [u] + [Atom(c)];
    AtomRead(b, tail, UNARY_PRIORITY);
    if h == POWER {
      LastRead(Word(b), u, q, c, UNARY_PRIORITY);
      EndRead(Pre(v, Op(q, Word(b), Word(c))), limit);
    } else {
      OpWaits(Word(b), u, q, [Atom(c)], UNARY_PRIORITY);
    }
  }

  /** A unary operator in front. */
  lemma UnaryLaw(t: Tok, v: UnOp, a: nat, h: nat, u: Tok, q: BinOp, b: nat)
    requires (t, v) in Unaries && At(h, u, q)
    ensures ReadAs([t, Atom(a), u, Atom(b)])
            == Some(if h == POWER then Un(v, Bin(q, Leaf(a), Leaf(b))) else Bin(q, Un(v, Leaf(a)), Leaf(b)))
  {
    hide SubExpr, Expand, Left, Right, GetBinOpr;
    Priorities(h, u, q);
    Above0(q);
    UnaryRead(t, v, a, h, u, q, b, 0);
    StripPre(v, Op(q, Word(a), Word(b)));
    StripOp(q, Pre(v, Word(a)), Word(b));
    if h != POWER {
      LastRead(Pre(v, Word(a)), u, q, b, 0);
    }
  }

  /** A unary operator between two binary ones: only '^' reaches into its operand. */
  lemma MixedLaw(g: nat, t: Tok, o: BinOp, m: Tok, v: UnOp, h: nat, u: Tok, q: BinOp, a: nat, b: nat, c: nat)
    requires At(g, t, o) && (m, v) in Unaries && At(h, u, q)
    ensures ReadAs([Atom(a), t, m, Atom(b), u, Atom(c)])
            == Some(if h == POWER then Bin(o, Leaf(a), Un(v, Bin(q, Leaf(b), Leaf(c))))
                    else if Before(g, h) then Bin(q, Bin(o, Leaf(a), Un(v, Leaf(b))), Leaf(c))
                    else Bin(o, Leaf(a), Bin(q, Un(v, Leaf(b)), Leaf(c))))
  {
    hide SubExpr, Expand, Left, Right, GetBinOpr, Levels, RightGroups, Strip;
    var x := Mixed(h == POWER, Before(g, h), o, v, q, Word(a), Word(b), Word(c));
    MixedRead(g, t, o, m, v, h, u, q, a, b, c);
    MixedStrip(h == POWER, Before(g, h), o, v, q, a, b, c);
  }

  function Mixed(power: bool, before: bool, o: BinOp, v: UnOp, q: BinOp, a: Text, b: Text, c: Text): Text {
    if power then Op(o, a, Pre(v, Op(q, b, c)))
    else if before then Op(q, Op(o, a, Pre(v, b)), c)
    else Op(o, a, Op(q, Pre(v, b), c))
  }

  lemma MixedStrip(power: bool, before: bool, o: BinOp, v: UnOp, q: BinOp, a: nat, b: nat, c: nat)
    ensures Strip(Mixed(power, before, o, v, q, Word(a), Word(b), Word(c)))
            == if power then Bin(o, Leaf(a), Un(v, Bin(q, Leaf(b), Leaf(c))))
               else if before then Bin(q, Bin(o, Leaf(a), Un(v, Leaf(b))), Leaf(c))
               else Bin(o, Leaf(a), Bin(q, Un(v, Leaf(b)), Leaf(c)))
  {
    StripPre(v, Op(q, Word(b), Word(c)));
    StripOp(o, Word(a), Pre(v, Op(q, Word(b), Word(c))));
    StripOp(o, Word(a), Pre(v, Word(b)));
    StripOp(q, Pre(v, Word(b)), Word(c));
    StripOp(q, Op(o, Word(a), Pre(v, Word(b))), Word(c));
    StripOp(o, Word(a), Op(q, Pre(v, Word(b)), Word(c)));
  }

  lemma MixedRead(g: nat, t: Tok, o: BinOp, m: Tok, v: UnOp, h: nat, u: Tok, q: BinOp, a: nat, b: nat, c: nat)
    requires At(g, t, o) && (m, v) in Unaries && At(h, u, q)
    ensures SubExpr([Atom(a), t, m, Atom(b), u, Atom(c)], 0)
            == Parsed(Mixed(h == POWER, Before(g, h), o, v, q, Word(a), Word(b), Word(c)), [])
  {
    hide SubExpr, Expand, Left, Right, GetBinOpr, Levels, RightGroups, Strip;
    Priorities(g, t, o);
    Priorities(h, u, q);
    Waits(g, t, o, h, u, q);
    Above0(o);
    Above0(q);
    var tail := [m, Atom(b), u, Atom(c)];
    assert [Atom(a), t, m, Atom(b), u, Atom(c)] == [Atom(a)] + ([t] + tail);
    AtomRead(a, [t] + tail, 0);
    OpRead(Word(a), t, o, tail, 0);
    UnaryRead(m, v, b, h, u, q, c, Right(o));
    if h == POWER {
      EndRead(Op(o, Word(a), Pre(v, Op(q, Word(b), Word(c)))), 0);
    } else {
      TailRead(g, t, o, Pre(v, Word(b)), h, u, q, a, c);
    }
  }
}
