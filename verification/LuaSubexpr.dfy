/** Operator precedence parsing of Lua expressions (apps/lua/lparser.c:986-1075; section
    3.4.8 of the Lua 5.3 Reference Manual). */
module LuaSubexpr {

  datatype UnOp = Minus | BNot | Not | Len

  datatype BinOp =
    | Add | Sub | Mul | Mod | Pow | Div | IDiv | BAnd | BOr | BXor | Shl | Shr | Concat
    | Eq | Lt | Le | Ne | Gt | Ge | And | Or

  /** Tokens: '-' and '~' are unary and binary. An atom stands for any simple expression
      without operators. */
  datatype Tok =
    | Atom(k: nat) | LParen | RParen | Eof
    | TNot | THash | TMinus | TTilde
    | TAdd | TMul | TMod | TPow | TDiv | TIDiv | TBAnd | TBOr | TShl | TShr | TConcat
    | TEq | TLt | TLe | TNe | TGt | TGe | TAnd | TOr

  datatype Option<T> = None | Some(value: T)

  /** getunopr (lparser.c:986-994) */
  function GetUnOpr(t: Tok): Option<UnOp> {
    match t
    case TNot => Some(Not)
    case TMinus => Some(Minus)
    case TTilde => Some(BNot)
    case THash => Some(Len)
    case _ => None
  }

  /** getbinopr (lparser.c:997-1022) */
  function GetBinOpr(t: Tok): Option<BinOp> {
    match t
    case TAdd => Some(Add)
    case TMinus => Some(Sub)
    case TMul => Some(Mul)
    case TMod => Some(Mod)
    case TPow => Some(Pow)
    case TDiv => Some(Div)
    case TIDiv => Some(IDiv)
    case TBAnd => Some(BAnd)
    case TBOr => Some(BOr)
    case TTilde => Some(BXor)
    case TShl => Some(Shl)
    case TShr => Some(Shr)
    case TConcat => Some(Concat)
    case TNe => Some(Ne)
    case TEq => Some(Eq)
    case TLt => Some(Lt)
    case TLe => Some(Le)
    case TGt => Some(Gt)
    case TGe => Some(Ge)
    case TAnd => Some(And)
    case TOr => Some(Or)
    case _ => None
  }

  /** priority[].left (lparser.c:1025-1039) */
  function Left(op: BinOp): nat {
    match op
    case Add => 10
    case Sub => 10
    case Mul => 11
    case Mod => 11
    case Pow => 14
    case Div => 11
    case IDiv => 11
    case BAnd => 6
    case BOr => 4
    case BXor => 5
    case Shl => 7
    case Shr => 7
    case Concat => 9
    case And => 2
    case Or => 1
    case _ => 3
  }

  /** priority[].right: '^' and '..' are right associative */
  function Right(op: BinOp): nat {
    match op
    case Pow => 13
    case Concat => 8
    case _ => Left(op)
  }

  const UNARY_PRIORITY := 12

  function TokOfUn(op: UnOp): (t: Tok)
    ensures GetUnOpr(t) == Some(op)
  {
    match op
    case Minus => TMinus
    case BNot => TTilde
    case Not => TNot
    case Len => THash
  }

  function TokOf(op: BinOp): (t: Tok)
    ensures GetBinOpr(t) == Some(op)
  {
    match op
    case Add => TAdd
    case Sub => TMinus
    case Mul => TMul
    case Mod => TMod
    case Pow => TPow
    case Div => TDiv
    case IDiv => TIDiv
    case BAnd => TBAnd
    case BOr => TBOr
    case BXor => TTilde
    case Shl => TShl
    case Shr => TShr
    case Concat => TConcat
    case Eq => TEq
    case Lt => TLt
    case Le => TLe
    case Ne => TNe
    case Gt => TGt
    case Ge => TGe
    case And => TAnd
    case Or => TOr
  }

  lemma TokOfGet(t: Tok)
    ensures GetBinOpr(t).Some? ==> TokOf(GetBinOpr(t).value) == t
    ensures GetUnOpr(t).Some? ==> TokOfUn(GetUnOpr(t).value) == t
  {
  }

  // ---------- trees, with and without parentheses ----------

  datatype Tree = Leaf(k: nat) | Un(uop: UnOp, arg: Tree) | Bin(op: BinOp, left: Tree, right: Tree)

  /** A tree as it is written, parentheses included. */
  datatype Text = Word(k: nat) | Paren(inner: Text) | Pre(uop: UnOp, arg: Text) | Op(op: BinOp, left: Text, right: Text)

  function Strip(x: Text): Tree {
    match x
    case Word(k) => Leaf(k)
    case Paren(y) => Strip(y)
    case Pre(u, y) => Un(u, Strip(y))
    case Op(o, l, r) => Bin(o, Strip(l), Strip(r))
  }

  function Toks(x: Text): (ts: seq<Tok>)
    ensures |ts| > 0
  {
    match x
    case Word(k) => [Atom(k)]
    case Paren(y) => [LParen] + Toks(y) + [RParen]
    case Pre(u, y) => [TokOfUn(u)] + Toks(y)
    case Op(o, l, r) => Toks(l) + [TokOf(o)] + Toks(r)
  }

  /** Above every priority. */
  const CLOSED := 15

  /** An operator written after 'x' is left alone by 'x' just if its left priority is at
      most this. */
  function Reach(x: Text): nat {
    match x
    case Word(_) => CLOSED
    case Paren(_) => CLOSED
    case Pre(_, y) => if Reach(y) < UNARY_PRIORITY then Reach(y) else UNARY_PRIORITY
    case Op(o, _, r) => if Reach(r) < Right(o) then Reach(r) else Right(o)
  }

  /** 'x' may be written where operators must have a priority above 'limit'. */
  predicate Fits(x: Text, limit: nat) {
    x.Op? ==> Left(x.op) > limit
  }

  /** Every pair of parentheses that the priorities force is there. */
  predicate WellWritten(x: Text) {
    match x
    case Word(_) => true
    case Paren(y) => WellWritten(y)
    case Pre(_, y) => WellWritten(y) && Fits(y, UNARY_PRIORITY)
    case Op(o, l, r) => WellWritten(l) && WellWritten(r) && Left(o) <= Reach(l) && Fits(r, Right(o))
  }

  // ---------- the parser ----------

  /** The text read, and the tokens left. */
  datatype Parsed = Parsed(text: Text, rest: seq<Tok>) | SyntaxError

  function First(ts: seq<Tok>): Tok {
    if ts == [] then Eof else ts[0]
  }

  /** The operator that comes next is not to be read at this limit. */
  predicate Stops(ts: seq<Tok>, limit: nat) {
    var op := GetBinOpr(First(ts));
    op.Some? ==> Left(op.value) <= limit
  }

  /** An atom, or an expression in parentheses (lparser.c:931-983, 871-890). */
  function SimpleExp(ts: seq<Tok>): (p: Parsed)
    ensures p.Parsed? ==> |p.rest| < |ts|
    decreases |ts|, 0
  {
    match First(ts)
    case Atom(k) => Parsed(Word(k), ts[1..])
    case LParen =>
      var p := SubExpr(ts[1..], 0);
      if p.Parsed? && First(p.rest) == RParen then Parsed(Paren(p.text), p.rest[1..]) else SyntaxError
    case _ => SyntaxError
  }

  /** subexpr: (simpleexp | unop subexpr) { binop subexpr } */
  function SubExpr(ts: seq<Tok>, limit: nat): (p: Parsed)
    ensures p.Parsed? ==> |p.rest| < |ts|
    decreases |ts|, 2
  {
    var head :=
      if GetUnOpr(First(ts)).Some? then
        var p := SubExpr(ts[1..], UNARY_PRIORITY);
        if p.Parsed? then Parsed(Pre(GetUnOpr(First(ts)).value, p.text), p.rest) else SyntaxError
      else SimpleExp(ts);
    if head.Parsed? then Expand(head.text, head.rest, limit) else SyntaxError
  }

  function Expand(x: Text, ts: seq<Tok>, limit: nat): (p: Parsed)
    ensures p.Parsed? ==> |p.rest| <= |ts|
    decreases |ts|, 1
  {
    if Stops(ts, limit) then Parsed(x, ts) else
      var op := GetBinOpr(First(ts)).value;
      var p := SubExpr(ts[1..], Right(op));
      if p.Parsed? then Expand(Op(op, x, p.text), p.rest, limit) else SyntaxError
  }

  // ---------- what is read is well written ----------

  /** What the parser reads is a text that is written as the tokens say, with all the
      parentheses it needs; and what comes next does not belong to it. */
  ghost predicate Reads(ts: seq<Tok>, limit: nat, p: Parsed) {
    p.Parsed? ==>
      && ts == Toks(p.text) + p.rest && WellWritten(p.text) && Fits(p.text, limit)
      && Stops(p.rest, limit) && Stops(p.rest, Reach(p.text))
  }

  lemma {:induction false} SimpleReads(ts: seq<Tok>)
    ensures var p := SimpleExp(ts);
            p.Parsed? ==> ts == Toks(p.text) + p.rest && WellWritten(p.text) && Reach(p.text) == CLOSED && !p.text.Op?
    decreases |ts|, 0
  {
    if First(ts) == LParen {
      SubReads(ts[1..], 0);
      var p := SubExpr(ts[1..], 0);
      if p.Parsed? && First(p.rest) == RParen {
        assert ts == [LParen] + ts[1..];
        assert p.rest == [RParen] + p.rest[1..];
        assert ts == [LParen] + Toks(p.text) + [RParen] + p.rest[1..];
      }
    }
  }

  lemma AnyStops(ts: seq<Tok>)
    ensures Stops(ts, CLOSED)
  {
  }

  lemma {:induction false} SubReads(ts: seq<Tok>, limit: nat)
    ensures Reads(ts, limit, SubExpr(ts, limit))
    decreases |ts|, 2
  {
    if GetUnOpr(First(ts)).Some? {
      TokOfGet(First(ts));
      SubReads(ts[1..], UNARY_PRIORITY);
      var p := SubExpr(ts[1..], UNARY_PRIORITY);
      if p.Parsed? {
        var x := Pre(GetUnOpr(First(ts)).value, p.text);
        assert ts == [ts[0]] + ts[1..];
        assert ts == Toks(x) + p.rest;
        ExpandReads(x, p.rest, limit);
        Glue(ts, x, p.rest, Expand(x, p.rest, limit));
      }
    } else {
      SimpleReads(ts);
      var p := SimpleExp(ts);
      if p.Parsed? {
        AnyStops(p.rest);
        ExpandReads(p.text, p.rest, limit);
        Glue(ts, p.text, p.rest, Expand(p.text, p.rest, limit));
      }
    }
  }

  lemma Glue(ts: seq<Tok>, x: Text, rest: seq<Tok>, p: Parsed)
    requires ts == Toks(x) + rest && (p.Parsed? ==> Toks(x) + rest == Toks(p.text) + p.rest)
    ensures p.Parsed? ==> ts == Toks(p.text) + p.rest
  {
  }

  lemma {:induction false} ExpandReads(x: Text, ts: seq<Tok>, limit: nat)
    requires WellWritten(x) && Fits(x, limit) && Stops(ts, Reach(x))
    ensures var p := Expand(x, ts, limit);
            p.Parsed? ==>
              && Toks(x) + ts == Toks(p.text) + p.rest && WellWritten(p.text) && Fits(p.text, limit)
              && Stops(p.rest, limit) && Stops(p.rest, Reach(p.text))
    decreases |ts|, 1
  {
    if !Stops(ts, limit) {
      var op := GetBinOpr(First(ts)).value;
      TokOfGet(First(ts));
      SubReads(ts[1..], Right(op));
      var p := SubExpr(ts[1..], Right(op));
      if p.Parsed? {
        var y := Op(op, x, p.text);
        assert ts == [TokOf(op)] + ts[1..];
        assert Toks(x) + ts == Toks(y) + p.rest;
        ExpandReads(y, p.rest, limit);
      }
    }
  }

  // ---------- what is well written is read ----------

  /** The first part of a text: what is read before the loop of subexpr. */
  function Head(x: Text): Text {
    if x.Op? then Head(x.left) else x
  }

  /** Reading a well-written text gives it back: first for what begins a subexpression. */
  lemma {:induction false} HeadRead(x: Text, rest: seq<Tok>, limit: nat)
    requires WellWritten(x) && !x.Op? && Stops(rest, Reach(x))
    ensures SubExpr(Toks(x) + rest, limit) == Expand(x, rest, limit)
    decreases x, 0
  {
    var ts := Toks(x) + rest;
    match x {
      case Word(k) =>
        assert ts[1..] == rest;
      case Paren(y) =>
        assert ts[1..] == Toks(y) + ([RParen] + rest);
        TextRead(y, [RParen] + rest, 0);
        assert ([RParen] + rest)[1..] == rest;
      case Pre(u, y) =>
        assert ts[1..] == Toks(y) + rest;
        assert Stops(rest, UNARY_PRIORITY) && Stops(rest, Reach(y));
        TextRead(y, rest, UNARY_PRIORITY);
    }
  }

  /** Then for a text that the loop goes through. */
  lemma {:induction false} OpRead(x: Text, rest: seq<Tok>, limit: nat)
    requires WellWritten(x) && Stops(rest, Reach(x)) && Fits(x, limit)
    ensures SubExpr(Toks(x) + rest, limit) == Expand(x, rest, limit)
    decreases x, 1
  {
    if x.Op? {
      var more := [TokOf(x.op)] + (Toks(x.right) + rest);
      assert Toks(x) + rest == Toks(x.left) + more;
      LeftFits(x, limit);
      OpRead(x.left, more, limit);
      assert more[1..] == Toks(x.right) + rest;
      TextRead(x.right, rest, Right(x.op));
    } else {
      HeadRead(x, rest, limit);
    }
  }

  /** The operators to the left bind at least as tightly. */
  lemma LeftFits(x: Text, limit: nat)
    requires WellWritten(x) && x.Op? && Fits(x, limit)
    ensures Fits(x.left, limit)
  {
    if x.left.Op? {
      assert Reach(x.left) <= Right(x.left.op) <= Left(x.left.op);
    }
  }

  /** And it stops where it should: parsing a well-written text returns that text. */
  lemma {:induction false} TextRead(x: Text, rest: seq<Tok>, limit: nat)
    requires WellWritten(x) && Fits(x, limit) && Stops(rest, limit) && Stops(rest, Reach(x))
    ensures SubExpr(Toks(x) + rest, limit) == Parsed(x, rest)
    decreases x, 2
  {
    OpRead(x, rest, limit);
  }

  /** The parser reads exactly the well-written texts. */
  lemma ParsesIff(ts: seq<Tok>, x: Text)
    ensures SubExpr(ts, 0) == Parsed(x, []) <==> WellWritten(x) && ts == Toks(x)
  {
    SubReads(ts, 0);
    if WellWritten(x) && ts == Toks(x) {
      TextRead(x, [], 0);
      assert Toks(x) + [] == Toks(x);
    }
    if SubExpr(ts, 0) == Parsed(x, []) {
      assert Toks(x) + [] == Toks(x);
    }
  }

  // ---------- printing ----------

  /** Parentheses only where priorities force them. */
  function Write(t: Tree): Text {
    match t
    case Leaf(k) => Word(k)
    case Un(u, a) =>
      var x := Write(a);
      Pre(u, if Fits(x, UNARY_PRIORITY) then x else Paren(x))
    case Bin(o, l, r) =>
      var x, y := Write(l), Write(r);
      Op(o, if Left(o) <= Reach(x) then x else Paren(x), if Fits(y, Right(o)) then y else Paren(y))
  }

  lemma {:induction false} WriteWell(t: Tree)
    ensures WellWritten(Write(t)) && Strip(Write(t)) == t
  {
    match t {
      case Leaf(_) =>
      case Un(u, a) => WriteWell(a);
      case Bin(o, l, r) => WriteWell(l); WriteWell(r);
    }
  }

  /** Printing a tree and parsing it gives the tree back. */
  lemma RoundTrip(t: Tree)
    ensures SubExpr(Toks(Write(t)), 0) == Parsed(Write(t), [])
    ensures Strip(Write(t)) == t
  {
    WriteWell(t);
    ParsesIff(Toks(Write(t)), Write(t));
  }

  /** A text that fits where operators must be above 'limit' leaves alone what does not
      belong there, but for operands of unary operators. */
  lemma {:induction false} ReachAtLeast(x: Text, limit: nat)
    requires WellWritten(x) && Fits(x, limit)
    ensures Reach(x) >= if limit < UNARY_PRIORITY then limit else UNARY_PRIORITY
  {
    match x {
      case Word(_) =>
      case Paren(_) =>
      case Pre(_, y) => ReachAtLeast(y, UNARY_PRIORITY);
      case Op(o, _, r) => ReachAtLeast(r, Right(o));
    }
  }

  lemma ReachOf(w: Text)
    requires WellWritten(w) && !w.Paren?
    ensures w.Word? ==> Reach(w) == CLOSED
    ensures w.Pre? ==> Reach(w) == UNARY_PRIORITY
    ensures w.Op? ==> if w.op == Pow then 12 <= Reach(w) <= 13 else Reach(w) == Right(w.op)
  {
    match w {
      case Word(_) =>
      case Pre(_, y) => ReachAtLeast(y, UNARY_PRIORITY);
      case Op(o, _, r) => ReachAtLeast(r, Right(o));
    }
  }

  /** Which operators a text leaves alone depends on its tree only. */
  lemma ReachSame(x: Text, w: Text, op: BinOp)
    requires WellWritten(x) && WellWritten(w) && Strip(x) == Strip(w) && !x.Paren? && !w.Paren?
    requires Left(op) <= Reach(x)
    ensures Left(op) <= Reach(w)
  {
    hide WellWritten, Reach;
    ReachOf(x);
    ReachOf(w);
  }

  /** No text with the same tree that parses is shorter. */
  lemma {:induction false} WriteShortest(x: Text)
    requires WellWritten(x)
    ensures |Toks(Write(Strip(x)))| <= |Toks(x)|
    decreases x, 0
  {
    var w := Write(Strip(x));
    WriteWell(Strip(x));
    match x {
      case Word(_) =>
      case Paren(y) => WriteShortest(y);
      case Pre(_, y) =>
        OperandShortest(y, Fits(Write(Strip(y)), UNARY_PRIORITY));
      case Op(o, l, r) =>
        WriteWell(Strip(l));
        if !l.Paren? {
          ReachSame(l, Write(Strip(l)), o);
        }
        OperandShortest(l, Left(o) <= Reach(Write(Strip(l))));
        OperandShortest(r, Fits(Write(Strip(r)), Right(o)));
    }
  }

  lemma {:induction false} OperandShortest(y: Text, bare: bool)
    requires WellWritten(y) && (y.Paren? || bare)
    ensures |Toks(if bare then Write(Strip(y)) else Paren(Write(Strip(y))))| <= |Toks(y)|
    decreases y, 1
  {
    if y.Paren? {
      WriteShortest(y.inner);
    } else {
      WriteShortest(y);
    }
  }

  /** A text that lacks parentheses is read as something else, or not at all. */
  lemma ParenthesesForced(x: Text)
    requires !WellWritten(x)
    ensures SubExpr(Toks(x), 0) != Parsed(x, [])
  {
    ParsesIff(Toks(x), x);
  }

  lemma EofIsNoOperator()
    ensures GetBinOpr(Eof) == None && GetUnOpr(Eof) == None
  {
  }

  // ---------- the parser as it is written ----------

  /** The lexer state: the current token, and those to come. */
  class LexState {
    const toks: seq<Tok>
    var pos: nat

    constructor (ts: seq<Tok>)
      ensures toks == ts && pos == 0
    {
      toks, pos := ts, 0;
    }

    ghost function Ahead(): seq<Tok>
      reads this
    {
      if pos <= |toks| then toks[pos..] else []
    }

    /** ls->t.token */
    function Token(): (t: Tok)
      reads this
      ensures t == First(Ahead())
    {
      if pos < |toks| then toks[pos] else Eof
    }

    /** luaX_next */
    method Next()
      requires pos < |toks|
      modifies this
      ensures Ahead() == old(Ahead())[1..] && pos == old(pos) + 1 <= |toks|
    {
      pos := pos + 1;
    }

    /** simpleexp, for atoms and parentheses */
    method ReadSimple() returns (ok: bool, v: Tree)
      requires pos <= |toks|
      modifies this
      ensures pos <= |toks| && ok == SimpleExp(old(Ahead())).Parsed?
      ensures ok ==> var p := SimpleExp(old(Ahead())); v == Strip(p.text) && Ahead() == p.rest && pos > old(pos)
      decreases |toks| - pos, 0
    {
      v := Leaf(0);
      match Token() {
        case Atom(k) =>
          v := Leaf(k);
          Next();
          ok := true;
        case LParen =>
          Next();
          ghost var p := SubExpr(Ahead(), 0);
          var op;
          ok, v, op := ReadSubExpr(0);
          if ok {
            if Token() == RParen {
              Next();
            } else {
              ok := false;
            }
          }
        case _ =>
          ok := false;
      }
    }

    /** subexpr (lparser.c:1048-1075): what it builds, what it leaves, and the operator it
        returns. */
    method ReadSubExpr(limit: nat) returns (ok: bool, v: Tree, op: Option<BinOp>)
      requires pos <= |toks|
      modifies this
      ensures pos <= |toks| && ok == SubExpr(old(Ahead()), limit).Parsed?
      ensures ok ==> var p := SubExpr(old(Ahead()), limit); v == Strip(p.text) && Ahead() == p.rest && pos > old(pos)
      ensures ok ==> op == GetBinOpr(First(Ahead()))
      decreases |toks| - pos, 1
    {
      hide SimpleExp, GetBinOpr, GetUnOpr;
      EofIsNoOperator();
      ghost var ts := Ahead();
      var uop := GetUnOpr(Token());
      ghost var x: Text;
      if uop.Some? {
        Next();
        x := Word(0);
        ghost var p := SubExpr(Ahead(), UNARY_PRIORITY);
        ok, v, op := ReadSubExpr(UNARY_PRIORITY);
        if !ok {
          return;
        }
        v := Un(uop.value, v);
        x := Pre(uop.value, p.text);
      } else {
        ghost var p := SimpleExp(ts);
        ok, v := ReadSimple();
        if !ok {
          op := None;
          return;
        }
        x := p.text;
      }
      op := GetBinOpr(Token());
      while op.Some? && Left(op.value) > limit
        invariant old(pos) < pos <= |toks| && op == GetBinOpr(First(Ahead())) && v == Strip(x)
        invariant SubExpr(ts, limit) == Expand(x, Ahead(), limit)
        decreases |toks| - pos
      {
        Next();
        ghost var p := SubExpr(Ahead(), Right(op.value));
        var v2, nextop;
        ok, v2, nextop := ReadSubExpr(Right(op.value));
        if !ok {
          return;
        }
        v := Bin(op.value, v, v2);
        x := Op(op.value, x, p.text);
        op := nextop;
      }
      ok := true;
    }
  }

  /** A printed tree, read by the parser. */
  method ReadBack(t: Tree) returns (ok: bool, v: Tree)
    ensures ok && v == t
  {
    RoundTrip(t);
    var ls := new LexState(Toks(Write(t)));
    var op;
    ok, v, op := ls.ReadSubExpr(0);
  }
}
