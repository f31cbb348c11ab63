/** Patterns of Lua's string library: what they mean. A pattern is a list of items; a match
    is given by how often each repeated item is used, and the one to find is the best in the
    order of preference (apps/lua/lstrlib.c:206-524; section 6.4.1 of the Lua 5.3 Reference
    Manual). */
module LuaPattern {

  type byte = b: int | 0 <= b < 256

  const ESC: byte := 37
  const OPEN: byte := 40
  const CLOSE: byte := 41
  const STAR: byte := 42
  const PLUS: byte := 43
  const MINUS: byte := 45
  const DOT: byte := 46
  const QUESTION: byte := 63
  const DOLLAR: byte := 36
  const LBRACKET: byte := 91
  const RBRACKET: byte := 93
  const CARET: byte := 94
  const LETTER_B: byte := 98
  const LETTER_F: byte := 102

  const MAXCAPTURES := 32
  const UNFINISHED := -1
  const POSITION := -2

  datatype Option<T> = None | Some(value: T)

  datatype Error =
    | TooComplex | EndsWithEscape | MissingBracket | MissingArguments | MissingSet
    | InvalidIndex(l: int) | InvalidCapture | TooManyCaptures

  /** What '*p' reads: strings end in a zero byte. */
  function C(s: seq<byte>, i: nat): byte {
    if i < |s| then s[i] else 0
  }

  // ---------- sets of characters, in the C locale ----------

  predicate IsLower(c: int) {
    97 <= c <= 122
  }

  predicate IsUpper(c: int) {
    65 <= c <= 90
  }

  predicate IsAlpha(c: int) {
    IsLower(c) || IsUpper(c)
  }

  predicate IsDigit(c: int) {
    48 <= c <= 57
  }

  predicate IsAlnum(c: int) {
    IsAlpha(c) || IsDigit(c)
  }

  predicate IsCntrl(c: int) {
    0 <= c < 32 || c == 127
  }

  predicate IsGraph(c: int) {
    32 < c < 127
  }

  predicate IsSpace(c: int) {
    c == 32 || 9 <= c <= 13
  }

  predicate IsHex(c: int) {
    IsDigit(c) || 65 <= c <= 70 || 97 <= c <= 102
  }

  function ToLower(c: byte): byte {
    if IsUpper(c) then c + 32 else c
  }

  /** The class of a lower-case letter, if it names one. */
  function ClassOf(l: byte, c: byte): Option<bool> {
    if l == 97 then Some(IsAlpha(c))
    else if l == 99 then Some(IsCntrl(c))
    else if l == 100 then Some(IsDigit(c))
    else if l == 103 then Some(IsGraph(c))
    else if l == 108 then Some(IsLower(c))
    else if l == 112 then Some(IsGraph(c) && !IsAlnum(c))
    else if l == 115 then Some(IsSpace(c))
    else if l == 117 then Some(IsUpper(c))
    else if l == 119 then Some(IsAlnum(c))
    else if l == 120 then Some(IsHex(c))
    else if l == 122 then Some(c == 0)
    else None
  }

  /** match_class (lstrlib.c:282-299) */
  predicate InClass(c: byte, cl: byte) {
    match ClassOf(ToLower(cl), c)
    case Some(b) => b == IsLower(cl)
    case None => cl == c
  }

  /** The characters of each class (section 6.4.1 of the Lua 5.3 Reference Manual). */
  lemma ClassesMean(c: byte)
    ensures InClass(c, 'd' as int) <==> '0' <= c as char <= '9'
    ensures InClass(c, 'l' as int) <==> 'a' <= c as char <= 'z'
    ensures InClass(c, 'u' as int) <==> 'A' <= c as char <= 'Z'
    ensures InClass(c, 'a' as int) <==> 'a' <= c as char <= 'z' || 'A' <= c as char <= 'Z'
    ensures InClass(c, 'w' as int) <==> InClass(c, 'a' as int) || InClass(c, 'd' as int)
    ensures InClass(c, 'x' as int) <==> c as char in "0123456789abcdefABCDEF"
    ensures InClass(c, 's' as int) <==> c in {9, 10, 11, 12, 13, 32}
    ensures InClass(c, 'g' as int) <==> '!' <= c as char <= '~'
    ensures InClass(c, 'p' as int) <==> InClass(c, 'g' as int) && !InClass(c, 'w' as int)
    ensures InClass(c, 'c' as int) <==> c < 32 || c == 127
    ensures InClass(c, 'z' as int) <==> c == 0
  {
  }

  /** In upper case a letter stands for the characters outside its class; what names no class
      stands for itself. */
  lemma ClassesElse(c: byte, cl: byte)
    ensures cl as char in "ACDGLPSUWXZ" ==> (InClass(c, cl) <==> !InClass(c, cl + 32))
    ensures cl as char !in "acdglpsuwxzACDGLPSUWXZ" ==> (InClass(c, cl) <==> c == cl)
  {
  }

  datatype Element = Class(cl: byte) | Range(lo: byte, hi: byte)

  datatype CharSet = Any | Escaped(cl: byte) | Only(b: byte) | Bracket(positive: bool, elements: seq<Element>)

  predicate InElement(c: byte, e: Element) {
    match e
    case Class(cl) => InClass(c, cl)
    case Range(lo, hi) => lo <= c <= hi
  }

  ghost predicate InSet(c: byte, cs: CharSet) {
    match cs
    case Any => true
    case Escaped(cl) => InClass(c, cl)
    case Only(b) => b == c
    case Bracket(positive, es) => positive == exists e :: e in es && InElement(c, e)
  }

  /** The elements of a set between brackets, from 'i' to the closing bracket. */
  function Elements(pat: seq<byte>, i: nat, ec: nat): seq<Element>
    decreases ec - i
  {
    if i >= ec then []
    else if C(pat, i) == ESC then [Class(C(pat, i + 1))] + Elements(pat, i + 2, ec)
    else if C(pat, i + 1) == MINUS && i + 2 < ec then [Range(C(pat, i), C(pat, i + 2))] + Elements(pat, i + 3, ec)
    else [Range(C(pat, i), C(pat, i))] + Elements(pat, i + 1, ec)
  }

  function BracketAt(pat: seq<byte>, p: nat, ec: nat): CharSet {
    if C(pat, p + 1) == CARET then Bracket(false, Elements(pat, p + 2, ec)) else Bracket(true, Elements(pat, p + 1, ec))
  }

  /** Past the closing bracket of a set whose next element starts at 'i'. */
  function BracketEnd(pat: seq<byte>, i: nat): (r: Option<nat>)
    ensures r.Some? ==> i + 1 < r.value <= |pat|
    decreases |pat| - i
  {
    if i >= |pat| then None
    else
      var j := if pat[i] == ESC && i + 1 < |pat| then i + 2 else i + 1;
      if C(pat, j) == RBRACKET then Some(j + 1) else BracketEnd(pat, j)
  }

  datatype ClassExtent = Ends(ep: nat) | Malformed(e: Error)

  /** classend (lstrlib.c:258-279) */
  function ClassEnd(pat: seq<byte>, p: nat): (r: ClassExtent)
    requires p < |pat|
    ensures r.Ends? ==> p < r.ep <= |pat| && (pat[p] == LBRACKET ==> p + 1 < r.ep)
  {
    if pat[p] == ESC then
      if p + 1 == |pat| then Malformed(EndsWithEscape) else Ends(p + 2)
    else if pat[p] == LBRACKET then
      match BracketEnd(pat, if C(pat, p + 1) == CARET then p + 2 else p + 1)
      case Some(ep) => Ends(ep)
      case None => Malformed(MissingBracket)
    else Ends(p + 1)
  }

  /** The set at 'p', which ends at 'ep'. */
  function SetAt(pat: seq<byte>, p: nat, ep: nat): CharSet
    requires p < |pat| && 0 < ep
  {
    if pat[p] == DOT then Any
    else if pat[p] == ESC then Escaped(C(pat, p + 1))
    else if pat[p] == LBRACKET then BracketAt(pat, p, ep - 1)
    else Only(pat[p])
  }

  // ---------- items ----------

  datatype Repeat = Once | Optional | Star | Plus | Lazy

  datatype Item =
    | End
    | Bad(e: Error)
    | AtEnd
    | Open(len: int, next: nat)
    | Close(next: nat)
    | Balance(x: byte, y: byte, next: nat)
    | Frontier(cs: CharSet, next: nat)
    | BackReference(l: byte, next: nat)
    | Chars(cs: CharSet, rep: Repeat, next: nat)

  function RepeatOf(c: byte): Repeat {
    if c == QUESTION then Optional else if c == STAR then Star
    else if c == PLUS then Plus else if c == MINUS then Lazy else Once
  }

  function CharsAt(pat: seq<byte>, p: nat): (r: Item)
    requires p < |pat|
    ensures r.Chars? || r.Bad?
    ensures r.Chars? ==> p < r.next <= |pat|
  {
    match ClassEnd(pat, p)
    case Malformed(e) => Bad(e)
    case Ends(ep) =>
      var rep := RepeatOf(C(pat, ep));
      Chars(SetAt(pat, p, ep), rep, if rep == Once then ep else ep + 1)
  }

  function FrontierAt(pat: seq<byte>, p: nat): (r: Item)
    requires p + 2 <= |pat|
    ensures r.Frontier? || r.Bad?
    ensures r.Frontier? ==> p < r.next <= |pat|
  {
    if C(pat, p + 2) != LBRACKET then Bad(MissingSet)
    else
      match ClassEnd(pat, p + 2)
      case Malformed(e) => Bad(e)
      case Ends(ep) => Frontier(BracketAt(pat, p + 2, ep - 1), ep)
  }

  function ItemAt(pat: seq<byte>, p: nat): (r: Item)
    ensures !r.End? && !r.Bad? && !r.AtEnd? ==> p < r.next <= |pat|
  {
    if p >= |pat| then End
    else if pat[p] == OPEN then
      if C(pat, p + 1) == CLOSE then Open(POSITION, p + 2) else Open(UNFINISHED, p + 1)
    else if pat[p] == CLOSE then Close(p + 1)
    else if pat[p] == DOLLAR && p + 1 == |pat| then AtEnd
    else if pat[p] == ESC && C(pat, p + 1) == LETTER_B then
      if p + 3 < |pat| then Balance(pat[p + 2], pat[p + 3], p + 4) else Bad(MissingArguments)
    else if pat[p] == ESC && C(pat, p + 1) == LETTER_F then FrontierAt(pat, p)
    else if pat[p] == ESC && IsDigit(C(pat, p + 1)) then BackReference(pat[p + 1], p + 2)
    else CharsAt(pat, p)
  }

  // ---------- what an item matches ----------

  datatype Capture = Capture(init: nat, len: int)

  /** 'Stuck' is no match. */
  datatype Outcome = Found(end: nat, caps: seq<Capture>) | Raise(e: Error) | Stuck

  /** The capture that a closing parenthesis closes. */
  function ToClose(caps: seq<Capture>): (r: Option<nat>)
    ensures match r
            case Some(l) => l < |caps| && caps[l].len == UNFINISHED && forall i :: l < i < |caps| ==> caps[i].len != UNFINISHED
            case None => forall i :: 0 <= i < |caps| ==> caps[i].len != UNFINISHED
  {
    if caps == [] then None
    else if caps[|caps| - 1].len == UNFINISHED then Some(|caps| - 1)
    else ToClose(caps[..|caps| - 1])
  }

  function Closed(caps: seq<Capture>, l: nat, s: nat): seq<Capture>
    requires l < |caps|
  {
    caps[l := Capture(caps[l].init, s - caps[l].init)]
  }

  predicate Referable(caps: seq<Capture>, l: byte) {
    0 <= l - 49 < |caps| && caps[l - 49].len != UNFINISHED
  }

  /** The captured text is here again. A position is no text. */
  ghost predicate Repeated(src: seq<byte>, s: nat, c: Capture) {
    0 <= c.len && c.init + c.len <= |src| && s + c.len <= |src| && src[c.init..c.init + c.len] == src[s..s + c.len]
  }

  /** How much deeper 'y' is nested behind a text than before it. */
  function Nesting(t: seq<byte>, x: byte, y: byte): int {
    if t == [] then 0
    else (if t[0] == y then -1 else if t[0] == x then 1 else 0) + Nesting(t[1..], x, y)
  }

  predicate Undone(src: seq<byte>, i: nat, j: nat, x: byte, y: byte) {
    i <= j <= |src| && Nesting(src[i..j], x, y) == -1
  }

  ghost predicate FirstUndone(src: seq<byte>, i: nat, j: nat, x: byte, y: byte) {
    Undone(src, i, j, x, y) && forall k: nat :: i <= k < j ==> !Undone(src, i, k, x, y)
  }

  /** A text from 's' to 'e' that starts with 'x' and ends where the nesting is undone. */
  ghost predicate Balanced(src: seq<byte>, s: nat, x: byte, y: byte, e: nat) {
    s + 1 < e <= |src| && src[s] == x && FirstUndone(src, s + 1, e, x, y)
  }

  ghost predicate AtFrontier(src: seq<byte>, s: nat, cs: CharSet) {
    !InSet(if s == 0 then 0 else C(src, s - 1), cs) && InSet(C(src, s), cs)
  }

  ghost predicate Single(src: seq<byte>, s: nat, cs: CharSet) {
    s < |src| && InSet(src[s], cs)
  }

  ghost predicate Run(src: seq<byte>, s: nat, cs: CharSet, k: nat) {
    forall i :: s <= i < s + k ==> Single(src, i, cs)
  }

  predicate Allowed(rep: Repeat, k: nat) {
    match rep
    case Once => k == 1
    case Optional => k <= 1
    case Plus => k >= 1
    case Star => true
    case Lazy => true
  }

  /** What the pattern from 'p' on makes of the source from 's' on, if its sets of
      characters are used ks[0], ks[1], ... times. */
  ghost function Follow(src: seq<byte>, pat: seq<byte>, p: nat, s: nat, caps: seq<Capture>, ks: seq<nat>): Outcome
    decreases |pat| - p
  {
    match ItemAt(pat, p)
    case End => if ks == [] then Found(s, caps) else Stuck
    case AtEnd => if ks == [] && s == |src| then Found(s, caps) else Stuck
    case Bad(e) => if ks == [] then Raise(e) else Stuck
    case Open(len, q) =>
      if |caps| < MAXCAPTURES then Follow(src, pat, q, s, caps + [Capture(s, len)], ks)
      else if ks == [] then Raise(TooManyCaptures) else Stuck
    case Close(q) =>
      (match ToClose(caps)
       case Some(l) => Follow(src, pat, q, s, Closed(caps, l, s), ks)
       case None => if ks == [] then Raise(InvalidCapture) else Stuck)
    case Balance(x, y, q) =>
      if e: nat :| Balanced(src, s, x, y, e) then Follow(src, pat, q, e, caps, ks) else Stuck
    case Frontier(cs, q) => if AtFrontier(src, s, cs) then Follow(src, pat, q, s, caps, ks) else Stuck
    case BackReference(l, q) =>
      if !Referable(caps, l) then (if ks == [] then Raise(InvalidIndex(l - 48)) else Stuck)
      else if Repeated(src, s, caps[l - 49]) then Follow(src, pat, q, s + caps[l - 49].len, caps, ks)
      else Stuck
    case Chars(cs, rep, q) =>
      if ks != [] && Allowed(rep, ks[0]) && Run(src, s, cs, ks[0]) then Follow(src, pat, q, s + ks[0], caps, ks[1..]) else Stuck
  }

  /** Earlier items decide; more is better, except for lazy items. */
  ghost predicate Preferred(pat: seq<byte>, p: nat, ks: seq<nat>, ks': seq<nat>)
    decreases |pat| - p
  {
    match ItemAt(pat, p)
    case End => false
    case AtEnd => false
    case Bad(_) => false
    case Chars(_, rep, q) =>
      && ks != [] && ks' != []
      && if ks[0] == ks'[0] then Preferred(pat, q, ks[1..], ks'[1..])
         else if rep == Lazy then ks[0] < ks'[0] else ks[0] > ks'[0]
    case item => Preferred(pat, item.next, ks, ks')
  }

  ghost predicate BestChoice(src: seq<byte>, pat: seq<byte>, p: nat, s: nat, caps: seq<Capture>, r: Outcome, ks: seq<nat>) {
    && Follow(src, pat, p, s, caps, ks) == r
    && forall ks' :: ks' != ks && !Follow(src, pat, p, s, caps, ks').Stuck? ==> Preferred(pat, p, ks, ks')
  }

  /** 'r' is the outcome of the best choice that is not stuck. */
  ghost predicate Best(src: seq<byte>, pat: seq<byte>, p: nat, s: nat, caps: seq<Capture>, r: Outcome) {
    if r.Stuck? then forall ks :: Follow(src, pat, p, s, caps, ks).Stuck?
    else exists ks :: BestChoice(src, pat, p, s, caps, r, ks)
  }
}
