/** Regular expressions as the compiler in exp_clib.c reads them: the syntax tree,
    the width flags and the grammar.

    A pattern is a C string, that is, a sequence of bytes none of which is NUL; reading
    at its end gives NUL.  The tree keeps the four precedence levels of the compiler:
    alternatives, branches, pieces and atoms. */
module RegSyntax {
  import opened Chars

  /** Groups are numbered 1 to NSUBEXP - 1. */
  const NSUBEXP: nat := 20

  type GroupNumber = n: nat | 0 < n < NSUBEXP witness 1

  /** The number the next group gets. */
  type NextGroup = n: nat | 0 < n witness 1

  datatype Rep = One | Star | Plus | Quest

  datatype Atom =
    | Bol
    | Eol
    | Any
    | OneOf(cs: seq<byte>)
    | NoneOf(cs: seq<byte>)
    | Exactly(cs: seq<byte>)
    | Group(n: GroupNumber, alts: Alts)

  datatype Piece = Piece(atom: Atom, rep: Rep)

  datatype Branch = Nil | Cons(head: Piece, tail: Branch)

  datatype Alts = Last(b: Branch) | Or(b: Branch, rest: Alts)

  /** Flags passed up by the compiler. */
  datatype Flags = Flags(hasWidth: bool, simple: bool, spStart: bool)

  predicate AtomWidth(a: Atom) {
    match a
    case Bol => false
    case Eol => false
    case Group(_, alts) => AltsWidth(alts)
    case _ => true
  }

  predicate PieceWidth(p: Piece) {
    match p.rep
    case One => AtomWidth(p.atom)
    case Plus => true
    case _ => false
  }

  predicate BranchWidth(b: Branch) {
    b.Cons? && (PieceWidth(b.head) || BranchWidth(b.tail))
  }

  predicate AltsWidth(l: Alts) {
    BranchWidth(l.b) && (l.Or? ==> AltsWidth(l.rest))
  }

  predicate Simple(a: Atom) {
    match a
    case Any => true
    case OneOf(_) => true
    case NoneOf(_) => true
    case Exactly(cs) => |cs| == 1
    case _ => false
  }

  predicate AtomSpStart(a: Atom) {
    a.Group? && AltsSpStart(a.alts)
  }

  predicate PieceSpStart(p: Piece) {
    match p.rep
    case One => AtomSpStart(p.atom)
    case Plus => false
    case _ => true
  }

  predicate BranchSpStart(b: Branch) {
    b.Cons? && PieceSpStart(b.head)
  }

  predicate AltsSpStart(l: Alts) {
    BranchSpStart(l.b) || (l.Or? && AltsSpStart(l.rest))
  }

  function AtomFlags(a: Atom): Flags {
    Flags(AtomWidth(a), Simple(a), AtomSpStart(a))
  }

  function PieceFlags(p: Piece): Flags {
    if p.rep.One? then AtomFlags(p.atom) else Flags(PieceWidth(p), false, PieceSpStart(p))
  }

  function BranchFlags(b: Branch): Flags {
    Flags(BranchWidth(b), false, BranchSpStart(b))
  }

  function AltsFlags(l: Alts): Flags {
    Flags(AltsWidth(l), false, AltsSpStart(l))
  }

  /** The trees the compiler builds: literals are
      nonempty and NUL-free, and whatever is repeated by `*` or `+` has width. */
  predicate CharsOk(cs: seq<byte>) {
    forall k :: 0 <= k < |cs| ==> 0 < cs[k] < 256
  }

  predicate AtomOk(a: Atom) {
    match a
    case OneOf(cs) => CharsOk(cs)
    case NoneOf(cs) => CharsOk(cs)
    case Exactly(cs) => CharsOk(cs) && |cs| > 0
    case Group(_, alts) => AltsOk(alts)
    case _ => true
  }

  predicate PieceOk(p: Piece) {
    AtomOk(p.atom) && (p.rep.Star? || p.rep.Plus? ==> AtomWidth(p.atom))
  }

  predicate BranchOk(b: Branch) {
    b.Cons? ==> PieceOk(b.head) && BranchOk(b.tail)
  }

  predicate AltsOk(l: Alts) {
    BranchOk(l.b) && (l.Or? ==> AltsOk(l.rest))
  }

  // ----- the grammar -----

  datatype Error =
    | TooManyParens | UnmatchedParens | JunkOnEnd | OperandCouldBeEmpty | NestedRepeat
    | InvalidRange | UnmatchedBracket | InternalUrp | FollowsNothing | TrailingBackslash
    | TooBig | NullArgument

  /** What parsing one construct gives: its tree, where reading stopped, and the next
      group number. */
  datatype Parsed<+T> = Ok(value: T, pos: nat, npar: NextGroup) | Fail(error: Error)

  predicate IsMult(c: byte) {
    c == STAR_CHAR || c == PLUS_CHAR || c == QUERY
  }

  predicate IsMeta(c: byte) {
    c == CARET || c == DOLLAR || c == DOT || c == LBRACKET || c == LPAREN || c == RPAREN
    || c == BAR || c == BACKSLASH || IsMult(c)
  }

  /** Length of the run of ordinary characters at i (strcspn). */
  function Span(s: seq<byte>, i: nat): (n: nat)
    requires i <= |s|
    ensures i + n <= |s|
    decreases |s| - i
  {
    if i < |s| && !IsMeta(s[i]) then 1 + Span(s, i + 1) else 0
  }

  /** Length of the literal read at i: the run of ordinary characters, less its last
      character when that one is what a repetition applies to. */
  function LiteralLength(s: seq<byte>, i: nat): (n: nat)
    requires i <= |s|
    ensures i + n <= |s|
  {
    var n := Span(s, i);
    if n > 1 && IsMult(Peek(s, i + n)) then n - 1 else n
  }

  function Range(lo: byte, hi: byte): (cs: seq<byte>)
    ensures forall c :: c in cs <==> lo <= c <= hi
    decreases hi - lo
  {
    if lo > hi then [] else [lo] + Range(lo + 1, hi)
  }

  /** The body of a bracket class from i on, up to and including the closing bracket;
      acc is what was read before. */
  function ParseClassBody(s: seq<byte>, i: nat, acc: seq<byte>, npar: NextGroup): (r: Parsed<seq<byte>>)
    requires 0 < i <= |s|
    ensures r.Ok? ==> i < r.pos <= |s| && r.npar == npar && acc <= r.value
    decreases |s| - i
  {
    var c := Peek(s, i);
    if c == NUL then Fail(UnmatchedBracket)
    else if c == RBRACKET then Ok(acc, i + 1, npar)
    else if c == MINUS then
      var d := Peek(s, i + 1);
      if d == RBRACKET || d == NUL then ParseClassBody(s, i + 1, acc + [MINUS], npar)
      else if s[i - 1] + 1 > d + 1 then Fail(InvalidRange)
      else ParseClassBody(s, i + 2, acc + Range(s[i - 1] + 1, d), npar)
    else ParseClassBody(s, i + 1, acc + [c], npar)
  }

  /** A bracket class, from just after the opening bracket. */
  function ParseClass(s: seq<byte>, i: nat, npar: NextGroup): (r: Parsed<Atom>)
    requires 0 < i <= |s|
    ensures r.Ok? ==> i < r.pos <= |s| && r.npar == npar && (r.value.OneOf? || r.value.NoneOf?)
  {
    var negated := Peek(s, i) == CARET;
    var j := if negated then i + 1 else i;
    var c := Peek(s, j);
    var body := if c == RBRACKET || c == MINUS then ParseClassBody(s, j + 1, [c], npar)
                else ParseClassBody(s, j, [], npar);
    match body
    case Ok(cs, pos, n) => Ok(if negated then NoneOf(cs) else OneOf(cs), pos, n)
    case Fail(e) => Fail(e)
  }

  function ParseAtom(s: seq<byte>, i: nat, npar: NextGroup): (r: Parsed<Atom>)
    requires i <= |s|
    ensures r.Ok? ==> i < r.pos <= |s| && npar <= r.npar
    decreases |s| - i, 0
  {
    var c := Peek(s, i);
    if c == CARET then Ok(Bol, i + 1, npar)
    else if c == DOLLAR then Ok(Eol, i + 1, npar)
    else if c == DOT then Ok(Any, i + 1, npar)
    else if c == LBRACKET then ParseClass(s, i + 1, npar)
    else if c == LPAREN then
      (match ParseReg(s, i + 1, npar, true)
       case Ok(alts, pos, n) => Ok(Group(npar, alts), pos, n)
       case Fail(e) => Fail(e))
    else if c == NUL || c == BAR || c == RPAREN then Fail(InternalUrp)
    else if IsMult(c) then Fail(FollowsNothing)
    else if c == BACKSLASH then
      if Peek(s, i + 1) == NUL then Fail(TrailingBackslash)
      else Ok(Exactly([s[i + 1]]), i + 2, npar)
    else
      var n := LiteralLength(s, i);
      Ok(Exactly(s[i..i + n]), i + n, npar)
  }

  function RepOf(c: byte): Rep
    requires IsMult(c)
  {
    if c == STAR_CHAR then Star else if c == PLUS_CHAR then Plus else Quest
  }

  function ParsePiece(s: seq<byte>, i: nat, npar: NextGroup): (r: Parsed<Piece>)
    requires i <= |s|
    ensures r.Ok? ==> i < r.pos <= |s| && npar <= r.npar
    decreases |s| - i, 1
  {
    match ParseAtom(s, i, npar)
    case Fail(e) => Fail(e)
    case Ok(a, pos, n) =>
      var op := Peek(s, pos);
      if !IsMult(op) then Ok(Piece(a, One), pos, n)
      else if !AtomWidth(a) && op != QUERY then Fail(OperandCouldBeEmpty)
      else if IsMult(Peek(s, pos + 1)) then Fail(NestedRepeat)
      else Ok(Piece(a, RepOf(op)), pos + 1, n)
  }

  predicate EndsBranch(c: byte) {
    c == NUL || c == BAR || c == RPAREN
  }

  function ParseBranch(s: seq<byte>, i: nat, npar: NextGroup): (r: Parsed<Branch>)
    requires i <= |s|
    ensures r.Ok? ==> i <= r.pos <= |s| && npar <= r.npar && EndsBranch(Peek(s, r.pos))
    decreases |s| - i, 2
  {
    if EndsBranch(Peek(s, i)) then Ok(Nil, i, npar)
    else
      match ParsePiece(s, i, npar)
      case Fail(e) => Fail(e)
      case Ok(p, pos, n) =>
        match ParseBranch(s, pos, n)
        case Fail(e) => Fail(e)
        case Ok(b, pos', n') => Ok(Cons(p, b), pos', n')
  }

  function ParseAlts(s: seq<byte>, i: nat, npar: NextGroup): (r: Parsed<Alts>)
    requires i <= |s|
    ensures r.Ok? ==> i <= r.pos <= |s| && npar <= r.npar
    decreases |s| - i, 3
  {
    match ParseBranch(s, i, npar)
    case Fail(e) => Fail(e)
    case Ok(b, pos, n) =>
      if Peek(s, pos) != BAR then Ok(Last(b), pos, n)
      else
        match ParseAlts(s, pos + 1, n)
        case Fail(e) => Fail(e)
        case Ok(l, pos', n') => Ok(Or(b, l), pos', n')
  }

  /** A whole pattern, or (paren) a parenthesized one from just after its parenthesis. */
  function ParseReg(s: seq<byte>, i: nat, npar: NextGroup, paren: bool): (r: Parsed<Alts>)
    requires i <= |s|
    ensures r.Ok? ==> i <= r.pos <= |s| && npar <= r.npar && (paren ==> npar < NSUBEXP)
    decreases |s| - i, 4
  {
    if paren && npar >= NSUBEXP then Fail(TooManyParens)
    else
      match ParseAlts(s, i, if paren then npar + 1 else npar)
      case Fail(e) => Fail(e)
      case Ok(l, pos, n) =>
        var c := Peek(s, pos);
        if paren then (if c == RPAREN then Ok(l, pos + 1, n) else Fail(UnmatchedParens))
        else if c == NUL then Ok(l, pos, n)
        else if c == RPAREN then Fail(UnmatchedParens)
        else Fail(JunkOnEnd)
  }

  // ----- every tree the grammar gives is one of the trees above -----

  lemma {:induction false} ClassBodyOk(s: seq<byte>, i: nat, acc: seq<byte>, npar: NextGroup)
    requires 0 < i <= |s| && CharsOk(s) && CharsOk(acc)
    ensures var r := ParseClassBody(s, i, acc, npar); r.Ok? ==> CharsOk(r.value)
    decreases |s| - i
  {
    var c := Peek(s, i);
    if c != NUL && c != RBRACKET {
      var d := Peek(s, i + 1);
      if c != MINUS {
        ClassBodyOk(s, i + 1, acc + [c], npar);
      } else if d == RBRACKET || d == NUL {
        ClassBodyOk(s, i + 1, acc + [MINUS], npar);
      } else if s[i - 1] <= d {
        var r := Range(s[i - 1] + 1, d);
        forall k | 0 <= k < |r| ensures 0 < r[k] < 256 { assert r[k] in r; }
        ClassBodyOk(s, i + 2, acc + r, npar);
      }
    }
  }

  lemma {:induction false} ClassOk(s: seq<byte>, i: nat, npar: NextGroup)
    requires 0 < i <= |s| && CharsOk(s)
    ensures var r := ParseClass(s, i, npar); r.Ok? ==> AtomOk(r.value)
  {
    var j := if Peek(s, i) == CARET then i + 1 else i;
    var c := Peek(s, j);
    if c == RBRACKET || c == MINUS {
      ClassBodyOk(s, j + 1, [c], npar);
    } else {
      ClassBodyOk(s, j, [], npar);
    }
  }

  lemma {:induction false} ParseAtomOk(s: seq<byte>, i: nat, npar: NextGroup)
    requires i <= |s| && CharsOk(s)
    ensures var r := ParseAtom(s, i, npar); r.Ok? ==> AtomOk(r.value)
    decreases |s| - i, 0
  {
    var c := Peek(s, i);
    if c == LBRACKET {
      ClassOk(s, i + 1, npar);
    } else if c == LPAREN {
      ParseRegOk(s, i + 1, npar, true);
    }
  }

  lemma {:induction false} ParsePieceOk(s: seq<byte>, i: nat, npar: NextGroup)
    requires i <= |s| && CharsOk(s)
    ensures var r := ParsePiece(s, i, npar); r.Ok? ==> PieceOk(r.value)
    decreases |s| - i, 1
  {
    ParseAtomOk(s, i, npar);
  }

  lemma {:induction false} ParseBranchOk(s: seq<byte>, i: nat, npar: NextGroup)
    requires i <= |s| && CharsOk(s)
    ensures var r := ParseBranch(s, i, npar); r.Ok? ==> BranchOk(r.value)
    decreases |s| - i, 2
  {
    if !EndsBranch(Peek(s, i)) {
      ParsePieceOk(s, i, npar);
      var p := ParsePiece(s, i, npar);
      if p.Ok? {
        ParseBranchOk(s, p.pos, p.npar);
      }
    }
  }

  lemma {:induction false} ParseAltsOk(s: seq<byte>, i: nat, npar: NextGroup)
    requires i <= |s| && CharsOk(s)
    ensures var r := ParseAlts(s, i, npar); r.Ok? ==> AltsOk(r.value)
    decreases |s| - i, 3
  {
    ParseBranchOk(s, i, npar);
    var b := ParseBranch(s, i, npar);
    if b.Ok? && Peek(s, b.pos) == BAR {
      ParseAltsOk(s, b.pos + 1, b.npar);
    }
  }

  /** Whatever the compiler accepts is well formed; in particular the operand of every
      `*` and `+` has width. */
  lemma {:induction false} ParseRegOk(s: seq<byte>, i: nat, npar: NextGroup, paren: bool)
    requires i <= |s| && CharsOk(s)
    ensures var r := ParseReg(s, i, npar, paren); r.Ok? ==> AltsOk(r.value)
    decreases |s| - i, 4
  {
    if !(paren && npar >= NSUBEXP) {
      ParseAltsOk(s, i, if paren then npar + 1 else npar);
    }
  }
}
