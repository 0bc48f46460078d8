/** The regular expressions the gate is for: their options, their syntax, where they stand in a
    text, and what they match.

    These are Tcl's regular expressions as the vendored engine reads them (regc_lex.c,
    regcomp.c, regc_locale.c), where the translator finds the ends of the constructs at the same
    places.  Matching itself is not part of this model, so the meaning of classes, constraints,
    back references and bounds is left open: everything here holds for every choice of it. */
module GateRegexp {
  import opened Chars
  import opened Glob
  import opened GateText

  const LESS: byte := 60
  const GREATER: byte := 62

  /** A member of a bracket class: a character, an escaped one, `\cX`, or `[.x.]`, `[=x=]`,
      `[:x:]`.  Of longer escapes the rest is read as characters. */
  datatype Member = Char(c: byte) | EscapedChar(c: byte) | CtrlMember(c: byte) | Named(kind: byte, name: seq<byte>)

  datatype Atom =
    | Any
    | Plain(c: byte)
    | OpenBrace
    | Bracket(negated: bool, members: seq<Member>)
    | Shorthand(c: byte)
    | Entity(c: byte)
    | CtrlChar(c: byte)
    | Hex(digits: seq<byte>)
    | Code(letter: byte, digits: seq<byte>)
    | Number(digits: seq<byte>)
    | Escaped(c: byte)
    | Group(capturing: bool, re: Regexp)
    | Anchor(c: byte)
    | Constraint(c: byte)
    | Look(negative: bool, re: Regexp)

  /** `*`, `+`, `?` or a bound, greedy or not. */
  datatype Quantifier = Once | Op(c: byte, lazy: bool) | Bound(text: seq<byte>, lazy: bool)

  /** What may stand between tokens: a comment in parentheses, and in expanded syntax a blank or a
      comment up to the end of its line or of the text. */
  datatype Filler = Remark(text: seq<byte>) | Space(c: byte) | Note(text: seq<byte>, closed: bool)

  /** An atom with its quantifier, fillers between them, or a filler. */
  datatype Piece = Piece(atom: Atom, fillers: seq<Filler>, q: Quantifier) | Fill(f: Filler)

  datatype Pieces = Nil | Cons(head: Piece, tail: Pieces)

  datatype Regexp = Only(b: Pieces) | Or(b: Pieces, rest: Regexp)

  // ----- how long they are -----

  function MemberLen(m: Member): (n: nat)
    ensures n > 0
  {
    match m
    case Char(_) => 1
    case EscapedChar(_) => 2
    case CtrlMember(_) => 3
    case Named(_, name) => |name| + 4
  }

  function MembersLen(ms: seq<Member>): nat {
    if ms == [] then 0 else MemberLen(ms[0]) + MembersLen(ms[1..])
  }

  function AtomLen(a: Atom): (n: nat)
    ensures n > 0
    decreases a
  {
    match a
    case Bracket(negated, ms) => 2 + (if negated then 1 else 0) + MembersLen(ms)
    case Hex(ds) => 2 + |ds|
    case Code(_, ds) => 2 + |ds|
    case Number(ds) => 1 + |ds|
    case CtrlChar(_) => 3
    case Group(capturing, re) => (if capturing then 2 else 4) + RegexpLen(re)
    case Look(_, re) => 4 + RegexpLen(re)
    case Shorthand(_) => 2
    case Entity(_) => 2
    case Escaped(_) => 2
    case Constraint(_) => 2
    case _ => 1
  }

  function FillerLen(f: Filler): (n: nat)
    ensures n > 0
  {
    match f
    case Remark(text) => |text| + 4
    case Space(_) => 1
    case Note(text, closed) => |text| + if closed then 2 else 1
  }

  function FillersLen(fs: seq<Filler>): nat {
    if fs == [] then 0 else FillerLen(fs[0]) + FillersLen(fs[1..])
  }

  function QuantifierLen(q: Quantifier): nat {
    match q
    case Once => 0
    case Op(_, lazy) => if lazy then 2 else 1
    case Bound(text, lazy) => |text| + if lazy then 3 else 2
  }

  function PieceLen(p: Piece): (n: nat)
    ensures n > 0
    decreases p
  {
    match p
    case Piece(a, fs, q) => AtomLen(a) + FillersLen(fs) + QuantifierLen(q)
    case Fill(f) => FillerLen(f)
  }

  function PiecesLen(b: Pieces): nat
    decreases b
  {
    if b.Nil? then 0 else PieceLen(b.head) + PiecesLen(b.tail)
  }

  function RegexpLen(re: Regexp): nat
    decreases re
  {
    PiecesLen(re.b) + if re.Or? then 1 + RegexpLen(re.rest) else 0
  }

  // ----- options -----

  /** How the engine takes an expression: as an advanced or plain extended or basic one, or as a
      literal. */
  datatype Flavour = Advanced | Extended | Basic | Verbatim

  datatype Flags = Flags(flavour: Flavour, icase: bool, expanded: bool)

  /** One embedded option; the others change what newlines are to the engine. */
  function WithOption(f: Flags, c: byte): Flags {
    if c == LETTER_b then f.(flavour := Basic)
    else if c == LETTER_e then f.(flavour := Extended)
    else if c == LETTER_q then f.(flavour := Verbatim)
    else if c == LETTER_i then f.(icase := true)
    else if c == LETTER_c then f.(icase := false)
    else if c == LETTER_x then f.(expanded := true)
    else if c == LETTER_t then f.(expanded := false)
    else f
  }

  function WithOptions(f: Flags, opts: seq<byte>): Flags
    decreases |opts|
  {
    if opts == [] then f else WithOptions(WithOption(f, opts[0]), opts[1..])
  }

  /** Blanks for the engine: those the translator knows, and more. */
  datatype Syntax = Tight | Expanded(space: byte -> bool)

  predicate IsBlank(c: byte) {
    c == SPACE || c == TAB || c == NEWLINE
  }

  predicate Skips(x: Syntax, c: byte) {
    x.Expanded? && (IsBlank(c) || x.space(c))
  }

  /** Where the engine goes on after blanks and comments. */
  function EngineSkip(s: seq<byte>, p: nat, x: Syntax): (r: nat)
    requires p <= |s|
    ensures p <= r <= |s|
    decreases |s| - p
  {
    if x.Tight? || p == |s| then p
    else if Skips(x, s[p]) then EngineSkip(s, p + 1, x)
    else if s[p] == HASH then EngineSkip(s, ChopTo(s, p + 1, NEWLINE), x)
    else p
  }

  // ----- where they stand in a text -----

  predicate IsSpecial(c: byte) {
    c == BAR || c == LPAREN || c == RPAREN || c == DOLLAR || c == CARET || c == LBRACKET || c == BACKSLASH
    || c == LBRACE || c == STAR_CHAR || c == PLUS_CHAR || c == QUERY || c == DOT
  }

  /** A member at i.  Escaped brackets that close the class or open a named member for a
      reader who does not know escapes are left out. */
  predicate MemberAt(s: seq<byte>, i: nat, m: Member, first: bool, negated: bool) {
    i + MemberLen(m) <= |s| &&
    match m
    case Char(c) =>
      s[i] == c && c != BACKSLASH && (c == RBRACKET ==> first) && (c == CARET ==> !first || negated)
      && !OpensNamed(s, i)
    case EscapedChar(c) => s[i] == BACKSLASH && s[i + 1] == c && c != LETTER_c && c != RBRACKET && !OpensNamed(s, i + 1)
    case CtrlMember(c) =>
      s[i] == BACKSLASH && s[i + 1] == LETTER_c && s[i + 2] == c && c != RBRACKET && !OpensNamed(s, i + 2)
    case Named(kind, name) =>
      && OpensNamed(s, i) && s[i + 1] == kind && s[i + 2..i + 2 + |name|] == name
      && s[i + 2 + |name|] == kind && s[i + 3 + |name|] == RBRACKET
      && forall k :: i + 2 <= k < i + 2 + |name| ==> !(s[k] == kind && s[k + 1] == RBRACKET)
  }

  predicate MembersAt(s: seq<byte>, i: nat, ms: seq<Member>, first: bool, negated: bool)
    decreases |ms|
  {
    ms == [] || (MemberAt(s, i, ms[0], first, negated) && MembersAt(s, i + MemberLen(ms[0]), ms[1..], false, negated))
  }

  predicate BracketAt(s: seq<byte>, i: nat, negated: bool, ms: seq<Member>) {
    var p := if negated then i + 2 else i + 1;
    && i < |s| && s[i] == LBRACKET && (negated ==> Peek(s, i + 1) == CARET)
    && ms != [] && MembersAt(s, p, ms, true, negated)
    && p + MembersLen(ms) < |s| && s[p + MembersLen(ms)] == RBRACKET
  }

  /** Every parenthesis in x is opened before it is closed, and if x is not at the end of
      the text, then it is closed again; whatever stands between them. */
  predicate Balanced(x: seq<byte>, level: nat, atEnd: bool) {
    if x == [] then level == 0 || atEnd
    else if x[0] == LPAREN then Balanced(x[1..], level + 1, atEnd)
    else if x[0] == RPAREN then level > 0 && Balanced(x[1..], level - 1, atEnd)
    else Balanced(x[1..], level, atEnd)
  }

  /** The value of hexadecimal digits. */
  function HexValue(ds: seq<byte>): nat {
    if ds == [] then 0
    else 16 * HexValue(ds[..|ds| - 1]) + if IsHexDigit(ds[|ds| - 1]) then DigitValue(ds[|ds| - 1]) else 0
  }

  predicate AllHex(ds: seq<byte>) {
    forall k :: 0 <= k < |ds| ==> IsHexDigit(ds[k])
  }

  /** As many digits as the engine takes for the escapes u and U; of eight it takes fewer if
      seven are already too large. */
  predicate IsCode(c: byte, ds: seq<byte>) {
    AllHex(ds) && ((c == LETTER_u && |ds| == 4) || (c == LETTER_U && |ds| == 8 && HexValue(ds[..7]) <= CODE_MAX))
  }

  predicate EscapeAt(s: seq<byte>, i: nat, c: byte) {
    i + 1 < |s| && s[i] == BACKSLASH && s[i + 1] == c
  }

  predicate AtomAt(s: seq<byte>, i: nat, a: Atom, x: Syntax)
    decreases a
  {
    i + AtomLen(a) <= |s| &&
    match a
    case Any => s[i] == DOT
    case Plain(c) => s[i] == c && !IsSpecial(c) && !Skips(x, c) && (x.Expanded? ==> c != HASH)
    case OpenBrace => s[i] == LBRACE && !IsDigit(Peek(s, i + 1)) && !IsDigit(Peek(s, EngineSkip(s, i + 1, x)))
    case Bracket(negated, ms) => BracketAt(s, i, negated, ms)
    case Shorthand(c) => EscapeAt(s, i, c) && IsShorthand(c)
    case Entity(c) => EscapeAt(s, i, c) && Control(c).Some? && (c == 48 ==> !IsOctalDigit(Peek(s, i + 2)))
    case CtrlChar(c) => EscapeAt(s, i, LETTER_c) && s[i + 2] == c
    case Hex(ds) =>
      EscapeAt(s, i, LETTER_x) && ds != [] && s[i + 2..i + 2 + |ds|] == ds
      && AllHex(ds) && !IsHexDigit(Peek(s, i + 2 + |ds|))
    case Code(c, ds) => EscapeAt(s, i, c) && s[i + 2..i + 2 + |ds|] == ds && IsCode(c, ds)
    case Number(ds) =>
      s[i] == BACKSLASH && ds != [] && s[i + 1..i + 1 + |ds|] == ds
      && (forall k :: 0 <= k < |ds| ==> IsDigit(ds[k])) && ds[0] != 48 && !IsDigit(Peek(s, i + 1 + |ds|))
    case Escaped(c) => EscapeAt(s, i, c) && IsOtherEscape(c)
    case Group(capturing, re) =>
      var n := if capturing then i + 1 else i + 3;
      && (if capturing then s[i] == LPAREN && Peek(s, i + 1) != QUERY else At(s, i, [LPAREN, QUERY, COLON]))
      && RegexpAt(s, n, re, x) && s[n + RegexpLen(re)] == RPAREN
    case Anchor(c) => s[i] == c && (c == CARET || c == DOLLAR)
    case Constraint(c) => EscapeAt(s, i, c) && IsConstraint(c)
    case Look(negative, re) =>
      var n := i + 3 + RegexpLen(re);
      && At(s, i, [LPAREN, QUERY, if negative then BANG else EQUALS]) && RegexpAt(s, i + 3, re, x) && s[n] == RPAREN
      && Balanced(s[i + 3..n], 0, n + 1 == |s|)
  }

  /** Escaped characters that mean themselves. */
  predicate IsOtherEscape(c: byte) {
    !IsShorthand(c) && !IsConstraint(c) && Control(c).None? && c != LETTER_c && c != LETTER_x
    && c != LETTER_u && c != LETTER_U && !IsDigit(c)
  }

  predicate FillerAt(s: seq<byte>, i: nat, f: Filler, x: Syntax) {
    match f
    case Remark(text) => At(s, i, [LPAREN, QUERY, HASH] + text + [RPAREN]) && RPAREN !in text
    case Space(c) => x.Expanded? && i < |s| && s[i] == c && IsBlank(c)
    case Note(text, closed) =>
      && x.Expanded? && NEWLINE !in text
      && if closed then At(s, i, [HASH] + text + [NEWLINE]) else At(s, i, [HASH] + text) && i + 1 + |text| == |s|
  }

  predicate FillersAt(s: seq<byte>, i: nat, fs: seq<Filler>, x: Syntax)
    decreases |fs|
  {
    fs == [] || (FillerAt(s, i, fs[0], x) && FillersAt(s, i + FillerLen(fs[0]), fs[1..], x))
  }

  predicate QuantifierAt(s: seq<byte>, i: nat, q: Quantifier, x: Syntax) {
    i + QuantifierLen(q) <= |s| &&
    match q
    case Once => true
    case Op(c, lazy) =>
      s[i] == c && (c == STAR_CHAR || c == PLUS_CHAR || c == QUERY) && (lazy <==> Peek(s, i + 1) == QUERY)
    case Bound(text, lazy) =>
      && s[i] == LBRACE && s[i + 1..i + 1 + |text|] == text && text != [] && IsDigit(text[0]) && RBRACE !in text
      && (x.Expanded? ==> HASH !in text)
      && s[i + 1 + |text|] == RBRACE && (lazy <==> Peek(s, i + 2 + |text|) == QUERY)
  }

  /** `[[:<:]]` and `[[:>:]]`, which are constraints: a word begins or ends here. */
  predicate IsWordBracket(a: Atom) {
    a.Bracket? && !a.negated && (a.members == [Named(COLON, [LESS])] || a.members == [Named(COLON, [GREATER])])
  }

  predicate ZeroWidth(a: Atom) {
    a.Anchor? || a.Constraint? || a.Look? || IsWordBracket(a)
  }

  /** Constraints take no quantifier. */
  predicate PieceAt(s: seq<byte>, i: nat, p: Piece, x: Syntax)
    decreases p
  {
    match p
    case Fill(f) => FillerAt(s, i, f, x)
    case Piece(a, fs, q) =>
      && AtomAt(s, i, a, x) && FillersAt(s, i + AtomLen(a), fs, x)
      && QuantifierAt(s, i + AtomLen(a) + FillersLen(fs), q, x)
      && (q.Once? ==> fs == []) && (ZeroWidth(a) ==> q.Once?)
  }

  predicate PiecesAt(s: seq<byte>, i: nat, b: Pieces, x: Syntax)
    decreases b
  {
    i <= |s| && (b.Cons? ==> PieceAt(s, i, b.head, x) && PiecesAt(s, i + PieceLen(b.head), b.tail, x))
  }

  predicate RegexpAt(s: seq<byte>, i: nat, re: Regexp, x: Syntax)
    decreases re
  {
    PiecesAt(s, i, re.b, x)
    && (re.Or? ==>
          var m := i + PiecesLen(re.b);
          m < |s| && s[m] == BAR && RegexpAt(s, m + 1, re.rest, x))
  }

  // ----- what they match -----

  /** Tcl_UniCharToLower, Tcl_UniCharToUpper, Tcl_UniCharToTitle. */
  datatype Cases = Cases(lower: byte -> byte, upper: byte -> byte, title: byte -> byte)

  /** What is left open: the characters a class matches, where constraints hold, the spans of
      back references and octal escapes, and how often quantifiers repeat; and what the engine
      goes by: its flags, the cases of characters, and which are blanks. */
  datatype Engine = Engine(
    isIn: (Atom, byte) -> bool,
    holds: (Atom, seq<byte>, nat) -> bool,
    spans: (Piece, seq<byte>, nat, nat) -> bool,
    counts: (Quantifier, nat) -> bool,
    flags: Flags,
    cases: Cases,
    space: byte -> bool)

  function SyntaxOf(e: Engine): Syntax {
    if e.flags.expanded then Expanded(e.space) else Tight
  }

  /** The engine takes letters after a backslash for escapes. */
  predicate HasEscapes(e: Engine) {
    e.flags.flavour.Advanced?
  }

  /** The characters that a character of the expression matches (onechr, allcases). */
  function CasesOf(e: Engine, c: byte): seq<byte> {
    if e.flags.icase then [e.cases.lower(c), e.cases.upper(c), e.cases.title(c)] else [c]
  }

  /** Atoms that are characters to the engine. */
  predicate IsText(e: Engine, a: Atom) {
    a.Plain? || a.OpenBrace? || a.Entity? || a.Hex? || a.Code? || a.Escaped?
    || (!HasEscapes(e) && (a.Shorthand? || a.Constraint?))
  }

  /** The characters.  Of hexadecimal digits two are taken, those after them are plain; without
      escapes all that stands after a backslash is. */
  function Reading(e: Engine, a: Atom): seq<byte>
    requires IsText(e, a)
  {
    match a
    case Plain(c) => [c]
    case OpenBrace => [LBRACE]
    case Escaped(c) => [c]
    case Shorthand(c) => [c]
    case Constraint(c) => [c]
    case Entity(c) => [if HasEscapes(e) && Control(c).Some? then Control(c).value else c]
    case Hex(ds) =>
      if !HasEscapes(e) then [LETTER_x] + ds
      else if |ds| > 2 then [HexValue(ds[..2])] + ds[2..]
      else [HexValue(ds)]
    case Code(letter, ds) => if HasEscapes(e) then [Unicode(HexValue(ds))] else [letter] + ds
  }

  predicate ReadingSpan(e: Engine, cs: seq<byte>, t: seq<byte>, i: nat, j: nat) {
    j == i + |cs| <= |t| && forall k :: 0 <= k < |cs| ==> t[i + k] in CasesOf(e, cs[k])
  }

  /** What such an atom matches is decided together with its quantifier: a number escape may be a
      back reference or an octal escape with digits after it, without escapes `\cX` is a letter
      and whatever X is, and of several characters a quantifier takes the last. */
  predicate IsLoose(e: Engine, a: Atom) {
    a.Number? || (a.CtrlChar? && !HasEscapes(e)) || (IsText(e, a) && |Reading(e, a)| > 1)
  }

  ghost predicate AtomSpan(e: Engine, a: Atom, t: seq<byte>, i: nat, j: nat)
    decreases a, 0, 0
  {
    if a.Group? then RegexpSpan(e, a.re, t, i, j)
    else if IsText(e, a) then ReadingSpan(e, Reading(e, a), t, i, j)
    else if IsLoose(e, a) then i <= j <= |t|
    else if ZeroWidth(a) then i == j <= |t| && e.holds(a, t, i)
    else j == i + 1 <= |t| && e.isIn(a, t[i])
  }

  ghost predicate Times(e: Engine, a: Atom, n: nat, t: seq<byte>, i: nat, j: nat)
    decreases a, 1, n
  {
    if n == 0 then i == j <= |t|
    else exists m: nat {:trigger AtomSpan(e, a, t, i, m)} :: AtomSpan(e, a, t, i, m) && Times(e, a, n - 1, t, m, j)
  }

  ghost predicate PieceSpan(e: Engine, p: Piece, t: seq<byte>, i: nat, j: nat)
    decreases p, 2, 0
  {
    match p
    case Fill(_) => i == j <= |t|
    case Piece(a, _, q) =>
      if q.Once? then AtomSpan(e, a, t, i, j)
      else if IsLoose(e, a) then i <= j <= |t| && e.spans(p, t, i, j)
      else exists n: nat :: e.counts(q, n) && Times(e, a, n, t, i, j)
  }

  ghost predicate PiecesSpan(e: Engine, b: Pieces, t: seq<byte>, i: nat, j: nat)
    decreases b, 3, 0
  {
    match b
    case Nil => i == j <= |t|
    case Cons(p, rest) =>
      exists m: nat {:trigger PieceSpan(e, p, t, i, m)} :: PieceSpan(e, p, t, i, m) && PiecesSpan(e, rest, t, m, j)
  }

  ghost predicate RegexpSpan(e: Engine, re: Regexp, t: seq<byte>, i: nat, j: nat)
    decreases re, 4, 0
  {
    PiecesSpan(e, re.b, t, i, j) || (re.Or? && RegexpSpan(e, re.rest, t, i, j))
  }
}
