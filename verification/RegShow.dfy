/** Writing trees as patterns: what is written reads back as the same tree. */
module RegShow {
  import opened Chars
  import opened RegSyntax
  import opened RegCaptures

  const COMMA: byte := 44

  /** The k-th character of a class, not the first, can be written: a minus is the last, or
      written as a range from the comma before it; a bracket is written with the character
      after it as a range from the backslash before it. */
  predicate Writable(cs: seq<byte>, k: nat)
    requires 0 < k < |cs|
  {
    && cs[k] != NUL && (cs[k] == MINUS ==> k == |cs| - 1 || cs[k - 1] == COMMA)
    && (cs[k] == RBRACKET ==> cs[k - 1] == BACKSLASH && k + 1 < |cs| && cs[k + 1] == CARET)
  }

  /** The first character of a class may be anything but what would negate it. */
  predicate ClassShown(cs: seq<byte>, negated: bool) {
    cs != [] && cs[0] != NUL && (cs[0] == CARET ==> negated) && forall k :: 0 < k < |cs| ==> Writable(cs, k)
  }

  /** The characters from the k-th on. */
  function ShowClass(cs: seq<byte>, k: nat): (r: seq<byte>)
    requires 0 < k <= |cs| && forall m :: 0 < m < |cs| ==> Writable(cs, m)
    ensures NUL !in r
    decreases |cs| - k
  {
    if k == |cs| then []
    else if cs[k] == RBRACKET then assert Writable(cs, k); [MINUS, CARET] + ShowClass(cs, k + 2)
    else if cs[k] == MINUS && k + 1 < |cs| then [MINUS, MINUS] + ShowClass(cs, k + 1)
    else assert Writable(cs, k); [cs[k]] + ShowClass(cs, k + 1)
  }

  /** Literals of several characters are written as they are, those of one after a backslash. */
  predicate LongLiteral(a: Atom) {
    a.Exactly? && |a.cs| > 1
  }

  predicate AtomShown(a: Atom)
    decreases a
  {
    match a
    case Exactly(cs) => cs != [] && NUL !in cs && (|cs| > 1 ==> forall k :: 0 <= k < |cs| ==> !IsMeta(cs[k]))
    case OneOf(cs) => ClassShown(cs, false)
    case NoneOf(cs) => ClassShown(cs, true)
    case Group(_, alts) => AltsShown(alts)
    case _ => true
  }

  /** A long literal is not repeated and not followed by another: they would be read otherwise. */
  predicate BranchShown(b: Branch)
    decreases b
  {
    b.Cons? ==>
      && AtomShown(b.head.atom) && BranchShown(b.tail)
      && (LongLiteral(b.head.atom) ==> b.head.rep.One? && (b.tail.Cons? ==> !LongLiteral(b.tail.head.atom)))
  }

  predicate AltsShown(l: Alts)
    decreases l
  {
    BranchShown(l.b) && (l.Or? ==> AltsShown(l.rest))
  }

  function ShowAtom(a: Atom): (r: seq<byte>)
    requires AtomShown(a)
    ensures |r| > 0 && !IsMult(r[0]) && !EndsBranch(r[0]) && NUL !in r && (IsMeta(r[0]) <==> !LongLiteral(a))
    decreases a, 0
  {
    match a
    case Bol => [CARET]
    case Eol => [DOLLAR]
    case Any => [DOT]
    case OneOf(cs) => [LBRACKET] + ([cs[0]] + (ShowClass(cs, 1) + [RBRACKET]))
    case NoneOf(cs) => [LBRACKET, CARET] + ([cs[0]] + (ShowClass(cs, 1) + [RBRACKET]))
    case Exactly(cs) => if |cs| > 1 then cs else [BACKSLASH, cs[0]]
    case Group(_, alts) => [LPAREN] + (ShowAlts(alts) + [RPAREN])
  }

  function ShowRep(r: Rep): seq<byte> {
    match r
    case One => []
    case Star => [STAR_CHAR]
    case Plus => [PLUS_CHAR]
    case Quest => [QUERY]
  }

  function ShowBranch(b: Branch): (r: seq<byte>)
    requires BranchShown(b)
    ensures NUL !in r && (b.Cons? ==> |r| > 0 && r[0] == ShowAtom(b.head.atom)[0])
    decreases b, 1
  {
    if b.Nil? then [] else ShowAtom(b.head.atom) + (ShowRep(b.head.rep) + ShowBranch(b.tail))
  }

  function ShowAlts(l: Alts): (r: seq<byte>)
    requires AltsShown(l)
    ensures NUL !in r
    decreases l, 2
  {
    if l.Last? then ShowBranch(l.b) else ShowBranch(l.b) + ([BAR] + ShowAlts(l.rest))
  }

  // ----- reading it back -----

  lemma AtFirst(s: seq<byte>, i: nat, x: seq<byte>)
    requires At(s, i, x) && |x| > 0
    ensures i < |s| && s[i] == x[0] == Peek(s, i) && (|x| > 1 ==> i + 1 < |s| && s[i + 1] == x[1])
  {
    assert s[i..i + |x|][0] == s[i];
    if |x| > 1 { assert s[i..i + |x|][1] == s[i + 1]; }
  }

  /** One character of a class, or a range of one or two. */
  lemma ClassStep(s: seq<byte>, i: nat, acc: seq<byte>, npar: NextGroup)
    requires 0 < i < |s| && s[i] != NUL
    ensures var c, d := s[i], Peek(s, i + 1);
            var r := ParseClassBody(s, i, acc, npar);
            if c == RBRACKET then r == Ok(acc, i + 1, npar)
            else if c != MINUS || d == RBRACKET then r == ParseClassBody(s, i + 1, acc + [c], npar)
            else if d == CARET && s[i - 1] == BACKSLASH then
              r == ParseClassBody(s, i + 2, acc + [RBRACKET, CARET], npar)
            else d == MINUS && s[i - 1] == COMMA ==> r == ParseClassBody(s, i + 2, acc + [MINUS], npar)
  {
    assert Range(RBRACKET, CARET) == [RBRACKET] + ([CARET] + []) == [RBRACKET, CARET];
    assert Range(MINUS, MINUS) == [MINUS] + [] == [MINUS];
  }

  /** How much is written next, and of how many characters. */
  lemma ShowClassStep(cs: seq<byte>, k: nat) returns (x: seq<byte>, n: nat)
    requires 0 < k < |cs| && forall m :: 0 < m < |cs| ==> Writable(cs, m)
    ensures 0 < n && k + n <= |cs| && ShowClass(cs, k) == x + ShowClass(cs, k + n)
    ensures if cs[k] == RBRACKET then x == [MINUS, CARET] && n == 2 && cs[k - 1] == BACKSLASH && cs[k + 1] == CARET
            else if cs[k] == MINUS && k + 1 < |cs| then x == [MINUS, MINUS] && n == 1 && cs[k - 1] == COMMA
            else x == [cs[k]] && n == 1 && cs[k] != NUL && (cs[k] == MINUS ==> ShowClass(cs, k + n) == [])
  {
    assert Writable(cs, k);
    n := if cs[k] == RBRACKET then 2 else 1;
    x := if cs[k] == RBRACKET then [MINUS, CARET]
         else if cs[k] == MINUS && k + 1 < |cs| then [MINUS, MINUS]
         else [cs[k]];
  }

  lemma {:induction false} ClassReadsBack(s: seq<byte>, i: nat, cs: seq<byte>, k: nat, npar: NextGroup)
    requires 0 < i && 0 < k <= |cs| && (forall m :: 0 < m < |cs| ==> Writable(cs, m))
             && At(s, i, ShowClass(cs, k) + [RBRACKET])
    requires s[i - 1] == cs[k - 1]
    ensures ParseClassBody(s, i, cs[..k], npar) == Ok(cs, i + |ShowClass(cs, k)| + 1, npar)
    decreases |cs| - k
  {
    hide At, ParseClassBody, Writable;
    AtFirst(s, i, ShowClass(cs, k) + [RBRACKET]);
    if k == |cs| {
      assert cs[..k] == cs;
      ClassStep(s, i, cs, npar);
    } else {
      ClassGoesOn(s, i, cs, k, npar);
    }
  }

  lemma ClassGoesOn(s: seq<byte>, i: nat, cs: seq<byte>, k: nat, npar: NextGroup)
    requires 0 < i && 0 < k < |cs| && (forall m :: 0 < m < |cs| ==> Writable(cs, m))
             && At(s, i, ShowClass(cs, k) + [RBRACKET])
    requires s[i - 1] == cs[k - 1]
    ensures ParseClassBody(s, i, cs[..k], npar) == Ok(cs, i + |ShowClass(cs, k)| + 1, npar)
    decreases |cs| - k, 0
  {
    hide At, ParseClassBody, Writable, ShowClass;
    var x, n := ShowClassStep(cs, k);
    var y := ShowClass(cs, k + n) + [RBRACKET];
    assert ShowClass(cs, k) + [RBRACKET] == x + y;
    AtSplit(s, i, x, y);
    AtFirst(s, i, x);
    AtFirst(s, i + |x|, y);
    assert cs[..k + n] == if n == 2 then cs[..k] + [RBRACKET, CARET] else cs[..k] + [cs[k]];
    ClassStep(s, i, cs[..k], npar);
    ClassReadsBack(s, i + |x|, cs, k + n, npar);
  }

  lemma BracketReadsBack(s: seq<byte>, i: nat, a: Atom, npar: NextGroup)
    requires (a.OneOf? || a.NoneOf?) && AtomShown(a) && At(s, i, ShowAtom(a))
    ensures ParseAtom(s, i, npar) == Ok(a, i + |ShowAtom(a)|, npar)
  {
    hide ParseReg, ParseClassBody, ShowClass, Writable;
    AtFirst(s, i, ShowAtom(a));
    var j := if a.OneOf? then i + 1 else i + 2;
    var x := [a.cs[0]] + (ShowClass(a.cs, 1) + [RBRACKET]);
    AtSplit(s, i, if a.OneOf? then [LBRACKET] else [LBRACKET, CARET], x);
    AtFirst(s, j, x);
    AtSplit(s, j, [a.cs[0]], ShowClass(a.cs, 1) + [RBRACKET]);
    ClassReadsBack(s, j + 1, a.cs, 1, npar);
    if a.cs[0] != RBRACKET && a.cs[0] != MINUS { FirstOfClass(s, j, npar); }
    assert a.cs[..1] == [a.cs[0]];
  }

  /** The first character of a class is taken as it is. */
  lemma FirstOfClass(s: seq<byte>, j: nat, npar: NextGroup)
    requires 0 < j < |s| && s[j] != NUL && s[j] != RBRACKET && s[j] != MINUS
    ensures ParseClassBody(s, j, [], npar) == ParseClassBody(s, j + 1, [s[j]], npar)
  {
    assert [] + [s[j]] == [s[j]];
  }

  /** What may follow a long literal. */
  predicate EndsLiteral(s: seq<byte>, i: nat) {
    i == |s| || (i < |s| && IsMeta(s[i]) && !IsMult(s[i]))
  }

  lemma {:induction false} SpanIs(s: seq<byte>, i: nat, cs: seq<byte>)
    requires At(s, i, cs) && (forall k :: 0 <= k < |cs| ==> !IsMeta(cs[k])) && EndsLiteral(s, i + |cs|)
    ensures Span(s, i) == |cs|
    decreases |cs|
  {
    if cs != [] {
      assert cs == [cs[0]] + cs[1..];
      AtSplit(s, i, [cs[0]], cs[1..]);
      AtFirst(s, i, cs);
      SpanIs(s, i + 1, cs[1..]);
    }
  }

  lemma LongReadsBack(s: seq<byte>, i: nat, a: Atom, npar: NextGroup)
    requires LongLiteral(a) && AtomShown(a) && At(s, i, a.cs) && EndsLiteral(s, i + |a.cs|)
    ensures ParseAtom(s, i, npar) == Ok(a, i + |a.cs|, npar)
  {
    hide Span;
    AtFirst(s, i, a.cs);
    SpanIs(s, i, a.cs);
  }

  lemma {:induction false} AtomReadsBack(s: seq<byte>, i: nat, a: Atom, npar: NextGroup)
    requires i <= |s| && AtomShown(a) && AtomOk(a) && AtomNumbered(a, npar) && At(s, i, ShowAtom(a)) && NUL !in s
    requires LongLiteral(a) ==> EndsLiteral(s, i + |ShowAtom(a)|)
    ensures ParseAtom(s, i, npar) == Ok(a, i + |ShowAtom(a)|, npar + AtomGroups(a))
    decreases a, 0
  {
    hide At, ParseAtom, ParseAlts, ShowAlts, AltsShown, AltsOk, AltsNumbered, AltsGroups, ClassShown, CharsOk,
         EndsLiteral;
    if LongLiteral(a) {
      LongReadsBack(s, i, a, npar);
    } else if a.OneOf? || a.NoneOf? {
      BracketReadsBack(s, i, a, npar);
    } else if a.Group? {
      var x := ShowAlts(a.alts);
      AtFirst(s, i, ShowAtom(a));
      AtSplit(s, i, [LPAREN], x + [RPAREN]);
      AtSplit(s, i + 1, x, [RPAREN]);
      AtFirst(s, i + 1 + |x|, [RPAREN]);
      AltsReadBack(s, i + 1, a.alts, npar + 1);
      GroupParsed(s, i, a.alts, npar, i + 1 + |x|, npar + 1 + AltsGroups(a.alts));
    } else {
      LeafReadsBack(s, i, a, npar);
    }
  }

  lemma GroupParsed(s: seq<byte>, i: nat, l: Alts, npar: NextGroup, pos: nat, n: NextGroup)
    requires i < |s| && s[i] == LPAREN && npar < NSUBEXP && pos < |s| && s[pos] == RPAREN
    requires ParseAlts(s, i + 1, npar + 1) == Ok(l, pos, n)
    ensures ParseAtom(s, i, npar) == Ok(Group(npar, l), pos + 1, n)
  {
    hide ParseAlts;
  }

  lemma LeafReadsBack(s: seq<byte>, i: nat, a: Atom, npar: NextGroup)
    requires i <= |s| && AtomShown(a) && AtomOk(a) && At(s, i, ShowAtom(a)) && !a.OneOf? && !a.NoneOf? && !a.Group?
    requires !LongLiteral(a)
    ensures ParseAtom(s, i, npar) == Ok(a, i + |ShowAtom(a)|, npar)
  {
    hide ParseReg, ParseClass, LiteralLength, At;
    AtFirst(s, i, ShowAtom(a));
    if a.Exactly? { assert a.cs == [a.cs[0]]; }
  }

  lemma RepReadsBack(s: seq<byte>, i: nat, p: Piece, npar: NextGroup, after: nat, npar': NextGroup)
    requires i <= |s| && ParseAtom(s, i, npar) == Ok(p.atom, after, npar') && PieceOk(p)
    requires At(s, after, ShowRep(p.rep)) && !IsMult(Peek(s, after + |ShowRep(p.rep)|))
    ensures ParsePiece(s, i, npar) == Ok(p, after + |ShowRep(p.rep)|, npar')
  {
    hide ParseAtom;
    if !p.rep.One? {
      AtFirst(s, after, ShowRep(p.rep));
    }
  }

  lemma {:induction false} BranchReadsBack(s: seq<byte>, i: nat, b: Branch, npar: NextGroup)
    requires i <= |s| && BranchShown(b) && BranchOk(b) && BranchNumbered(b, npar) && At(s, i, ShowBranch(b))
             && NUL !in s
    requires EndsBranch(Peek(s, i + |ShowBranch(b)|))
    ensures ParseBranch(s, i, npar) == Ok(b, i + |ShowBranch(b)|, npar + BranchGroups(b))
    decreases b, 1
  {
    hide At, ParseAtom, ShowAtom, ParsePiece, ParseBranch, ShowRep, ShowBranch, BranchShown, AtomOk, AtomShown, PieceOk,
         AtomNumbered, AtomGroups, LongLiteral;
    BranchShowOne(b);
    if b.Nil? {
      EmptyReadsBack(s, i, npar);
    } else {
      var x, y, z := ShowAtom(b.head.atom), ShowRep(b.head.rep), ShowBranch(b.tail);
      At3(s, i, x, y, z);
      AtFits(s, i, x);
      AtFits(s, i + |x|, y);
      AtFits(s, i + |x| + |y|, z);
      AtFirst(s, i, x);
      if b.tail.Cons? {
        AtFirst(s, i + |x| + |y|, z);
      }
      if LongLiteral(b.head.atom) { LiteralEnds(s, i, b); }
      NoMultAfter(s, i + |x| + |y|, b.tail);
      PieceReadsBack(s, i, b.head, npar);
      var n := npar + AtomGroups(b.head.atom);
      BranchReadsBack(s, i + |x| + |y|, b.tail, n);
      PieceThenBranch(s, i, npar, b.head, i + |x| + |y|, n);
    }
  }

  lemma NoMultAfter(s: seq<byte>, i: nat, b: Branch)
    requires BranchShown(b) && At(s, i, ShowBranch(b)) && EndsBranch(Peek(s, i + |ShowBranch(b)|))
    ensures !IsMult(Peek(s, i))
  {
    hide ShowAtom, At;
    if b.Cons? { AtFirst(s, i, ShowBranch(b)); }
  }

  lemma PieceReadsBack(s: seq<byte>, i: nat, p: Piece, npar: NextGroup)
    requires i <= |s| && AtomShown(p.atom) && PieceOk(p) && AtomNumbered(p.atom, npar) && NUL !in s
    requires LongLiteral(p.atom) ==> EndsLiteral(s, i + |ShowAtom(p.atom)|)
    requires At(s, i, ShowAtom(p.atom)) && At(s, i + |ShowAtom(p.atom)|, ShowRep(p.rep))
    requires var j := i + |ShowAtom(p.atom)| + |ShowRep(p.rep)|; j <= |s| && !IsMult(Peek(s, j))
    ensures ParsePiece(s, i, npar) == Ok(p, i + |ShowAtom(p.atom)| + |ShowRep(p.rep)|, npar + AtomGroups(p.atom))
    decreases p, 1
  {
    hide At, ParseAtom, ShowAtom, ShowRep, ParsePiece, AtomOk, AtomWidth, AtomShown, AtomNumbered, AtomGroups,
         EndsLiteral, LongLiteral;
    AtomReadsBack(s, i, p.atom, npar);
    RepReadsBack(s, i, p, npar, i + |ShowAtom(p.atom)|, npar + AtomGroups(p.atom));
  }

  /** What the predicates and functions over branches say of the first piece. */
  lemma BranchShowOne(b: Branch)
    requires BranchShown(b) && BranchOk(b)
    ensures b.Nil? ==> ShowBranch(b) == [] && BranchGroups(b) == 0
    ensures b.Cons? ==>
              && AtomShown(b.head.atom) && BranchShown(b.tail) && PieceOk(b.head) && BranchOk(b.tail)
              && (LongLiteral(b.head.atom) ==> b.head.rep.One?)
              && ShowBranch(b) == ShowAtom(b.head.atom) + (ShowRep(b.head.rep) + ShowBranch(b.tail))
              && BranchGroups(b) == AtomGroups(b.head.atom) + BranchGroups(b.tail)
    ensures b.Cons? ==> forall npar: NextGroup :: BranchNumbered(b, npar) ==>
              AtomNumbered(b.head.atom, npar) && BranchNumbered(b.tail, npar + AtomGroups(b.head.atom))
  {
    hide AtomShown, AtomOk, AtomWidth, AtomNumbered, AtomGroups, ShowAtom, ShowRep;
  }

  /** A long literal of a branch ends where its text ends. */
  lemma LiteralEnds(s: seq<byte>, i: nat, b: Branch)
    requires b.Cons? && BranchShown(b) && LongLiteral(b.head.atom) && At(s, i, ShowBranch(b)) && NUL !in s
    requires EndsBranch(Peek(s, i + |ShowBranch(b)|))
    ensures EndsLiteral(s, i + |ShowAtom(b.head.atom)|)
  {
    hide ShowAtom, AtomShown, At;
    var x, z := ShowAtom(b.head.atom), ShowBranch(b.tail);
    assert ShowBranch(b) == x + z;
    AtFits(s, i, ShowBranch(b));
    AtSplit(s, i, x, z);
    if b.tail.Cons? {
      AtFirst(s, i + |x|, z);
    } else if i + |x| < |s| {
      assert s[i + |x|] in s;
    }
  }

  lemma EmptyReadsBack(s: seq<byte>, i: nat, npar: NextGroup)
    requires i <= |s| && EndsBranch(Peek(s, i))
    ensures ParseBranch(s, i, npar) == Ok(Nil, i, npar)
  {}

  lemma PieceThenBranch(s: seq<byte>, i: nat, npar: NextGroup, p: Piece, pos: nat, n: NextGroup)
    requires i <= |s| && !EndsBranch(Peek(s, i)) && ParsePiece(s, i, npar) == Ok(p, pos, n) && pos <= |s|
    ensures var r := ParseBranch(s, pos, n);
            r.Ok? ==> ParseBranch(s, i, npar) == Ok(Cons(p, r.value), r.pos, r.npar)
  {
    hide ParsePiece;
  }

  /** What the predicates and functions over alternatives say of the first. */
  lemma AltsShowOne(l: Alts)
    requires AltsShown(l) && AltsOk(l)
    ensures BranchShown(l.b) && BranchOk(l.b)
    ensures if l.Last? then ShowAlts(l) == ShowBranch(l.b) && AltsGroups(l) == BranchGroups(l.b)
            else AltsShown(l.rest) && AltsOk(l.rest) && ShowAlts(l) == ShowBranch(l.b) + ([BAR] + ShowAlts(l.rest))
                 && AltsGroups(l) == BranchGroups(l.b) + AltsGroups(l.rest)
    ensures forall npar: NextGroup :: AltsNumbered(l, npar) ==>
              BranchNumbered(l.b, npar) && (l.Or? ==> AltsNumbered(l.rest, npar + BranchGroups(l.b)))
  {
    hide BranchShown, BranchOk, BranchNumbered, BranchGroups, ShowBranch;
  }

  lemma NoBar(s: seq<byte>, i: nat, npar: NextGroup, b: Branch)
    requires i <= |s|
    ensures var r := ParseBranch(s, i, npar);
            r.Ok? && Peek(s, r.pos) != BAR && r.value == b ==> ParseAlts(s, i, npar) == Ok(Last(b), r.pos, r.npar)
  {
    hide ParseBranch;
  }

  lemma BarThenAlts(s: seq<byte>, i: nat, npar: NextGroup, b: Branch, pos: nat, n: NextGroup)
    requires i <= |s| && ParseBranch(s, i, npar) == Ok(b, pos, n) && pos < |s| && s[pos] == BAR
    ensures var r := ParseAlts(s, pos + 1, n);
            r.Ok? ==> ParseAlts(s, i, npar) == Ok(Or(b, r.value), r.pos, r.npar)
  {
    hide ParseBranch;
  }

  /** The text of alternatives reads back as the same alternatives. */
  lemma {:induction false} AltsReadBack(s: seq<byte>, i: nat, l: Alts, npar: NextGroup)
    requires i <= |s| && AltsShown(l) && AltsOk(l) && AltsNumbered(l, npar) && At(s, i, ShowAlts(l)) && NUL !in s
    requires Peek(s, i + |ShowAlts(l)|) == NUL || Peek(s, i + |ShowAlts(l)|) == RPAREN
    ensures ParseAlts(s, i, npar) == Ok(l, i + |ShowAlts(l)|, npar + AltsGroups(l))
    decreases l, 2
  {
    hide At, ParseBranch, ParseAlts, ShowBranch, ShowAlts, BranchShown, BranchOk, BranchNumbered, BranchGroups;
    AltsShowOne(l);
    if l.Last? {
      BranchReadsBack(s, i, l.b, npar);
      NoBar(s, i, npar, l.b);
    } else {
      var x, y := ShowBranch(l.b), ShowAlts(l.rest);
      At3(s, i, x, [BAR], y);
      AtFits(s, i + |x|, [BAR]);
      AtFits(s, i + |x| + 1, y);
      AtFirst(s, i + |x|, [BAR]);
      BranchReadsBack(s, i, l.b, npar);
      AltsReadBack(s, i + |x| + 1, l.rest, npar + BranchGroups(l.b));
      BarThenAlts(s, i, npar, l.b, i + |x|, npar + BranchGroups(l.b));
    }
  }

  /** Every tree that can be written is what the compiler reads from its text. */
  lemma ReadsBack(l: Alts)
    requires AltsShown(l) && AltsOk(l) && AltsNumbered(l, 1)
    ensures ParseReg(ShowAlts(l), 0, 1, false) == Ok(l, |ShowAlts(l)|, 1 + AltsGroups(l))
  {
    hide ParseAlts, ShowAlts;
    var s := ShowAlts(l);
    assert s[0..0 + |s|] == s;
    AltsReadBack(s, 0, l, 1);
  }

  // ----- what the compiler reads can be written -----

  /** The characters read so far: none is left without what it is written with. */
  predicate Complete(cs: seq<byte>) {
    forall k :: 0 < k < |cs| ==> Writable(cs, k) && (cs[k] == MINUS ==> cs[k - 1] == COMMA)
  }

  lemma {:induction false} RangeIs(lo: byte, hi: byte)
    requires lo <= hi + 1
    ensures |Range(lo, hi)| == hi + 1 - lo && forall k :: 0 <= k < |Range(lo, hi)| ==> Range(lo, hi)[k] == lo + k
    decreases hi - lo
  {
    if lo <= hi {
      RangeIs(lo + 1, hi);
    }
  }

  lemma CompleteWithRange(cs: seq<byte>, d: byte)
    requires Complete(cs) && cs != [] && 0 <= cs[|cs| - 1] <= d && d != RBRACKET
    ensures var r := cs + Range(cs[|cs| - 1] + 1, d); Complete(r) && r[|r| - 1] == d
  {
    var lo := cs[|cs| - 1];
    RangeIs(lo + 1, d);
    var r := cs + Range(lo + 1, d);
    forall k | 0 < k < |r| ensures Writable(r, k) && (r[k] == MINUS ==> r[k - 1] == COMMA) {
      if k < |cs| {
        assert Writable(cs, k);
      } else {
        assert r[k] == lo + 1 + (k - |cs|) && r[k - 1] == lo + (k - |cs|);
      }
    }
  }

  lemma CompleteWritable(cs: seq<byte>)
    requires Complete(cs)
    ensures forall k :: 0 < k < |cs| ==> Writable(cs, k)
  {
    hide Writable;
  }

  lemma CompleteOne(c: byte)
    ensures Complete([c])
  {}

  lemma CompleteWithOne(cs: seq<byte>, c: byte)
    requires Complete(cs) && cs != [] && c != NUL && c != RBRACKET && c != MINUS
    ensures Complete(cs + [c])
  {
    var r := cs + [c];
    forall k | 0 < k < |r| ensures Writable(r, k) && (r[k] == MINUS ==> r[k - 1] == COMMA) {
      if k < |cs| { assert Writable(cs, k); }
    }
  }

  lemma CompleteWithMinus(cs: seq<byte>)
    requires Complete(cs) && cs != []
    ensures var r := cs + [MINUS]; forall k :: 0 < k < |r| ==> Writable(r, k)
  {
    var r := cs + [MINUS];
    forall k | 0 < k < |r| ensures Writable(r, k) {
      if k < |cs| { assert Writable(cs, k); }
    }
  }

  lemma BodyStep(s: seq<byte>, i: nat, acc: seq<byte>, npar: NextGroup)
    requires 0 < i <= |s|
    ensures ParseClassBody(s, i, acc, npar) ==
            var c, d := Peek(s, i), Peek(s, i + 1);
            if c == NUL then Fail(UnmatchedBracket)
            else if c == RBRACKET then Ok(acc, i + 1, npar)
            else if c == MINUS && (d == RBRACKET || d == NUL) then ParseClassBody(s, i + 1, acc + [MINUS], npar)
            else if c == MINUS && s[i - 1] > d then Fail(InvalidRange)
            else if c == MINUS then ParseClassBody(s, i + 2, acc + Range(s[i - 1] + 1, d), npar)
            else ParseClassBody(s, i + 1, acc + [c], npar)
  {}

  lemma CharsInRange(s: seq<byte>, i: nat)
    requires 0 < i <= |s| && CharsOk(s)
    ensures s[i - 1] > 0 && (i < |s| ==> s[i] != NUL)
  {}

  lemma {:induction false} ClassBodyCanBeShown(s: seq<byte>, i: nat, acc: seq<byte>, npar: NextGroup)
    requires 0 < i <= |s| && CharsOk(s) && acc != [] && acc[|acc| - 1] == s[i - 1] && Complete(acc)
    ensures var r := ParseClassBody(s, i, acc, npar); r.Ok? ==> forall k :: 0 < k < |r.value| ==> Writable(r.value, k)
    decreases |s| - i
  {
    hide Writable, Complete, ParseClassBody, Range, CharsOk;
    var c, d := Peek(s, i), Peek(s, i + 1);
    BodyStep(s, i, acc, npar);
    CharsInRange(s, i);
    if c == RBRACKET {
      CompleteWritable(acc);
    } else if c == MINUS && (d == RBRACKET || d == NUL) {
      CompleteWithMinus(acc);
      BodyStep(s, i + 1, acc + [MINUS], npar);
    } else if c == MINUS && s[i - 1] <= d {
      CompleteWithRange(acc, d);
      ClassBodyCanBeShown(s, i + 2, acc + Range(s[i - 1] + 1, d), npar);
    } else if c != MINUS && c != NUL {
      CompleteWithOne(acc, c);
      ClassBodyCanBeShown(s, i + 1, acc + [c], npar);
    }
  }

  lemma ClassCanBeShown(s: seq<byte>, i: nat, npar: NextGroup)
    requires 0 < i <= |s| && CharsOk(s)
    ensures var r := ParseClass(s, i, npar); r.Ok? ==> ClassShown(r.value.cs, r.value.NoneOf?)
  {
    hide ParseClassBody, Writable, Complete, CharsOk;
    var j := if Peek(s, i) == CARET then i + 1 else i;
    var c := Peek(s, j);
    if j < |s| {
      CharsInRange(s, j);
      if c != RBRACKET && c != MINUS { FirstOfClass(s, j, npar); }
      CompleteOne(c);
      ClassBodyCanBeShown(s, j + 1, [c], npar);
      var body := ParseClassBody(s, j + 1, [c], npar);
      assert ParseClass(s, i, npar).Ok? ==> body.Ok? && body.value == ParseClass(s, i, npar).value.cs;
      assert body.Ok? ==> body.value[0] == [c][0];
      assert c != NUL;
      assert body.Ok? ==> forall k :: 0 < k < |body.value| ==> Writable(body.value, k);
    } else {
      NoBody(s, j, npar);
    }
  }

  lemma NoBody(s: seq<byte>, j: nat, npar: NextGroup)
    requires 0 < j == |s|
    ensures ParseClassBody(s, j, [], npar).Fail?
  {}

  /** No long literal is read here. */
  predicate ShortAt(s: seq<byte>, i: nat) {
    i >= |s| || IsMeta(s[i]) || LiteralLength(s, i) == 1
  }

  lemma {:induction false} SpanTail(s: seq<byte>, i: nat, k: nat)
    requires i <= |s| && k <= Span(s, i)
    ensures Span(s, i + k) == Span(s, i) - k && forall m :: i <= m < i + k ==> !IsMeta(s[m])
    decreases k
  {
    if k > 0 {
      SpanTail(s, i + 1, k - 1);
    }
  }

  /** A literal holds ordinary characters; a long one is not followed by a repetition or by
      another long one. */
  lemma LiteralRead(s: seq<byte>, i: nat)
    requires i < |s| && !IsMeta(s[i])
    ensures var n := LiteralLength(s, i);
            && n > 0 && (forall m :: i <= m < i + n ==> !IsMeta(s[m]))
            && (n > 1 ==> !IsMult(Peek(s, i + n)) && ShortAt(s, i + n))
  {
    var n := Span(s, i);
    SpanTail(s, i, n);
    SpanTail(s, i, LiteralLength(s, i));
  }

  lemma ShortRead(s: seq<byte>, i: nat, npar: NextGroup)
    requires i <= |s| && ShortAt(s, i)
    ensures var r := ParseAtom(s, i, npar); r.Ok? ==> !LongLiteral(r.value)
  {
    hide ParseReg, ParseClassBody, Span, LiteralLength;
  }

  lemma {:induction false} AtomCanBeShown(s: seq<byte>, i: nat, npar: NextGroup)
    requires i <= |s| && CharsOk(s)
    ensures var r := ParseAtom(s, i, npar);
            r.Ok? ==> AtomShown(r.value) && (LongLiteral(r.value) ==> !IsMult(Peek(s, r.pos)) && ShortAt(s, r.pos))
    decreases |s| - i, 0
  {
    hide ParseReg, ParseClass, LiteralLength, ClassShown, AltsShown, ShortAt;
    if i < |s| {
      if s[i] == LBRACKET {
        ClassCanBeShown(s, i + 1, npar);
      } else if s[i] == LPAREN {
        RegCanBeShown(s, i + 1, npar, true);
      } else if !IsMeta(s[i]) {
        LiteralRead(s, i);
        var cs := s[i..i + LiteralLength(s, i)];
        forall k | 0 <= k < |cs| ensures !IsMeta(cs[k]) { assert cs[k] == s[i + k]; }
      } else if s[i] == BACKSLASH && i + 1 < |s| {
        assert s[i + 1] in s;
      }
    }
  }

  lemma {:induction false} BranchCanBeShown(s: seq<byte>, i: nat, npar: NextGroup)
    requires i <= |s| && CharsOk(s)
    ensures var r := ParseBranch(s, i, npar); r.Ok? ==> BranchShown(r.value)
    ensures var r := ParseBranch(s, i, npar);
            ShortAt(s, i) && r.Ok? && r.value.Cons? ==> !LongLiteral(r.value.head.atom)
    decreases |s| - i, 2
  {
    hide ParseAtom, AtomShown, ShortAt;
    if !EndsBranch(Peek(s, i)) {
      AtomCanBeShown(s, i, npar);
      if ShortAt(s, i) { ShortRead(s, i, npar); }
      var p := ParsePiece(s, i, npar);
      if p.Ok? {
        BranchCanBeShown(s, p.pos, p.npar);
      }
    }
  }

  lemma {:induction false} AltsCanBeShown(s: seq<byte>, i: nat, npar: NextGroup)
    requires i <= |s| && CharsOk(s)
    ensures var r := ParseAlts(s, i, npar); r.Ok? ==> AltsShown(r.value)
    decreases |s| - i, 3
  {
    hide ParseBranch, BranchShown;
    BranchCanBeShown(s, i, npar);
    var b := ParseBranch(s, i, npar);
    if b.Ok? && Peek(s, b.pos) == BAR {
      AltsCanBeShown(s, b.pos + 1, b.npar);
    }
  }

  lemma {:induction false} RegCanBeShown(s: seq<byte>, i: nat, npar: NextGroup, paren: bool)
    requires i <= |s| && CharsOk(s)
    ensures var r := ParseReg(s, i, npar, paren); r.Ok? ==> AltsShown(r.value)
    decreases |s| - i, 4
  {
    hide ParseAlts, AltsShown;
    if !(paren && npar >= NSUBEXP) {
      AltsCanBeShown(s, i, if paren then npar + 1 else npar);
    }
  }

  /** Whatever the compiler reads can be written out and read again with the same result. */
  lemma ReadAgain(s: seq<byte>)
    requires CharsOk(s)
    ensures var r := ParseReg(s, 0, 1, false);
            r.Ok? ==>
              AltsShown(r.value) && ParseReg(ShowAlts(r.value), 0, 1, false) == Ok(r.value, |ShowAlts(r.value)|, r.npar)
  {
    hide ParseReg, AltsShown, ShowAlts, AltsOk, AltsNumbered;
    var r := ParseReg(s, 0, 1, false);
    if r.Ok? {
      RegCanBeShown(s, 0, 1, false);
      ParseRegOk(s, 0, 1, false);
      ParseNumbers(s, 0, 1, false);
      ReadsBack(r.value);
    }
  }
}
