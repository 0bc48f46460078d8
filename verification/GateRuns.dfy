/** The translation, construct by construct: the text of a regular expression is translated
    into the units of its parts, one after another. */
module GateRuns {
  import opened Chars
  import opened Glob
  import opened GateUnits
  import opened GateText
  import opened GateRegexp

  // ----- the units of each construct -----

  function QuoteUnit(c: byte): Unit {
    if NeedsQuote(c) then Quoted(c) else Raw(c)
  }

  function AtomUnits(b: Backslash, a: Atom): seq<Unit>
    decreases a
  {
    match a
    case Any => [AnyChar]
    case Plain(c) => [Raw(c)]
    case OpenBrace => [Raw(LBRACE)]
    case Bracket(_, _) => [AnyChar]
    case Shorthand(_) => [AnyChar]
    case Entity(c) => [if c == LETTER_B then Quoted(BACKSLASH)
                       else Raw(if Control(c).Some? then Control(c).value else c)]
    case CtrlChar(_) => [AnyChar]
    case Hex(ds) => [QuoteUnit(b(LETTER_x, if |ds| > 2 then ds[|ds| - 2..] else ds))]
    case Code(c, ds) => [QuoteUnit(b(c, ds))]
    case Number(_) => [AnyString]
    case Escaped(c) => [QuoteUnit(c)]
    case Group(_, re) => RegexpUnits(b, re)
    case Anchor(_) => []
    case Constraint(_) => []
    case Look(_, _) => []
  }

  function PieceUnits(b: Backslash, p: Piece): seq<Unit>
    decreases p
  {
    match p
    case Fill(_) => []
    case Piece(a, _, q) => if q.Once? then AtomUnits(b, a) else [AnyString]
  }

  function PiecesUnits(b: Backslash, ps: Pieces): seq<Unit>
    decreases ps
  {
    if ps.Nil? then [] else PieceUnits(b, ps.head) + PiecesUnits(b, ps.tail)
  }

  /** Of the first alternative; with more than one there is no gate. */
  function RegexpUnits(b: Backslash, re: Regexp): seq<Unit>
    decreases re
  {
    PiecesUnits(b, re.b)
  }

  predicate AtomBranches(a: Atom)
    decreases a
  {
    a.Group? && RegexpBranches(a.re)
  }

  predicate PiecesBranch(ps: Pieces)
    decreases ps
  {
    ps.Cons? && ((ps.head.Piece? && AtomBranches(ps.head.atom)) || PiecesBranch(ps.tail))
  }

  predicate RegexpBranches(re: Regexp)
    decreases re
  {
    re.Or? || PiecesBranch(re.b)
  }

  /** Constraints that are skipped. */
  predicate Silent(a: Atom) {
    a.Anchor? || a.Constraint? || a.Look?
  }

  /** The size of the last unit after a construct. */
  function AtomLast(b: Backslash, a: Atom, before: int): int {
    if Silent(a) then before else |Text(AtomUnits(b, a))|
  }

  function PieceLast(b: Backslash, p: Piece, before: int): int {
    match p
    case Fill(_) => before
    case Piece(a, _, q) => if q.Once? then AtomLast(b, a, before) else 1
  }

  function PiecesLast(b: Backslash, ps: Pieces, before: int): int
    decreases ps
  {
    if ps.Nil? then before else PiecesLast(b, ps.tail, PieceLast(b, ps.head, before))
  }

  // ----- one round -----

  /** A token begins here, not a blank or a comment that is skipped. */
  predicate AtToken(s: seq<byte>, i: nat, x: Syntax) {
    i < |s| && (x.Expanded? ==> !IsBlank(s[i]) && s[i] != HASH)
  }

  lemma NoBlank(s: seq<byte>, i: nat, x: Syntax)
    requires AtToken(s, i, x)
    ensures x.Expanded? ==> SkipBlanks(s, i) == i
  {}

  lemma RunStep(s: seq<byte>, st: State, b: Backslash, x: Syntax)
    requires AtToken(s, st.pos, x) && StepAt(s, st, b).Next?
    ensures StepAt(s, st, b).st.pos <= |s| && Run(s, st, x.Expanded?, b) == Run(s, StepAt(s, st, b).st, x.Expanded?, b)
  {
    hide StepAt, SkipBlanks, ChopTo;
    NoBlank(s, st.pos, x);
    StepMoves(s, st, b);
    assert st.(pos := st.pos) == st;
  }

  lemma RunBranching(s: seq<byte>, st: State, b: Backslash, x: Syntax)
    requires st.pos < |s| && s[st.pos] == BAR
    ensures Run(s, st, x.Expanded?, b) == Abandoned
  {
    hide SkipBlanks, ChopTo;
    NoBlank(s, st.pos, x);
    assert st.(pos := st.pos) == st;
    assert StepAt(s, st, b) == Branching;
  }

  /** What translating from st to the state after a construct means. */
  ghost predicate Goes(s: seq<byte>, st: State, st': State, b: Backslash, x: Syntax) {
    st.pos <= |s| && st'.pos <= |s| && Run(s, st, x.Expanded?, b) == Run(s, st', x.Expanded?, b)
  }

  // ----- characters and escapes -----

  lemma {:induction false} HexSkipped(s: seq<byte>, p: nat, ds: seq<byte>)
    requires p + |ds| <= |s| && s[p..p + |ds|] == ds && !IsHexDigit(Peek(s, p + |ds|))
    requires AllHex(ds)
    ensures SkipHex(s, p) == p + |ds|
    decreases |ds|
  {
    if ds != [] {
      assert s[p] == s[p..p + |ds|][0];
      assert s[p + 1..p + 1 + |ds[1..]|] == s[p..p + |ds|][1..];
      HexSkipped(s, p + 1, ds[1..]);
    }
  }

  lemma {:induction false} DigitsSkipped(s: seq<byte>, p: nat, ds: seq<byte>)
    requires p + |ds| <= |s| && s[p..p + |ds|] == ds && !IsDigit(Peek(s, p + |ds|))
    requires forall k :: 0 <= k < |ds| ==> IsDigit(ds[k])
    ensures SkipDigits(s, p) == p + |ds|
    decreases |ds|
  {
    if ds != [] {
      assert s[p] == s[p..p + |ds|][0];
      assert s[p + 1..p + 1 + |ds[1..]|] == s[p..p + |ds|][1..];
      DigitsSkipped(s, p + 1, ds[1..]);
    }
  }

  lemma QuoteText(c: byte)
    ensures Text([QuoteUnit(c)]) == Quote(c)
  {
    TextOne(QuoteUnit(c));
  }

  lemma HexEscapeStep(s: seq<byte>, st: State, b: Backslash)
    requires EscapeAt(s, st.pos, LETTER_x)
    ensures StepAt(s, st, b) == HexEscape(s, st, st.pos + 2, b)
  {
    hide HexEscape;
  }

  lemma HexStep(s: seq<byte>, st: State, ds: seq<byte>, b: Backslash, x: Syntax)
    requires AtomAt(s, st.pos, Hex(ds), x)
    ensures StepAt(s, st, b) == Next(Emit(st, st.pos + 2 + |ds|, Text(AtomUnits(b, Hex(ds)))))
  {
    hide StepAt, SkipHex, Text;
    var p := st.pos + 2;
    var c := b(LETTER_x, if |ds| > 2 then ds[|ds| - 2..] else ds);
    HexSkipped(s, p, ds);
    assert s[p] == s[p..p + |ds|][0];
    QuoteText(c);
    var q := p + |ds|;
    assert s[if q - p > 2 then q - 2 else p..q] == if |ds| > 2 then ds[|ds| - 2..] else ds by {
      assert s[p..q] == ds;
      if |ds| > 2 { assert s[q - 2..q] == s[p..q][|ds| - 2..]; }
    }
    HexEscapeStep(s, st, b);
  }

  lemma CodeEscapeStep(s: seq<byte>, st: State, c: byte, b: Backslash)
    requires EscapeAt(s, st.pos, c) && (c == LETTER_u || c == LETTER_U)
    ensures StepAt(s, st, b) == CodeEscape(s, st, st.pos + 2, c, if c == LETTER_u then 4 else 8, b)
  {
    hide CodeEscape;
  }

  lemma CodeDigitsTaken(s: seq<byte>, st: State, p: nat, c: byte, ds: seq<byte>, b: Backslash)
    requires p + |ds| <= |s| && s[p..p + |ds|] == ds
    ensures CodeEscape(s, st, p, c, |ds|, b) == Next(Emit(st, p + |ds|, Quote(b(c, ds))))
  {
    hide Quote, Emit;
  }

  lemma CodeStep(s: seq<byte>, st: State, c: byte, ds: seq<byte>, b: Backslash, x: Syntax)
    requires AtomAt(s, st.pos, Code(c, ds), x)
    ensures StepAt(s, st, b) == Next(Emit(st, st.pos + 2 + |ds|, Text(AtomUnits(b, Code(c, ds)))))
  {
    hide CodeEscape, Text, HexValue, Quote;
    QuoteText(b(c, ds));
    CodeEscapeStep(s, st, c, b);
    CodeDigitsTaken(s, st, st.pos + 2, c, ds, b);
  }

  lemma NumberStep(s: seq<byte>, st: State, ds: seq<byte>, b: Backslash, x: Syntax)
    requires AtomAt(s, st.pos, Number(ds), x)
    ensures StepAt(s, st, b) == Next(Emit(st, st.pos + 1 + |ds|, Text([AnyString])))
  {
    var p := st.pos + 1;
    assert s[p] == s[p..p + |ds|][0];
    assert s[p + 1..p + 1 + |ds[1..]|] == s[p..p + |ds|][1..];
    DigitsSkipped(s, p + 1, ds[1..]);
    TextOne(AnyString);
    DigitEscape(s, st, b);
  }

  lemma DigitEscape(s: seq<byte>, st: State, b: Backslash)
    requires st.pos + 1 < |s| && s[st.pos] == BACKSLASH && IsDigit(s[st.pos + 1]) && s[st.pos + 1] != 48
    ensures StepAt(s, st, b) == Next(Emit(st, SkipDigits(s, st.pos + 2), [STAR_CHAR]))
  {}

  lemma EscapeStep(s: seq<byte>, st: State, a: Atom, b: Backslash, x: Syntax)
    requires AtomAt(s, st.pos, a, x) && (a.Shorthand? || a.Entity? || a.CtrlChar? || a.Escaped?)
    ensures StepAt(s, st, b) == Next(Emit(st, st.pos + AtomLen(a), Text(AtomUnits(b, a))))
  {
    hide Text;
    var p := st.pos + 2;
    match a
    case Shorthand(c) =>
      TextOne(AnyChar);
    case CtrlChar(c) =>
      TextOne(AnyChar);
    case Escaped(c) =>
      QuoteText(c);
    case Entity(c) =>
      TextOne(AtomUnits(b, a)[0]);
  }

  // ----- bracket classes -----

  lemma {:induction false} NamedEnds(s: seq<byte>, p: nat, kind: byte, n: nat)
    requires p + n + 2 <= |s| && s[p + n] == kind && s[p + n + 1] == RBRACKET
    requires forall k :: p <= k < p + n ==> !(s[k] == kind && s[k + 1] == RBRACKET)
    ensures AfterNamed(s, p, kind) == Some(p + n + 2)
    decreases n
  {
    if n > 0 {
      NamedEnds(s, p + 1, kind, n - 1);
    }
  }

  /** The members of a class are skipped, up to what comes after them. */
  lemma {:induction false} MembersScanned(s: seq<byte>, p: nat, ms: seq<Member>, first: bool, allowed: bool,
                                          negated: bool)
    requires MembersAt(s, p, ms, allowed, negated) && p + MembersLen(ms) < |s|
    requires first ==> allowed && !negated
    ensures ClassEnd(s, p, first, allowed)
         == ClassEnd(s, p + MembersLen(ms), first && ms == [], allowed && ms == [])
    decreases |ms|
  {
    if ms != [] {
      var m := ms[0];
      MembersScanned(s, p + MemberLen(m), ms[1..], false, false, negated);
      match m
      case Char(c) =>
      case EscapedChar(c) =>
        EscapedEnds(s, p, first, allowed);
      case CtrlMember(c) =>
        EscapedEnds(s, p, first, allowed);
        CharEnds(s, p + 2);
      case Named(kind, name) =>
        NamedEnds(s, p + 2, kind, |name|);
    }
  }

  /** A class ends at the bracket after its members. */
  lemma MembersEnd(s: seq<byte>, p: nat, ms: seq<Member>, negated: bool)
    requires MembersAt(s, p, ms, true, negated) && p + MembersLen(ms) < |s| && s[p + MembersLen(ms)] == RBRACKET
             && ms != []
    ensures ClassEnd(s, p, !negated, true) == Some(p + MembersLen(ms) + 1)
  {
    MembersScanned(s, p, ms, !negated, true, negated);
  }

  /** An escaped member is read as two. */
  lemma EscapedEnds(s: seq<byte>, p: nat, first: bool, allowed: bool)
    requires p + 2 <= |s| && s[p] == BACKSLASH && s[p + 1] != RBRACKET && !OpensNamed(s, p + 1)
    ensures ClassEnd(s, p, first, allowed) == ClassEnd(s, p + 2, false, false)
  {}

  lemma CharEnds(s: seq<byte>, p: nat)
    requires p < |s| && s[p] != RBRACKET && !OpensNamed(s, p)
    ensures ClassEnd(s, p, false, false) == ClassEnd(s, p + 1, false, false)
  {}

  lemma BracketStep(s: seq<byte>, st: State, a: Atom, b: Backslash, x: Syntax)
    requires a.Bracket? && AtomAt(s, st.pos, a, x)
    ensures StepAt(s, st, b) == Next(Emit(st, st.pos + AtomLen(a), Text([AnyChar])))
  {
    var p := if a.negated then st.pos + 2 else st.pos + 1;
    TextOne(AnyChar);
    MembersEnd(s, p, a.members, a.negated);
    assert ClassEnd(s, st.pos + 1, true, true) == ClassEnd(s, p, !a.negated, true);
  }

  // ----- lookahead and comments -----

  /** The parenthesis taken for the closing one is the one after x exactly if those in x are
      balanced. */
  lemma {:induction false} NestedSkipped(s: seq<byte>, p: nat, x: seq<byte>, level: nat)
    requires At(s, p, x + [RPAREN])
    ensures ChopNested(s, p, level) == p + |x| + 1 <==> Balanced(x, level, p + |x| + 1 == |s|)
    decreases |x|
  {
    var y := x + [RPAREN];
    assert s[p..p + |y|][0] == y[0] == s[p];
    if x != [] && !(x[0] == RPAREN && level == 0) {
      assert y[1..] == x[1..] + [RPAREN];
      assert s[p + 1..p + 1 + |y[1..]|] == s[p..p + |y|][1..];
      var next: nat := if x[0] == LPAREN then level + 1 else if x[0] == RPAREN then level - 1 else level;
      NestedSkipped(s, p + 1, x[1..], next);
    }
  }

  lemma OpenAt(s: seq<byte>, i: nat, x: seq<byte>, y: seq<byte>)
    requires At(s, i, x + y) && |x| == 3
    ensures s[i] == x[0] && s[i + 1] == x[1] && s[i + 2] == x[2] && At(s, i + 3, y)
  {
    AtSplit(s, i, x, y);
    assert s[i..i + 3][0] == s[i] && s[i..i + 3][1] == s[i + 1] && s[i..i + 3][2] == s[i + 2];
  }

  lemma LookStep(s: seq<byte>, st: State, a: Atom, b: Backslash, x: Syntax)
    requires a.Look? && AtomAt(s, st.pos, a, x)
    ensures StepAt(s, st, b) == Next(st.(pos := st.pos + AtomLen(a)))
  {
    hide ChopNested, ChopTo, RegexpAt, RegexpLen, Balanced;
    var head := [LPAREN, QUERY, if a.negative then BANG else EQUALS];
    var p, n := st.pos + 3, st.pos + 3 + RegexpLen(a.re);
    var x := s[p..n];
    assert head + [] == head;
    OpenAt(s, st.pos, head, []);
    assert s[p..p + |x + [RPAREN]|] == x + [RPAREN];
    NestedSkipped(s, p, x, 0);
  }

  lemma RemarkStep(s: seq<byte>, st: State, text: seq<byte>, b: Backslash)
    requires At(s, st.pos, [LPAREN, QUERY, HASH] + text + [RPAREN]) && RPAREN !in text
    ensures st.pos < |s| && s[st.pos] == LPAREN && StepAt(s, st, b) == Next(st.(pos := st.pos + |text| + 4))
  {
    var head := [LPAREN, QUERY, HASH];
    var p := st.pos + 3;
    assert head + text + [RPAREN] == head + (text + [RPAREN]);
    OpenAt(s, st.pos, head, text + [RPAREN]);
    AtSplit(s, p, text, [RPAREN]);
    var q := p + |text|;
    assert s[q] == s[q..q + 1][0];
    forall k | p <= k < q ensures s[k] != RPAREN { assert s[k] == s[p..q][k - p]; }
    forall k | st.pos + 1 <= k < q ensures s[k] != RPAREN { assert k == st.pos + 1 || k == st.pos + 2 || p <= k; }
    ChopsTo(s, st.pos + 1, RPAREN, q);
    assert StepAt(s, st, b) == OpenParen(s, st);
  }

  /** The first place of c is where ChopTo stops. */
  lemma ChopsTo(s: seq<byte>, p: nat, c: byte, r: nat)
    requires p <= r < |s| && s[r] == c && forall k :: p <= k < r ==> s[k] != c
    ensures ChopTo(s, p, c) == r
  {
    var q := ChopTo(s, p, c);
    assert q <= r;
  }

  /** A blank is skipped, unless it is the last character: then one more is read. */
  lemma SpaceRun(s: seq<byte>, st: State, b: Backslash)
    requires st.pos < |s| && IsBlank(s[st.pos])
    ensures if st.pos + 1 == |s| then Run(s, st, true, b) == Astray
            else Run(s, st, true, b) == Run(s, st.(pos := st.pos + 1), true, b)
  {
    hide StepAt, ChopTo;
    var next := st.(pos := st.pos + 1);
    assert SkipBlanks(s, st.pos) == SkipBlanks(s, next.pos);
    if next.pos < |s| {
      var p := SkipBlanks(s, next.pos);
      assert st.(pos := p) == next.(pos := p);
    }
  }

  /** A comment is skipped up to the end of its line. */
  lemma NoteRun(s: seq<byte>, st: State, text: seq<byte>, closed: bool, b: Backslash)
    requires NEWLINE !in text
    requires if closed then At(s, st.pos, [HASH] + text + [NEWLINE])
             else At(s, st.pos, [HASH] + text) && st.pos + 1 + |text| == |s|
    ensures var n := if closed then |text| + 2 else |text| + 1;
            st.pos + n <= |s| && Run(s, st, true, b) == Run(s, st.(pos := st.pos + n), true, b)
  {
    hide StepAt, ChopTo;
    var i, q := st.pos, st.pos + 1 + |text|;
    assert [HASH] + text + [NEWLINE] == [HASH] + (text + [NEWLINE]);
    if closed {
      AtSplit(s, i, [HASH], text + [NEWLINE]);
      AtSplit(s, i + 1, text, [NEWLINE]);
      assert s[q] == s[q..q + 1][0];
    } else {
      AtSplit(s, i, [HASH], text);
    }
    assert s[i] == s[i..i + 1][0];
    forall k | i + 1 <= k < q ensures s[k] != NEWLINE { assert s[k] == s[i + 1..q][k - (i + 1)]; }
    LineEnds(s, i, q);
    assert SkipBlanks(s, i) == i;
    assert st.(pos := st.pos) == st;
  }

  lemma LineEnds(s: seq<byte>, p: nat, q: nat)
    requires p <= q <= |s| && (q < |s| ==> s[q] == NEWLINE) && forall k :: p <= k < q ==> s[k] != NEWLINE
    ensures ChopTo(s, p, NEWLINE) == q
  {
    var r := ChopTo(s, p, NEWLINE);
    assert r >= q;
  }

  /** A blank at the end of the text is the only filler that is not skipped. */
  predicate IsLastBlank(s: seq<byte>, i: nat, f: Filler) {
    f.Space? && i + 1 == |s|
  }

  lemma FillerRun(s: seq<byte>, st: State, f: Filler, b: Backslash, x: Syntax)
    requires FillerAt(s, st.pos, f, x)
    ensures st.pos + FillerLen(f) <= |s|
    ensures if IsLastBlank(s, st.pos, f) then Run(s, st, x.Expanded?, b) == Astray
            else Goes(s, st, st.(pos := st.pos + FillerLen(f)), b, x)
  {
    hide Run, StepAt, At, SkipBlanks;
    match f
    case Remark(text) =>
      RemarkStep(s, st, text, b);
      RunStep(s, st, b, x);
    case Space(c) => SpaceRun(s, st, b);
    case Note(text, closed) => NoteRun(s, st, text, closed, b);
  }

  lemma {:induction false} FillersRun(s: seq<byte>, st: State, fs: seq<Filler>, b: Backslash, x: Syntax)
    requires FillersAt(s, st.pos, fs, x) && st.pos + FillersLen(fs) < |s|
    ensures Goes(s, st, st.(pos := st.pos + FillersLen(fs)), b, x)
    decreases |fs|
  {
    hide StepAt, Run, FillerAt;
    if fs != [] {
      FillerRun(s, st, fs[0], b, x);
      FillersRun(s, st.(pos := st.pos + FillerLen(fs[0])), fs[1..], b, x);
    }
  }

  // ----- quantifiers -----

  lemma QuantifierRun(s: seq<byte>, st: State, q: Quantifier, out: seq<byte>, unit: seq<byte>, b: Backslash, x: Syntax)
    requires !q.Once? && QuantifierAt(s, st.pos, q, x) && st.out == out + unit && st.lastsz == |unit|
    ensures Goes(s, st, State(st.pos + QuantifierLen(q), out + [STAR_CHAR], 1, st.parens), b, x)
  {
    hide Run, ChopTo;
    assert st.out[..|st.out| - st.lastsz] == out;
    match q
    case Op(c, lazy) =>
      RunStep(s, st, b, x);
    case Bound(text, lazy) =>
      var p := st.pos + 1;
      forall k | p <= k < p + |text| ensures s[k] != RBRACE { assert s[k] == s[p..p + |text|][k - p]; }
      ChopsTo(s, p, RBRACE, p + |text|);
      assert s[p] == s[p..p + |text|][0];
      assert StepAt(s, st, b) == Brace(s, st);
      RunStep(s, st, b, x);
  }

  // ----- atoms, pieces, alternatives -----

  /** The state after a construct that adds these units. */
  function After(st: State, n: nat, us: seq<Unit>, lastsz: int): State {
    State(st.pos + n, st.out + Text(us), lastsz, st.parens)
  }

  lemma AfterAt(st: State, n: nat, us: seq<Unit>, lastsz: int)
    ensures After(st, n, us, lastsz).pos == st.pos + n && After(st, n, us, lastsz).lastsz == lastsz
  {}

  lemma EmitAfter(st: State, n: nat, us: seq<Unit>)
    ensures Emit(st, st.pos + n, Text(us)) == After(st, n, us, |Text(us)|)
  {}

  /** Characters, classes and escapes are one unit. */
  lemma UnitStep(s: seq<byte>, st: State, a: Atom, b: Backslash, x: Syntax)
    requires !a.Group? && !Silent(a) && AtomAt(s, st.pos, a, x)
    ensures StepAt(s, st, b) == Next(Emit(st, st.pos + AtomLen(a), Text(AtomUnits(b, a)))) && AtToken(s, st.pos, x)
  {
    hide Escape, Text, Emit, BracketAt, HexValue, EngineSkip;
    match a
    case Any => TextOne(AnyChar);
    case Plain(c) => TextOne(Raw(c));
    case OpenBrace => TextOne(Raw(LBRACE));
    case Bracket(_, _) => BracketStep(s, st, a, b, x); BracketStarts(s, st.pos, a, x);
    case Shorthand(_) => EscapeStep(s, st, a, b, x);
    case Entity(_) => EscapeStep(s, st, a, b, x);
    case CtrlChar(_) => EscapeStep(s, st, a, b, x);
    case Escaped(_) => EscapeStep(s, st, a, b, x);
    case Hex(ds) => HexStep(s, st, ds, b, x);
    case Code(c, ds) => CodeStep(s, st, c, ds, b, x);
    case Number(ds) => NumberStep(s, st, ds, b, x);
  }

  lemma BracketStarts(s: seq<byte>, i: nat, a: Atom, x: Syntax)
    requires a.Bracket? && AtomAt(s, i, a, x)
    ensures AtToken(s, i, x)
  {}

  /** Constraints are skipped. */
  lemma SilentStep(s: seq<byte>, st: State, a: Atom, b: Backslash, x: Syntax)
    requires Silent(a) && AtomAt(s, st.pos, a, x)
    ensures StepAt(s, st, b) == Next(st.(pos := st.pos + AtomLen(a))) && AtomUnits(b, a) == [] && AtToken(s, st.pos, x)
  {
    hide Escape, RegexpAt, RegexpLen;
    match a
    case Anchor(_) =>
    case Constraint(_) => ConstraintStep(s, st, b);
    case Look(_, _) => LookStep(s, st, a, b, x); LookStarts(s, st.pos, a, x);
  }

  lemma LookStarts(s: seq<byte>, i: nat, a: Atom, x: Syntax)
    requires a.Look? && AtomAt(s, i, a, x)
    ensures i < |s| && s[i] == LPAREN
  {
    hide RegexpAt, RegexpLen, Balanced;
    var head := [LPAREN, QUERY, if a.negative then BANG else EQUALS];
    assert s[i..i + |head|][0] == s[i];
  }

  /** All atoms but groups take one round. */
  lemma LeafRun(s: seq<byte>, st: State, a: Atom, b: Backslash, x: Syntax)
    requires !a.Group? && AtomAt(s, st.pos, a, x)
    ensures Goes(s, st, After(st, AtomLen(a), AtomUnits(b, a), AtomLast(b, a, st.lastsz)), b, x)
  {
    hide Run, StepAt, Text, AtomAt, AtomUnits, AtomLen;
    if Silent(a) {
      SilentStep(s, st, a, b, x);
      TextNil();
      assert st.out + [] == st.out;
    } else {
      UnitStep(s, st, a, b, x);
      EmitAfter(st, AtomLen(a), AtomUnits(b, a));
    }
    RunStep(s, st, b, x);
  }

  lemma TextNil()
    ensures Text([]) == []
  {}

  lemma ConstraintStep(s: seq<byte>, st: State, b: Backslash)
    requires st.pos + 1 < |s| && s[st.pos] == BACKSLASH && IsConstraint(s[st.pos + 1])
    ensures StepAt(s, st, b) == Next(st.(pos := st.pos + 2))
  {}

  /** The parenthesis that opens a group is pushed. */
  lemma OpenStep(s: seq<byte>, st: State, a: Atom, b: Backslash, x: Syntax)
    requires a.Group? && AtomAt(s, st.pos, a, x)
    ensures var n := if a.capturing then 1 else 3;
            && StepAt(s, st, b) == Next(st.(pos := st.pos + n, parens := st.parens + [|st.out|]))
            && RegexpAt(s, st.pos + n, a.re, x) && st.pos + n + RegexpLen(a.re) < |s|
            && s[st.pos + n + RegexpLen(a.re)] == RPAREN
            && st.pos < |s| && s[st.pos] == LPAREN
  {
    hide RegexpAt, RegexpLen, ChopTo, ChopNested;
    if !a.capturing {
      assert [LPAREN, QUERY, COLON] + [] == [LPAREN, QUERY, COLON];
      OpenAt(s, st.pos, [LPAREN, QUERY, COLON], []);
    }
  }

  lemma CloseRun(s: seq<byte>, st: State, parens: seq<nat>, mark: nat, b: Backslash, x: Syntax)
    requires st.pos < |s| && s[st.pos] == RPAREN && st.parens == parens + [mark]
    ensures Goes(s, st, State(st.pos + 1, st.out, |st.out| - mark, parens), b, x)
  {
    hide Run;
    assert st.parens[..|st.parens| - 1] == parens;
    RunStep(s, st, b, x);
  }

  lemma GroupRun(s: seq<byte>, st: State, a: Atom, b: Backslash, x: Syntax)
    requires a.Group? && AtomAt(s, st.pos, a, x)
    ensures if AtomBranches(a) then Run(s, st, x.Expanded?, b) == Abandoned
            else Goes(s, st, After(st, AtomLen(a), AtomUnits(b, a), AtomLast(b, a, st.lastsz)), b, x)
    decreases a, 1
  {
    hide Run, StepAt, AtomAt, Text, RegexpAt, RegexpUnits, RegexpLen, RegexpBranches, RegexpRagged;
    var n := if a.capturing then 1 else 3;
    var inner := st.(pos := st.pos + n, parens := st.parens + [|st.out|]);
    OpenStep(s, st, a, b, x);
    RunStep(s, st, b, x);
    RegexpRun(s, inner, a.re, b, x);
    if !RegexpBranches(a.re) {
      var us := RegexpUnits(b, a.re);
      var last := PiecesLast(b, a.re.b, inner.lastsz);
      var end := After(inner, RegexpLen(a.re), us, last);
      CloseRun(s, end, st.parens, |st.out|, b, x);
      assert |end.out| - |st.out| == |Text(us)|;
    }
  }

  /** The last piece is a blank. */
  predicate PiecesRagged(ps: Pieces)
    decreases ps
  {
    ps.Cons? && if ps.tail.Nil? then ps.head.Fill? && ps.head.f.Space? else PiecesRagged(ps.tail)
  }

  predicate RegexpRagged(re: Regexp)
    decreases re
  {
    if re.Or? then RegexpRagged(re.rest) else PiecesRagged(re.b)
  }

  lemma PieceRun(s: seq<byte>, st: State, p: Piece, b: Backslash, x: Syntax)
    requires PieceAt(s, st.pos, p, x) && st.pos <= |s|
    ensures st.pos + PieceLen(p) <= |s|
    ensures if p.Piece? && AtomBranches(p.atom) then Run(s, st, x.Expanded?, b) == Abandoned
            else if p.Fill? && IsLastBlank(s, st.pos, p.f) then Run(s, st, x.Expanded?, b) == Astray
            else Goes(s, st, After(st, PieceLen(p), PieceUnits(b, p), PieceLast(b, p, st.lastsz)), b, x)
    decreases p, 2
  {
    hide Run, StepAt, AtomAt, AtomLen, Text, After, AtomLast, AtomUnits, QuantifierAt, FillerAt, FillersAt,
         FillersLen, FillerLen;
    match p
    case Fill(f) =>
      FillerRun(s, st, f, b, x);
      AfterMoved(st, FillerLen(f));
    case Piece(a, fs, q) =>
      PieceFits(s, st.pos, p, x);
      if a.Group? { GroupRun(s, st, a, b, x); } else { LeafRun(s, st, a, b, x); }
      NoFillers();
      if !AtomBranches(a) && !q.Once? {
        QuantifiedRun(s, st, a, fs, q, b, x);
      }
  }

  lemma PieceFits(s: seq<byte>, i: nat, p: Piece, x: Syntax)
    requires PieceAt(s, i, p, x) && p.Piece?
    ensures i + PieceLen(p) <= |s|
  {
    hide AtomLen, FillersAt, FillersLen;
    if p.q.Once? {
      assert FillersLen([]) == 0 by { NoFillers(); }
      AtomFits(s, i, p.atom, x);
    }
  }

  lemma NoFillers()
    ensures FillersLen([]) == 0
  {}

  lemma AtomFits(s: seq<byte>, i: nat, a: Atom, x: Syntax)
    requires AtomAt(s, i, a, x)
    ensures i + AtomLen(a) <= |s|
  {
    hide AtomLen;
  }

  /** Fillers and a quantifier after an atom. */
  lemma QuantifiedRun(s: seq<byte>, st: State, a: Atom, fs: seq<Filler>, q: Quantifier, b: Backslash, x: Syntax)
    requires !q.Once? && !Silent(a)
    requires FillersAt(s, st.pos + AtomLen(a), fs, x) && QuantifierAt(s, st.pos + AtomLen(a) + FillersLen(fs), q, x)
    requires Goes(s, st, After(st, AtomLen(a), AtomUnits(b, a), AtomLast(b, a, st.lastsz)), b, x)
    ensures Goes(s, st, After(st, AtomLen(a) + FillersLen(fs) + QuantifierLen(q), [AnyString], 1), b, x)
  {
    hide Run, Text, AtomUnits, QuantifierAt, FillersAt, FillersLen, AtomLen, QuantifierLen;
    var us := AtomUnits(b, a);
    var mid := After(st, AtomLen(a), us, AtomLast(b, a, st.lastsz));
    QuantifierInside(s, st.pos + AtomLen(a) + FillersLen(fs), q, x);
    FillersRun(s, mid, fs, b, x);
    TextOne(AnyString);
    QuantifierRun(s, mid.(pos := mid.pos + FillersLen(fs)), q, st.out, Text(us), b, x);
  }

  lemma QuantifierInside(s: seq<byte>, i: nat, q: Quantifier, x: Syntax)
    requires !q.Once? && QuantifierAt(s, i, q, x)
    ensures i < |s|
  {}

  lemma AfterJoin(st: State, n: nat, us: seq<Unit>, last: int, n': nat, vs: seq<Unit>, last': int)
    ensures After(After(st, n, us, last), n', vs, last') == After(st, n + n', us + vs, last')
  {
    hide Text;
    TextJoin(us, vs);
  }

  lemma AfterMoved(st: State, n: nat)
    ensures After(st, n, [], st.lastsz) == st.(pos := st.pos + n)
  {
    TextNil();
    assert st.out + [] == st.out;
  }

  lemma NoPieces(b: Backslash, before: int)
    ensures PiecesUnits(b, Pieces.Nil) == [] && PiecesLast(b, Pieces.Nil, before) == before
  {}

  lemma AfterPieces(st: State, ps: Pieces, b: Backslash)
    requires ps.Cons?
    ensures var last := PieceLast(b, ps.head, st.lastsz);
            After(After(st, PieceLen(ps.head), PieceUnits(b, ps.head), last),
                  PiecesLen(ps.tail), PiecesUnits(b, ps.tail), PiecesLast(b, ps.tail, last))
            == After(st, PiecesLen(ps), PiecesUnits(b, ps), PiecesLast(b, ps, st.lastsz))
  {
    hide After, PieceUnits, PieceLast, PieceLen;
    var last := PieceLast(b, ps.head, st.lastsz);
    AfterJoin(st, PieceLen(ps.head), PieceUnits(b, ps.head), last,
              PiecesLen(ps.tail), PiecesUnits(b, ps.tail), PiecesLast(b, ps.tail, last));
  }

  lemma PiecesRun(s: seq<byte>, st: State, ps: Pieces, b: Backslash, x: Syntax)
    requires PiecesAt(s, st.pos, ps, x)
    ensures st.pos + PiecesLen(ps) <= |s|
    ensures if PiecesBranch(ps) then Run(s, st, x.Expanded?, b) == Abandoned
            else if PiecesRagged(ps) && st.pos + PiecesLen(ps) == |s| then Run(s, st, x.Expanded?, b) == Astray
            else Goes(s, st, After(st, PiecesLen(ps), PiecesUnits(b, ps), PiecesLast(b, ps, st.lastsz)), b, x)
    decreases ps, 3
  {
    hide Run, After, PieceUnits, PieceAt, PieceLast, PieceLen, PiecesUnits, PiecesLast;
    if ps.Nil? {
      AfterMoved(st, 0);
      NoPieces(b, st.lastsz);
    } else {
      PieceRun(s, st, ps.head, b, x);
      var n, us, last := PieceLen(ps.head), PieceUnits(b, ps.head), PieceLast(b, ps.head, st.lastsz);
      var mid := After(st, n, us, last);
      AfterAt(st, n, us, last);
      PiecesRun(s, mid, ps.tail, b, x);
      FillLen(ps.head);
      AfterPieces(st, ps, b);
    }
  }

  lemma FillLen(p: Piece)
    ensures p.Fill? && p.f.Space? ==> PieceLen(p) == 1
  {}

  /** Translating the text of an expression adds its units, or gives up if there is a choice
      anywhere in it; it goes astray exactly if there is none and the text ends with a blank. */
  lemma RegexpRun(s: seq<byte>, st: State, re: Regexp, b: Backslash, x: Syntax)
    requires RegexpAt(s, st.pos, re, x) && st.pos <= |s|
    ensures if RegexpBranches(re) then Run(s, st, x.Expanded?, b) == Abandoned
            else if RegexpRagged(re) && st.pos + RegexpLen(re) == |s| then Run(s, st, x.Expanded?, b) == Astray
            else Goes(s, st, After(st, RegexpLen(re), RegexpUnits(b, re), PiecesLast(b, re.b, st.lastsz)), b, x)
    decreases re, 4
  {
    hide Run, Text, PiecesUnits, PiecesAt, PiecesLast, PiecesLen, PiecesBranch, PiecesRagged;
    PiecesRun(s, st, re.b, b, x);
    if !PiecesBranch(re.b) && re.Or? {
      RunBranching(s, After(st, PiecesLen(re.b), PiecesUnits(b, re.b), PiecesLast(b, re.b, st.lastsz)), b, x);
    }
  }
}
