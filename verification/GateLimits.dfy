/** Expressions outside the ones the gate is sound for, each with what goes wrong, and for
    escapes, classes and comments exactly when the translator leaves the engine's reading. */
module GateLimits {
  import opened Chars
  import opened Glob
  import opened GlobSteps
  import opened GateUnits
  import opened GateText
  import opened GateRegexp
  import opened GateRuns
  import opened GateSound
  import opened GateCompile

  const RETURN: byte := 13
  const LETTER_A: byte := 'A' as int
  const LETTER_a: byte := 'a' as int
  const DIGIT_0: byte := '0' as int
  const DIGIT_1: byte := '1' as int
  const DIGIT_4: byte := '4' as int
  const CAPITAL_SIGMA: byte := 0x3A3
  const FINAL_SIGMA: byte := 0x3C2
  const SMALL_SIGMA: byte := 0x3C3

  // ----- patterns that match nowhere -----

  /** The pattern matches nowhere in the string. */
  ghost predicate Nowhere(d: Dialect, g: seq<byte>, t: seq<byte>) {
    forall o: nat :: o <= |t| ==> !Matches(d, Read(d, g, 0), t, o)
  }

  predicate StarFree(us: seq<Unit>) {
    forall k :: 0 <= k < |us| ==> !us[k].AnyString?
  }

  lemma {:induction false} FixedWidth(d: Dialect, us: seq<Unit>, t: seq<byte>, i: nat, j: nat)
    requires StarFree(us) && UnitsFit(d, us, t, i, j)
    ensures i + |us| == j <= |t|
    decreases |us|
  {
    if us != [] {
      FixedWidth(d, us[1..], t, i + 1, j);
    }
  }

  /** Without stars as many characters are needed as there are units. */
  lemma TooShort(d: Dialect, us: seq<Unit>, t: seq<byte>)
    requires StarFree(us) && UnitsOk(us) && |t| < |us|
    ensures Nowhere(d, Text(us), t)
  {
    hide UnitsOk, Fits;
    assert [] + Text(us) == Text(us);
    ReadUnits(d, [], us);
    forall o: nat | o <= |t| ensures !Matches(d, ToTokens(us), t, o) {
      forall j: nat ensures !Fits(d, ToTokens(us), t, o, j) {
        if UnitsFit(d, us, t, o, j) { FixedWidth(d, us, t, o, j); }
      }
    }
  }

  /** A pattern that begins with a character the string does not have. */
  lemma FirstIsNeeded(d: Dialect, c: byte, rest: seq<byte>, t: seq<byte>)
    requires PlainInGlob(c) && forall k :: 0 <= k < |t| ==> Fold(d, t[k]) != Fold(d, c)
    ensures Nowhere(d, [c] + rest, t)
  {
    hide Matches;
    var g := [c] + rest;
    forall o: nat | o <= |t| ensures !Matches(d, Read(d, g, 0), t, o) {
      NeverFits(d, Read(d, g, 0), t, o);
    }
  }

  lemma OneLetter(d: Dialect, c: byte, t: seq<byte>)
    requires PlainInGlob(c) && forall k :: 0 <= k < |t| ==> Fold(d, t[k]) != Fold(d, c)
    ensures Nowhere(d, [c], t)
  {
    assert [c] + [] == [c];
    FirstIsNeeded(d, c, [], t);
  }

  lemma TextTwo(u: Unit, v: Unit)
    ensures Text([u, v]) == UnitText(u) + UnitText(v)
  {
    TextOne(v);
    assert [u, v] == [u] + [v];
    TextFront(u, [v]);
  }

  /** `?c` and `bc` need two characters. */
  lemma TwoCharacters(d: Dialect, u: Unit, c: byte, t: seq<byte>)
    requires !u.AnyString? && UnitsOk([u]) && PlainInGlob(c) && |t| < 2
    ensures Nowhere(d, UnitText(u) + [c], t)
  {
    assert [u][0] == u;
    TextTwo(u, Raw(c));
    TooShort(d, [u, Raw(c)], t);
  }

  function RawUnits(w: seq<byte>): seq<Unit> {
    seq(|w|, k requires 0 <= k < |w| => Raw(w[k]))
  }

  lemma {:induction false} RawText(w: seq<byte>)
    ensures Text(RawUnits(w)) == w && StarFree(RawUnits(w))
    decreases |w|
  {
    if w != [] {
      RawText(w[1..]);
      assert RawUnits(w)[1..] == RawUnits(w[1..]);
      assert [w[0]] + w[1..] == w;
    }
  }

  /** Plain characters do not match in fewer. */
  lemma PlainTooShort(d: Dialect, w: seq<byte>, t: seq<byte>)
    requires |t| < |w| && forall k :: 0 <= k < |w| ==> PlainInGlob(w[k])
    ensures Nowhere(d, w, t)
  {
    RawText(w);
    TooShort(d, RawUnits(w), t);
  }

  // ----- the translation of short texts -----

  /** Without stars the clean-up changes nothing. */
  lemma {:induction false} PassesKeep(x: seq<byte>, skip: bool)
    requires STAR_CHAR !in x
    ensures QForward(x, skip, false) == x && Stars(x, skip, false) == x && CountStars(x, skip) == 0
    decreases |x|
  {
    if x != [] {
      PassesKeep(x[1..], !skip && x[0] == BACKSLASH);
      assert [x[0]] + x[1..] == x;
    }
  }

  lemma {:induction false} QBackKeeps(done: seq<byte>, x: seq<byte>, skip: bool)
    requires STAR_CHAR !in x
    ensures QBack(done, x, skip) == done + x
    decreases |x|
  {
    if x == [] {
      assert done + x == done;
    } else {
      QBackKeeps(done + [x[0]], x[1..], !skip && x[0] == BACKSLASH);
      assert done + [x[0]] + x[1..] == done + x;
    }
  }

  lemma Translated(s: seq<byte>, p: nat, expanded: bool, x: seq<byte>, b: Backslash)
    requires ReadStart(s) == Start(p, false, expanded) && p <= |s|
             && Run(s, State(p, [], -1, []), expanded, b) == Ended(x)
    requires STAR_CHAR !in x && x != [] && x != [QUERY]
    ensures ReToGlob(s, b) == Glob(x)
  {
    hide Run, ReadStart, QForward, QBack, Stars, CountStars;
    PassesKeep(x, false);
    QBackKeeps([], x, false);
    assert [] + x == x;
  }

  /** One round. */
  lemma NextRound(s: seq<byte>, st: State, st': State, b: Backslash, x: seq<byte>)
    requires st.pos < |s| && StepAt(s, st, b) == Next(st') && st'.pos <= |s| && Run(s, st', false, b) == Ended(x)
    ensures Run(s, st, false, b) == Ended(x)
  {
    hide Run, StepAt;
    RunStep(s, st, b, Tight);
  }

  /** No character of the text from p up to q means anything. */
  predicate PlainFor(s: seq<byte>, p: nat, q: nat) {
    q <= |s| && forall k :: p <= k < q ==> !IsSpecial(s[k])
  }

  /** Plain characters are written as they are. */
  lemma {:induction false} PlainRun(s: seq<byte>, st: State, q: nat, b: Backslash)
    requires st.pos <= q && PlainFor(s, st.pos, q)
    ensures var last := if st.pos == q then st.lastsz else 1;
            Run(s, st, false, b) == Run(s, State(q, st.out + s[st.pos..q], last, st.parens), false, b)
    decreases q - st.pos
  {
    hide Run;
    if st.pos == q {
      assert st.out + s[q..q] == st.out;
    } else {
      var next := Emit(st, st.pos + 1, [s[st.pos]]);
      RunStep(s, st, b, Tight);
      PlainRun(s, next, q, b);
      assert next.out + s[next.pos..q] == st.out + s[st.pos..q];
    }
  }

  /** Nothing but plain characters to the end. */
  lemma PlainRest(s: seq<byte>, st: State, b: Backslash, out: seq<byte>)
    requires st.pos <= |s| && PlainFor(s, st.pos, |s|) && out == st.out + s[st.pos..]
    ensures Run(s, st, false, b) == Ended(out)
  {
    hide Run;
    PlainRun(s, st, |s|, b);
    assert s[st.pos..|s|] == s[st.pos..];
    RunRound(s, State(|s|, out, if st.pos == |s| then st.lastsz else 1, st.parens), false, b);
  }

  /** A single piece, and an atom once. */
  function JustPiece(p: Piece): Regexp {
    Only(Pieces.Cons(p, Pieces.Nil))
  }

  function JustAtom(a: Atom): Regexp {
    JustPiece(Piece(a, [], Once))
  }

  lemma JustPieceAt(s: seq<byte>, i: nat, p: Piece, x: Syntax)
    requires PieceAt(s, i, p, x) && i + PieceLen(p) <= |s|
    ensures RegexpAt(s, i, JustPiece(p), x) && RegexpLen(JustPiece(p)) == PieceLen(p)
  {
    hide PieceAt, PieceLen;
    assert PiecesAt(s, i + PieceLen(p), Pieces.Nil, x) && PiecesLen(Pieces.Nil) == 0;
    assert PiecesAt(s, i, Pieces.Cons(p, Pieces.Nil), x);
  }

  lemma JustAtomAt(s: seq<byte>, i: nat, a: Atom, x: Syntax)
    requires AtomAt(s, i, a, x) && i + AtomLen(a) <= |s|
    ensures RegexpAt(s, i, JustAtom(a), x) && RegexpLen(JustAtom(a)) == AtomLen(a)
  {
    hide AtomAt, AtomLen;
    NoFillers();
    JustPieceAt(s, i, Piece(a, [], Once), x);
  }

  lemma JustPieceSpan(e: Engine, p: Piece, t: seq<byte>, i: nat, j: nat)
    requires PieceSpan(e, p, t, i, j) && j <= |t|
    ensures RegexpSpan(e, JustPiece(p), t, i, j)
  {
    hide PieceSpan;
    assert PiecesSpan(e, Pieces.Nil, t, j, j);
    assert PiecesSpan(e, Pieces.Cons(p, Pieces.Nil), t, i, j);
  }

  lemma JustAtomSpan(e: Engine, a: Atom, t: seq<byte>, i: nat, j: nat)
    requires AtomSpan(e, a, t, i, j) && j <= |t|
    ensures RegexpSpan(e, JustAtom(a), t, i, j)
  {
    hide AtomSpan;
    assert PieceSpan(e, Piece(a, [], Once), t, i, j);
    JustPieceSpan(e, Piece(a, [], Once), t, i, j);
  }

  lemma OptionStart(s: seq<byte>, opts: seq<byte>)
    requires OptionsAt(s, 0, opts) && AllOptions(opts)
    ensures ReadStart(s) == Start(|opts| + 3, LETTER_q in opts, LETTER_x in opts) && |opts| + 3 <= |s|
  {
    hide ChopTo;
    OptionsRead(s, 0, opts);
  }

  /** One option and one atom. */
  lemma OptionAndAtom(s: seq<byte>, opt: byte, a: Atom, e: Engine, nocase: bool)
    requires opt == LETTER_i || opt == LETTER_e
    requires e.flags == FlagsOf(Some([opt]), Advanced, nocase)
    requires OptionsAt(s, 0, [opt]) && AtomAt(s, 4, a, Tight) && 4 + AtomLen(a) == |s|
    ensures IsExpression(s, Some([opt]), e, nocase, JustAtom(a)) && ReadStart(s) == Start(4, false, false)
    ensures e.flags == WithOption(Flags(Advanced, nocase, false), opt)
  {
    hide RegexpAt, RegexpLen, AtomAt, AtomLen, ReadStart, At;
    assert WithOptions(Flags(Advanced, nocase, false), [opt]) == WithOption(Flags(Advanced, nocase, false), opt);
    OptionsRead(s, 0, [opt]);
    OptionStart(s, [opt]);
    JustAtomAt(s, 4, a, Tight);
  }

  lemma CharSpan(e: Engine, c: byte, x: byte)
    requires x in CasesOf(e, c)
    ensures RegexpSpan(e, JustAtom(Plain(c)), [x], 0, 1)
  {
    hide CasesOf, RegexpSpan;
    JustAtomSpan(e, Plain(c), [x], 0, 1);
  }

  // ----- case and options -----

  /** When case does not matter, the final sigma also matches the capital one, whose lower case is
      the other sigma; its gate, which compares lower cases, does not. */
  lemma FinalSigmaIsMissed(b: Backslash, d: Dialect, e: Engine)
    requires d.nocase && d.lower(FINAL_SIGMA) == FINAL_SIGMA && d.lower(CAPITAL_SIGMA) == SMALL_SIGMA
    requires e.cases.upper(FINAL_SIGMA) == CAPITAL_SIGMA && e.flags == FlagsOf(None, Advanced, true)
    ensures var s, re := [FINAL_SIGMA], JustAtom(Plain(FINAL_SIGMA));
            && IsExpression(s, None, e, d.nocase, re) && RegexpSpan(e, re, [CAPITAL_SIGMA], 0, 1)
            && ReToGlob(s, b) == Glob([FINAL_SIGMA])
    ensures Nowhere(d, [FINAL_SIGMA], [CAPITAL_SIGMA])
  {
    hide Run, RegexpAt, RegexpLen, RegexpSpan;
    var s := [FINAL_SIGMA];
    JustAtomAt(s, 0, Plain(FINAL_SIGMA), Tight);
    CharSpan(e, FINAL_SIGMA, CAPITAL_SIGMA);
    PlainRest(s, State(0, [], -1, []), b, s);
    Translated(s, 0, false, s, b);
    OneLetter(d, FINAL_SIGMA, [CAPITAL_SIGMA]);
  }

  /** With option i, `(?i)a` matches `A`; its gate `a` does not. */
  lemma IgnoreCaseIsMissed(b: Backslash, d: Dialect, e: Engine)
    requires !d.nocase && e.cases.upper(LETTER_a) == LETTER_A && e.flags == FlagsOf(Some([LETTER_i]), Advanced, false)
    ensures var s, re := [LPAREN, QUERY, LETTER_i, RPAREN, LETTER_a], JustAtom(Plain(LETTER_a));
            && IsExpression(s, Some([LETTER_i]), e, d.nocase, re) && RegexpSpan(e, re, [LETTER_A], 0, 1)
            && ReToGlob(s, b) == Glob([LETTER_a])
    ensures Nowhere(d, [LETTER_a], [LETTER_A])
  {
    hide Run, RegexpSpan, ReadStart, ReToGlob, IsExpression;
    var s := [LPAREN, QUERY, LETTER_i, RPAREN, LETTER_a];
    OptionAndAtom(s, LETTER_i, Plain(LETTER_a), e, false);
    CharSpan(e, LETTER_a, LETTER_A);
    PlainRest(s, State(4, [], -1, []), b, [LETTER_a]);
    Translated(s, 4, false, [LETTER_a], b);
    OneLetter(d, LETTER_a, [LETTER_A]);
  }

  /** With option e a backslash only quotes: `(?e)\x41` matches `x41`; its gate is `A`. */
  lemma PlainEscapeIsMissed(stray: byte, d: Dialect, e: Engine)
    requires !d.nocase && e.flags == FlagsOf(Some([LETTER_e]), Advanced, false)
    ensures var s := [LPAREN, QUERY, LETTER_e, RPAREN, BACKSLASH, LETTER_x, DIGIT_4, DIGIT_1];
            var re := JustAtom(Hex([DIGIT_4, DIGIT_1]));
            && IsExpression(s, Some([LETTER_e]), e, d.nocase, re)
            && RegexpSpan(e, re, [LETTER_x, DIGIT_4, DIGIT_1], 0, 3)
            && ReToGlob(s, Decoded(stray)) == Glob([LETTER_A])
    ensures Nowhere(d, [LETTER_A], [LETTER_x, DIGIT_4, DIGIT_1])
  {
    hide Run, RegexpSpan, ReadStart, ReToGlob, IsExpression, UtfBackslash, HexValue;
    var s := [LPAREN, QUERY, LETTER_e, RPAREN, BACKSLASH, LETTER_x, DIGIT_4, DIGIT_1];
    var ds, b := [DIGIT_4, DIGIT_1], Decoded(stray);
    assert s[6..8] == ds && AtomAt(s, 4, Hex(ds), Tight);
    OptionAndAtom(s, LETTER_e, Hex(ds), e, false);
    assert AtomSpan(e, Hex(ds), [LETTER_x] + ds, 0, 3) && [LETTER_x] + ds == [LETTER_x, DIGIT_4, DIGIT_1];
    JustAtomSpan(e, Hex(ds), [LETTER_x] + ds, 0, 3);
    HexOnly(s, 4, ds, stray);
    Translated(s, 4, false, [LETTER_A], b);
    OneLetter(d, LETTER_A, [LETTER_x, DIGIT_4, DIGIT_1]);
  }

  /** A hexadecimal escape for A at the end. */
  lemma HexOnly(s: seq<byte>, p: nat, ds: seq<byte>, stray: byte)
    requires AtomAt(s, p, Hex(ds), Tight) && p + 2 + |ds| == |s|
    requires |ds| >= 2 && ds[|ds| - 2..] == [DIGIT_4, DIGIT_1]
    ensures Run(s, State(p, [], -1, []), false, Decoded(stray)) == Ended([LETTER_A])
  {
    hide Run, UtfBackslash, HexValue;
    var b, st := Decoded(stray), State(p, [], -1, []);
    HexStep(s, st, ds, b, Tight);
    DecodedA(LETTER_x, [], stray);
    assert [DIGIT_4, DIGIT_1] + [] == [DIGIT_4, DIGIT_1];
    assert (if |ds| > 2 then ds[|ds| - 2..] else ds) == [DIGIT_4, DIGIT_1];
    QuoteText(LETTER_A);
    PlainRest(s, Emit(st, |s|, [LETTER_A]), b, [LETTER_A]);
    NextRound(s, st, Emit(st, |s|, [LETTER_A]), b, [LETTER_A]);
  }

  /** With option b groups are written with backslashes: `(?b)\(w\)` matches w; its gate asks
      for the parentheses as well. */
  lemma BasicGroupIsMissed(w: seq<byte>, b: Backslash, d: Dialect)
    requires forall k :: 0 <= k < |w| ==> !IsSpecial(w[k])
    ensures var s := [LPAREN, QUERY, LETTER_b, RPAREN] + [BACKSLASH, LPAREN] + w + [BACKSLASH, RPAREN];
            ReToGlob(s, b) == Glob([LPAREN] + w + [RPAREN])
    ensures Nowhere(d, [LPAREN] + w + [RPAREN], w)
  {
    hide Run, ReadStart, ReToGlob;
    var s := [LPAREN, QUERY, LETTER_b, RPAREN] + [BACKSLASH, LPAREN] + w + [BACKSLASH, RPAREN];
    var x, n := [LPAREN] + w + [RPAREN], 6 + |w|;
    OptionStart(s, [LETTER_b]);
    var st := State(4, [], -1, []);
    var st1, st2 := Emit(st, 6, [LPAREN]), State(n, [LPAREN] + w, 1, []);
    QuotedParen(s, 4, b);
    forall k | 6 <= k < n ensures !IsSpecial(s[k]) { assert s[k] == w[k - 6]; }
    assert s[6..n] == w;
    PlainRun(s, st1, n, b);
    assert st1.out + s[6..n] == [LPAREN] + w;
    var st3 := Emit(st2, n + 2, [RPAREN]);
    assert StepAt(s, st2, b) == Next(st3);
    PlainRest(s, st3, b, x);
    NextRound(s, st2, st3, b, x);
    NextRound(s, st, st1, b, x);
    Translated(s, 4, false, x, b);
    PlainTooShort(d, x, w);
  }

  lemma QuotedParen(s: seq<byte>, p: nat, b: Backslash)
    requires At(s, p, [BACKSLASH, LPAREN])
    ensures var st := State(p, [], -1, []); StepAt(s, st, b) == Next(Emit(st, p + 2, [LPAREN])) && p + 2 <= |s|
  {
    assert s[p..p + 2][0] == s[p] && s[p..p + 2][1] == s[p + 1];
  }

  /** Of options q and others that say how to take the expression the last one counts, but the
      translator takes any q for a literal: `(?qe)a*` matches `a`; its gate asks for `a*`. */
  lemma LostQuoteIsMissed(b: Backslash, d: Dialect, e: Engine)
    requires e.flags == FlagsOf(Some([LETTER_q, LETTER_e]), Advanced, d.nocase) && e.counts(Op(STAR_CHAR, false), 1)
    requires LETTER_a in CasesOf(e, LETTER_a)
    ensures var s := [LPAREN, QUERY, LETTER_q, LETTER_e, RPAREN, LETTER_a, STAR_CHAR];
            var re := JustPiece(Piece(Plain(LETTER_a), [], Op(STAR_CHAR, false)));
            && e.flags.flavour == Extended && RegexpAt(s, 5, re, SyntaxOf(e)) && RegexpLen(re) == 2
            && RegexpSpan(e, re, [LETTER_a], 0, 1)
            && ReToGlob(s, b) == Glob([LETTER_a, BACKSLASH, STAR_CHAR])
    ensures Nowhere(d, [LETTER_a, BACKSLASH, STAR_CHAR], [LETTER_a])
  {
    hide Run, ReadStart, CasesOf, Nowhere, Times, RegexpAt, RegexpLen, RegexpSpan;
    var s := [LPAREN, QUERY, LETTER_q, LETTER_e, RPAREN, LETTER_a, STAR_CHAR];
    var a, q := Plain(LETTER_a), Op(STAR_CHAR, false);
    OptionStart(s, [LETTER_q, LETTER_e]);
    assert LETTER_q in [LETTER_q, LETTER_e];
    TwoOptions(Flags(Advanced, d.nocase, false), LETTER_q, LETTER_e);
    NoFillers();
    JustPieceAt(s, 5, Piece(a, [], q), Tight);
    OnceIsTimes(e, a, [LETTER_a], 0, 1);
    JustPieceSpan(e, Piece(a, [], q), [LETTER_a], 0, 1);
    assert Literal(s, 6) == [BACKSLASH, STAR_CHAR] + Literal(s, 7);
    TextTwo(Raw(LETTER_a), Quoted(STAR_CHAR));
    TooShort(d, [Raw(LETTER_a), Quoted(STAR_CHAR)], [LETTER_a]);
  }

  lemma TwoOptions(f: Flags, c: byte, c': byte)
    ensures WithOptions(f, [c, c']) == WithOption(WithOption(f, c), c')
  {
    hide WithOption;
    assert [c, c'][1..] == [c'] && [c'][1..] == [];
    assert WithOptions(WithOption(f, c), [c']) == WithOptions(WithOption(WithOption(f, c), c'), []);
  }

  lemma OnceIsTimes(e: Engine, a: Atom, t: seq<byte>, i: nat, j: nat)
    requires AtomSpan(e, a, t, i, j) && j <= |t|
    ensures Times(e, a, 1, t, i, j)
  {
    assert Times(e, a, 0, t, j, j);
  }

  // ----- expanded syntax -----

  /** In expanded syntax only blanks, tabs and newlines are skipped: `(?x)a` and a carriage
      return matches `a`; its gate asks for both. */
  lemma ReturnIsKept(b: Backslash, d: Dialect)
    ensures ReToGlob([LPAREN, QUERY, LETTER_x, RPAREN, LETTER_a, RETURN], b) == Glob([LETTER_a, RETURN])
    ensures Nowhere(d, [LETTER_a, RETURN], [LETTER_a])
  {
    hide Run, ReadStart, ReToGlob;
    var s := [LPAREN, QUERY, LETTER_x, RPAREN, LETTER_a, RETURN];
    OptionStart(s, [LETTER_x]);
    assert LETTER_x in [LETTER_x] && LETTER_q !in [LETTER_x];
    var st := State(4, [], -1, []);
    assert SkipBlanks(s, 4) == 4 && SkipBlanks(s, 5) == 5;
    var st1, st2 := Emit(st, 5, [LETTER_a]), Emit(Emit(st, 5, [LETTER_a]), 6, [RETURN]);
    RunRound(s, st, true, b);
    RunRound(s, st1, true, b);
    RunRound(s, st2, true, b);
    assert st2.out == [LETTER_a, RETURN];
    Translated(s, 4, true, [LETTER_a, RETURN], b);
    PlainTooShort(d, [LETTER_a, RETURN], [LETTER_a]);
  }

  /** With any option x, a blank at the end is skipped, and then one character more is read;
      also where a later option t has the blank stand for itself. */
  lemma TrailingBlankBreaks(opts: seq<byte>, b: Backslash)
    requires AllOptions(opts) && LETTER_x in opts && LETTER_q !in opts
    ensures ReToGlob([LPAREN, QUERY] + opts + [RPAREN] + [LETTER_a, SPACE], b) == Undefined
    ensures !WithOptions(Flags(Advanced, false, false), [LETTER_x, LETTER_t]).expanded
  {
    hide Run, ReadStart;
    var s := [LPAREN, QUERY] + opts + [RPAREN] + [LETTER_a, SPACE];
    var p := |opts| + 3;
    assert s[0..p] == [LPAREN, QUERY] + opts + [RPAREN];
    OptionStart(s, opts);
    TwoOptions(Flags(Advanced, false, false), LETTER_x, LETTER_t);
    var st := State(p, [], -1, []);
    assert s[p] == LETTER_a && s[p + 1] == SPACE && |s| == p + 2;
    assert SkipBlanks(s, p) == p && SkipBlanks(s, p + 2) == p + 2 && SkipBlanks(s, p + 1) == p + 2;
    RunRound(s, st, true, b);
    RunRound(s, Emit(st, p + 1, [LETTER_a]), true, b);
  }

  // ----- comments -----

  /** A comment is skipped exactly if a parenthesis closes it; the engine also takes one that goes
      on to the end. */
  lemma RemarkCloses(s: seq<byte>, st: State, v: seq<byte>, b: Backslash)
    requires At(s, st.pos, [LPAREN, QUERY, HASH] + v) && st.pos + 3 + |v| == |s|
    ensures if RPAREN in v then StepAt(s, st, b).Next? else StepAt(s, st, b) == Stuck
  {
    hide ChopTo;
    var p := st.pos + 1;
    OpenAt(s, st.pos, [LPAREN, QUERY, HASH], v);
    assert s[p + 2..] == v;
    var q := ChopTo(s, p, RPAREN);
    if RPAREN in v {
      var k :| 0 <= k < |v| && v[k] == RPAREN;
      assert s[p + 2 + k] == v[k];
    }
    assert StepAt(s, st, b) == OpenParen(s, st);
  }

  /** So such a comment after plain text makes the translation read past the end. */
  lemma OpenRemarkBreaks(w: seq<byte>, v: seq<byte>, b: Backslash)
    requires RPAREN !in v && forall k :: 0 <= k < |w| ==> !IsSpecial(w[k])
    ensures ReToGlob(w + ([LPAREN, QUERY, HASH] + v), b) == Undefined
  {
    hide Run, StepAt, ChopTo;
    var n := |w|;
    var s := w + ([LPAREN, QUERY, HASH] + v);
    assert s[n..] == [LPAREN, QUERY, HASH] + v;
    assert forall k :: 0 <= k < n ==> s[k] == w[k];
    var st := State(n, [] + s[0..n], if n == 0 then -1 else 1, []);
    RemarkStarts(s, n, v);
    PlainRun(s, State(0, [], -1, []), n, b);
    RemarkCloses(s, st, v, b);
    RunRound(s, st, false, b);
  }

  lemma RemarkStarts(s: seq<byte>, n: nat, v: seq<byte>)
    requires At(s, n, [LPAREN, QUERY, HASH] + v) && PlainFor(s, 0, n)
    ensures ReadStart(s) == Start(0, false, false)
  {
    hide ChopTo;
    OpenAt(s, n, [LPAREN, QUERY, HASH], v);
    if n == 0 {
      NotAnOption(s, 2, ChopTo(s, 2, RPAREN));
    }
  }

  // ----- bracket classes -----

  /** `[[:<:]]a` matches `a`: the class is a constraint.  The gate `?a` asks for two
      characters. */
  lemma WordBracketIsMissed(b: Backslash, d: Dialect)
    ensures var s := [LBRACKET, LBRACKET, COLON, LESS, COLON, RBRACKET, RBRACKET, LETTER_a];
            && AtomAt(s, 0, Bracket(false, [Named(COLON, [LESS])]), Tight) && AtomAt(s, 7, Plain(LETTER_a), Tight)
            && ReToGlob(s, b) == Glob([QUERY, LETTER_a])
    ensures Nowhere(d, [QUERY, LETTER_a], [LETTER_a])
  {
    hide Run;
    var s := [LBRACKET, LBRACKET, COLON, LESS, COLON, RBRACKET, RBRACKET, LETTER_a];
    var a := Bracket(false, [Named(COLON, [LESS])]);
    var st := State(0, [], -1, []);
    WordBracketAt(s);
    BracketStep(s, st, a, b, Tight);
    TextOne(AnyChar);
    PlainRest(s, Emit(st, 7, [QUERY]), b, [QUERY, LETTER_a]);
    NextRound(s, st, Emit(st, 7, [QUERY]), b, [QUERY, LETTER_a]);
    Translated(s, 0, false, [QUERY, LETTER_a], b);
    TwoCharacters(d, AnyChar, LETTER_a, [LETTER_a]);
  }

  lemma WordBracketAt(s: seq<byte>)
    requires |s| >= 7 && s[..7] == [LBRACKET, LBRACKET, COLON, LESS, COLON, RBRACKET, RBRACKET]
    ensures var a := Bracket(false, [Named(COLON, [LESS])]); AtomAt(s, 0, a, Tight) && AtomLen(a) == 7
  {
    var a := Bracket(false, [Named(COLON, [LESS])]);
    forall k | 0 <= k < 7 ensures s[k] == s[..7][k] {}
    assert MemberAt(s, 1, a.members[0], true, false) by { assert s[3..4] == [LESS]; }
    assert a.members[1..] == [] && MembersLen(a.members) == 5 + MembersLen([]);
  }

  /** A class with `\]`, or with `\c]`, is taken to end there, whatever follows. */
  lemma EscapedBracketEnds(s: seq<byte>, p: nat, ms: seq<Member>, negated: bool, n: nat)
    requires MembersAt(s, p, ms, true, negated)
    requires var q := p + MembersLen(ms);
             (At(s, q, [BACKSLASH, RBRACKET]) && n == q + 2)
             || (At(s, q, [BACKSLASH, LETTER_c, RBRACKET]) && n == q + 3)
    ensures ClassEnd(s, p, !negated, true) == Some(n)
  {
    hide MembersAt;
    var q := p + MembersLen(ms);
    assert s[q] == BACKSLASH && s[q + 1] == s[q..n][1] && s[n - 1] == RBRACKET by {
      assert s[q..n][0] == s[q] && s[q..n][n - q - 1] == s[n - 1];
    }
    MembersScanned(s, p, ms, !negated, true, negated);
    BackslashEnds(s, q, !negated && ms == [], ms == []);
    if n == q + 3 { CharEnds(s, q + 1); }
  }

  lemma BackslashEnds(s: seq<byte>, p: nat, first: bool, allowed: bool)
    requires p < |s| && s[p] == BACKSLASH
    ensures ClassEnd(s, p, first, allowed) == ClassEnd(s, p + 1, false, false)
  {}

  /** `[\]]` is a class that holds `]`; the translation closes it early, and its gate `?]`
      asks for two characters. */
  lemma EscapedBracketIsMissed(b: Backslash, d: Dialect)
    ensures ReToGlob([LBRACKET, BACKSLASH, RBRACKET, RBRACKET], b) == Glob([QUERY, RBRACKET])
    ensures Nowhere(d, [QUERY, RBRACKET], [RBRACKET])
  {
    var s := [LBRACKET, BACKSLASH, RBRACKET, RBRACKET];
    assert s[1..3] == [BACKSLASH, RBRACKET];
    EscapedBracketEnds(s, 1, [], false, 3);
    ClassAndRest(s, 3, b);
    TwoCharacters(d, AnyChar, RBRACKET, [RBRACKET]);
  }

  /** So is `[\c]]`, a class of one control character. */
  lemma ControlBracketIsMissed(b: Backslash, d: Dialect)
    ensures ReToGlob([LBRACKET, BACKSLASH, LETTER_c, RBRACKET, RBRACKET], b) == Glob([QUERY, RBRACKET])
    ensures forall c: byte :: Nowhere(d, [QUERY, RBRACKET], [c])
  {
    var s := [LBRACKET, BACKSLASH, LETTER_c, RBRACKET, RBRACKET];
    assert s[1..4] == [BACKSLASH, LETTER_c, RBRACKET];
    EscapedBracketEnds(s, 1, [], false, 4);
    ClassAndRest(s, 4, b);
    forall c: byte ensures Nowhere(d, [QUERY, RBRACKET], [c]) { TwoCharacters(d, AnyChar, RBRACKET, [c]); }
  }

  /** An escaped `[` before `.`, `=` or `:`, or such a control character, is taken to open a named
      member: the class goes on after the name's end, and if there is none the translation is
      undefined. */
  lemma EscapedBracketOpens(s: seq<byte>, p: nat, ms: seq<Member>, negated: bool, kind: byte, n: nat)
    requires MembersAt(s, p, ms, true, negated) && (kind == DOT || kind == EQUALS || kind == COLON)
    requires var q := p + MembersLen(ms);
             || (At(s, q, [BACKSLASH, LBRACKET, kind]) && n == q + 3)
             || (At(s, q, [BACKSLASH, LETTER_c, LBRACKET, kind]) && n == q + 4)
    ensures n <= |s|
    ensures ClassEnd(s, p, !negated, true)
         == match AfterNamed(s, n, kind) case None => None case Some(m) => ClassEnd(s, m, false, false)
  {
    hide MembersAt, AfterNamed, ClassEnd, OpensNamed;
    var q := p + MembersLen(ms);
    assert s[q] == BACKSLASH && s[q + 1] == s[q..n][1] && s[n - 2] == LBRACKET && s[n - 1] == kind by {
      assert s[q..n][0] == s[q] && s[q..n][n - q - 2] == s[n - 2] && s[q..n][n - q - 1] == s[n - 1];
    }
    MembersScanned(s, p, ms, !negated, true, negated);
    BackslashEnds(s, q, !negated && ms == [], ms == []);
    if n == q + 4 { LetterEnds(s, q + 1); }
    NameOpens(s, n - 2);
  }

  lemma LetterEnds(s: seq<byte>, p: nat)
    requires p < |s| && s[p] == LETTER_c
    ensures ClassEnd(s, p, false, false) == ClassEnd(s, p + 1, false, false)
  {}

  lemma NameOpens(s: seq<byte>, p: nat)
    requires p + 2 <= |s| && s[p] == LBRACKET && (s[p + 1] == DOT || s[p + 1] == EQUALS || s[p + 1] == COLON)
    ensures ClassEnd(s, p, false, false)
         == match AfterNamed(s, p + 2, s[p + 1]) case None => None case Some(m) => ClassEnd(s, m, false, false)
  {
    hide AfterNamed;
  }

  /** `[\[:x]` is a class of three characters. */
  lemma OpenNamedBreaks(b: Backslash)
    ensures ReToGlob([LBRACKET, BACKSLASH, LBRACKET, COLON, LETTER_x, RBRACKET], b) == Undefined
  {
    hide Run, ClassEnd;
    var s := [LBRACKET, BACKSLASH, LBRACKET, COLON, LETTER_x, RBRACKET];
    assert s[1..4] == [BACKSLASH, LBRACKET, COLON];
    EscapedBracketOpens(s, 1, [], false, COLON, 4);
    assert AfterNamed(s, 5, COLON) == None;
    assert AfterNamed(s, 4, COLON) == None;
    RunRound(s, State(0, [], -1, []), false, b);
  }

  /** A bracket by itself is a character. */
  lemma LastBracket(s: seq<byte>, st: State, b: Backslash)
    requires st.pos + 1 == |s| && s[st.pos] == RBRACKET && st.out == [QUERY]
    ensures Run(s, st, false, b) == Ended([QUERY, RBRACKET])
  {
    PlainRest(s, st, b, [QUERY, RBRACKET]);
  }

  /** A class up to n, and one bracket. */
  lemma ClassAndRest(s: seq<byte>, n: nat, b: Backslash)
    requires 0 < n && n + 1 == |s| && s[0] == LBRACKET && s[n] == RBRACKET && ClassEnd(s, 1, true, true) == Some(n)
    ensures ReToGlob(s, b) == Glob([QUERY, RBRACKET])
  {
    hide Run, ClassEnd;
    var st := State(0, [], -1, []);
    LastBracket(s, Emit(st, n, [QUERY]), b);
    NextRound(s, st, Emit(st, n, [QUERY]), b, [QUERY, RBRACKET]);
    Translated(s, 0, false, [QUERY, RBRACKET], b);
  }

  // ----- escapes with digits -----

  /** The digits the engine takes after `\u` or `\U`: all that stand there, but at most four or
      eight, and none after those that are too large already. */
  predicate CodeDigits(s: seq<byte>, i: nat, c: byte, ds: seq<byte>) {
    var most := if c == LETTER_u then 4 else 8;
    && (c == LETTER_u || c == LETTER_U) && EscapeAt(s, i, c) && i + 2 + |ds| <= |s| && s[i + 2..i + 2 + |ds|] == ds
    && ds != [] && |ds| <= most && AllHex(ds) && HexValue(ds[..|ds| - 1]) <= CODE_MAX
    && (|ds| == most || !IsHexDigit(Peek(s, i + 2 + |ds|)) || HexValue(ds) > CODE_MAX)
  }

  /** The translator goes on where the engine does exactly if the digits are four or eight. */
  lemma CodeInStep(s: seq<byte>, st: State, c: byte, ds: seq<byte>, b: Backslash)
    requires CodeDigits(s, st.pos, c, ds)
    ensures var r := StepAt(s, st, b);
            && (r.Next? && r.st.pos == st.pos + 2 + |ds| <==> AtomAt(s, st.pos, Code(c, ds), Tight))
            && (r == Stuck <==> st.pos + 2 + (if c == LETTER_u then 4 else 8) > |s|)
  {
    hide HexValue, StepAt, CodeEscape, Emit;
    var most := if c == LETTER_u then 4 else 8;
    CodeEscapeStep(s, st, c, b);
    CodeTakes(s, st, c, most, b);
  }

  lemma CodeTakes(s: seq<byte>, st: State, c: byte, digits: nat, b: Backslash)
    ensures var r := CodeEscape(s, st, st.pos + 2, c, digits, b);
            && (r == Stuck <==> st.pos + 2 + digits > |s|) && (r.Next? <==> st.pos + 2 + digits <= |s|)
            && (r.Next? ==> r.st.pos == st.pos + 2 + digits)
  {}

  /** `\u41` at the end is the letter A; the translation reads past the end. */
  lemma ShortCodeBreaks(b: Backslash)
    ensures ReToGlob([BACKSLASH, LETTER_u, DIGIT_4, DIGIT_1], b) == Undefined
  {
    hide Run;
    var s := [BACKSLASH, LETTER_u, DIGIT_4, DIGIT_1];
    var st := State(0, [], -1, []);
    assert StepAt(s, st, b) == CodeEscape(s, st, 2, LETTER_u, 4, b);
    RunRound(s, st, false, b);
  }

  /** `\u41*b` matches `b`; the translation takes `41*b` for the digits, and its gate is `A`. */
  lemma ShortCodeIsMissed(stray: byte, d: Dialect)
    requires !d.nocase
    ensures ReToGlob([BACKSLASH, LETTER_u, DIGIT_4, DIGIT_1, STAR_CHAR, LETTER_b], Decoded(stray)) == Glob([LETTER_A])
    ensures Nowhere(d, [LETTER_A], [LETTER_b])
  {
    hide Run;
    var s := [BACKSLASH, LETTER_u, DIGIT_4, DIGIT_1, STAR_CHAR, LETTER_b];
    var x := [DIGIT_4, DIGIT_1, STAR_CHAR, LETTER_b];
    var b := Decoded(stray);
    var st := State(0, [], -1, []);
    assert s[2..6] == x && x == [DIGIT_4, DIGIT_1] + [STAR_CHAR, LETTER_b];
    DecodedA(LETTER_u, [STAR_CHAR, LETTER_b], stray);
    CodeEscapeStep(s, st, LETTER_u, b);
    assert CodeEscape(s, st, 2, LETTER_u, 4, b) == Next(Emit(st, 6, [LETTER_A]));
    RunRound(s, Emit(st, 6, [LETTER_A]), false, b);
    NextRound(s, st, Emit(st, 6, [LETTER_A]), b, [LETTER_A]);
    Translated(s, 0, false, [LETTER_A], b);
    OneLetter(d, LETTER_A, [LETTER_b]);
  }

  /** 41 is the code of A. */
  lemma DecodedA(letter: byte, rest: seq<byte>, stray: byte)
    requires letter == LETTER_x || (rest != [] && !IsHexDigit(rest[0] % 256))
    ensures UtfBackslash(letter, [DIGIT_4, DIGIT_1] + rest, stray) == LETTER_A
  {
    var ds := [DIGIT_4, DIGIT_1] + rest;
    var x := seq(|ds|, k requires 0 <= k < |ds| => ds[k] % 256) + [stray];
    var n := if letter == LETTER_x then 2 else if letter == LETTER_u then 4 else 8;
    assert x[0] == DIGIT_4 && x[1..][0] == DIGIT_1 && x[1..][1..] == x[2..];
    assert ParseHex(x[2..], n - 2, 65) == 65;
    assert ParseHex(x[1..], n - 1, 4) == 65;
  }

  /** `\x141` is the character 20 and a 1; the translation takes the last two digits, and its
      gate is `A`. */
  lemma LongHexIsMissed(stray: byte, d: Dialect)
    requires !d.nocase
    ensures var s := [BACKSLASH, LETTER_x, DIGIT_1, DIGIT_4, DIGIT_1];
            && AtomAt(s, 0, Hex([DIGIT_1, DIGIT_4, DIGIT_1]), Tight)
            && ReToGlob(s, Decoded(stray)) == Glob([LETTER_A])
    ensures Nowhere(d, [LETTER_A], [20, DIGIT_1])
  {
    hide Run, UtfBackslash, HexValue;
    var s := [BACKSLASH, LETTER_x, DIGIT_1, DIGIT_4, DIGIT_1];
    var ds := [DIGIT_1, DIGIT_4, DIGIT_1];
    assert s[2..5] == ds && ds[1..] == [DIGIT_4, DIGIT_1];
    HexOnly(s, 0, ds, stray);
    Translated(s, 0, false, [LETTER_A], Decoded(stray));
    OneLetter(d, LETTER_A, [20, DIGIT_1]);
  }

  /** After `\0` the engine takes octal digits as well.  The translation takes `\0` alone for the
      character and leaves the digits, so the gate matches in no string that is NUL-free, whatever
      the digits are the code of. */
  lemma OctalIsSplit(ds: seq<byte>, b: Backslash, d: Dialect, t: seq<byte>)
    requires forall k :: 0 <= k < |ds| ==> IsOctalDigit(ds[k])
    requires forall k :: 0 <= k < |t| ==> Fold(d, t[k]) != Fold(d, NUL)
    ensures ReToGlob([BACKSLASH, DIGIT_0] + ds, b) == Glob([NUL] + ds)
    ensures Nowhere(d, [NUL] + ds, t)
  {
    hide Run;
    var s := [BACKSLASH, DIGIT_0] + ds;
    var st, x := State(0, [], -1, []), [NUL] + ds;
    var next := Emit(st, 2, [NUL]);
    assert forall k :: 2 <= k < |s| ==> s[k] == ds[k - 2];
    assert s[2..] == ds;
    PlainRest(s, next, b, x);
    assert StepAt(s, st, b) == Next(next);
    NextRound(s, st, next, b, x);
    assert x[0] == NUL && forall k :: 1 <= k < |x| ==> x[k] == ds[k - 1];
    Translated(s, 0, false, x, b);
    FirstIsNeeded(d, NUL, ds, t);
  }

  // ----- lookahead -----

  /** In `(?=\))a` the lookahead is taken to end at the escaped parenthesis, and the one
      that ends it closes a group that was never opened. */
  lemma EscapedParenthesisBreaks(b: Backslash)
    ensures ReToGlob([LPAREN, QUERY, EQUALS, BACKSLASH, RPAREN, RPAREN, LETTER_a], b) == Undefined
  {
    hide Run;
    var s := [LPAREN, QUERY, EQUALS, BACKSLASH, RPAREN, RPAREN, LETTER_a];
    var st := State(0, [], -1, []);
    ChopsTo(s, 2, RPAREN, 4);
    assert s[2..4][0] == EQUALS;
    assert ReadStart(s) == Start(0, false, false);
    assert ChopNested(s, 4, 0) == 5;
    assert ChopNested(s, 3, 0) == 5;
    assert StepAt(s, st, b) == Next(st.(pos := 5));
    RunStep(s, st, b, Tight);
    assert StepAt(s, st.(pos := 5), b) == Stuck;
    RunRound(s, st.(pos := 5), false, b);
  }

  /** `(?![)(])a` matches `a`; the lookahead is taken to end inside the class, what is left of
      it becomes a group, and the gate `]a` asks for two characters. */
  lemma ClassInLookaheadIsMissed(b: Backslash, d: Dialect)
    ensures ReToGlob([LPAREN, QUERY, BANG, LBRACKET, RPAREN, LPAREN, RBRACKET, RPAREN, LETTER_a], b)
              == Glob([RBRACKET, LETTER_a])
    ensures Nowhere(d, [RBRACKET, LETTER_a], [LETTER_a])
  {
    hide Run;
    var s := [LPAREN, QUERY, BANG, LBRACKET, RPAREN, LPAREN, RBRACKET, RPAREN, LETTER_a];
    var x := [RBRACKET, LETTER_a];
    ChopsTo(s, 2, RPAREN, 4);
    assert s[2..4][0] == BANG;
    assert ReadStart(s) == Start(0, false, false);
    var st := State(0, [], -1, []);
    var st1, st2 := State(5, [], -1, []), State(6, [], -1, [0]);
    var st3, st4 := State(7, [RBRACKET], 1, [0]), State(8, [RBRACKET], 1, []);
    PlainRest(s, st4, b, x);
    NextRound(s, st3, st4, b, x);
    NextRound(s, st2, st3, b, x);
    NextRound(s, st1, st2, b, x);
    assert ChopNested(s, 4, 0) == 5;
    assert ChopNested(s, 3, 0) == 5;
    assert StepAt(s, st, b) == Next(st1);
    NextRound(s, st, st1, b, x);
    Translated(s, 0, false, x, b);
    TwoCharacters(d, Raw(RBRACKET), LETTER_a, [LETTER_a]);
  }
}
