/** The gate never keeps an expression from being tried that would match. */
module GateSound {
  import opened Chars
  import opened Glob
  import opened GlobSteps
  import opened GateUnits
  import opened GateText
  import opened GateRegexp
  import opened GateRuns
  import opened GateUse

  // ----- escapes with digits -----

  lemma HexFront(ds: seq<byte>, c: byte)
    requires IsHexDigit(c)
    ensures HexValue(ds + [c]) == 16 * HexValue(ds) + DigitValue(c)
  {
    assert (ds + [c])[..|ds|] == ds;
  }

  /** Parsing the digits ds after done ones gives the value of all of them. */
  lemma {:induction false} DigitsParsed(done: seq<byte>, ds: seq<byte>, rest: seq<byte>)
    requires AllHex(ds) && (|ds| > 0 ==> HexValue((done + ds)[..|done| + |ds| - 1]) <= CODE_MAX)
    ensures ParseHex(ds + rest, |ds|, HexValue(done)) == HexValue(done + ds)
    decreases |ds|
  {
    hide ParseHex, HexValue;
    if ds == [] {
      assert done + ds == done;
      ParseStep(ds + rest, 0, HexValue(done));
    } else {
      var next := done + [ds[0]];
      assert (ds + rest)[1..] == ds[1..] + rest;
      assert next + ds[1..] == done + ds;
      PrefixSmaller(done + ds, |done|);
      assert (done + ds)[..|done|] == done;
      HexFront(done, ds[0]);
      ParseStep(ds + rest, |ds|, HexValue(done));
      DigitsParsed(next, ds[1..], rest);
    }
  }

  lemma ParseStep(x: seq<byte>, n: nat, v: nat)
    ensures n == 0 || x == [] || !IsHexDigit(x[0]) ==> ParseHex(x, n, v) == v
    ensures n > 0 && x != [] && IsHexDigit(x[0]) && v <= CODE_MAX ==>
              ParseHex(x, n, v) == ParseHex(x[1..], n - 1, 16 * v + DigitValue(x[0]))
  {}

  /** Fewer digits, smaller value. */
  lemma {:induction false} PrefixSmaller(ds: seq<byte>, n: nat)
    requires n < |ds|
    ensures HexValue(ds[..n]) <= HexValue(ds[..|ds| - 1])
    decreases |ds|
  {
    if n < |ds| - 1 {
      var front := ds[..|ds| - 1];
      PrefixSmaller(front, n);
      assert front[..n] == ds[..n];
    }
  }

  lemma {:induction false} ValueFits(ds: seq<byte>)
    requires |ds| <= 4
    ensures HexValue(ds)
            < if |ds| == 0 then 1 else if |ds| == 1 then 16 else if |ds| == 2 then 256
              else if |ds| == 3 then 4096 else 65536
    decreases |ds|
  {
    if ds != [] {
      ValueFits(ds[..|ds| - 1]);
    }
  }

  /** Digits survive being cut to bytes. */
  lemma HexBytes(ds: seq<byte>)
    requires AllHex(ds)
    ensures seq(|ds|, k requires 0 <= k < |ds| => ds[k] % 256) == ds
  {}

  /** What is decoded is what the engine takes the digits for, if they are as many as are read;
      of a single hexadecimal digit, if the byte after it is not one or changes nothing. */
  lemma DecodedAsMeant(letter: byte, ds: seq<byte>, stray: byte)
    requires IsCode(letter, ds) || (letter == LETTER_x && |ds| == 2 && AllHex(ds))
    ensures UtfBackslash(letter, ds, stray) == Unicode(HexValue(ds))
  {
    hide HexValue, ParseHex;
    HexBytes(ds);
    assert [] + ds == ds;
    ValueFits([]);
    if |ds| != 8 { ValueFits(ds[..|ds| - 1]); }
    DigitsParsed([], ds, [stray]);
  }

  lemma OneDigitDecoded(ds: seq<byte>, stray: byte)
    requires |ds| == 1 && AllHex(ds)
    ensures UtfBackslash(LETTER_x, ds, stray)
         == if IsHexDigit(stray) then 16 * HexValue(ds) + DigitValue(stray) else HexValue(ds)
  {
    hide ParseHex, HexValue, DigitValue, IsHexDigit;
    HexBytes(ds);
    assert ds + [stray] == [ds[0], stray] && [] + [ds[0]] == ds;
    HexFront([], ds[0]);
    NoDigits();
    OneDigitParsed(ds[0], stray);
    SmallCodes(ds[0], stray);
  }

  lemma NoDigits()
    ensures HexValue([]) == 0
  {}

  lemma SmallCodes(c: byte, c': byte)
    requires IsHexDigit(c)
    ensures Unicode(DigitValue(c)) == DigitValue(c)
    ensures IsHexDigit(c') ==> Unicode(16 * DigitValue(c) + DigitValue(c')) == 16 * DigitValue(c) + DigitValue(c')
  {}

  lemma OneDigitParsed(c: byte, c': byte)
    requires IsHexDigit(c)
    ensures ParseHex([c, c'], 2, 0)
         == if IsHexDigit(c') then 16 * DigitValue(c) + DigitValue(c') else DigitValue(c)
  {
    hide ParseHex;
    var v := DigitValue(c);
    assert [c, c'][1..] == [c'] && [c'][1..] == [];
    ParseStep([c, c'], 2, 0);
    ParseStep([c'], 1, v);
    ParseStep([], 0, if IsHexDigit(c') then 16 * v + DigitValue(c') else v);
  }

  // ----- the units of an expression match whatever it matches -----

  /** The written character matches all that the engine's matches; to be looked up in the tables
      of cases. */
  predicate CharKept(e: Engine, d: Dialect, c: byte, unit: byte) {
    forall x :: x in CasesOf(e, c) ==> Fold(d, x) == Fold(d, unit)
  }

  /** The character that is written. */
  function UnitChar(stray: byte, a: Atom): byte
    requires a.Plain? || a.OpenBrace? || a.Entity? || a.Hex? || a.Code? || a.Escaped?
  {
    match a
    case Plain(c) => c
    case OpenBrace => LBRACE
    case Entity(c) => if Control(c).Some? then Control(c).value else c
    case Hex(ds) => UtfBackslash(LETTER_x, if |ds| > 2 then ds[|ds| - 2..] else ds, stray)
    case Code(c, ds) => UtfBackslash(c, ds, stray)
    case Escaped(c) => c
  }

  /** Atoms whose unit matches all that they match: of those that are characters to the engine
      the ones that are a single one, and one whose cases are the matcher's; not the constraints
      that look like classes. */
  predicate AtomKept(e: Engine, d: Dialect, stray: byte, a: Atom)
    decreases a
  {
    if a.Group? then PiecesKept(e, d, stray, a.re.b)
    else if IsText(e, a) then
      a.Shorthand?
      || (!a.Constraint? && |Reading(e, a)| == 1 && CharKept(e, d, Reading(e, a)[0], UnitChar(stray, a)))
    else !IsWordBracket(a) && (a.CtrlChar? ==> HasEscapes(e))
  }

  /** A quantifier makes a star of any unit. */
  predicate PiecesKept(e: Engine, d: Dialect, stray: byte, ps: Pieces)
    decreases ps
  {
    ps.Cons? ==>
      && (ps.head.Piece? && ps.head.q.Once? ==> AtomKept(e, d, stray, ps.head.atom))
      && PiecesKept(e, d, stray, ps.tail)
  }

  /** With as many digits as are read, an escape is kept if its character is. */
  lemma DigitsKept(e: Engine, d: Dialect, stray: byte, letter: byte, ds: seq<byte>)
    requires HasEscapes(e)
    ensures IsCode(letter, ds) ==>
              var c := Unicode(HexValue(ds)); AtomKept(e, d, stray, Code(letter, ds)) <==> CharKept(e, d, c, c)
    ensures |ds| == 2 && AllHex(ds) ==>
              var c := HexValue(ds); AtomKept(e, d, stray, Hex(ds)) <==> CharKept(e, d, c, c)
    ensures |ds| > 2 ==> !AtomKept(e, d, stray, Hex(ds))
  {
    hide HexValue, UtfBackslash, CharKept, Unicode;
    if IsCode(letter, ds) {
      DecodedAsMeant(letter, ds, stray);
    }
    if |ds| == 2 && AllHex(ds) {
      DecodedAsMeant(LETTER_x, ds, stray);
      ValueFits(ds);
      SmallCode(HexValue(ds));
    }
  }

  lemma SmallCode(n: nat)
    requires n <= 0xFFFF
    ensures Unicode(n) == n
  {}

  lemma UnitOfChar(a: Atom, stray: byte)
    requires a.Plain? || a.OpenBrace? || a.Entity? || a.Hex? || a.Code? || a.Escaped?
    ensures var us := AtomUnits(Decoded(stray), a); |us| == 1 && UnitToken(us[0]) == Lit(UnitChar(stray, a))
  {
    hide UtfBackslash;
  }

  lemma {:induction false} AtomCovered(e: Engine, d: Dialect, a: Atom, stray: byte, t: seq<byte>, i: nat, j: nat)
    requires AtomSpan(e, a, t, i, j) && !AtomBranches(a) && AtomKept(e, d, stray, a)
    ensures UnitsFit(d, AtomUnits(Decoded(stray), a), t, i, j)
    decreases a, 0
  {
    hide UnitsFit, Decoded, UnitChar, Reading, ReadingSpan, CharKept, HasEscapes;
    if a.Group? {
      PiecesCovered(e, d, a.re.b, stray, t, i, j);
    } else if IsText(e, a) {
      TextCovered(e, d, a, stray, t, i, j);
    } else if a.Number? {
      AnyStringFits(d, t, i, j);
    } else if ZeroWidth(a) {
      NothingFits(d, t, i);
    } else {
      OneFits(d, AnyChar, t, i, j);
    }
  }

  lemma TextCovered(e: Engine, d: Dialect, a: Atom, stray: byte, t: seq<byte>, i: nat, j: nat)
    requires IsText(e, a) && ReadingSpan(e, Reading(e, a), t, i, j) && AtomKept(e, d, stray, a)
    ensures UnitsFit(d, AtomUnits(Decoded(stray), a), t, i, j)
  {
    hide UnitsFit, Decoded, UnitChar, HexValue, CasesOf;
    if a.Shorthand? {
      OneFits(d, AnyChar, t, i, j);
    } else {
      UnitOfChar(a, stray);
      assert t[i + 0] in CasesOf(e, Reading(e, a)[0]);
      OneFits(d, AtomUnits(Decoded(stray), a)[0], t, i, j);
    }
  }

  lemma NothingFits(d: Dialect, t: seq<byte>, i: nat)
    requires i <= |t|
    ensures UnitsFit(d, [], t, i, i)
  {}

  lemma {:induction false} TimesInside(e: Engine, a: Atom, n: nat, t: seq<byte>, i: nat, j: nat)
    requires Times(e, a, n, t, i, j)
    ensures i <= j <= |t|
    decreases a, 1, n
  {
    if n > 0 {
      var m: nat :| AtomSpan(e, a, t, i, m) && Times(e, a, n - 1, t, m, j);
      AtomInside(e, a, t, i, m);
      TimesInside(e, a, n - 1, t, m, j);
    }
  }

  lemma {:induction false} AtomInside(e: Engine, a: Atom, t: seq<byte>, i: nat, j: nat)
    requires AtomSpan(e, a, t, i, j)
    ensures i <= j <= |t|
    decreases a, 0, 0
  {
    if a.Group? {
      RegexpInside(e, a.re, t, i, j);
    }
  }

  lemma {:induction false} PiecesInside(e: Engine, ps: Pieces, t: seq<byte>, i: nat, j: nat)
    requires PiecesSpan(e, ps, t, i, j)
    ensures i <= j <= |t|
    decreases ps, 3, 0
  {
    if ps.Cons? {
      var m: nat :| PieceSpan(e, ps.head, t, i, m) && PiecesSpan(e, ps.tail, t, m, j);
      PieceInside(e, ps.head, t, i, m);
      PiecesInside(e, ps.tail, t, m, j);
    }
  }

  lemma PieceInside(e: Engine, p: Piece, t: seq<byte>, i: nat, j: nat)
    requires PieceSpan(e, p, t, i, j)
    ensures i <= j <= |t|
    decreases p, 2, 0
  {
    if p.Piece? {
      if p.q.Once? {
        AtomInside(e, p.atom, t, i, j);
      } else if !IsLoose(e, p.atom) {
        var n: nat :| e.counts(p.q, n) && Times(e, p.atom, n, t, i, j);
        TimesInside(e, p.atom, n, t, i, j);
      }
    }
  }

  lemma {:induction false} RegexpInside(e: Engine, re: Regexp, t: seq<byte>, i: nat, j: nat)
    requires RegexpSpan(e, re, t, i, j)
    ensures i <= j <= |t|
    decreases re, 4, 0
  {
    if PiecesSpan(e, re.b, t, i, j) {
      PiecesInside(e, re.b, t, i, j);
    } else {
      RegexpInside(e, re.rest, t, i, j);
    }
  }

  lemma PieceCovered(e: Engine, d: Dialect, p: Piece, stray: byte, t: seq<byte>, i: nat, j: nat)
    requires PieceSpan(e, p, t, i, j)
    requires p.Piece? ==> !AtomBranches(p.atom) && (p.q.Once? ==> AtomKept(e, d, stray, p.atom))
    ensures UnitsFit(d, PieceUnits(Decoded(stray), p), t, i, j)
    decreases p, 1
  {
    hide UnitsFit, AtomKept, AtomSpan;
    if p.Fill? {
      NothingFits(d, t, i);
    } else if p.q.Once? {
      AtomCovered(e, d, p.atom, stray, t, i, j);
    } else {
      PieceInside(e, p, t, i, j);
      AnyStringFits(d, t, i, j);
    }
  }

  /** A sequence of pieces, without choices, matches only what its units match. */
  lemma {:induction false} PiecesCovered(e: Engine, d: Dialect, ps: Pieces, stray: byte, t: seq<byte>, i: nat, j: nat)
    requires PiecesSpan(e, ps, t, i, j) && !PiecesBranch(ps) && PiecesKept(e, d, stray, ps)
    ensures UnitsFit(d, PiecesUnits(Decoded(stray), ps), t, i, j)
    decreases ps, 2
  {
    hide UnitsFit, Decoded;
    if ps.Nil? {
      NothingFits(d, t, i);
    } else {
      var b := Decoded(stray);
      var m: nat :| PieceSpan(e, ps.head, t, i, m) && PiecesSpan(e, ps.tail, t, m, j);
      PieceCovered(e, d, ps.head, stray, t, i, m);
      PiecesCovered(e, d, ps.tail, stray, t, m, j);
      FitJoin(d, PieceUnits(b, ps.head), PiecesUnits(b, ps.tail), t, i, m, j);
    }
  }

  /** An engine with the same flags and tables. */
  ghost predicate SameTables(e: Engine, e': Engine) {
    e'.flags == e.flags && e'.cases == e.cases
  }

  /** The unit of an atom matches all that the atom matches, under every meaning of what is left
      open, exactly if the atom is kept. */
  lemma AtomCoveredExactly(e: Engine, d: Dialect, a: Atom, stray: byte)
    requires !a.Group?
    ensures AtomKept(e, d, stray, a) <==>
            forall e': Engine, t: seq<byte>, i: nat, j: nat :: SameTables(e, e') && AtomSpan(e', a, t, i, j) ==>
              UnitsFit(d, AtomUnits(Decoded(stray), a), t, i, j)
  {
    hide UnitsFit, Decoded, AtomKept, AtomSpan;
    if AtomKept(e, d, stray, a) {
      forall e': Engine, t: seq<byte>, i: nat, j: nat | SameTables(e, e') && AtomSpan(e', a, t, i, j)
        ensures UnitsFit(d, AtomUnits(Decoded(stray), a), t, i, j)
      {
        SameKept(e, e', d, stray, a);
        AtomCovered(e', d, a, stray, t, i, j);
      }
    } else {
      var e' := e.(holds := (_, _, _) => true);
      SameKept(e, e', d, stray, a);
      var t := MissedBy(e', d, a, stray);
      assert SameTables(e, e') && AtomSpan(e', a, t, 0, |t|) && !UnitsFit(d, AtomUnits(Decoded(stray), a), t, 0, |t|);
    }
  }

  lemma SameKept(e: Engine, e': Engine, d: Dialect, stray: byte, a: Atom)
    requires SameTables(e, e') && !a.Group?
    ensures AtomKept(e, d, stray, a) <==> AtomKept(e', d, stray, a)
  {
    hide UnitChar, HexValue;
    assert forall c :: CasesOf(e, c) == CasesOf(e', c);
  }

  /** One string that characters of the expression match. */
  function SomeReading(e: Engine, cs: seq<byte>): (t: seq<byte>)
    ensures |t| == |cs| && ReadingSpan(e, cs, t, 0, |t|)
  {
    seq(|cs|, k requires 0 <= k < |cs| => CasesOf(e, cs[k])[0])
  }

  /** A string that an atom that is not kept matches, and its unit does not. */
  lemma MissedBy(e: Engine, d: Dialect, a: Atom, stray: byte) returns (t: seq<byte>)
    requires !a.Group? && !AtomKept(e, d, stray, a) && forall t: seq<byte>, i: nat :: e.holds(a, t, i)
    ensures AtomSpan(e, a, t, 0, |t|) && !UnitsFit(d, AtomUnits(Decoded(stray), a), t, 0, |t|)
  {
    hide UnitsFit, HexValue, UtfBackslash, UnitChar, Decoded, CasesOf;
    if !IsText(e, a) {
      t := [];
      OneFits(d, AnyChar, t, 0, 0);
    } else if a.Constraint? || |Reading(e, a)| != 1 {
      t := SomeReading(e, Reading(e, a));
      if a.Constraint? {
        OnlyNothing(d, t, 0, |t|);
      } else {
        UnitOfChar(a, stray);
        OneFits(d, AtomUnits(Decoded(stray), a)[0], t, 0, |t|);
      }
    } else {
      var c := Reading(e, a)[0];
      var x :| x in CasesOf(e, c) && Fold(d, x) != Fold(d, UnitChar(stray, a));
      t := [x];
      UnitOfChar(a, stray);
      OneFits(d, AtomUnits(Decoded(stray), a)[0], t, 0, |t|);
    }
  }

  lemma OnlyNothing(d: Dialect, t: seq<byte>, i: nat, j: nat)
    requires i != j
    ensures !UnitsFit(d, [], t, i, j)
  {}

  // ----- the units written are ones a glob pattern reads as meant -----

  lemma QuoteUnitOk(c: byte)
    ensures UnitsOk([QuoteUnit(c)])
  {}

  lemma {:induction false} AtomUnitsOk(s: seq<byte>, i: nat, a: Atom, b: Backslash, x: Syntax)
    requires AtomAt(s, i, a, x)
    ensures UnitsOk(AtomUnits(b, a))
    decreases a, 0
  {
    hide EngineSkip;
    match a
    case Group(capturing, re) => PiecesUnitsOk(s, if capturing then i + 1 else i + 3, re.b, b, x);
    case Hex(ds) => QuoteUnitOk(b(LETTER_x, if |ds| > 2 then ds[|ds| - 2..] else ds));
    case Code(c, ds) => QuoteUnitOk(b(c, ds));
    case Escaped(c) => QuoteUnitOk(c);
    case _ =>
  }

  lemma {:induction false} PiecesUnitsOk(s: seq<byte>, i: nat, ps: Pieces, b: Backslash, x: Syntax)
    requires PiecesAt(s, i, ps, x)
    ensures UnitsOk(PiecesUnits(b, ps))
    decreases ps, 1
  {
    if ps.Cons? {
      if ps.head.Piece? {
        AtomUnitsOk(s, i, ps.head.atom, b, x);
      }
      PiecesUnitsOk(s, i + PieceLen(ps.head), ps.tail, b, x);
    }
  }

  // ----- how an expression begins -----

  predicate OptionsAt(s: seq<byte>, p: nat, opts: seq<byte>) {
    At(s, p, [LPAREN, QUERY] + opts + [RPAREN])
  }

  /** The flags of an expression: expect says whether case matters, options may say otherwise. */
  function FlagsOf(opts: Option<seq<byte>>, flavour: Flavour, nocase: bool): Flags {
    var f := Flags(flavour, nocase, false);
    if opts.Some? then WithOptions(f, opts.value) else f
  }

  predicate OnlyFill(ps: Pieces)
    decreases ps
  {
    ps.Cons? ==> ps.head.Fill? && OnlyFill(ps.tail)
  }

  predicate NoRemarks(fs: seq<Filler>) {
    forall k :: 0 <= k < |fs| ==> !fs[k].Remark?
  }

  /** Atoms that basic expressions have as well: no groups and no lookahead, and after a backslash
      no bracket or brace that means something there. */
  predicate BasicAtom(a: Atom) {
    !a.Group? && !a.Look? && !a.Anchor? && !a.CtrlChar?
    && (a.Escaped? ==> a.c != LPAREN && a.c != RPAREN && a.c != LBRACE && a.c != LESS && a.c != GREATER)
  }

  /** Pieces that basic expressions have as well: anchors at the two ends only, and no quantifier
      but a greedy star. */
  predicate BasicPieces(ps: Pieces, first: bool)
    decreases ps
  {
    match ps
    case Nil => true
    case Cons(Fill(f), rest) => !f.Remark? && BasicPieces(rest, first)
    case Cons(Piece(a, fs, q), rest) =>
      && (if !a.Anchor? then BasicAtom(a) else if a.c == CARET then first else OnlyFill(rest))
      && NoRemarks(fs) && (q.Once? || q == Op(STAR_CHAR, false)) && BasicPieces(rest, false)
  }

  predicate IsBasic(re: Regexp) {
    re.Only? && BasicPieces(re.b, true)
  }

  /** s is the expression re, after an optional `***:` and optional options, for an engine with the
      flags these lead to.  The translator takes any option q for a literal and any option x for
      expanded syntax, so they have to be the last word on that. */
  predicate IsExpression(s: seq<byte>, opts: Option<seq<byte>>, e: Engine, nocase: bool, re: Regexp) {
    var p := if HasDirector(s, COLON) then 4 else 0;
    var q := if opts.Some? then p + |opts.value| + 3 else p;
    && e.flags == FlagsOf(opts, Advanced, nocase)
    && (opts.Some? ==>
          && OptionsAt(s, p, opts.value) && AllOptions(opts.value) && LETTER_q !in opts.value
          && (e.flags.expanded <==> LETTER_x in opts.value))
    && q <= |s| && RegexpAt(s, q, re, SyntaxOf(e)) && q + RegexpLen(re) == |s|
    && (e.flags.flavour.Basic? ==> IsBasic(re))
  }

  /** No expression begins with a quantifier or with options. */
  lemma FirstPiece(s: seq<byte>, i: nat, re: Regexp)
    requires RegexpAt(s, i, re, Tight) && i < |s| && i + RegexpLen(re) == |s|
    ensures s[i] != STAR_CHAR
    ensures s[i] == LPAREN && Peek(s, i + 1) == QUERY ==>
              Peek(s, i + 2) == COLON || Peek(s, i + 2) == EQUALS || Peek(s, i + 2) == BANG || Peek(s, i + 2) == HASH
  {
    RegexpPieces(s, i, re, Tight);
    if re.b.Cons? {
      assert PieceAt(s, i, re.b.head, Tight);
      match re.b.head
      case Fill(Remark(text)) =>
        assert [LPAREN, QUERY, HASH] + text + [RPAREN] == [LPAREN, QUERY, HASH] + (text + [RPAREN]);
        OpenAt(s, i, [LPAREN, QUERY, HASH], text + [RPAREN]);
      case Piece(a, _, _) =>
        FirstAtom(s, i, a);
    }
  }

  lemma FirstAtom(s: seq<byte>, i: nat, a: Atom)
    requires AtomAt(s, i, a, Tight) && i < |s|
    ensures s[i] != STAR_CHAR
    ensures s[i] == LPAREN && Peek(s, i + 1) == QUERY ==>
              Peek(s, i + 2) == COLON || Peek(s, i + 2) == EQUALS || Peek(s, i + 2) == BANG
  {
    hide RegexpAt;
    if a.Group? && !a.capturing {
      assert [LPAREN, QUERY, COLON] + [] == [LPAREN, QUERY, COLON];
      OpenAt(s, i, [LPAREN, QUERY, COLON], []);
    } else if a.Look? {
      var head := [LPAREN, QUERY, if a.negative then BANG else EQUALS];
      assert head + [] == head;
      OpenAt(s, i, head, []);
    }
  }

  lemma OptionsRead(s: seq<byte>, p: nat, opts: seq<byte>)
    requires OptionsAt(s, p, opts) && AllOptions(opts)
    ensures Peek(s, p) == LPAREN && Peek(s, p + 1) == QUERY && ChopTo(s, p + 2, RPAREN) == p + 2 + |opts|
    ensures p + |opts| + 3 <= |s| && s[p + 2..p + 2 + |opts|] == opts
  {
    assert [LPAREN, QUERY] + opts + [RPAREN] == [LPAREN, QUERY] + (opts + [RPAREN]);
    AtSplit(s, p, [LPAREN, QUERY], opts + [RPAREN]);
    AtSplit(s, p + 2, opts, [RPAREN]);
    assert s[p..p + 2][0] == s[p] && s[p..p + 2][1] == s[p + 1];
    var q := p + 2 + |opts|;
    assert s[q] == s[q..q + 1][0];
    forall k | p + 2 <= k < q ensures s[k] != RPAREN { assert s[k] == s[p + 2..q][k - (p + 2)] == opts[k - (p + 2)]; }
    ChopsTo(s, p + 2, RPAREN, q);
  }

  lemma NotAnOption(s: seq<byte>, p: nat, stop: nat)
    requires p < stop <= |s| && !IsOption(s[p])
    ensures !AllOptions(s[p..stop])
  {
    assert s[p..stop][0] == s[p];
  }

  lemma StartRead(s: seq<byte>, opts: Option<seq<byte>>, e: Engine, nocase: bool, re: Regexp)
    requires IsExpression(s, opts, e, nocase, re)
    ensures var r := ReadStart(s);
            && r.Start? && !r.literal && r.expanded == e.flags.expanded
            && RegexpAt(s, r.pos, re, SyntaxOf(e)) && r.pos + RegexpLen(re) == |s|
  {
    hide RegexpAt, RegexpLen, ChopTo, At, IsBasic;
    var p := if HasDirector(s, COLON) then 4 else 0;
    if opts.Some? {
      OptionsRead(s, p, opts.value);
    } else {
      if p < |s| {
        FirstPiece(s, p, re);
      }
      if Peek(s, p) == LPAREN && Peek(s, p + 1) == QUERY {
        var stop := ChopTo(s, p + 2, RPAREN);
        NotAnOption(s, p + 2, stop);
      }
    }
  }

  // ----- the clean-up enlarges -----

  lemma FinishLarger(d: Dialect, us: seq<Unit>) returns (ws: seq<Unit>)
    requires UnitsOk(us) && Finish(Text(us)).Glob?
    ensures Finish(Text(us)).text == Text(ws) && UnitsOk(ws) && Larger(d, us, ws) && CountUnits(ws) <= 2
  {
    hide Larger, QForward, QBack, Stars, UnitsOk, CountStars;
    var x := QForwardUnits(us, false);
    QForwardText(us, false);
    QForwardLarger(d, us);
    EmptyOk();
    var y := QBackLarger(d, [], x);
    assert [] + x == x;
    ws := StarsUnits(y, false);
    StarsText(y, false);
    StarsLarger(d, y);
    LargerTrans(d, us, x, y);
    LargerTrans(d, us, y, ws);
    CountText(ws);
  }

  lemma EmptyOk()
    ensures UnitsOk([]) && Text([]) == []
  {}

  // ----- the matcher lets it pass -----

  lemma {:induction false} NoEnd(us: seq<Unit>)
    ensures !StarAtEnd(ToTokens(us)) && !BareEnd(ToTokens(us))
  {
    if us != [] {
      NoEnd(us[1..]);
      assert UnitToken(us[0]) != End;
      if us[1..] != [] { assert UnitToken(us[1..][0]) != End; }
    }
  }

  predicate NulFree(t: seq<byte>) {
    forall k :: 0 <= k < |t| ==> t[k] != NUL
  }

  /** Whatever the glob matcher answers, the pattern matches. */
  ghost predicate Passes(d: Dialect, g: seq<byte>, t: seq<byte>) {
    && Peek(g, 0) != CARET && PlainFrom(d, g, 0)
    && forall r: int, offset: nat :: Searched(d, Read(d, g, 0), t, false, r, offset) ==> r != -1
  }

  lemma UnitsPass(d: Dialect, us: seq<Unit>, t: seq<byte>, i: nat, j: nat)
    requires UnitsOk(us) && UnitsFit(d, us, t, i, j) && NulFree(t)
    ensures Passes(d, Text(us), t)
  {
    hide Fits, StarAtEnd, BareEnd;
    var ts := ToTokens(us);
    ReadUnits(d, [], us);
    assert [] + Text(us) == Text(us);
    NoEnd(us);
    FitsInside(d, ts, t, i, j);
    assert Matches(d, ts, t, i);
  }

  /** The gate is sound.  For an expression that engine and translator read alike the translation
      is undefined exactly if it ends in a blank and has no choice; and when all is kept and it
      gives a glob pattern, then that pattern matches in every NUL-free buffer in which the
      expression matches. */
  lemma GateIsSound(s: seq<byte>, opts: Option<seq<byte>>, re: Regexp, e: Engine, stray: byte, d: Dialect,
                    t: seq<byte>, i: nat, j: nat)
    requires IsExpression(s, opts, e, d.nocase, re)
    ensures var r := ReToGlob(s, Decoded(stray));
            && (r.Undefined? <==> RegexpRagged(re) && !RegexpBranches(re))
            && (r.Glob? && PiecesKept(e, d, stray, re.b) && RegexpSpan(e, re, t, i, j) && NulFree(t) ==>
                  Passes(d, r.text, t))
  {
    hide Run, RegexpAt, RegexpSpan, Finish, ReadStart, RegexpLen, Text, Passes, NulFree, PiecesSpan, UnitsFit, Decoded,
         PiecesKept, RegexpRagged, IsBasic, FlagsOf;
    StartRead(s, opts, e, d.nocase, re);
    var b, x := Decoded(stray), SyntaxOf(e);
    var p := ReadStart(s).pos;
    var st := State(p, [], -1, []);
    RegexpRun(s, st, re, b, x);
    if !RegexpBranches(re) && !RegexpRagged(re) {
      var us := RegexpUnits(b, re);
      RunEnds(s, After(st, RegexpLen(re), us, PiecesLast(b, re.b, -1)), b, x);
      assert [] + Text(us) == Text(us);
      if PiecesKept(e, d, stray, re.b) && RegexpSpan(e, re, t, i, j) && NulFree(t) && Finish(Text(us)).Glob? {
        OnlyPieces(e, re, t, i, j);
        RegexpPieces(s, p, re, x);
        PiecesCovered(e, d, re.b, stray, t, i, j);
        PiecesUnitsOk(s, p, re.b, b, x);
        var ws := FinishLarger(d, us);
        UnitsPass(d, ws, t, i, j);
      }
    }
  }

  /** The gate of units that were written out. */
  function GateFor(us: seq<Unit>): Outcome {
    if StarRuns(us, false) > 2 || Useless(us) then NoGate else Outcome.Glob(Text(Cleaned([], us)))
  }

  /** Which gate an expression gets, and when it gets none: with a choice, with more than two
      runs of stars and question marks that hold a star, or with units of no use. */
  lemma GateExactly(s: seq<byte>, opts: Option<seq<byte>>, re: Regexp, e: Engine, stray: byte, nocase: bool)
    requires IsExpression(s, opts, e, nocase, re)
    ensures ReToGlob(s, Decoded(stray)) ==
            if RegexpBranches(re) then NoGate
            else if RegexpRagged(re) then Undefined
            else GateFor(RegexpUnits(Decoded(stray), re))
    ensures UnitsOk(RegexpUnits(Decoded(stray), re)) && UnitsOk(Cleaned([], RegexpUnits(Decoded(stray), re)))
  {
    hide Run, RegexpAt, Finish, ReadStart, RegexpLen, Text, Decoded, RegexpRagged, IsBasic, FlagsOf, UnitsOk;
    StartRead(s, opts, e, nocase, re);
    var b, x := Decoded(stray), SyntaxOf(e);
    var p := ReadStart(s).pos;
    var st := State(p, [], -1, []);
    RegexpRun(s, st, re, b, x);
    var us := RegexpUnits(b, re);
    RegexpPieces(s, p, re, x);
    PiecesUnitsOk(s, p, re.b, b, x);
    FinishIs(us);
    if !RegexpBranches(re) && !RegexpRagged(re) {
      RunEnds(s, After(st, RegexpLen(re), us, PiecesLast(b, re.b, -1)), b, x);
      assert [] + Text(us) == Text(us);
    }
  }

  /** The matcher lets pass exactly the strings in which the units match somewhere. */
  lemma PassesMeans(d: Dialect, us: seq<Unit>, t: seq<byte>)
    requires UnitsOk(us) && NulFree(t)
    ensures Passes(d, Text(us), t) <==> exists i: nat, j: nat :: UnitsFit(d, us, t, i, j)
    ensures Peek(Text(us), 0) != CARET && PlainFrom(d, Text(us), 0)
  {
    hide Fits, StarAtEnd, BareEnd;
    var ts := ToTokens(us);
    ReadUnits(d, [], us);
    assert [] + Text(us) == Text(us);
    NoEnd(us);
    FirstPlain(us);
    if i: nat, j: nat :| UnitsFit(d, us, t, i, j) {
      UnitsPass(d, us, t, i, j);
    } else {
      forall o: nat ensures !Matches(d, ts, t, o) {
        forall j: nat ensures !Fits(d, ts, t, o, j) { assert !UnitsFit(d, us, t, o, j); }
      }
      assert Searched(d, ts, t, false, -1, 0);
    }
  }

  lemma FirstPlain(us: seq<Unit>)
    requires UnitsOk(us)
    ensures Peek(Text(us), 0) != CARET
  {}

  lemma RunEnds(s: seq<byte>, st: State, b: Backslash, x: Syntax)
    requires st.pos == |s|
    ensures Run(s, st, x.Expanded?, b) == Ended(st.out)
  {}

  lemma OnlyPieces(e: Engine, re: Regexp, t: seq<byte>, i: nat, j: nat)
    requires RegexpSpan(e, re, t, i, j) && !RegexpBranches(re)
    ensures PiecesSpan(e, re.b, t, i, j) && !PiecesBranch(re.b)
  {}

  lemma RegexpPieces(s: seq<byte>, i: nat, re: Regexp, x: Syntax)
    requires RegexpAt(s, i, re, x)
    ensures PiecesAt(s, i, re.b, x)
  {}

  // ----- literal expressions -----

  /** A literal from p on, in any of the cases the engine takes. */
  predicate LiteralSpan(e: Engine, s: seq<byte>, p: nat, t: seq<byte>, i: nat, j: nat) {
    p <= |s| && ReadingSpan(e, s[p..], t, i, j)
  }

  predicate LiteralKept(e: Engine, d: Dialect, s: seq<byte>, p: nat) {
    forall k :: p <= k < |s| ==> CharKept(e, d, s[k], s[k])
  }

  function LiteralUnits(s: seq<byte>, p: nat): seq<Unit>
    requires p <= |s|
    decreases |s| - p
  {
    if p == |s| then [] else [QuoteUnit(s[p])] + LiteralUnits(s, p + 1)
  }

  /** What the units of a literal match: its characters, as the matcher folds them. */
  lemma {:induction false} LiteralFits(d: Dialect, s: seq<byte>, p: nat, t: seq<byte>, i: nat, j: nat)
    requires p <= |s|
    ensures UnitsFit(d, LiteralUnits(s, p), t, i, j)
       <==> j == i + (|s| - p) && j <= |t| && forall k :: i <= k < j ==> Fold(d, t[k]) == Fold(d, s[p + (k - i)])
    decreases |s| - p
  {
    hide UnitsFit;
    if p == |s| {
      NilFits(d, t, i, j);
    } else {
      var u, rest := QuoteUnit(s[p]), LiteralUnits(s, p + 1);
      LiteralFits(d, s, p + 1, t, i + 1, j);
      OneFits(d, u, t, i, i + 1);
      if UnitsFit(d, [u] + rest, t, i, j) {
        var m := FitSplit(d, [u], rest, t, i, j);
        OneFits(d, u, t, i, m);
      }
      if i < |t| && Fold(d, t[i]) == Fold(d, s[p]) && UnitsFit(d, rest, t, i + 1, j) {
        FitJoin(d, [u], rest, t, i, i + 1, j);
      }
    }
  }

  lemma NilFits(d: Dialect, t: seq<byte>, i: nat, j: nat)
    ensures UnitsFit(d, [], t, i, j) <==> i == j <= |t|
  {}

  lemma LiteralCovered(e: Engine, d: Dialect, s: seq<byte>, p: nat, t: seq<byte>, i: nat, j: nat)
    requires LiteralSpan(e, s, p, t, i, j) && LiteralKept(e, d, s, p)
    ensures UnitsFit(d, LiteralUnits(s, p), t, i, j)
  {
    hide UnitsFit, CasesOf;
    forall k | i <= k < j ensures Fold(d, t[k]) == Fold(d, s[p + (k - i)]) {
      assert t[i + (k - i)] in CasesOf(e, s[p..][k - i]);
      assert CharKept(e, d, s[p + (k - i)], s[p + (k - i)]);
    }
    LiteralFits(d, s, p, t, i, j);
  }

  /** The units of a literal match all that it matches exactly if its characters are kept. */
  lemma LiteralCoveredExactly(e: Engine, d: Dialect, s: seq<byte>, p: nat)
    requires p <= |s|
    ensures LiteralKept(e, d, s, p) <==>
            forall t: seq<byte>, i: nat, j: nat :: LiteralSpan(e, s, p, t, i, j) ==>
              UnitsFit(d, LiteralUnits(s, p), t, i, j)
  {
    hide UnitsFit, CasesOf, LiteralSpan;
    if LiteralKept(e, d, s, p) {
      forall t: seq<byte>, i: nat, j: nat | LiteralSpan(e, s, p, t, i, j)
        ensures UnitsFit(d, LiteralUnits(s, p), t, i, j)
      {
        LiteralCovered(e, d, s, p, t, i, j);
      }
    } else {
      var k :| p <= k < |s| && !CharKept(e, d, s[k], s[k]);
      var x :| x in CasesOf(e, s[k]) && Fold(d, x) != Fold(d, s[k]);
      var t := SomeReading(e, s[p..])[k - p := x];
      assert LiteralSpan(e, s, p, t, 0, |t|) by { CaseChanged(e, s, p, k, x); }
      LiteralFits(d, s, p, t, 0, |t|);
      assert t[k - p] == x && s[p + (k - p)] == s[k];
    }
  }

  lemma CaseChanged(e: Engine, s: seq<byte>, p: nat, k: nat, x: byte)
    requires p <= k < |s| && x in CasesOf(e, s[k])
    ensures var t := SomeReading(e, s[p..])[k - p := x]; LiteralSpan(e, s, p, t, 0, |t|)
  {
    hide CasesOf;
    var t := SomeReading(e, s[p..])[k - p := x];
    forall m | 0 <= m < |t| ensures t[0 + m] in CasesOf(e, s[p..][m]) {
      assert s[p..][k - p] == s[k];
      assert m != k - p ==> SomeReading(e, s[p..])[0 + m] in CasesOf(e, s[p..][m]);
    }
  }

  lemma {:induction false} LiteralText(s: seq<byte>, p: nat)
    requires p <= |s|
    ensures Literal(s, p) == Text(LiteralUnits(s, p)) && UnitsOk(LiteralUnits(s, p))
    decreases |s| - p
  {
    hide Text, Quote, QuoteUnit;
    if p < |s| {
      LiteralText(s, p + 1);
      QuoteText(s[p]);
      QuoteUnitOk(s[p]);
      TextJoin([QuoteUnit(s[p])], LiteralUnits(s, p + 1));
    } else {
      EmptyOk();
    }
  }

  /** s is a literal from p on: after `***=`, or after options of which q has the last word. */
  predicate IsLiteral(s: seq<byte>, opts: Option<seq<byte>>, e: Engine, nocase: bool, p: nat) {
    if opts.None? then HasDirector(s, EQUALS) && p == 4 && e.flags == FlagsOf(None, Verbatim, nocase)
    else
      var q := if HasDirector(s, COLON) then 4 else 0;
      && !HasDirector(s, EQUALS) && OptionsAt(s, q, opts.value) && p == q + |opts.value| + 3
      && AllOptions(opts.value) && e.flags == FlagsOf(opts, Advanced, nocase) && e.flags.flavour.Verbatim?
  }

  lemma {:induction false} LastWord(f: Flags, opts: seq<byte>)
    ensures WithOptions(f, opts).flavour.Verbatim? && !f.flavour.Verbatim? ==> LETTER_q in opts
    decreases |opts|
  {
    if opts != [] {
      LastWord(WithOption(f, opts[0]), opts[1..]);
    }
  }

  /** The gate of a literal whose characters are kept is sound as well. */
  lemma LiteralGateIsSound(s: seq<byte>, opts: Option<seq<byte>>, p: nat, b: Backslash, e: Engine, d: Dialect,
                           t: seq<byte>, i: nat, j: nat)
    requires IsLiteral(s, opts, e, d.nocase, p) && LiteralKept(e, d, s, p)
    requires LiteralSpan(e, s, p, t, i, j) && NulFree(t)
    ensures ReToGlob(s, b).Glob? && Passes(d, ReToGlob(s, b).text, t)
  {
    hide Passes, Literal, LiteralKept, NulFree, UnitsFit, WithOptions, ReadingSpan;
    if opts.Some? {
      OptionsRead(s, if HasDirector(s, COLON) then 4 else 0, opts.value);
      LastWord(Flags(Advanced, d.nocase, false), opts.value);
    }
    LiteralCovered(e, d, s, p, t, i, j);
    LiteralText(s, p);
    UnitsPass(d, LiteralUnits(s, p), t, i, j);
  }
}
