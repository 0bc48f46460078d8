/** Which patterns the compiler refuses, and with which error; and what its bracket classes
    hold.

    A pattern is judged by one walk over its characters, with a stack for the open groups.
    The recursive compiler accepts exactly what the walk accepts, and fails with the first
    error the walk meets.  The errors about parentheses come down to counting them. */
module RegRefusals {
  import opened Chars
  import opened RegSyntax

  // ----- bracket classes -----

  /** The first closing bracket from j on. */
  function FindBracket(s: seq<byte>, j: nat): (r: Option<nat>)
    ensures r.Some? ==> j <= r.value < |s| && s[r.value] == RBRACKET
    decreases |s| - j
  {
    if j >= |s| then None else if s[j] == RBRACKET then Some(j) else FindBracket(s, j + 1)
  }

  /** Where the characters of a class begin that begins at i: a caret negates it. */
  function ClassStart(s: seq<byte>, i: nat): nat {
    if Peek(s, i) == CARET then i + 1 else i
  }

  /** Where it ends: at the first closing bracket that is not its first character. */
  function ClassEnd(s: seq<byte>, i: nat): (r: Option<nat>)
    ensures r.Some? ==> i <= r.value < |s|
  {
    var j := ClassStart(s, i);
    FindBracket(s, if Peek(s, j) == RBRACKET then j + 1 else j)
  }

  /** In a class with the characters from j to q the one at p is a minus that makes a range of
      those around it. */
  predicate IsRange(s: seq<byte>, j: nat, q: nat, p: nat)
    requires q <= |s|
  {
    j < p && p + 1 < q && s[p] == MINUS && !IsRange(s, j, q, p - 1)
  }

  /** From i on some range ends below its beginning. */
  predicate BadRange(s: seq<byte>, j: nat, q: nat, i: nat)
    requires q <= |s|
  {
    exists p: nat :: i <= p < q && IsRange(s, j, q, p) && s[p - 1] > s[p + 1]
  }

  /** The character at p names c, alone or by a range. */
  predicate Names(s: seq<byte>, j: nat, q: nat, p: nat, c: byte)
    requires q <= |s|
  {
    j <= p < q && if IsRange(s, j, q, p) then s[p - 1] <= c <= s[p + 1] else c == s[p]
  }

  /** One of the characters before i names c. */
  predicate Member(s: seq<byte>, j: nat, q: nat, i: nat, c: byte)
    requires q <= |s|
  {
    exists p: nat :: p < i && Names(s, j, q, p, c)
  }

  lemma MemberNext(s: seq<byte>, j: nat, q: nat, i: nat, c: byte)
    requires q <= |s|
    ensures Member(s, j, q, i + 1, c) <==> Member(s, j, q, i, c) || Names(s, j, q, i, c)
  {
    hide Names;
    if Member(s, j, q, i + 1, c) {
      var p: nat :| p < i + 1 && Names(s, j, q, p, c);
    }
  }

  /** A range after a character that is a member already. */
  lemma RangeMembers(s: seq<byte>, j: nat, q: nat, i: nat, c: byte)
    requires q <= |s| && IsRange(s, j, q, i) && s[i - 1] <= s[i + 1]
    ensures Member(s, j, q, i + 2, c) <==> Member(s, j, q, i, c) || s[i - 1] < c <= s[i + 1]
  {
    hide Member;
    assert !IsRange(s, j, q, i - 1) && !IsRange(s, j, q, i + 1);
    MemberNext(s, j, q, i - 1, c);
    MemberNext(s, j, q, i, c);
    MemberNext(s, j, q, i + 1, c);
  }

  /** What a class is read as from i on, acc being what the characters before name. */
  lemma {:induction false} ClassBodyMeans(s: seq<byte>, j: nat, i: nat, acc: seq<byte>, npar: NextGroup)
    requires 0 < j <= i <= |s| && CharsOk(s) && (i == j ==> Peek(s, i) != MINUS)
    requires var q := FindBracket(s, i).GetOr(|s|);
             && (i > j ==> !IsRange(s, j, q, i - 1))
             && forall c :: c in acc <==> Member(s, j, q, i, c)
    ensures var q := FindBracket(s, i).GetOr(|s|);
            match ParseClassBody(s, i, acc, npar)
            case Ok(cs, pos, _) =>
              pos == q + 1 && q < |s| && !BadRange(s, j, q, i) && forall c :: c in cs <==> Member(s, j, q, q, c)
            case Fail(e) => e == (if BadRange(s, j, q, i) then InvalidRange else UnmatchedBracket)
                            && (e.UnmatchedBracket? ==> q == |s|)
    decreases |s| - i
  {
    hide Member;
    var q := FindBracket(s, i).GetOr(|s|);
    var c := Peek(s, i);
    if c != NUL && c != RBRACKET {
      var d := Peek(s, i + 1);
      if c != MINUS || d == RBRACKET || d == NUL {
        assert !IsRange(s, j, q, i);
        forall x ensures x in acc + [c] <==> Member(s, j, q, i + 1, x) { MemberNext(s, j, q, i, x); }
        ClassBodyMeans(s, j, i + 1, acc + [c], npar);
      } else {
        assert IsRange(s, j, q, i) && !IsRange(s, j, q, i + 1);
        if s[i - 1] <= d {
          var r := Range(s[i - 1] + 1, d);
          forall x ensures x in acc + r <==> Member(s, j, q, i + 2, x) { RangeMembers(s, j, q, i, x); }
          ClassBodyMeans(s, j, i + 2, acc + r, npar);
        }
      }
    }
  }

  /** A class, from just after its opening bracket: it is refused for a bad range before it
      ends, or because it does not end; otherwise it holds what its characters name. */
  lemma ClassMeans(s: seq<byte>, i: nat, npar: NextGroup)
    requires 0 < i <= |s| && CharsOk(s)
    ensures var j, end := ClassStart(s, i), ClassEnd(s, i);
            var q := end.GetOr(|s|);
            match ParseClass(s, i, npar)
            case Ok(a, pos, n) =>
              && end == Some(pos - 1) && n == npar && !BadRange(s, j, q, j)
              && (if j == i then a.OneOf? else a.NoneOf?) && forall c :: c in a.cs <==> Member(s, j, q, q, c)
            case Fail(e) =>
              (e == InvalidRange && BadRange(s, j, q, j))
              || (e == UnmatchedBracket && end == None && !BadRange(s, j, q, j))
  {
    hide ParseClassBody, Member, BadRange, IsRange, FindBracket;
    var j := ClassStart(s, i);
    var c := Peek(s, j);
    var q := ClassEnd(s, i).GetOr(|s|);
    FirstOfClass(s, j, q);
    if c == RBRACKET || c == MINUS {
      NextBracket(s, j);
      forall x ensures x in [c] <==> Member(s, j, q, j + 1, x) { FirstNamed(s, j, q, x); }
      ClassBodyMeans(s, j, j + 1, [c], npar);
    } else {
      ClassBodyMeans(s, j, j, [], npar);
    }
  }

  lemma FirstNamed(s: seq<byte>, j: nat, q: nat, c: byte)
    requires j < q <= |s|
    ensures Member(s, j, q, j + 1, c) <==> c == s[j]
  {
    MemberNext(s, j, q, j, c);
  }

  lemma NextBracket(s: seq<byte>, j: nat)
    ensures j < |s| && s[j] != RBRACKET ==> FindBracket(s, j) == FindBracket(s, j + 1)
  {}

  lemma FirstOfClass(s: seq<byte>, j: nat, q: nat)
    requires q <= |s|
    ensures !IsRange(s, j, q, j) && (BadRange(s, j, q, j) <==> BadRange(s, j, q, j + 1))
    ensures forall c :: !Member(s, j, q, j, c)
  {}

  lemma ClassEnds(s: seq<byte>, i: nat, npar: NextGroup)
    requires 0 < i <= |s| && CharsOk(s)
    ensures var j, end := ClassStart(s, i), ClassEnd(s, i);
            match ParseClass(s, i, npar)
            case Ok(_, pos, _) => end == Some(pos - 1) && !BadRange(s, j, end.GetOr(|s|), j)
            case Fail(e) => e == (if BadRange(s, j, end.GetOr(|s|), j) then InvalidRange else UnmatchedBracket)
                            && (e.UnmatchedBracket? ==> end.None?)
  {
    hide Member, ParseClass, BadRange;
    ClassMeans(s, i, npar);
  }

  // ----- one walk over a pattern -----

  /** An open group, or the whole pattern: whether all alternatives so far have width, and
      whether the present one has. */
  datatype Level = Level(all: bool, present: bool)

  function Passed(f: Level, width: bool): Level {
    f.(present := f.present || width)
  }

  function NextAlternative(f: Level): Level {
    Level(f.all && f.present, false)
  }

  /** The first error from i on, with npar the number of the next group, f the innermost open
      group and outer those around it, innermost last. */
  function Verdict(s: seq<byte>, i: nat, npar: NextGroup, f: Level, outer: seq<Level>): (r: Option<Error>)
    requires i <= |s|
    ensures r.Some? ==> r.value !in {JunkOnEnd, InternalUrp, TooBig, NullArgument}
    decreases |s| - i, 0
  {
    var c := Peek(s, i);
    if c == NUL then if outer == [] then None else Some(UnmatchedParens)
    else if c == BAR then Verdict(s, i + 1, npar, NextAlternative(f), outer)
    else if c == LPAREN then
      if npar >= NSUBEXP then Some(TooManyParens)
      else Verdict(s, i + 1, npar + 1, Level(true, false), outer + [f])
    else if c == RPAREN then
      if outer == [] then Some(UnmatchedParens)
      else AfterAtom(s, i + 1, npar, NextAlternative(f).all, outer[|outer| - 1], outer[..|outer| - 1])
    else if IsMult(c) then Some(FollowsNothing)
    else if c == LBRACKET then
      var j, end := ClassStart(s, i + 1), ClassEnd(s, i + 1);
      if BadRange(s, j, end.GetOr(|s|), j) then Some(InvalidRange)
      else if end.None? then Some(UnmatchedBracket)
      else AfterAtom(s, end.value + 1, npar, true, f, outer)
    else if c == BACKSLASH then
      if Peek(s, i + 1) == NUL then Some(TrailingBackslash) else AfterAtom(s, i + 2, npar, true, f, outer)
    else AfterAtom(s, i + 1, npar, c != CARET && c != DOLLAR, f, outer)
  }

  /** The same after an atom, which may be repeated. */
  function AfterAtom(s: seq<byte>, i: nat, npar: NextGroup, width: bool, f: Level, outer: seq<Level>)
    : (r: Option<Error>)
    requires i <= |s|
    ensures r.Some? ==> r.value !in {JunkOnEnd, InternalUrp, TooBig, NullArgument}
    decreases |s| - i, 1
  {
    var op := Peek(s, i);
    if !IsMult(op) then Verdict(s, i, npar, Passed(f, width), outer)
    else if !width && op != QUERY then Some(OperandCouldBeEmpty)
    else if IsMult(Peek(s, i + 1)) then Some(NestedRepeat)
    else Verdict(s, i + 1, npar, Passed(f, op == PLUS_CHAR), outer)
  }

  // ----- counting parentheses -----

  /** Open: as many parentheses are open at the end of the text.  Stray: one closes that was
      not opened.  Cut: the text ends in a class or after a backslash. */
  datatype Nesting = Open(n: nat) | Stray(at: nat) | Cut

  /** Counting parentheses from i on, d of them open; those in classes and after a backslash do
      not count. */
  function Nest(s: seq<byte>, i: nat, d: nat): (r: Nesting)
    requires i <= |s|
    ensures r.Stray? ==> i <= r.at < |s| && s[r.at] == RPAREN
    decreases |s| - i
  {
    if i == |s| then Open(d)
    else if s[i] == LPAREN then Nest(s, i + 1, d + 1)
    else if s[i] == RPAREN then if d == 0 then Stray(i) else Nest(s, i + 1, d - 1)
    else if s[i] == BACKSLASH then if i + 1 == |s| then Cut else Nest(s, i + 2, d)
    else if s[i] == LBRACKET then
      match ClassEnd(s, i + 1)
      case None => Cut
      case Some(q) => Nest(s, q + 1, d)
    else Nest(s, i + 1, d)
  }

  // ----- the compiler fails with the first error of the walk -----

  /** Ordinary characters may be taken one by one. */
  lemma {:induction false} RunOfChars(s: seq<byte>, i: nat, n: nat, npar: NextGroup, f: Level, outer: seq<Level>)
    requires i + n <= |s| && CharsOk(s) && n > 0
    requires (forall k :: i <= k < i + n ==> !IsMeta(s[k])) && (n > 1 ==> !IsMult(Peek(s, i + n)))
    ensures Verdict(s, i, npar, f, outer) == AfterAtom(s, i + n, npar, true, f, outer)
    ensures Nest(s, i, |outer|) == Nest(s, i + n, |outer|)
    decreases n
  {
    if n > 1 {
      RunOfChars(s, i + 1, n - 1, npar, Passed(f, true), outer);
    }
  }

  lemma LiteralChars(s: seq<byte>, i: nat)
    requires i < |s| && !IsMeta(s[i])
    ensures var n := LiteralLength(s, i);
            && n > 0 && (forall k :: i <= k < i + n ==> !IsMeta(s[k])) && (n > 1 ==> !IsMult(Peek(s, i + n)))
  {
    SpanChars(s, i);
  }

  lemma {:induction false} SpanChars(s: seq<byte>, i: nat)
    requires i <= |s|
    ensures forall k :: i <= k < i + Span(s, i) ==> !IsMeta(s[k])
    decreases |s| - i
  {
    if i < |s| && !IsMeta(s[i]) {
      SpanChars(s, i + 1);
    }
  }

  lemma {:induction false} AtomJudged(s: seq<byte>, i: nat, npar: NextGroup, f: Level, outer: seq<Level>)
    requires i < |s| && CharsOk(s) && !EndsBranch(s[i])
    ensures match ParseAtom(s, i, npar)
            case Fail(e) => Verdict(s, i, npar, f, outer) == Some(e)
            case Ok(a, pos, n) =>
              && Verdict(s, i, npar, f, outer) == AfterAtom(s, pos, n, AtomWidth(a), f, outer)
              && Nest(s, i, |outer|) == Nest(s, pos, |outer|)
    decreases |s| - i, 0
  {
    hide ParseReg, ParseClass, LiteralLength, Nest, AfterAtom, BadRange, ClassEnd, ClassStart;
    var c := s[i];
    NestStep(s, i, |outer|);
    if c == LPAREN {
      GroupJudged(s, i + 1, npar, f, outer);
    } else if c == LBRACKET {
      ClassEnds(s, i + 1, npar);
    } else if !IsMeta(c) {
      LiteralChars(s, i);
      RunOfChars(s, i, LiteralLength(s, i), npar, f, outer);
    }
  }

  lemma NestStep(s: seq<byte>, i: nat, d: nat)
    requires i < |s|
    ensures Nest(s, i, d) ==
            if s[i] == LPAREN then Nest(s, i + 1, d + 1)
            else if s[i] == RPAREN then if d == 0 then Stray(i) else Nest(s, i + 1, d - 1)
            else if s[i] == BACKSLASH then if i + 1 == |s| then Cut else Nest(s, i + 2, d)
            else if s[i] == LBRACKET then
              match ClassEnd(s, i + 1)
              case None => Cut
              case Some(q) => Nest(s, q + 1, d)
            else Nest(s, i + 1, d)
  {}

  /** A group, from after its parenthesis: it ends where the count falls below. */
  lemma {:induction false} GroupJudged(s: seq<byte>, i: nat, npar: NextGroup, f: Level, outer: seq<Level>)
    requires 0 < i <= |s| && CharsOk(s) && s[i - 1] == LPAREN
    ensures match ParseReg(s, i, npar, true)
            case Fail(e) => Verdict(s, i - 1, npar, f, outer) == Some(e)
            case Ok(l, pos, n) =>
              && Verdict(s, i - 1, npar, f, outer) == AfterAtom(s, pos, n, AltsWidth(l), f, outer)
              && Nest(s, i, |outer| + 1) == Nest(s, pos - 1, |outer| + 1) == Nest(s, pos, |outer|)
              && i < pos && s[pos - 1] == RPAREN
    decreases |s| - i, 4
  {
    hide ParseAlts, Nest, AfterAtom, AltsWidth;
    if npar < NSUBEXP {
      AltsJudged(s, i, npar + 1, Level(true, false), outer + [f]);
      var r := ParseAlts(s, i, npar + 1);
      if r.Ok? && r.pos < |s| { NestStep(s, r.pos, |outer| + 1); }
      assert (outer + [f])[..|outer|] == outer;
    }
  }

  lemma {:induction false} PieceJudged(s: seq<byte>, i: nat, npar: NextGroup, f: Level, outer: seq<Level>)
    requires i < |s| && CharsOk(s) && !EndsBranch(s[i])
    ensures match ParsePiece(s, i, npar)
            case Fail(e) => Verdict(s, i, npar, f, outer) == Some(e)
            case Ok(p, pos, n) =>
              && Verdict(s, i, npar, f, outer) == Verdict(s, pos, n, Passed(f, PieceWidth(p)), outer)
              && Nest(s, i, |outer|) == Nest(s, pos, |outer|)
    decreases |s| - i, 1
  {
    hide ParseAtom, Nest, Verdict;
    AtomJudged(s, i, npar, f, outer);
    var r := ParseAtom(s, i, npar);
    if r.Ok? && r.pos < |s| { NestStep(s, r.pos, |outer|); }
  }

  lemma {:induction false} BranchJudged(s: seq<byte>, i: nat, npar: NextGroup, f: Level, outer: seq<Level>)
    requires i <= |s| && CharsOk(s)
    ensures match ParseBranch(s, i, npar)
            case Fail(e) => Verdict(s, i, npar, f, outer) == Some(e)
            case Ok(b, pos, n) =>
              && Verdict(s, i, npar, f, outer) == Verdict(s, pos, n, Passed(f, BranchWidth(b)), outer)
              && Nest(s, i, |outer|) == Nest(s, pos, |outer|)
    decreases |s| - i, 2
  {
    hide ParsePiece, Nest, Verdict;
    if !EndsBranch(Peek(s, i)) {
      PieceJudged(s, i, npar, f, outer);
      var r := ParsePiece(s, i, npar);
      if r.Ok? {
        BranchJudged(s, r.pos, r.npar, Passed(f, PieceWidth(r.value)), outer);
      }
    }
  }

  lemma {:induction false} AltsJudged(s: seq<byte>, i: nat, npar: NextGroup, f: Level, outer: seq<Level>)
    requires i <= |s| && CharsOk(s) && !f.present
    ensures match ParseAlts(s, i, npar)
            case Fail(e) => Verdict(s, i, npar, f, outer) == Some(e)
            case Ok(l, pos, n) =>
              && EndsBranch(Peek(s, pos)) && Peek(s, pos) != BAR
              && (exists g: Level :: NextAlternative(g).all == (f.all && AltsWidth(l))
                                     && Verdict(s, i, npar, f, outer) == Verdict(s, pos, n, g, outer))
              && Nest(s, i, |outer|) == Nest(s, pos, |outer|)
    decreases |s| - i, 3
  {
    hide ParseBranch, Nest, BranchWidth;
    BranchJudged(s, i, npar, f, outer);
    var b := ParseBranch(s, i, npar);
    if b.Ok? {
      var g := Passed(f, BranchWidth(b.value));
      if Peek(s, b.pos) == BAR {
        NestStep(s, b.pos, |outer|);
        AltsJudged(s, b.pos + 1, b.npar, NextAlternative(g), outer);
      } else {
        assert NextAlternative(g).all == (f.all && BranchWidth(b.value));
      }
    }
  }

  /** A pattern is accepted exactly if the walk meets no error, and then it was read to its
      end; otherwise the first error of the walk is the compiler's. */
  lemma AcceptedExactly(s: seq<byte>)
    requires CharsOk(s)
    ensures match ParseReg(s, 0, 1, false)
            case Fail(e) => Verdict(s, 0, 1, Level(true, false), []) == Some(e)
            case Ok(_, pos, _) =>
              Verdict(s, 0, 1, Level(true, false), []) == None && pos == |s| && Nest(s, 0, 0) == Open(0)
  {
    hide ParseAlts, AltsWidth;
    AltsJudged(s, 0, 1, Level(true, false), []);
  }

  /** Every group ends at the parenthesis that matches its own. */
  lemma GroupClosesAtItsOwn(s: seq<byte>, i: nat, npar: NextGroup)
    requires 0 < i <= |s| && CharsOk(s) && s[i - 1] == LPAREN && ParseReg(s, i, npar, true).Ok?
    ensures Nest(s, i, 0) == Stray(ParseReg(s, i, npar, true).pos - 1)
  {
    hide Verdict, AfterAtom, ParseAlts;
    var r := ParseReg(s, i, npar, true);
    AltsJudged(s, i, npar + 1, Level(true, false), []);
    NestStep(s, r.pos - 1, 0);
  }

  // ----- unmatched parentheses -----

  lemma {:induction false} SameBracket(s: seq<byte>, p: nat, j: nat)
    requires p <= |s|
    ensures FindBracket(s[..p], j) == var r := FindBracket(s, j); if r.Some? && r.value < p then r else None
    decreases |s| - j
  {
    if j < |s| && s[j] != RBRACKET {
      SameBracket(s, p, j + 1);
    }
  }

  lemma {:induction false} SameClassBody(s: seq<byte>, p: nat, i: nat, acc: seq<byte>, npar: NextGroup)
    requires 0 < i <= p <= |s| && FindBracket(s[..p], i).Some?
    ensures ParseClassBody(s, i, acc, npar) == ParseClassBody(s[..p], i, acc, npar)
    decreases |s| - i
  {
    var c := s[i];
    if c != NUL && c != RBRACKET {
      var d := s[i + 1];
      if c != MINUS {
        SameClassBody(s, p, i + 1, acc + [c], npar);
      } else if d == RBRACKET || d == NUL {
        SameClassBody(s, p, i + 1, acc + [MINUS], npar);
      } else if s[i - 1] <= d {
        SameClassBody(s, p, i + 2, acc + Range(s[i - 1] + 1, d), npar);
      }
    }
  }

  /** A class that ends before p is read alike when the text is cut there. */
  lemma SameClass(s: seq<byte>, p: nat, i: nat, npar: NextGroup)
    requires 0 < i <= p <= |s| && ClassEnd(s[..p], i).Some?
    ensures ClassEnd(s, i) == ClassEnd(s[..p], i) && ParseClass(s, i, npar) == ParseClass(s[..p], i, npar)
  {
    hide ParseClassBody;
    var t := s[..p];
    var j := if Peek(t, i) == CARET then i + 1 else i;
    var k := if Peek(t, j) == RBRACKET then j + 1 else j;
    assert i < p && t[i] == s[i];
    SameBracket(s, p, k);
    assert k < p && j < p && t[j] == s[j];
    if t[j] == RBRACKET || t[j] == MINUS {
      SameBracket(s, p, j + 1);
      SameClassBody(s, p, j + 1, [t[j]], npar);
    } else {
      SameClassBody(s, p, j, [], npar);
    }
  }

  lemma SameClassBack(s: seq<byte>, p: nat, i: nat)
    requires 0 < i <= p <= |s| && ClassEnd(s, i).Some? && ClassEnd(s, i).value < p
    ensures ClassEnd(s[..p], i).Some?
  {
    var j := if Peek(s, i) == CARET then i + 1 else i;
    SameBracket(s, p, if Peek(s, j) == RBRACKET then j + 1 else j);
  }

  /** The error of a text that goes wrong only by what is put after it. */
  function Or(r: Option<Error>, e: Error): Option<Error> {
    if r.Some? then r else Some(e)
  }

  lemma {:induction false} CutAtStray(s: seq<byte>, p: nat, i: nat, npar: NextGroup, f: Level, outer: seq<Level>)
    requires i <= |s| && CharsOk(s) && Nest(s, i, |outer|) == Stray(p)
    ensures Verdict(s, i, npar, f, outer) == Or(Verdict(s[..p], i, npar, f, outer), UnmatchedParens)
    decreases |s| - i, 0
  {
    hide ParseClass, Nest, AfterAtom, BadRange, ClassEnd, ClassStart;
    NestStep(s, i, |outer|);
    var t := s[..p];
    if i < p {
      var c := s[i];
      assert t[i] == c && (i + 1 < p ==> t[i + 1] == s[i + 1]);
      if c == BAR {
        CutAtStray(s, p, i + 1, npar, NextAlternative(f), outer);
      } else if c == LPAREN {
        if npar < NSUBEXP { CutAtStray(s, p, i + 1, npar + 1, Level(true, false), outer + [f]); }
      } else if c == RPAREN {
        CutAfterAtom(s, p, i + 1, npar, NextAlternative(f).all, outer[|outer| - 1], outer[..|outer| - 1]);
      } else if c == LBRACKET {
        SameClassBack(s, p, i + 1);
        SameClass(s, p, i + 1, npar);
        ClassEnds(s, i + 1, npar);
        ClassEnds(t, i + 1, npar);
        var r := ParseClass(s, i + 1, npar);
        if r.Ok? { CutAfterAtom(s, p, r.pos, npar, true, f, outer); }
      } else if c == BACKSLASH {
        CutAfterAtom(s, p, i + 2, npar, true, f, outer);
      } else if !IsMult(c) {
        CutAfterAtom(s, p, i + 1, npar, c != CARET && c != DOLLAR, f, outer);
      }
    }
  }

  lemma {:induction false} CutAfterAtom(s: seq<byte>, p: nat, i: nat, npar: NextGroup, width: bool, f: Level,
                                        outer: seq<Level>)
    requires i <= |s| && CharsOk(s) && Nest(s, i, |outer|) == Stray(p)
    ensures AfterAtom(s, i, npar, width, f, outer) == Or(AfterAtom(s[..p], i, npar, width, f, outer), UnmatchedParens)
    decreases |s| - i, 1
  {
    hide Verdict, Nest;
    NestStep(s, i, |outer|);
    var op := Peek(s, i);
    if !IsMult(op) {
      CutAtStray(s, p, i, npar, Passed(f, width), outer);
    } else {
      CutAtStray(s, p, i + 1, npar, Passed(f, op == PLUS_CHAR), outer);
    }
  }

  function Closers(n: nat): (r: seq<byte>)
    ensures |r| == n && forall k :: 0 <= k < n ==> r[k] == RPAREN
  {
    seq(n, _ => RPAREN)
  }

  lemma {:induction false} AllClose(s: seq<byte>, i: nat, npar: NextGroup, f: Level, outer: seq<Level>)
    requires i <= |s| && |outer| == |s| - i && forall k :: i <= k < |s| ==> s[k] == RPAREN
    ensures Verdict(s, i, npar, f, outer) == None
    decreases |s| - i
  {
    if i < |s| {
      var g := outer[|outer| - 1];
      AllClose(s, i + 1, npar, Passed(g, NextAlternative(f).all), outer[..|outer| - 1]);
    }
  }

  lemma {:induction false} ClosedAtEnd(s: seq<byte>, n: nat, i: nat, npar: NextGroup, f: Level, outer: seq<Level>)
    requires i <= |s| && CharsOk(s) && n > 0 && Nest(s, i, |outer|) == Open(n)
    ensures Verdict(s, i, npar, f, outer) == Or(Verdict(s + Closers(n), i, npar, f, outer), UnmatchedParens)
    decreases |s| - i, 0
  {
    hide ParseClass, Nest, AfterAtom, BadRange, ClassEnd, ClassStart;
    var t := s + Closers(n);
    assert t[..|s|] == s;
    if i == |s| {
      NestEnd(s, |outer|);
      AllClose(t, i, npar, f, outer);
    } else {
      NestStep(s, i, |outer|);
      var c := s[i];
      assert t[i] == c && (i + 1 < |s| ==> t[i + 1] == s[i + 1]);
      if c == BAR {
        ClosedAtEnd(s, n, i + 1, npar, NextAlternative(f), outer);
      } else if c == LPAREN {
        if npar < NSUBEXP { ClosedAtEnd(s, n, i + 1, npar + 1, Level(true, false), outer + [f]); }
      } else if c == RPAREN {
        if outer != [] {
          ClosedAfterAtom(s, n, i + 1, npar, NextAlternative(f).all, outer[|outer| - 1], outer[..|outer| - 1]);
        }
      } else if c == LBRACKET {
        ClassEnds(s, i + 1, npar);
        ClassEnds(t, i + 1, npar);
        SameClass(t, |s|, i + 1, npar);
        var r := ParseClass(s, i + 1, npar);
        if r.Ok? { ClosedAfterAtom(s, n, r.pos, npar, true, f, outer); }
      } else if c == BACKSLASH {
        ClosedAfterAtom(s, n, i + 2, npar, true, f, outer);
      } else if !IsMult(c) {
        ClosedAfterAtom(s, n, i + 1, npar, c != CARET && c != DOLLAR, f, outer);
      }
    }
  }

  lemma NestEnd(s: seq<byte>, d: nat)
    ensures Nest(s, |s|, d) == Open(d)
  {}

  lemma {:induction false} ClosedAfterAtom(s: seq<byte>, n: nat, i: nat, npar: NextGroup, width: bool, f: Level,
                                           outer: seq<Level>)
    requires i <= |s| && CharsOk(s) && n > 0 && Nest(s, i, |outer|) == Open(n)
    ensures AfterAtom(s, i, npar, width, f, outer)
            == Or(AfterAtom(s + Closers(n), i, npar, width, f, outer), UnmatchedParens)
    decreases |s| - i, 1
  {
    hide Verdict, Nest;
    var op := Peek(s, i);
    if !IsMult(op) {
      ClosedAtEnd(s, n, i, npar, Passed(f, width), outer);
    } else {
      NestStep(s, i, |outer|);
      ClosedAtEnd(s, n, i + 1, npar, Passed(f, op == PLUS_CHAR), outer);
    }
  }

  /** Parentheses that match are not complained of. */
  lemma {:induction false} MatchedJudged(s: seq<byte>, i: nat, npar: NextGroup, f: Level, outer: seq<Level>)
    requires i <= |s| && CharsOk(s) && (Nest(s, i, |outer|) == Open(0) || Nest(s, i, |outer|) == Cut)
    ensures Verdict(s, i, npar, f, outer) != Some(UnmatchedParens)
    decreases |s| - i, 0
  {
    hide ParseClass, Nest, AfterAtom, BadRange, ClassEnd, ClassStart;
    if i == |s| {
      NestEnd(s, |outer|);
    } else {
      NestStep(s, i, |outer|);
      var c := s[i];
      if c == BAR {
        MatchedJudged(s, i + 1, npar, NextAlternative(f), outer);
      } else if c == LPAREN {
        if npar < NSUBEXP { MatchedJudged(s, i + 1, npar + 1, Level(true, false), outer + [f]); }
      } else if c == RPAREN {
        MatchedAfterAtom(s, i + 1, npar, NextAlternative(f).all, outer[|outer| - 1], outer[..|outer| - 1]);
      } else if c == LBRACKET {
        ClassEnds(s, i + 1, npar);
        var r := ParseClass(s, i + 1, npar);
        if r.Ok? { MatchedAfterAtom(s, r.pos, npar, true, f, outer); }
      } else if c == BACKSLASH {
        if i + 1 < |s| { MatchedAfterAtom(s, i + 2, npar, true, f, outer); }
      } else if !IsMult(c) {
        MatchedAfterAtom(s, i + 1, npar, c != CARET && c != DOLLAR, f, outer);
      }
    }
  }

  lemma {:induction false} MatchedAfterAtom(s: seq<byte>, i: nat, npar: NextGroup, width: bool, f: Level,
                                            outer: seq<Level>)
    requires i <= |s| && CharsOk(s) && (Nest(s, i, |outer|) == Open(0) || Nest(s, i, |outer|) == Cut)
    ensures AfterAtom(s, i, npar, width, f, outer) != Some(UnmatchedParens)
    decreases |s| - i, 1
  {
    hide Verdict, Nest;
    var op := Peek(s, i);
    if !IsMult(op) {
      MatchedJudged(s, i, npar, Passed(f, width), outer);
    } else {
      NestStep(s, i, |outer|);
      MatchedJudged(s, i + 1, npar, Passed(f, op == PLUS_CHAR), outer);
    }
  }

  /** The error of reading a text, or e if there is none. */
  function ErrorOr(s: seq<byte>, e: Error): Error {
    var r := ParseReg(s, 0, 1, false);
    if r.Fail? then r.error else e
  }

  /** Exactly when the compiler complains of parentheses: if one closes that was not opened,
      unless something else is wrong before it; or if some are left open, unless something else
      would be wrong with all of them closed at the end. */
  lemma UnmatchedExactly(s: seq<byte>)
    requires CharsOk(s)
    ensures var r, nest := ParseReg(s, 0, 1, false), Nest(s, 0, 0);
            if nest.Stray? then r == Fail(ErrorOr(s[..nest.at], UnmatchedParens))
            else if nest.Open? && nest.n > 0 then r == Fail(ErrorOr(s + Closers(nest.n), UnmatchedParens))
            else r != Fail(UnmatchedParens) && (nest.Cut? ==> r.Fail?)
  {
    hide ParseReg, Verdict, Nest;
    AcceptedExactly(s);
    var f, nest := Level(true, false), Nest(s, 0, 0);
    if nest.Stray? {
      AcceptedExactly(s[..nest.at]);
      CutAtStray(s, nest.at, 0, 1, f, []);
    } else if nest.Open? && nest.n > 0 {
      AcceptedExactly(s + Closers(nest.n));
      ClosedAtEnd(s, nest.n, 0, 1, f, []);
    } else {
      MatchedJudged(s, 0, 1, f, []);
    }
  }
}
