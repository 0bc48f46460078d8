/** Searching: the information TclRegComp digs out of a program, and how TclRegExec uses it
    to try fewer places without missing a match. */
module RegSearch {
  import opened Chars
  import opened RegSyntax
  import opened RegCode
  import opened RegLink
  import opened RegMeaning
  import opened RegPaths
  import opened RegBacktrack
  import opened RegRuns
  import opened RegExec
  import opened RegComp

  // ----- what every match must contain -----

  predicate OccursAt(s: seq<byte>, p: nat, cs: seq<byte>) {
    p + |cs| <= |s| && s[p..p + |cs|] == cs
  }

  ghost predicate Contains(s: seq<byte>, i: nat, j: nat, cs: seq<byte>) {
    exists p: nat :: i <= p && p + |cs| <= j <= |s| && OccursAt(s, p, cs)
  }

  /** Every span the alternatives match starts at the beginning of the line. */
  ghost predicate Anchored(l: Alts) {
    forall u: Subject, i: nat, j: nat {:trigger AltsSpan(l, u, i, j)} :: AltsSpan(l, u, i, j) ==> i == u.bol
  }

  ghost predicate StartsWith(l: Alts, c: byte) {
    forall u: Subject, i: nat, j: nat {:trigger AltsSpan(l, u, i, j)} ::
      AltsSpan(l, u, i, j) ==> i < |u.s| && u.s[i] == c
  }

  ghost predicate MustHave(l: Alts, cs: seq<byte>) {
    forall u: Subject, i: nat, j: nat {:trigger AltsSpan(l, u, i, j)} ::
      AltsSpan(l, u, i, j) ==> Contains(u.s, i, j, cs)
  }

  /** A piece that cannot be left out and begins with a literal. */
  predicate Requires(p: Piece, cs: seq<byte>) {
    p.atom == Exactly(cs) && (p.rep.One? || p.rep.Plus?)
  }

  predicate BranchRequires(b: Branch, cs: seq<byte>) {
    b.Cons? && (Requires(b.head, cs) || BranchRequires(b.tail, cs))
  }

  /** Such a piece begins with the literal wherever it matches. */
  lemma RequiresMeans(p: Piece, a: Atom, u: Subject, i: nat, j: nat) returns (m: nat)
    requires p.atom == a && (p.rep.One? || p.rep.Plus?) && PieceSpan(p, u, i, j)
    ensures AtomSpan(a, u, i, m) && m <= j <= |u.s|
  {
    hide AtomSpan;
    PieceInside(p, u, i, j);
    m := j;
    if p.rep.Plus? {
      var n: nat :| n > 0 && Times(p.atom, n, u, i, j);
      m := FirstTime(p.atom, n, u, i, j);
      TimesInside(p.atom, n - 1, u, m, j);
    }
  }

  lemma {:induction false} BranchRequiresMeans(b: Branch, cs: seq<byte>, u: Subject, i: nat, j: nat)
    requires BranchRequires(b, cs) && BranchSpan(b, u, i, j)
    ensures Contains(u.s, i, j, cs)
  {
    hide PieceSpan;
    BranchInside(b, u, i, j);
    var m: nat :| PieceSpan(b.head, u, i, m) && BranchSpan(b.tail, u, m, j);
    BranchInside(b.tail, u, m, j);
    PieceInside(b.head, u, i, m);
    if Requires(b.head, cs) {
      var x := RequiresMeans(b.head, Exactly(cs), u, i, m);
      assert u.s[i..x] == cs && |u.s[i..x]| == x - i;
      assert OccursAt(u.s, i, cs);
    } else {
      BranchRequiresMeans(b.tail, cs, u, m, j);
      ContainsWider(u.s, i, m, j, cs);
    }
  }

  lemma ContainsWider(s: seq<byte>, i: nat, m: nat, j: nat, cs: seq<byte>)
    requires Contains(s, m, j, cs) && i <= m
    ensures Contains(s, i, j, cs)
  {}

  lemma BranchMustHave(b: Branch, cs: seq<byte>)
    requires BranchRequires(b, cs)
    ensures MustHave(Last(b), cs)
  {
    forall u: Subject, i: nat, j: nat | AltsSpan(Last(b), u, i, j)
      ensures Contains(u.s, i, j, cs)
    {
      BranchRequiresMeans(b, cs, u, i, j);
    }
  }

  lemma FirstPiece(b: Branch, a: Atom, u: Subject, i: nat, j: nat) returns (m: nat)
    requires b.Cons? && b.head.atom == a && (b.head.rep.One? || b.head.rep.Plus?) && BranchSpan(b, u, i, j)
    ensures AtomSpan(a, u, i, m) && m <= |u.s|
  {
    hide AtomSpan;
    var c: nat :| PieceSpan(b.head, u, i, c) && BranchSpan(b.tail, u, c, j);
    m := RequiresMeans(b.head, a, u, i, c);
  }

  lemma BranchStartsWith(b: Branch, cs: seq<byte>)
    requires b.Cons? && Requires(b.head, cs) && |cs| > 0
    ensures StartsWith(Last(b), cs[0])
  {
    forall u: Subject, i: nat, j: nat | AltsSpan(Last(b), u, i, j)
      ensures i < |u.s| && u.s[i] == cs[0]
    {
      var m := FirstPiece(b, Exactly(cs), u, i, j);
      assert u.s[i..m] == cs;
      assert u.s[i..m][0] == u.s[i];
    }
  }

  lemma BranchAnchored(b: Branch)
    requires b.Cons? && b.head.atom == Bol && (b.head.rep.One? || b.head.rep.Plus?)
    ensures Anchored(Last(b))
  {
    forall u: Subject, i: nat, j: nat | AltsSpan(Last(b), u, i, j)
      ensures i == u.bol
    {
      var m := FirstPiece(b, Bol, u, i, j);
    }
  }

  // ----- the chain of nodes through a branch -----

  /** The nodes c, each linked to the next and the last one to q. */
  ghost predicate Chain(code: seq<byte>, c: seq<int>, q: int) {
    |c| > 0
    && (forall k :: 0 <= k < |c| ==> 0 <= c[k] && c[k] + 3 <= |code|)
    && (forall k :: 0 <= k < |c| ==> Next(code, c[k]) == if k + 1 < |c| then c[k + 1] else q)
  }

  /** Literals among the nodes are ones that the branch requires. */
  ghost predicate Literals(code: seq<byte>, c: seq<int>, b: Branch) {
    forall k :: 0 <= k < |c| && 0 <= c[k] < |code| && code[c[k]] == EXACTLY ==> Literal(code, c[k], b)
  }

  ghost predicate Literal(code: seq<byte>, p: int, b: Branch) {
    exists cs: seq<byte> :: At(code, p + 3, cs + [NUL]) && CharsOk(cs) && |cs| > 0 && BranchRequires(b, cs)
  }

  lemma ChainJoin(code: seq<byte>, c: seq<int>, d: seq<int>, q: int)
    requires |d| > 0 && Chain(code, c, d[0]) && Chain(code, d, q)
    ensures Chain(code, c + d, q)
  {
    hide Next;
    forall k | 0 <= k < |c + d|
      ensures Next(code, (c + d)[k]) == if k + 1 < |c + d| then (c + d)[k + 1] else q
    {
      if k < |c| {
        assert Next(code, c[k]) == if k + 1 < |c| then c[k + 1] else d[0];
      } else {
        assert Next(code, d[k - |c|]) == if k - |c| + 1 < |d| then d[k - |c| + 1] else q;
      }
    }
  }

  lemma LiteralsJoin(code: seq<byte>, c: seq<int>, d: seq<int>, b: Branch)
    requires Literals(code, c, b) && Literals(code, d, b)
    ensures Literals(code, c + d, b)
  {
    hide Literal;
  }

  /** One node that is not a literal. */
  lemma OneNode(code: seq<byte>, p: int, op: byte, off: nat, b: Branch)
    requires At(code, p, Node(op, off)) && op != BACK && op != EXACTLY && 0 < off < 65536
    ensures Chain(code, [p], p + off) && Literals(code, [p], b) && 0 <= p && p + 3 <= |code|
  {
    hide Literal;
    AtNode(code, p, op, off);
  }

  lemma {:induction false} AltsChain(code: seq<byte>, p: int, l: Alts, b: Branch) returns (c: seq<int>)
    requires At(code, p, AltsCode(l)) && |code| <= CODE_LIMIT
    ensures Chain(code, c, p + AltsSize(l)) && Literals(code, c, b) && c[0] == p
    decreases l
  {
    hide At, AltsCode, BranchCode, Node, Chain, Literals, BranchSize;
    AtFits(code, p, AltsCode(l));
    if l.Last? {
      LastAt(code, p, l.b);
      OneNode(code, p, BRANCH, 3 + BranchSize(l.b), b);
      c := [p];
    } else {
      OrAt(code, p, l.b, l.rest);
      OneNode(code, p, BRANCH, 3 + BranchSize(l.b), b);
      var d := AltsChain(code, p + 3 + BranchSize(l.b), l.rest, b);
      ChainSome(code, d, p + AltsSize(l));
      ChainJoin(code, [p], d, p + AltsSize(l));
      LiteralsJoin(code, [p], d, b);
      c := [p] + d;
    }
  }

  lemma ChainSome(code: seq<byte>, c: seq<int>, q: int)
    requires Chain(code, c, q)
    ensures |c| > 0
  {}

  /** The nodes of an atom led d bytes past its end. */
  lemma AtomChain(code: seq<byte>, p: int, a: Atom, d: nat, b: Branch) returns (c: seq<int>)
    requires At(code, p, AtomCode(a, To(d))) && p + AtomSize(a) + d < |code| <= CODE_LIMIT && AtomOk(a)
    requires a.Exactly? ==> BranchRequires(b, a.cs)
    ensures Chain(code, c, p + AtomSize(a) + d) && Literals(code, c, b) && c[0] == p
  {
    hide At, AtomCode, AltsCode, Node, Chain, Literals, AltsOk, BranchRequires;
    AtFits(code, p, AtomCode(a, To(d)));
    if a.Group? {
      GroupAt(code, p, a, To(d));
      var q := p + 3 + AltsSize(a.alts);
      OneNode(code, p, OPEN + a.n, 3, b);
      var e := AltsChain(code, p + 3, a.alts, b);
      OneNode(code, q, CLOSE + a.n, 3 + d, b);
      ChainSome(code, e, q);
      ChainJoin(code, [p], e, q);
      ChainJoin(code, [p] + e, [q], q + 3 + d);
      LiteralsJoin(code, [p], e, b);
      LiteralsJoin(code, [p] + e, [q], b);
      c := [p] + e + [q];
    } else {
      LeafAt(code, p, a, To(d));
      c := [p];
      if a.Exactly? {
        LiteralNode(code, p, AtomSize(a) + d, a.cs, b);
      } else {
        OneNode(code, p, LeafOp(a), AtomSize(a) + d, b);
      }
    }
  }

  lemma LiteralNode(code: seq<byte>, p: int, off: nat, cs: seq<byte>, b: Branch)
    requires At(code, p, Node(EXACTLY, off)) && At(code, p + 3, cs + [NUL]) && CharsOk(cs) && |cs| > 0
    requires BranchRequires(b, cs) && 0 < off < 65536
    ensures Chain(code, [p], p + off) && Literals(code, [p], b)
  {
    AtNode(code, p, EXACTLY, off);
    assert Literal(code, p, b);
  }

  lemma PieceChain(code: seq<byte>, p: int, x: Piece, d: nat, b: Branch) returns (c: seq<int>)
    requires At(code, p, PieceCode(x, To(d))) && p + PieceSize(x) + d < |code| <= CODE_LIMIT && PieceOk(x)
    requires forall cs :: Requires(x, cs) ==> BranchRequires(b, cs)
    ensures Chain(code, c, p + PieceSize(x) + d) && Literals(code, c, b) && c[0] == p
  {
    hide At, AtomCode, LoopCode, Node, Chain, Literals, AtomOk, BranchRequires, AtomSize, AtomWidth;
    AtFits(code, p, PieceCode(x, To(d)));
    var n := AtomSize(x.atom);
    if x.rep.One? {
      assert x.atom.Exactly? ==> Requires(x, x.atom.cs);
      c := AtomChain(code, p, x.atom, d, b);
    } else if RunsInPlace(x) {
      var op := if x.rep.Star? then STAR else PLUS;
      AtSplit(code, p, Node(op, PieceSize(x) + d), AtomCode(x.atom, Unlinked));
      OneNode(code, p, op, PieceSize(x) + d, b);
      c := [p];
    } else {
      AtSplit(code, p, LoopCode(x), Node(NOTHING, 3 + d));
      c := LoopChain(code, p, x, b);
      var q := p + LoopSize(x);
      OneNode(code, q, NOTHING, 3 + d, b);
      ChainSome(code, c, q);
      ChainJoin(code, c, [q], q + 3 + d);
      LiteralsJoin(code, c, [q], b);
      c := c + [q];
    }
  }

  lemma LoopChain(code: seq<byte>, p: int, x: Piece, b: Branch) returns (c: seq<int>)
    requires !x.rep.One? && At(code, p, LoopCode(x)) && p + LoopSize(x) + 3 <= |code| <= CODE_LIMIT && PieceOk(x)
    requires forall cs :: Requires(x, cs) ==> BranchRequires(b, cs)
    ensures Chain(code, c, p + LoopSize(x)) && Literals(code, c, b) && c[0] == p
  {
    hide At, AtomCode, LoopCode, Node, Chain, Literals, AtomOk, BranchRequires, AtomSize, AtomWidth;
    AtFits(code, p, LoopCode(x));
    var n := AtomSize(x.atom);
    match x.rep
    case Star =>
      StarAt(code, p, x);
      c := TwoNodes(code, p, n + 6, b);
    case Quest =>
      QuestAt(code, p, x);
      c := TwoNodes(code, p, n + 3, b);
    case Plus =>
      PlusAt(code, p, x);
      assert x.atom.Exactly? ==> Requires(x, x.atom.cs);
      var e := AtomChain(code, p, x.atom, 0, b);
      var f := TwoNodes(code, p + n, 6, b);
      ChainSome(code, e, p + n);
      ChainSome(code, f, p + n + 9);
      ChainJoin(code, e, f, p + n + 9);
      LiteralsJoin(code, e, f, b);
      c := e + f;
  }

  lemma TwoNodes(code: seq<byte>, p: int, gap: nat, b: Branch) returns (c: seq<int>)
    requires At(code, p, Node(BRANCH, gap)) && At(code, p + gap, Node(BRANCH, 3)) && gap >= 3 && |code| <= CODE_LIMIT
    ensures Chain(code, c, p + gap + 3) && Literals(code, c, b) && c[0] == p
  {
    hide Chain, Literals, Node;
    AtFits(code, p, Node(BRANCH, gap));
    AtFits(code, p + gap, Node(BRANCH, 3));
    OneNode(code, p, BRANCH, gap, b);
    OneNode(code, p + gap, BRANCH, 3, b);
    ChainJoin(code, [p], [p + gap], p + gap + 3);
    LiteralsJoin(code, [p], [p + gap], b);
    c := [p] + [p + gap];
  }

  /** The nodes of a branch; whole is the branch of which b is a part. */
  lemma {:induction false} BranchChain(code: seq<byte>, p: int, b: Branch, d: nat, whole: Branch) returns (c: seq<int>)
    requires At(code, p, BranchCode(b, To(d))) && p + BranchSize(b) + d < |code| <= CODE_LIMIT && BranchOk(b)
    requires forall cs :: BranchRequires(b, cs) ==> BranchRequires(whole, cs)
    ensures Chain(code, c, p + BranchSize(b) + d) && Literals(code, c, whole) && c[0] == p
    decreases b
  {
    hide At, PieceCode, BranchCode, Node, Chain, Literals, PieceOk, PieceSize;
    AtFits(code, p, BranchCode(b, To(d)));
    if b.Nil? {
      NilCode(To(d));
      OneNode(code, p, NOTHING, 3 + d, whole);
      c := [p];
    } else {
      forall cs | Requires(b.head, cs) ensures BranchRequires(whole, cs) {
        assert BranchRequires(b, cs);
      }
      if b.tail.Nil? {
        OnePieceCode(b.head, To(d));
        c := PieceChain(code, p, b.head, d, whole);
      } else {
        ConsAt(code, p, b.head, b.tail, To(d));
        var e := PieceChain(code, p, b.head, 0, whole);
        var q := p + PieceSize(b.head);
        forall cs | BranchRequires(b.tail, cs) ensures BranchRequires(whole, cs) {
          assert BranchRequires(b, cs);
        }
        var f := BranchChain(code, q, b.tail, d, whole);
        ChainSome(code, e, q);
        ChainSome(code, f, p + BranchSize(b) + d);
        ChainJoin(code, e, f, p + BranchSize(b) + d);
        LiteralsJoin(code, e, f, whole);
        c := e + f;
      }
    }
  }

  lemma NilCode(t: Tail)
    ensures BranchCode(Nil, t) == Node(NOTHING, Offset(3, t))
  {
    hide Node;
  }

  // ----- TclRegComp, second half -----

  /** A compiled pattern; regmust is an address in the program. */
  datatype Regexp = Regexp(program: seq<byte>, regstart: byte, reganch: bool, regmust: Option<nat>, regmlen: nat)

  datatype Result = Ok(r: Regexp) | Err(error: Error)

  /** The program is that of l, and what was dug out of it is true of l. */
  ghost predicate IsFor(r: Regexp, l: Alts) {
    && AltsOk(l) && r.program == Program(l) && |r.program| < CODE_LIMIT
    && (r.regstart != NUL ==> StartsWith(l, r.regstart))
    && (r.reganch ==> Anchored(l))
    && (r.regmust.Some? ==>
          exists cs: seq<byte> ::
            At(r.program, r.regmust.value, cs + [NUL]) && CharsOk(cs) && |cs| == r.regmlen > 0 && MustHave(l, cs))
  }

  lemma OneAlternative(l: Alts)
    requires |Program(l)| < CODE_LIMIT
    ensures var code := Program(l);
            && |code| >= 10 && Next(code, 1) >= 0 && Next(code, 1) + 3 <= |code|
            && (code[Next(code, 1)] == END <==> l.Last?)
            && (l.Last? ==> At(code, 4, BranchCode(l.b, To(0))) && Next(code, 1) == 4 + BranchSize(l.b)
                            && At(code, 4 + BranchSize(l.b), Node(END, 0)))
  {
    hide AltsCode, BranchCode, Node, At, Next;
    var code := Program(l);
    ProgramAt(l);
    AtFits(code, 1, AltsCode(l));
    AtNode(code, 1 + AltsSize(l), END, 0);
    if l.Last? {
      LastAt(code, 1, l.b);
      AtNode(code, 1, BRANCH, 3 + BranchSize(l.b));
    } else {
      OrAt(code, 1, l.b, l.rest);
      AtNode(code, 1, BRANCH, 3 + BranchSize(l.b));
      FirstBranchAt(code, 4 + BranchSize(l.b), l.rest);
      AtNode(code, 4 + BranchSize(l.b), BRANCH, 3 + BranchSize(l.rest.b));
    }
  }

  lemma FirstBranchAt(code: seq<byte>, p: int, l: Alts)
    requires At(code, p, AltsCode(l))
    ensures At(code, p, Node(BRANCH, 3 + BranchSize(l.b))) && 0 <= p && p + 3 + BranchSize(l.b) <= |code|
  {
    hide At, AltsCode, BranchCode, Node, BranchSize;
    AtFits(code, p, AltsCode(l));
    if l.Last? {
      LastAt(code, p, l.b);
    } else {
      OrAt(code, p, l.b, l.rest);
    }
    FirstSize(l);
  }

  lemma FirstSize(l: Alts)
    ensures 3 + BranchSize(l.b) <= AltsSize(l)
  {
    hide BranchSize;
  }

  lemma ProgramAt(l: Alts)
    ensures At(Program(l), 1, AltsCode(l)) && At(Program(l), 1 + AltsSize(l), Node(END, 0))
  {
    hide AltsCode, AltsSize, Node;
    assert Program(l) == [MAGIC] + AltsCode(l) + Node(END, 0) == [MAGIC] + AltsCode(l) + Node(END, 0) + [];
    AtMiddle([MAGIC], AltsCode(l), Node(END, 0));
    AtMiddle([MAGIC] + AltsCode(l), Node(END, 0), []);
  }

  /** What the first node of the only branch says. */
  lemma FirstNode(b: Branch)
    requires BranchOk(b) && |Program(Last(b))| < CODE_LIMIT
    ensures var code := Program(Last(b));
            && |code| >= 10
            && (code[4] == EXACTLY ==> |code| > 7 && StartsWith(Last(b), code[7]))
            && (code[4] == BOL ==> Anchored(Last(b)))
  {
    hide AltsCode, BranchCode, Node, At, Next, Impl, AtomOk, AtomWidth, AltsSize, BranchSize, Norm,
         StartsWith, Anchored, Program, Run;
    var code, l := Program(Last(b)), Last(b);
    OneAlternative(l);
    HaltIntro(code, 4 + BranchSize(b));
    AtFits(code, 4 + BranchSize(b), Node(END, 0));
    ImplIntro(code, 4, DoBranch(b), 4 + BranchSize(b), Halt);
    var k := Then(DoBranch(b), Halt);
    NormImpl(code, 4, k, 0);
    NormLive(k, 0);
    NormSteps(k, Subject([], 0), 0);
    NormOpAt(code, 4, Norm(k, 0), 0);
    FirstAtom(b);
    if code[4] == EXACTLY {
      var a := Norm(k, 0).item.a;
      var q := LeafImpl(code, 4, a, Norm(k, 0).k);
      StringAt(code, 7, a.cs);
      BranchStartsWith(b, a.cs);
    } else if code[4] == BOL {
      BranchAnchored(b);
    }
  }

  lemma FirstAtom(b: Branch)
    requires BranchOk(b)
    ensures var k := Norm(Then(DoBranch(b), Halt), 0);
            k.Then? && k.item.DoAtom? ==>
              b.Cons? && b.head.atom == k.item.a && (b.head.rep.One? || b.head.rep.Plus?) && AtomOk(k.item.a)
  {}

  lemma ChainNext(code: seq<byte>, c: seq<int>, q: int, n: nat)
    requires Chain(code, c, q) && n < |c|
    ensures 0 <= c[n] && c[n] + 3 <= |code| && Next(code, c[n]) == if n + 1 < |c| then c[n + 1] else q
  {
    hide Next;
  }

  predicate IsExactly(code: seq<byte>, p: int) {
    0 <= p < |code| && code[p] == EXACTLY
  }

  /** k is a literal on the chain c, no earlier one is longer, and every later one is shorter. */
  ghost predicate LongestOn(code: seq<byte>, c: seq<int>, k: nat) {
    && k < |c| && IsExactly(code, c[k])
    && forall m :: 0 <= m < |c| && IsExactly(code, c[m]) ==>
         if m <= k then StrLen(code, c[m] + 3) <= StrLen(code, c[k] + 3)
         else StrLen(code, c[m] + 3) < StrLen(code, c[k] + 3)
  }

  /** What was found on the nodes c so far. */
  ghost predicate LongestSoFar(code: seq<byte>, c: seq<int>, longest: Option<nat>, len: nat) {
    match longest
    case None => len == 0 && forall m :: 0 <= m < |c| ==> !IsExactly(code, c[m])
    case Some(p) => exists k: nat :: LongestOn(code, c, k) && p == c[k] + 3 && len == StrLen(code, p)
  }

  lemma LongestNext(code: seq<byte>, c: seq<int>, longest: Option<nat>, len: nat, p: int)
    requires LongestSoFar(code, c, longest, len)
    ensures !IsExactly(code, p) ==> LongestSoFar(code, c + [p], longest, len)
    ensures IsExactly(code, p) ==>
              if StrLen(code, p + 3) >= len then LongestSoFar(code, c + [p], Some(p + 3), StrLen(code, p + 3))
              else LongestSoFar(code, c + [p], longest, len)
  {
    hide StrLen;
    var d := c + [p];
    if longest.Some? {
      var k: nat :| LongestOn(code, c, k) && longest.value == c[k] + 3 && len == StrLen(code, longest.value);
      if IsExactly(code, p) && StrLen(code, p + 3) >= len {
        LongestLast(code, c, k, p);
      } else {
        LongestStays(code, c, k, p);
      }
      assert d[k] == c[k];
    } else if IsExactly(code, p) {
      LongestFirst(code, c, p);
    }
    assert d[|c|] == p;
  }

  lemma LongestLast(code: seq<byte>, c: seq<int>, k: nat, p: int)
    requires LongestOn(code, c, k) && IsExactly(code, p) && StrLen(code, p + 3) >= StrLen(code, c[k] + 3)
    ensures LongestOn(code, c + [p], |c|)
  {
    hide StrLen;
    var d := c + [p];
    forall m | 0 <= m < |d| && IsExactly(code, d[m]) ensures StrLen(code, d[m] + 3) <= StrLen(code, p + 3) {
      if m < |c| { assert d[m] == c[m]; }
    }
  }

  lemma LongestStays(code: seq<byte>, c: seq<int>, k: nat, p: int)
    requires LongestOn(code, c, k) && (IsExactly(code, p) ==> StrLen(code, p + 3) < StrLen(code, c[k] + 3))
    ensures LongestOn(code, c + [p], k)
  {
    hide StrLen;
    var d := c + [p];
    assert d[k] == c[k];
    forall m | 0 <= m < |c| ensures d[m] == c[m] {}
  }

  lemma LongestFirst(code: seq<byte>, c: seq<int>, p: int)
    requires (forall m :: 0 <= m < |c| ==> !IsExactly(code, c[m])) && IsExactly(code, p)
    ensures LongestOn(code, c + [p], |c|)
  {
    hide StrLen;
    var d := c + [p];
    forall m | 0 <= m < |c| ensures d[m] == c[m] {}
  }

  /** The longest literal on the chain, later ones winning ties; the branch requires it. */
  method LongestLiteral(program: seq<byte>, first: nat, ghost b: Branch, ghost c: seq<int>)
    returns (longest: Option<nat>, len: nat)
    requires Chain(program, c + [|program| - 3], -1) && Literals(program, c + [|program| - 3], b) && c != []
             && c[0] == first
    ensures LongestSoFar(program, c + [|program| - 3], longest, len)
    ensures longest.Some? ==>
              exists cs: seq<byte> ::
                At(program, longest.value, cs + [NUL]) && CharsOk(cs) && |cs| == len > 0 && BranchRequires(b, cs)
  {
    hide At, BranchRequires, Next, CharsOk, LongestSoFar;
    longest, len := None, 0;
    var scan: int := first;
    ghost var d, n := c + [|program| - 3], 0;
    NothingSoFar(program);
    assert d[..0] == [];
    while scan != NULL
      invariant 0 <= n <= |d| && scan == (if n < |d| then d[n] else NULL)
      invariant LongestSoFar(program, d[..n], longest, len)
      invariant longest.Some? ==>
                  exists cs: seq<byte> ::
                    At(program, longest.value, cs + [NUL]) && CharsOk(cs) && |cs| == len > 0 && BranchRequires(b, cs)
      decreases |d| - n
    {
      LongestNext(program, d[..n], longest, len, scan);
      assert d[..n] + [scan] == d[..n + 1];
      if program[scan] == EXACTLY {
        assert Literal(program, d[n], b);
        ghost var cs: seq<byte> :| At(program, scan + 3, cs + [NUL]) && CharsOk(cs) && |cs| > 0
                                   && BranchRequires(b, cs);
        StrLenIs(program, scan + 3, cs);
        if StrLen(program, scan + 3) >= len {
          longest := Some(scan + 3);
          len := StrLen(program, scan + 3);
        }
      }
      ChainNext(program, d, -1, n);
      scan := Next(program, scan);
      n := n + 1;
    }
    assert d[..|d|] == d;
  }

  lemma NothingSoFar(code: seq<byte>)
    ensures LongestSoFar(code, [], None, 0)
  {}

  lemma WholeChain(b: Branch) returns (c: seq<int>)
    requires BranchOk(b) && |Program(Last(b))| < CODE_LIMIT
    ensures var code := Program(Last(b));
            && c != [] && c[0] == 4 && |code| >= 3
            && Chain(code, c + [|code| - 3], -1) && Literals(code, c + [|code| - 3], b)
  {
    hide AltsCode, BranchCode, Node, At, Next, Chain, Literals, BranchRequires, PieceOk;
    var code := Program(Last(b));
    var q := 4 + BranchSize(b);
    OneAlternative(Last(b));
    AtFits(code, q, Node(END, 0));
    c := BranchChain(code, 4, b, 0, b);
    ChainSome(code, c, q);
    EndNode(code, q, b);
    ChainJoin(code, c, [q], -1);
    LiteralsJoin(code, c, [q], b);
    LastSizes(b);
  }

  lemma LastSizes(b: Branch)
    ensures |Program(Last(b))| == 7 + BranchSize(b)
  {
    hide BranchSize;
  }

  lemma EndNode(code: seq<byte>, p: int, b: Branch)
    requires At(code, p, Node(END, 0))
    ensures Chain(code, [p], -1) && Literals(code, [p], b)
  {
    hide Literal;
    AtNode(code, p, END, 0);
  }

  /** What is dug out of a program with one alternative. */
  method DigOut(program: seq<byte>, expensive: bool, ghost l: Alts) returns (r: Regexp)
    requires AltsOk(l) && program == Program(l) && |program| < CODE_LIMIT
    ensures IsFor(r, l)
  {
    hide Program, BranchRequires, MustHave, StartsWith, Anchored, Chain, Literals, Next, LongestSoFar;
    OneAlternative(l);
    var regstart, reganch := NUL, false;
    var regmust, regmlen: nat := None, 0;
    if program[Next(program, 1)] == END {
      FirstNode(l.b);
      var scan := 4;
      if program[scan] == EXACTLY {
        regstart := program[scan + 3];
      } else if program[scan] == BOL {
        reganch := true;
      }
      if expensive {
        ghost var nodes := WholeChain(l.b);
        regmust, regmlen := LongestLiteral(program, scan, l.b, nodes);
        if regmust.Some? {
          ghost var cs: seq<byte> :|
            At(program, regmust.value, cs + [NUL]) && CharsOk(cs) && |cs| == regmlen > 0 && BranchRequires(l.b, cs);
          BranchMustHave(l.b, cs);
        }
      }
    }
    r := Regexp(program, regstart, reganch, regmust, regmlen);
  }

  /** TclRegComp */
  method TclRegComp(exp: Option<seq<byte>>) returns (r: Result)
    requires exp.Some? ==> CharsOk(exp.value)
    ensures exp.None? ==> r == Err(NullArgument)
    ensures exp.Some? ==>
      match ParseReg(exp.value, 0, 1, false)
      case Fail(e) => r == Err(e)
      case Ok(l, _, _) => if |Program(l)| >= CODE_LIMIT then r == Err(TooBig) else r.Ok? && IsFor(r.r, l)
  {
    hide Program, BranchRequires, MustHave, StartsWith, Anchored, Chain, Literals, Next;
    var c := CompileProgram(exp);
    if c.Failed? {
      return Err(c.error);
    }
    ParseRegOk(exp.value, 0, 1, false);
    ghost var l := ParseReg(exp.value, 0, 1, false).value;
    OneAlternative(l);
    var regexp := DigOut(c.program, c.flags.spStart, l);
    r := Result.Ok(regexp);
  }

  // ----- TclRegExec -----

  datatype Found = Found(at: nat, m: Match)

  /** Trying every place from k on, the end included: the first that matches. */
  function Search(l: Alts, u: Subject, k: nat): Option<Found>
    requires k <= |u.s|
    decreases |u.s| - k
  {
    var r := Try(l, u, k);
    if r.Some? then Some(Found(k, r.value))
    else if k < |u.s| then Search(l, u, k + 1)
    else None
  }

  /** Places that cannot match are passed over. */
  lemma {:induction false} SearchFrom(l: Alts, u: Subject, k: nat, n: nat)
    requires k <= n <= |u.s| && forall x :: k <= x < n ==> Try(l, u, x).None?
    ensures Search(l, u, k) == Search(l, u, n)
    decreases n - k
  {
    hide Try;
    if k < n {
      SearchFrom(l, u, k + 1, n);
    }
  }

  lemma {:induction false} SearchNone(l: Alts, u: Subject, k: nat)
    requires k <= |u.s| && forall x :: k <= x <= |u.s| ==> Try(l, u, x).None?
    ensures Search(l, u, k) == None
    decreases |u.s| - k
  {
    hide Try;
    if k < |u.s| {
      SearchNone(l, u, k + 1);
    }
  }

  /** strchr from i on: the next place where c stands. */
  function FindChar(s: seq<byte>, i: nat, c: byte): (r: Option<nat>)
    ensures r.Some? ==> i <= r.value < |s| && s[r.value] == c && forall x :: i <= x < r.value ==> s[x] != c
    ensures r.None? ==> forall x :: i <= x < |s| ==> s[x] != c
    decreases |s| - i
  {
    if i >= |s| then None else if s[i] == c then Some(i) else FindChar(s, i + 1, c)
  }

  lemma NotHere(l: Alts, c: byte, u: Subject, k: nat)
    requires StartsWith(l, c) && k <= |u.s| && (k < |u.s| ==> u.s[k] != c)
    ensures Try(l, u, k).None?
  {
    hide Try, AltsSpan, AltsPath;
    TryMeans(l, u, k);
  }

  lemma NotAnchored(l: Alts, u: Subject, k: nat)
    requires Anchored(l) && k <= |u.s| && k != u.bol
    ensures Try(l, u, k).None?
  {
    hide Try, AltsSpan, AltsPath;
    TryMeans(l, u, k);
  }

  lemma NotWithout(l: Alts, cs: seq<byte>, u: Subject, k: nat, from: nat)
    requires MustHave(l, cs) && from <= k <= |u.s| && forall p: nat :: from <= p ==> !OccursAt(u.s, p, cs)
    ensures Try(l, u, k).None?
  {
    hide Try, AltsSpan, AltsPath;
    TryMeans(l, u, k);
  }

  /** The recorded boundaries after a match: those of its path, and the whole in place 0. */
  ghost predicate Recorded(starts: seq<int>, ends: seq<int>, f: Found) {
    |starts| == |ends| == NSUBEXP && starts[0] == f.at && ends[0] == f.m.end
    && forall n :: 0 < n < NSUBEXP ==> starts[n] == StartOf(f.m.path, n) && ends[n] == EndOf(f.m.path, n)
  }

  method RegTry(st: RegExecState, from: nat, ghost l: Alts) returns (ok: bool)
    requires st.Valid() && st.code == Program(l) && AltsOk(l) && from <= |st.s|
    modifies st`reginput, st.startp, st.endp
    ensures ok == Try(l, st.Subj(), from).Some?
    ensures ok ==> Recorded(st.startp[..], st.endp[..], Found(from, Try(l, st.Subj(), from).value))
  {
    hide Impl, Live, Run, Program;
    st.reginput := from;
    var i := 0;
    while i < NSUBEXP
      invariant 0 <= i <= NSUBEXP && forall n :: 0 <= n < i ==> st.startp[n] == -1 && st.endp[n] == -1
      modifies st.startp, st.endp
    {
      st.startp[i], st.endp[i] := -1, -1;
      i := i + 1;
    }
    ProgramImpl(l, from);
    ok := st.RegMatch(1, Then(DoAlts(l), Halt));
    if ok {
      st.startp[0], st.endp[0] := from, st.reginput;
    }
  }

  lemma OccursFirst(s: seq<byte>, p: nat, cs: seq<byte>)
    requires OccursAt(s, p, cs) && cs != []
    ensures p < |s| && s[p] == cs[0]
  {
    assert s[p..p + |cs|][0] == s[p];
  }

  /** The must-appear test: false only if the string does not occur from there on. */
  method MustAppear(r: Regexp, s: seq<byte>, from: nat, ghost cs: seq<byte>) returns (present: bool)
    requires r.regmust.Some? && At(r.program, r.regmust.value, cs + [NUL]) && CharsOk(cs) && |cs| == r.regmlen > 0
    requires from <= |s| && CharsOk(s)
    ensures !present ==> forall p: nat :: from <= p ==> !OccursAt(s, p, cs)
  {
    hide At, CharsOk;
    var must := r.regmust.value;
    StringAt(r.program, must, cs);
    var at := FindChar(s, from, r.program[must]);
    forall p: nat | OccursAt(s, p, cs) ensures p < |s| && s[p] == cs[0] { OccursFirst(s, p, cs); }
    while at.Some?
      invariant at.Some? ==> from <= at.value < |s|
      invariant forall p: nat :: from <= p && (at.Some? ==> p < at.value) ==> !OccursAt(s, p, cs)
      decreases if at.Some? then |s| - at.value else 0
    {
      SameCharsIs(r.program, must, cs, s, at.value);
      if SameChars(r.program, must, s, at.value, r.regmlen) {
        return true;
      }
      at := FindChar(s, at.value + 1, r.program[must]);
    }
    present := false;
  }

  /** TclRegExec: searches s from a place on; start is where the line begins, no later than
      that.  The answer, the leftmost place and the group boundaries are those of trying
      every place. */
  method TclRegExec(r: Regexp, s: seq<byte>, from: nat, start: nat, ghost l: Alts)
    returns (ok: bool, starts: seq<int>, ends: seq<int>)
    requires IsFor(r, l) && CharsOk(s) && start <= from <= |s|
    ensures var f := Search(l, Subject(s, start), from);
            ok == f.Some? && (ok ==> Recorded(starts, ends, f.value))
  {
    hide Search, Try, MustHave, StartsWith, Anchored, At, Program;
    ghost var u := Subject(s, start);
    starts, ends := [], [];
    if r.regmust.Some? {
      ghost var cs: seq<byte> :|
        At(r.program, r.regmust.value, cs + [NUL]) && CharsOk(cs) && |cs| == r.regmlen > 0 && MustHave(l, cs);
      var present := MustAppear(r, s, from, cs);
      if !present {
        forall x | from <= x <= |s| ensures Try(l, u, x).None? {
          NotWithout(l, cs, u, x, from);
        }
        SearchNone(l, u, from);
        return false, starts, ends;
      }
    }
    var st := new RegExecState(r.program, s, start);
    if r.reganch {
      ok := RegTry(st, from, l);
      starts, ends := st.startp[..], st.endp[..];
      AnchoredSearch(l, u, from);
    } else if r.regstart != NUL {
      var at := FindChar(s, from, r.regstart);
      SkipTo(l, u, from, r.regstart, at);
      while at.Some?
        invariant st.regbol == start
        invariant at.Some? ==> from <= at.value < |s| && Search(l, u, from) == Search(l, u, at.value)
        invariant at.None? ==> Search(l, u, from) == None
        decreases if at.Some? then |s| - at.value else 0
      {
        ok := RegTry(st, at.value, l);
        SearchStep(l, u, at.value);
        if ok {
          return true, st.startp[..], st.endp[..];
        }
        var next := at.value + 1;
        at := FindChar(s, next, r.regstart);
        SkipTo(l, u, next, r.regstart, at);
      }
      ok := false;
    } else {
      var at := from;
      var more := true;
      while more
        invariant st.regbol == start
        invariant more ==> from <= at <= |s| && Search(l, u, from) == Search(l, u, at)
        invariant !more ==> Search(l, u, from) == None
        decreases more, |s| - at
      {
        ok := RegTry(st, at, l);
        SearchStep(l, u, at);
        if ok {
          return true, st.startp[..], st.endp[..];
        }
        more := Peek(s, at) != NUL;
        at := at + 1;
      }
      ok := false;
    }
  }

  lemma SearchStep(l: Alts, u: Subject, k: nat)
    requires k <= |u.s|
    ensures Search(l, u, k) ==
            if Try(l, u, k).Some? then Some(Found(k, Try(l, u, k).value))
            else if k < |u.s| then Search(l, u, k + 1)
            else None
  {
    hide Try;
  }

  lemma AnchoredSearch(l: Alts, u: Subject, k: nat)
    requires Anchored(l) && u.bol <= k <= |u.s|
    ensures Search(l, u, k) == if Try(l, u, k).Some? then Some(Found(k, Try(l, u, k).value)) else None
  {
    hide Try, Anchored, Search;
    SearchStep(l, u, k);
    if k < |u.s| {
      forall x | k + 1 <= x <= |u.s| ensures Try(l, u, x).None? {
        NotAnchored(l, u, x);
      }
      SearchNone(l, u, k + 1);
    }
  }

  lemma SkipTo(l: Alts, u: Subject, k: nat, c: byte, at: Option<nat>)
    requires StartsWith(l, c) && k <= |u.s| && at == FindChar(u.s, k, c)
    ensures if at.Some? then Search(l, u, k) == Search(l, u, at.value) else Search(l, u, k) == None
  {
    hide Try, StartsWith, Search;
    var n := if at.Some? then at.value else |u.s|;
    forall x | k <= x < n ensures Try(l, u, x).None? {
      NotHere(l, c, u, x);
    }
    if at.Some? {
      SearchFrom(l, u, k, n);
    } else {
      NotHere(l, c, u, n);
      SearchNone(l, u, k);
    }
  }

  // ----- from pattern to answer -----

  /** A search succeeds exactly when the pattern matches some span from there on, and finds
      the leftmost place where it does. */
  lemma SearchMeans(l: Alts, u: Subject, from: nat)
    requires from <= |u.s|
    ensures var f := Search(l, u, from);
            && (f.Some? <==> exists i: nat, j: nat :: from <= i && AltsSpan(l, u, i, j))
            && (f.Some? ==> from <= f.value.at <= |u.s| && AltsPath(l, u, f.value.at, f.value.m.end, f.value.m.path)
                            && AltsSpan(l, u, f.value.at, f.value.m.end))
            && (f.Some? ==> forall i: nat, j: nat :: from <= i < f.value.at ==> !AltsSpan(l, u, i, j))
    decreases |u.s| - from
  {
    hide Try, AltsPath;
    TryMeans(l, u, from);
    if Try(l, u, from).None? {
      if from < |u.s| {
        SearchMeans(l, u, from + 1);
      } else {
        forall i: nat, j: nat | from <= i ensures !AltsSpan(l, u, i, j) {
          if i == from {
            assert !AltsSpan(l, u, from, j);
          } else if AltsSpan(l, u, i, j) {
            AltsInside(l, u, i, j);
          }
        }
      }
    }
  }
}
