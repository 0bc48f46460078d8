/** The matcher of exp_clib.c: a backtracking interpreter of the byte program, and the same
    as matching over the tree. */
module RegExec {
  import opened Chars
  import opened RegSyntax
  import opened RegCode
  import opened RegLink
  import opened RegMeaning
  import opened RegPaths
  import opened RegBacktrack
  import opened RegRuns

  const NULL: int := -1

  // ----- C strings -----

  /** strlen of the string at p. */
  function StrLen(code: seq<byte>, p: nat): nat
    decreases |code| - p
  {
    if p < |code| && code[p] != NUL then 1 + StrLen(code, p + 1) else 0
  }

  /** strchr(p, c) != NULL */
  predicate StrChr(code: seq<byte>, p: nat, c: byte)
    decreases |code| - p
  {
    p < |code| && (code[p] == c || (code[p] != NUL && StrChr(code, p + 1, c)))
  }

  /** strncmp(p, q, n) == 0, q a position of s */
  predicate SameChars(code: seq<byte>, p: nat, s: seq<byte>, q: nat, n: nat)
    decreases n
  {
    n == 0 || (Peek(code, p) == Peek(s, q) && (Peek(code, p) == NUL || SameChars(code, p + 1, s, q + 1, n - 1)))
  }

  lemma {:induction false} StrLenIs(code: seq<byte>, p: nat, cs: seq<byte>)
    requires At(code, p, cs + [NUL]) && CharsOk(cs)
    ensures StrLen(code, p) == |cs|
    decreases |cs|
  {
    StringAt(code, p, cs);
    if cs != [] {
      StrLenIs(code, p + 1, cs[1..]);
    }
  }

  /** The first character of a string in the code, and the string after it. */
  lemma StringAt(code: seq<byte>, p: nat, cs: seq<byte>)
    requires At(code, p, cs + [NUL]) && CharsOk(cs)
    ensures p < |code| && code[p] == if cs == [] then NUL else cs[0]
    ensures cs != [] ==> At(code, p + 1, cs[1..] + [NUL]) && CharsOk(cs[1..])
  {
    assert code[p..p + |cs| + 1][0] == code[p];
    if cs != [] {
      assert cs + [NUL] == [cs[0]] + (cs[1..] + [NUL]);
      AtSplit(code, p, [cs[0]], cs[1..] + [NUL]);
    }
  }

  lemma {:induction false} StrChrIs(code: seq<byte>, p: nat, cs: seq<byte>, c: byte)
    requires At(code, p, cs + [NUL]) && CharsOk(cs) && c != NUL
    ensures StrChr(code, p, c) <==> c in cs
    decreases |cs|
  {
    StringAt(code, p, cs);
    if cs != [] {
      StrChrIs(code, p + 1, cs[1..], c);
    }
  }

  lemma {:induction false} SameCharsIs(code: seq<byte>, p: nat, cs: seq<byte>, s: seq<byte>, q: nat)
    requires At(code, p, cs + [NUL]) && CharsOk(cs) && q <= |s|
    ensures SameChars(code, p, s, q, |cs|) <==> q + |cs| <= |s| && s[q..q + |cs|] == cs
    decreases |cs|
  {
    StringAt(code, p, cs);
    if cs != [] && q < |s| && s[q] == cs[0] {
      SameCharsIs(code, p + 1, cs[1..], s, q + 1);
      if q + |cs| <= |s| {
        assert s[q..q + |cs|] == [s[q]] + s[q + 1..q + |cs|];
        assert cs == [cs[0]] + cs[1..];
        if s[q..q + |cs|] == cs {
          assert s[q + 1..q + |cs|] == s[q..q + |cs|][1..] == cs[1..];
        }
      }
    } else if cs != [] && q + |cs| <= |s| {
      assert s[q..q + |cs|][0] == s[q];
    }
  }

  // ----- repeating something simple -----

  /** The length of the longest run of a from i. */
  function RunLength(a: Atom, u: Subject, i: nat): (n: nat)
    requires Simple(a) && i <= |u.s|
    ensures i + n <= |u.s|
    decreases |u.s| - i
  {
    if i < |u.s| && Leaf(a, u, i) == Some(i + 1) then 1 + RunLength(a, u, i + 1) else 0
  }

  /** Going on after n, n - 1, ... down to min characters: the first that matches. */
  function TryDown(k: Cont, u: Subject, i: nat, n: int, min: nat): Option<Match>
    requires n >= 0 ==> i + n <= |u.s|
    decreases n + 1 - min
  {
    if n < min then None else OrElse(Run(k, u, i + n), TryDown(k, u, i, n - 1, min))
  }

  lemma {:induction false} TryDownShift(k: Cont, u: Subject, i: nat, n: nat, min: nat)
    requires i + n + 1 <= |u.s| && min <= n + 1
    ensures TryDown(k, u, i, n + 1, min) == OrElse(TryDown(k, u, i + 1, n, min), Run(k, u, i + min))
    decreases n
  {
    hide Run;
    if n + 1 == min {
      assert TryDown(k, u, i, n, min) == None;
    } else if n > 0 {
      TryDownShift(k, u, i, n - 1, min);
    } else {
      assert min == 0 && TryDown(k, u, i, 0, 0) == OrElse(Run(k, u, i), TryDown(k, u, i, -1, 0));
    }
  }

  lemma RunOne(a: Atom, u: Subject, i: nat)
    requires i < |u.s| && Simple(a) && Leaf(a, u, i) == Some(i + 1)
    ensures RunLength(a, u, i) == 1 + RunLength(a, u, i + 1)
  {
    hide Leaf;
  }

  lemma RunNone(a: Atom, u: Subject, i: nat)
    requires i <= |u.s| && Simple(a) && Leaf(a, u, i) == None
    ensures RunLength(a, u, i) == 0
  {
    hide Leaf;
  }

  /** Counting down from the longest run is what trying the loop first comes to. */
  lemma {:induction false} RepeatRun(p: Piece, k: Cont, u: Subject, i: nat)
    requires RunsInPlace(p) && i <= |u.s|
    ensures Run(Then(DoPiece(p), k), u, i)
         == TryDown(k, u, i, RunLength(p.atom, u, i), if p.rep.Star? then 0 else 1)
    decreases |u.s| - i
  {
    var a, min, here := p.atom, if p.rep.Star? then 0 else 1, Then(DoPiece(p), k);
    var n := RunLength(a, u, i);
    if n == 0 {
      assert Leaf(a, u, i) != Some(i + 1);
      assert Leaf(a, u, i).None?;
      RepeatNone(p, k, u, i);
    } else {
      RepeatRun(p, k, u, i + 1);
      RepeatOne(p, k, u, i);
      TryDownShift(k, u, i, n - 1, min);
    }
  }

  lemma SkipRun(k: Cont, u: Subject, i: nat)
    requires i <= |u.s|
    ensures Run(Then(DoBranch(Nil), k), u, i) == Run(k, u, i)
  {}

  lemma RepeatNone(p: Piece, k: Cont, u: Subject, i: nat)
    requires RunsInPlace(p) && i <= |u.s| && Leaf(p.atom, u, i).None?
    ensures Run(Then(DoPiece(p), k), u, i) == if p.rep.Star? then Run(k, u, i) else None
  {
    SkipRun(k, u, i);
    AtomNone(p.atom, Then(if p.rep.Star? then Loop(p, i) else Again(p, i), k), u, i);
  }

  lemma AtomNone(a: Atom, k: Cont, u: Subject, i: nat)
    requires !a.Group? && i <= |u.s| && Leaf(a, u, i).None?
    ensures Run(Then(DoAtom(a), k), u, i) == None
  {}

  lemma AtomSome(a: Atom, k: Cont, u: Subject, i: nat)
    requires !a.Group? && i <= |u.s| && Leaf(a, u, i).Some?
    ensures Run(Then(DoAtom(a), k), u, i) == Run(k, u, Leaf(a, u, i).value)
  {}

  lemma LoopRun(p: Piece, since: nat, k: Cont, u: Subject, i: nat)
    requires since < i <= |u.s|
    ensures Run(Then(Loop(p, since), k), u, i) == Run(Then(DoPiece(p), k), u, i)
  {}

  lemma RepeatOne(p: Piece, k: Cont, u: Subject, i: nat)
    requires RunsInPlace(p) && i < |u.s| && Leaf(p.atom, u, i) == Some(i + 1)
    ensures Run(Then(DoPiece(p), k), u, i)
         == OrElse(Run(Then(DoPiece(p), k), u, i + 1), Run(k, u, if p.rep.Star? then i else i + 1))
  {
    AtomSome(p.atom, Then(if p.rep.Star? then Loop(p, i) else Again(p, i), k), u, i);
    LoopRun(p, i, k, u, i + 1);
    SkipRun(k, u, i);
    SkipRun(k, u, i + 1);
    if p.rep.Plus? {
      assert Run(Then(Again(p, i), k), u, i + 1)
          == OrElse(Run(Then(Loop(p, i), k), u, i + 1), Run(Then(DoBranch(Nil), k), u, i + 1));
    }
  }

  /** What a literal follows cannot match where the literal's first character does not stand. */
  lemma Lookahead(code: seq<byte>, q: int, k: Cont, u: Subject, i: nat)
    requires Impl(code, q, k) && Live(k, i, false) && |code| <= CODE_LIMIT && i <= |u.s| && CharsOk(u.s)
    requires 0 <= q && q + 3 <= |code| && code[q] == EXACTLY
    ensures q + 3 < |code|
    ensures Peek(u.s, i) != code[q + 3] ==> Run(k, u, i) == None
  {
    hide Impl, Run, At;
    NormImpl(code, q, k, i);
    NormLive(k, i);
    NormSteps(k, u, i);
    NormOpAt(code, q, Norm(k, i), i);
    var k' := Norm(k, i);
    LookaheadNorm(code, q, k'.item.a, k'.k, u, i);
  }

  lemma LookaheadNorm(code: seq<byte>, q: int, a: Atom, k: Cont, u: Subject, i: nat)
    requires Impl(code, q, Then(DoAtom(a), k)) && a.Exactly? && AtomOk(a) && |code| <= CODE_LIMIT && i <= |u.s|
             && CharsOk(u.s)
    ensures q + 3 < |code| && q >= 0
    ensures Peek(u.s, i) != code[q + 3] ==> Run(Then(DoAtom(a), k), u, i) == None
  {
    hide Impl, Run;
    var x := LeafImpl(code, q, a, k);
    StringAt(code, q + 3, a.cs);
    if Peek(u.s, i) != code[q + 3] {
      if i + |a.cs| <= |u.s| {
        assert u.s[i..i + |a.cs|][0] == u.s[i];
      }
      AtomNone(a, k, u, i);
    }
  }

  /** The opcode at an address is that of the item it implements. */
  lemma NormOpAt(code: seq<byte>, p: int, k: Cont, i: nat)
    requires Impl(code, p, k) && IsNorm(k) && Live(k, i, false) && |code| <= CODE_LIMIT
    ensures 0 <= p && p + 3 <= |code| && code[p] == NormOp(k)
  {
    hide Impl, AtomOk, AtomWidth, Next;
    if k.Halt? {
      HaltImpl(code, p);
    } else if IsChoice(k) {
      AlternativesChoices(code, p, k, i);
    } else {
      var q;
      match k.item
      case DoAtom(a) =>
        if a.Group? {
          GroupImpl(code, p, a, k.k);
        } else {
          q := LeafImpl(code, p, a, k.k);
        }
      case DoPiece(x) => q := RepeatImpl(code, p, x, k.k);
      case DoBranch(_) => q := NothingImpl(code, p, k.k);
      case DoClose(n) => q := CloseImpl(code, p, n, k.k);
      case Loop(x, since) => q := BackImpl(code, p, x, since, k.k);
    }
  }

  // ----- one node at a time -----

  /** A step to what follows: the rest stays live, and there is less to do. */
  ghost predicate StepsTo(k: Cont, i: nat, k': Cont, j: nat) {
    Live(k', j, false) && (i < j || (i == j && Weight(k', i) < Weight(k, i)))
  }

  lemma LeafStep(code: seq<byte>, p: int, a: Atom, k: Cont, u: Subject, i: nat)
    requires !a.Group? && Impl(code, p, Then(DoAtom(a), k)) && Live(Then(DoAtom(a), k), i, false)
    requires |code| <= CODE_LIMIT && i <= |u.s|
    ensures 0 <= p && p + 3 <= |code| && Next(code, p) >= 0 && Impl(code, Next(code, p), k)
    ensures AtomOk(a) && At(code, p + 3, Operand(a))
    ensures Leaf(a, u, i).None? ==> Run(Then(DoAtom(a), k), u, i) == None
    ensures Leaf(a, u, i).Some? ==>
              Run(Then(DoAtom(a), k), u, i) == Run(k, u, Leaf(a, u, i).value)
              && StepsTo(Then(DoAtom(a), k), i, k, Leaf(a, u, i).value)
  {
    hide Impl, Run, At, Next;
    var q := LeafImpl(code, p, a, k);
    if Leaf(a, u, i).None? {
      AtomNone(a, k, u, i);
    } else {
      var j := Leaf(a, u, i).value;
      AtomSome(a, k, u, i);
      if i < j {
        LiveWider(k, i, AtomWidth(a), true);
        LiveAdvance(k, i, j, false);
      }
    }
  }

  lemma ExactlyLeaf(code: seq<byte>, p: nat, cs: seq<byte>, u: Subject, i: nat)
    requires At(code, p, cs + [NUL]) && CharsOk(cs) && |cs| > 0 && i <= |u.s| && CharsOk(u.s)
    ensures p < |code| && StrLen(code, p) == |cs|
    ensures Leaf(Exactly(cs), u, i) ==
            if code[p] == Peek(u.s, i) && (|cs| > 1 ==> SameChars(code, p, u.s, i, |cs|)) then Some(i + |cs|) else None
  {
    hide StrLen, SameChars, At;
    StrLenIs(code, p, cs);
    StringAt(code, p, cs);
    SameCharsIs(code, p, cs, u.s, i);
    if i + |cs| <= |u.s| {
      assert u.s[i..i + |cs|][0] == u.s[i];
      if |cs| == 1 && u.s[i] == cs[0] {
        assert u.s[i..i + |cs|] == cs;
      }
    }
  }

  lemma ClassLeaf(code: seq<byte>, p: nat, a: Atom, u: Subject, i: nat)
    requires (a.OneOf? || a.NoneOf?) && AtomOk(a) && At(code, p, a.cs + [NUL]) && i <= |u.s| && CharsOk(u.s)
    ensures Leaf(a, u, i) ==
            if Peek(u.s, i) != NUL && StrChr(code, p, Peek(u.s, i)) == a.OneOf? then Some(i + 1) else None
  {
    if i < |u.s| {
      StrChrIs(code, p, a.cs, u.s[i]);
    }
  }

  lemma NothingStep(code: seq<byte>, p: int, k: Cont, u: Subject, i: nat)
    requires Impl(code, p, Then(DoBranch(Nil), k)) && Live(Then(DoBranch(Nil), k), i, false)
    requires |code| <= CODE_LIMIT && i <= |u.s|
    ensures 0 <= p && p + 3 <= |code| && Next(code, p) >= 0 && Impl(code, Next(code, p), k)
    ensures Run(Then(DoBranch(Nil), k), u, i) == Run(k, u, i) && StepsTo(Then(DoBranch(Nil), k), i, k, i)
  {
    hide Impl, Next;
    var q := NothingImpl(code, p, k);
    SkipRun(k, u, i);
  }

  lemma BackStep(code: seq<byte>, p: int, x: Piece, since: nat, k: Cont, u: Subject, i: nat)
    requires Impl(code, p, Then(Loop(x, since), k)) && Live(Then(Loop(x, since), k), i, false)
    requires |code| <= CODE_LIMIT && i <= |u.s|
    ensures 0 <= p && p + 3 <= |code| && Next(code, p) >= 0 && Impl(code, Next(code, p), Then(DoPiece(x), k))
    ensures Run(Then(Loop(x, since), k), u, i) == Run(Then(DoPiece(x), k), u, i)
    ensures StepsTo(Then(Loop(x, since), k), i, Then(DoPiece(x), k), i)
  {
    hide Impl, Next, AtomOk, AtomWidth;
    var q := BackImpl(code, p, x, since, k);
    LoopRun(x, since, k, u, i);
    LiveWider(k, i, false, PieceWidth(x));
  }

  lemma GroupStep(code: seq<byte>, p: int, a: Atom, k: Cont, u: Subject, i: nat)
    requires a.Group? && Impl(code, p, Then(DoAtom(a), k)) && Live(Then(DoAtom(a), k), i, false)
    requires |code| <= CODE_LIMIT && i <= |u.s|
    ensures 0 <= p && p + 3 <= |code| && Next(code, p) >= 0
    ensures var k' := Both(DoAlts(a.alts), DoClose(a.n), k);
            && Impl(code, Next(code, p), k') && StepsTo(Then(DoAtom(a), k), i, k', i)
            && Run(Then(DoAtom(a), k), u, i) == Passing(Opened(a.n, i), Run(k', u, i))
  {
    hide Impl, Next, AltsOk, AltsWidth;
    GroupImpl(code, p, a, k);
    assert Live(Then(DoClose(a.n), k), i, AltsWidth(a.alts));
  }

  lemma CloseStep(code: seq<byte>, p: int, n: GroupNumber, k: Cont, u: Subject, i: nat)
    requires Impl(code, p, Then(DoClose(n), k)) && Live(Then(DoClose(n), k), i, false)
    requires |code| <= CODE_LIMIT && i <= |u.s|
    ensures 0 <= p && p + 3 <= |code| && Next(code, p) >= 0 && Impl(code, Next(code, p), k)
    ensures StepsTo(Then(DoClose(n), k), i, k, i)
    ensures Run(Then(DoClose(n), k), u, i) == Passing(Closed(n, i), Run(k, u, i))
  {
    hide Impl, Next;
    var q := CloseImpl(code, p, n, k);
  }

  // ----- captures -----

  /** Where group n was last opened on a path, or NULL. */
  function StartOf(t: Path, n: nat): int {
    if t == [] then NULL
    else
      var later := StartOf(t[1..], n);
      if later == NULL && t[0].Opened? && t[0].n == n then t[0].at else later
  }

  /** Where group n was last closed on a path, or NULL. */
  function EndOf(t: Path, n: nat): int {
    if t == [] then NULL
    else
      var later := EndOf(t[1..], n);
      if later == NULL && t[0].Closed? && t[0].n == n then t[0].at else later
  }

  lemma CaptureOpen(t: Path, n: GroupNumber, at: nat, m: nat)
    ensures var t' := [Opened(n, at)] + t;
            && StartOf(t', m) == (if StartOf(t, m) == NULL && m == n then at else StartOf(t, m))
            && EndOf(t', m) == EndOf(t, m)
  {
    assert ([Opened(n, at)] + t)[1..] == t;
  }

  lemma CaptureClose(t: Path, n: GroupNumber, at: nat, m: nat)
    ensures var t' := [Closed(n, at)] + t;
            && EndOf(t', m) == (if EndOf(t, m) == NULL && m == n then at else EndOf(t, m))
            && StartOf(t', m) == StartOf(t, m)
  {
    assert ([Closed(n, at)] + t)[1..] == t;
  }

  lemma SimpleLeaf(u: Subject, i: nat)
    requires i <= |u.s| && CharsOk(u.s)
    ensures Leaf(Bol, u, i) == if i == u.bol then Some(i) else None
    ensures Leaf(Eol, u, i) == if Peek(u.s, i) == NUL then Some(i) else None
    ensures Leaf(Any, u, i) == if Peek(u.s, i) == NUL then None else Some(i + 1)
  {}

  lemma LeafBound(a: Atom, u: Subject, i: nat)
    requires i <= |u.s| && !a.Group?
    ensures Leaf(a, u, i).Some? ==> i <= Leaf(a, u, i).value <= |u.s|
  {}

  lemma HaltRun(u: Subject, i: nat)
    requires i <= |u.s|
    ensures Run(Halt, u, i) == Some(Match(i, []))
  {}

  lemma OneChoice(code: seq<byte>, p: int, ks: seq<Cont>, u: Subject, i: nat)
    requires Choices(code, p, ks) && i <= |u.s|
    ensures |ks| > 0 && 0 <= p && p + 3 <= |code| && Impl(code, p + 3, ks[0])
    ensures var q := Next(code, p); 0 <= q && q + 3 <= |code| && (code[q] == BRANCH <==> |ks| > 1)
    ensures |ks| > 1 ==> Choices(code, Next(code, p), ks[1..])
    ensures |ks| == 1 ==> FirstOf(ks, u, i) == Run(ks[0], u, i)
    ensures FirstOf(ks, u, i) == OrElse(Run(ks[0], u, i), FirstOf(ks[1..], u, i))
  {
    hide Impl, Run, Next;
    if |ks| == 1 {
      assert ks[1..] == [];
    }
  }

  // ----- the interpreter -----

  class RegExecState {
    const code: seq<byte>
    const s: seq<byte>
    var reginput: int
    var regbol: int
    const startp: array<int>
    const endp: array<int>

    constructor (code: seq<byte>, s: seq<byte>, regbol: int)
      ensures this.code == code && this.s == s && this.regbol == regbol
      ensures fresh(startp) && fresh(endp) && startp != endp && startp.Length == endp.Length == NSUBEXP
    {
      this.code, this.s, this.regbol, this.reginput := code, s, regbol, 0;
      startp := new int[NSUBEXP];
      endp := new int[NSUBEXP];
    }

    ghost predicate Valid() {
      |code| <= CODE_LIMIT && CharsOk(s) && startp != endp && startp.Length == endp.Length == NSUBEXP
    }

    ghost function Subj(): Subject
      reads this`regbol
    {
      Subject(s, regbol)
    }

    /** The recorded boundaries are those of the path. */
    ghost predicate Captured(t: Path)
      reads startp, endp
    {
      startp.Length == endp.Length == NSUBEXP
      && forall n :: 0 <= n < NSUBEXP ==> startp[n] == StartOf(t, n) && endp[n] == EndOf(t, n)
    }

    /** What a call with k left to match and the input at i must come to. */
    ghost predicate Outcome(ok: bool, r: Option<Match>)
      reads this`reginput, startp, endp
    {
      ok == r.Some? && if ok then reginput == r.value.end && Captured(r.value.path) else Captured([])
    }

    /** The character at the input. */
    function Char(): byte
      reads this`reginput
      requires 0 <= reginput
    {
      Peek(s, reginput)
    }

    /** regrepeat: how often the simple thing at p matches from the input on. */
    method RegRepeat(p: int, ghost a: Atom) returns (count: nat)
      requires Valid() && 0 <= reginput <= |s| && Simple(a) && AtomOk(a) && At(code, p, AtomCode(a, Unlinked))
      modifies this`reginput
      ensures count == RunLength(a, Subj(), old(reginput)) && reginput == old(reginput) + count
    {
      hide At, Leaf, Node, AtomCode, StrChr, RunLength;
      ghost var u := Subj();
      LeafAt(code, p, a, Unlinked);
      AtNode(code, p, LeafOp(a), 0);
      var op, opnd, scan := code[p], p + 3, reginput;
      count := 0;
      if op == ANY {
        count := |s| - reginput;
        AnyRun(u, reginput);
        scan := scan + count;
      } else if op == EXACTLY {
        ExactlyOne(code, opnd, a, u, scan);
        while Peek(code, opnd) == Peek(s, scan)
          invariant old(reginput) <= scan <= |s| && count == scan - old(reginput)
          invariant RunLength(a, u, old(reginput)) == count + RunLength(a, u, scan)
          invariant Leaf(a, u, scan) == if Peek(code, opnd) == Peek(s, scan) then Some(scan + 1) else None
          decreases |s| - scan
        {
          RunOne(a, u, scan);
          count, scan := count + 1, scan + 1;
          ExactlyOne(code, opnd, a, u, scan);
        }
        RunNone(a, u, scan);
      } else {
        ClassLeaf(code, opnd, a, u, scan);
        while Peek(s, scan) != NUL && StrChr(code, opnd, Peek(s, scan)) == (op == ANYOF)
          invariant old(reginput) <= scan <= |s| && count == scan - old(reginput)
          invariant RunLength(a, u, old(reginput)) == count + RunLength(a, u, scan)
          invariant Leaf(a, u, scan) ==
                    if Peek(s, scan) != NUL && StrChr(code, opnd, Peek(s, scan)) == (op == ANYOF) then Some(scan + 1)
                    else None
          decreases |s| - scan
        {
          RunOne(a, u, scan);
          count, scan := count + 1, scan + 1;
          ClassLeaf(code, opnd, a, u, scan);
        }
        RunNone(a, u, scan);
      }
      reginput := scan;
    }

    /** STAR and PLUS: the longest run first, then shorter ones; when a literal follows, only
        where its first character stands. */
    method MatchRepeat(scan: int, next: int, ghost p: Piece, ghost k: Cont) returns (ok: bool)
      requires Valid() && 0 <= reginput <= |s| && Captured([]) && RunsInPlace(p)
      requires Impl(code, scan, Then(DoPiece(p), k)) && Live(Then(DoPiece(p), k), reginput, false)
      requires 0 <= scan && scan + 3 <= |code| && next == Next(code, scan)
      modifies this`reginput, startp, endp
      ensures Outcome(ok, Run(Then(DoPiece(p), k), Subj(), old(reginput)))
      decreases |s| - reginput, Weight(Then(DoPiece(p), k), reginput), 0
    {
      hide Impl, Run, Captured, Next, At, Live, TryDown, RunLength, AtomCode, NormOp;
      ghost var u, i := Subj(), reginput;
      RepeatReady(code, scan, p, k, i);
      RepeatRun(p, k, u, i);
      var nextch := NUL;
      if code[next] == EXACTLY {
        RepeatAfter(p, k, i, i + 1);
        nextch := Peek(code, next + 3);
      }
      var min := if code[scan] == STAR then 0 else 1;
      var save := reginput;
      var no: int := RegRepeat(scan + 3, p.atom);
      ok := false;
      while no >= min
        invariant min - 1 <= no && save + no <= |s| && reginput == save + no && Captured([])
        invariant Run(Then(DoPiece(p), k), u, save) == TryDown(k, u, save, no, min)
        decreases no
      {
        TryOnce(k, u, save, no, min);
        RepeatAfter(p, k, save, reginput);
        if code[next] == EXACTLY {
          Lookahead(code, next, k, u, reginput);
        }
        if nextch == NUL || Char() == nextch {
          ok := RegMatch(next, k);
          if ok {
            return;
          }
        }
        no := no - 1;
        reginput := save + no;
      }
      TryNone(k, u, save, no, min);
    }

    /** OPEN: notes where the group starts, unless it was opened again later. */
    method MatchOpen(no: GroupNumber, next: int, ghost k: Cont, ghost r: Option<Match>, ghost bound: nat)
      returns (ok: bool)
      requires Valid() && 0 <= reginput <= |s| && Captured([])
      requires Impl(code, next, k) && Live(k, reginput, false) && Weight(k, reginput) < bound
      requires r == Passing(Opened(no, reginput), Run(k, Subj(), reginput))
      modifies this`reginput, startp, endp
      ensures Outcome(ok, r)
      decreases |s| - reginput, bound, 0
    {
      hide Impl, Run, Live;
      var save := reginput;
      ghost var m := Run(k, Subj(), reginput);
      ok := RegMatch(next, k);
      if ok {
        forall n | 0 <= n < NSUBEXP {
          CaptureOpen(m.value.path, no, save, n);
        }
        if startp[no] == NULL {
          startp[no] := save;
        }
      }
    }

    /** CLOSE: notes where the group ends, unless it was closed again later. */
    method MatchClose(no: GroupNumber, next: int, ghost k: Cont, ghost r: Option<Match>, ghost bound: nat)
      returns (ok: bool)
      requires Valid() && 0 <= reginput <= |s| && Captured([])
      requires Impl(code, next, k) && Live(k, reginput, false) && Weight(k, reginput) < bound
      requires r == Passing(Closed(no, reginput), Run(k, Subj(), reginput))
      modifies this`reginput, startp, endp
      ensures Outcome(ok, r)
      decreases |s| - reginput, bound, 0
    {
      hide Impl, Run, Live;
      var save := reginput;
      ghost var m := Run(k, Subj(), reginput);
      ok := RegMatch(next, k);
      if ok {
        forall n | 0 <= n < NSUBEXP {
          CaptureClose(m.value.path, no, save, n);
        }
        if endp[no] == NULL {
          endp[no] := save;
        }
      }
    }

    /** BRANCH: one alternative after the other. */
    method MatchBranches(first: int, ghost ks: seq<Cont>, ghost bound: nat) returns (ok: bool)
      requires Valid() && 0 <= reginput <= |s| && Captured([]) && Choices(code, first, ks)
      requires forall x :: x in ks ==> Weight(x, reginput) < bound && Live(x, reginput, false)
      modifies this`reginput, startp, endp
      ensures Outcome(ok, FirstOf(ks, Subj(), old(reginput)))
      decreases |s| - reginput, bound, 0
    {
      hide Impl, Run, Live, Choices, FirstOf, Captured, Next;
      var scan := first;
      ghost var rest, u, i := ks, Subj(), reginput;
      var more := true;
      while more
        invariant reginput == i && Captured([])
        invariant more ==> Choices(code, scan, rest) && FirstOf(ks, u, i) == FirstOf(rest, u, i)
        invariant forall x :: x in rest ==> x in ks
        invariant !more ==> FirstOf(ks, u, i) == None
        decreases more, |rest|
      {
        OneChoice(code, scan, rest, u, i);
        var save := reginput;
        assert rest[0] in ks;
        ok := RegMatch(scan + 3, rest[0]);
        if ok {
          return true;
        }
        reginput := save;
        scan := Next(code, scan);
        more := scan != NULL && code[scan] == BRANCH;
        rest := rest[1..];
      }
      ok := false;
    }

    method RegMatch(prog: int, ghost k: Cont) returns (ok: bool)
      requires Valid() && 0 <= reginput <= |s| && Captured([])
      requires Impl(code, prog, k) && Live(k, reginput, false)
      modifies this`reginput, startp, endp
      ensures Outcome(ok, Run(k, Subj(), old(reginput)))
      decreases |s| - reginput, Weight(k, reginput), 1
    {
      hide Impl, Run, Leaf, AtomOk, AtomWidth, Captured, Next, At, Live, Weight, Choices, FirstOf;
      ok := false;
      var scan := prog;
      ghost var kk := k;
      ghost var u, r := Subj(), Run(k, Subj(), reginput);
      NonNull(prog, k, reginput);
      while scan != NULL
        invariant 0 <= reginput <= |s| && Captured([]) && !ok
        invariant scan == NULL ==> r.None?
        invariant scan != NULL ==> Impl(code, scan, kk) && Live(kk, reginput, false) && Run(kk, u, reginput) == r
        invariant old(reginput) < reginput || (old(reginput) == reginput && Weight(kk, reginput) <= Weight(k, reginput))
        decreases |s| - reginput, Weight(kk, reginput)
      {
        NormImpl(code, scan, kk, reginput);
        NormLive(kk, reginput);
        NormSteps(kk, u, reginput);
        kk := Norm(kk, reginput);
        NormOpAt(code, scan, kk, reginput);
        var next := Next(code, scan);
        var op := code[scan];
        if op == BOL || op == EOL || op == ANY || op == EXACTLY || op == ANYOF || op == ANYBUT {
          LeafStep(code, scan, kk.item.a, kk.k, u, reginput);
          var matched := MatchLeaf(scan, kk.item.a);
          if !matched {
            return false;
          }
          kk := kk.k;
        } else if op == NOTHING {
          NothingStep(code, scan, kk.k, u, reginput);
          kk := kk.k;
        } else if op == BACK {
          BackStep(code, scan, kk.item.p, kk.item.since, kk.k, u, reginput);
          kk := Then(DoPiece(kk.item.p), kk.k);
        } else if OPEN < op < OPEN + NSUBEXP {
          GroupStep(code, scan, kk.item.a, kk.k, u, reginput);
          ok := MatchOpen(op - OPEN, next, Both(DoAlts(kk.item.a.alts), DoClose(kk.item.a.n), kk.k), r,
                          Weight(kk, reginput));
          return;
        } else if CLOSE < op < CLOSE + NSUBEXP {
          CloseStep(code, scan, kk.item.n, kk.k, u, reginput);
          ok := MatchClose(op - CLOSE, next, kk.k, r, Weight(kk, reginput));
          return;
        } else if op == BRANCH {
          ghost var ks := Alternatives(kk, reginput);
          AlternativesChoices(code, scan, kk, reginput);
          AlternativesLighter(kk, reginput);
          AlternativesRun(kk, u, reginput);
          OneChoice(code, scan, ks, u, reginput);
          if code[next] == BRANCH {
            ok := MatchBranches(scan, ks, Weight(kk, reginput));
            return;
          }
          next := scan + 3;
          assert ks[0] in ks;
          kk := ks[0];
        } else if op == STAR || op == PLUS {
          ok := MatchRepeat(scan, next, kk.item.p, kk.k);
          return;
        } else if op == END {
          HaltRun(u, reginput);
          return true;
        } else {
          assert false;
        }
        scan := next;
      }
    }

    /** The nodes that match one thing and go on. */
    method MatchLeaf(scan: int, ghost a: Atom) returns (ok: bool)
      requires Valid() && 0 <= reginput <= |s| && 0 <= scan && scan + 3 <= |code|
      requires !a.Group? && AtomOk(a) && code[scan] == LeafOp(a) && At(code, scan + 3, Operand(a))
      modifies this`reginput
      ensures var r := Leaf(a, Subj(), old(reginput));
              ok == r.Some? && (ok ==> reginput == r.value) && 0 <= reginput <= |s|
    {
      hide Leaf, At;
      ghost var u := Subj();
      SimpleLeaf(u, reginput);
      LeafBound(a, u, reginput);
      var op, opnd := code[scan], scan + 3;
      if op == BOL {
        return reginput == regbol;
      } else if op == EOL {
        return Char() == NUL;
      } else if op == ANY {
        if Char() == NUL {
          return false;
        }
        reginput := reginput + 1;
      } else if op == EXACTLY {
        ExactlyLeaf(code, opnd, a.cs, u, reginput);
        if Peek(code, opnd) != Char() {
          return false;
        }
        var len := StrLen(code, opnd);
        if len > 1 && !SameChars(code, opnd, s, reginput, len) {
          return false;
        }
        reginput := reginput + len;
      } else {
        ClassLeaf(code, opnd, a, u, reginput);
        if Char() == NUL || StrChr(code, opnd, Char()) != (op == ANYOF) {
          return false;
        }
        reginput := reginput + 1;
      }
      ok := true;
    }

    lemma NonNull(p: int, k: Cont, i: nat)
      requires Impl(code, p, k) && Live(k, i, false) && |code| <= CODE_LIMIT
      ensures p >= 0
    {
      hide Impl;
      NormImpl(code, p, k, i);
      NormLive(k, i);
      NormSteps(k, Subject(seq(i, _ => 1), 0), i);
      NormOpAt(code, p, Norm(k, i), i);
    }
  }

  lemma AnyRun(u: Subject, i: nat)
    requires i <= |u.s|
    ensures RunLength(Any, u, i) == |u.s| - i
    decreases |u.s| - i
  {
    if i < |u.s| {
      AnyRun(u, i + 1);
    }
  }

  lemma ExactlyOne(code: seq<byte>, p: nat, a: Atom, u: Subject, i: nat)
    requires a.Exactly? && |a.cs| == 1 && CharsOk(a.cs) && At(code, p, a.cs + [NUL]) && i <= |u.s| && CharsOk(u.s)
    ensures Leaf(a, u, i) == if Peek(code, p) == Peek(u.s, i) then Some(i + 1) else None
  {
    ExactlyLeaf(code, p, a.cs, u, i);
  }

  lemma RepeatReady(code: seq<byte>, p: int, x: Piece, k: Cont, i: nat)
    requires RunsInPlace(x) && Impl(code, p, Then(DoPiece(x), k)) && |code| <= CODE_LIMIT
    requires Live(Then(DoPiece(x), k), i, false)
    ensures 0 <= p && p + 3 <= |code| && code[p] == if x.rep.Star? then STAR else PLUS
    ensures At(code, p + 3, AtomCode(x.atom, Unlinked)) && AtomOk(x.atom)
    ensures var q := Next(code, p); 0 <= q && q + 3 <= |code| && Impl(code, q, k)
  {
    hide Impl, Next, At, AtomCode;
    var q := RepeatImpl(code, p, x, k);
    ImplFits(code, q, k, i, PieceWidth(x));
  }

  lemma ImplFits(code: seq<byte>, q: int, k: Cont, i: nat, w: bool)
    requires Impl(code, q, k) && Live(k, i, w) && |code| <= CODE_LIMIT
    ensures 0 <= q && q + 3 <= |code|
  {
    hide Impl;
    LiveWider(k, i, w, true);
    LiveAdvance(k, i, i + 1, false);
    NormImpl(code, q, k, i + 1);
    NormLive(k, i + 1);
    NormSteps(k, Subject(seq(i + 1, _ => 1), 0), i + 1);
    NormOpAt(code, q, Norm(k, i + 1), i + 1);
  }

  /** What follows a repetition is live after any number of characters it may take, and there
      is less to do. */
  lemma RepeatAfter(x: Piece, k: Cont, i: nat, j: nat)
    requires RunsInPlace(x) && Live(Then(DoPiece(x), k), i, false)
    requires if x.rep.Star? then i <= j else i < j
    ensures Live(k, j, false) && (i < j || Weight(k, j) < Weight(Then(DoPiece(x), k), i))
  {
    if i < j {
      LiveWider(k, i, PieceWidth(x), true);
      LiveAdvance(k, i, j, false);
    }
  }

  lemma TryOnce(k: Cont, u: Subject, i: nat, n: nat, min: nat)
    requires i + n <= |u.s| && min <= n
    ensures TryDown(k, u, i, n, min) == OrElse(Run(k, u, i + n), TryDown(k, u, i, n - 1, min))
  {
    hide Run;
  }

  lemma TryNone(k: Cont, u: Subject, i: nat, n: int, min: nat)
    requires n < min && (n >= 0 ==> i + n <= |u.s|)
    ensures TryDown(k, u, i, n, min) == None
  {}
}
