/** What the recorded group boundaries mean.

    Groups are numbered by their opening parentheses, so no group has the number of
    another.  On the path of a match the last opening and the last closing of a group
    belong to one and the same iteration, the last, and that iteration is a match of the
    group's own alternatives. */
module RegCaptures {
  import opened Chars
  import opened RegSyntax
  import opened RegMeaning
  import opened RegPaths
  import opened RegBacktrack
  import opened RegExec
  import opened RegSearch

  // ----- the numbering of groups -----

  function AtomGroups(a: Atom): nat
    decreases a, 0
  {
    if a.Group? then 1 + AltsGroups(a.alts) else 0
  }

  function BranchGroups(b: Branch): nat
    decreases b, 1
  {
    if b.Nil? then 0 else AtomGroups(b.head.atom) + BranchGroups(b.tail)
  }

  function AltsGroups(l: Alts): nat
    decreases l, 2
  {
    BranchGroups(l.b) + if l.Or? then AltsGroups(l.rest) else 0
  }

  /** The groups of an atom are numbered n, n + 1, ... in the order of their parentheses. */
  predicate AtomNumbered(a: Atom, n: nat)
    decreases a, 0
  {
    a.Group? ==> a.n == n && AltsNumbered(a.alts, n + 1)
  }

  predicate BranchNumbered(b: Branch, n: nat)
    decreases b, 1
  {
    b.Cons? ==> AtomNumbered(b.head.atom, n) && BranchNumbered(b.tail, n + AtomGroups(b.head.atom))
  }

  predicate AltsNumbered(l: Alts, n: nat)
    decreases l, 2
  {
    BranchNumbered(l.b, n) && (l.Or? ==> AltsNumbered(l.rest, n + BranchGroups(l.b)))
  }

  lemma {:induction false} ParseAtomNumbers(s: seq<byte>, i: nat, npar: NextGroup)
    requires i <= |s|
    ensures var r := ParseAtom(s, i, npar); r.Ok? ==>
              AtomNumbered(r.value, npar) && r.npar == npar + AtomGroups(r.value)
    decreases |s| - i, 0
  {
    if Peek(s, i) == LPAREN {
      ParseNumbers(s, i + 1, npar, true);
    }
  }

  lemma {:induction false} ParseBranchNumbers(s: seq<byte>, i: nat, npar: NextGroup)
    requires i <= |s|
    ensures var r := ParseBranch(s, i, npar);
            r.Ok? ==> BranchNumbered(r.value, npar) && r.npar == npar + BranchGroups(r.value)
    decreases |s| - i, 2
  {
    hide ParseAtom;
    if !EndsBranch(Peek(s, i)) {
      ParseAtomNumbers(s, i, npar);
      var p := ParsePiece(s, i, npar);
      if p.Ok? {
        ParseBranchNumbers(s, p.pos, p.npar);
      }
    }
  }

  lemma {:induction false} ParseAltsNumbers(s: seq<byte>, i: nat, npar: NextGroup)
    requires i <= |s|
    ensures var r := ParseAlts(s, i, npar); r.Ok? ==>
              AltsNumbered(r.value, npar) && r.npar == npar + AltsGroups(r.value)
    decreases |s| - i, 3
  {
    hide ParseBranch;
    ParseBranchNumbers(s, i, npar);
    var b := ParseBranch(s, i, npar);
    if b.Ok? && Peek(s, b.pos) == BAR {
      ParseAltsNumbers(s, b.pos + 1, b.npar);
    }
  }

  /** Group numbers follow the order of the opening parentheses, none left out. */
  lemma {:induction false} ParseNumbers(s: seq<byte>, i: nat, npar: NextGroup, paren: bool)
    requires i <= |s|
    ensures var r := ParseReg(s, i, npar, paren);
            var first := if paren then npar + 1 else npar;
            r.Ok? ==> AltsNumbered(r.value, first) && r.npar == first + AltsGroups(r.value)
    decreases |s| - i, 4
  {
    if !(paren && npar >= NSUBEXP) {
      ParseAltsNumbers(s, i, if paren then npar + 1 else npar);
    }
  }

  // ----- the group of a given number -----

  /** Group n occurs in the construct, with these alternatives. */
  predicate AtomHas(a: Atom, n: nat, body: Alts)
    decreases a, 0
  {
    a.Group? && ((a.n == n && a.alts == body) || AltsHave(a.alts, n, body))
  }

  predicate BranchHas(b: Branch, n: nat, body: Alts)
    decreases b, 1
  {
    b.Cons? && (AtomHas(b.head.atom, n, body) || BranchHas(b.tail, n, body))
  }

  predicate AltsHave(l: Alts, n: nat, body: Alts)
    decreases l, 2
  {
    BranchHas(l.b, n, body) || (l.Or? && AltsHave(l.rest, n, body))
  }

  lemma {:induction false} AtomHasRange(a: Atom, first: nat, n: nat, body: Alts)
    requires AtomNumbered(a, first) && AtomHas(a, n, body)
    ensures first <= n < first + AtomGroups(a)
    decreases a, 0
  {
    if a.n != n || a.alts != body {
      AltsHaveRange(a.alts, first + 1, n, body);
    }
  }

  lemma {:induction false} BranchHasRange(b: Branch, first: nat, n: nat, body: Alts)
    requires BranchNumbered(b, first) && BranchHas(b, n, body)
    ensures first <= n < first + BranchGroups(b)
    decreases b, 1
  {
    if AtomHas(b.head.atom, n, body) {
      AtomHasRange(b.head.atom, first, n, body);
    } else {
      BranchHasRange(b.tail, first + AtomGroups(b.head.atom), n, body);
    }
  }

  lemma {:induction false} AltsHaveRange(l: Alts, first: nat, n: nat, body: Alts)
    requires AltsNumbered(l, first) && AltsHave(l, n, body)
    ensures first <= n < first + AltsGroups(l)
    decreases l, 2
  {
    if BranchHas(l.b, n, body) {
      BranchHasRange(l.b, first, n, body);
    } else {
      AltsHaveRange(l.rest, first + BranchGroups(l.b), n, body);
    }
  }

  lemma {:induction false} AtomOnlyOne(a: Atom, first: nat, n: nat, body: Alts, body': Alts)
    requires AtomNumbered(a, first) && AtomHas(a, n, body) && AtomHas(a, n, body')
    ensures body == body'
    decreases a, 0
  {
    if AltsHave(a.alts, n, body) {
      AltsHaveRange(a.alts, first + 1, n, body);
      AltsOnlyOne(a.alts, first + 1, n, body, body');
    } else if AltsHave(a.alts, n, body') {
      AltsHaveRange(a.alts, first + 1, n, body');
    }
  }

  lemma {:induction false} BranchOnlyOne(b: Branch, first: nat, n: nat, body: Alts, body': Alts)
    requires BranchNumbered(b, first) && BranchHas(b, n, body) && BranchHas(b, n, body')
    ensures body == body'
    decreases b, 1
  {
    var a := b.head.atom;
    var next := first + AtomGroups(a);
    forall x | AtomHas(a, n, x) ensures n < next { AtomHasRange(a, first, n, x); }
    forall x | BranchHas(b.tail, n, x) ensures next <= n { BranchHasRange(b.tail, next, n, x); }
    if AtomHas(a, n, body) {
      AtomOnlyOne(a, first, n, body, body');
    } else {
      BranchOnlyOne(b.tail, next, n, body, body');
    }
  }

  /** A number belongs to one group only. */
  lemma {:induction false} AltsOnlyOne(l: Alts, first: nat, n: nat, body: Alts, body': Alts)
    requires AltsNumbered(l, first) && AltsHave(l, n, body) && AltsHave(l, n, body')
    ensures body == body'
    decreases l, 2
  {
    var next := first + BranchGroups(l.b);
    forall x | BranchHas(l.b, n, x) ensures n < next { BranchHasRange(l.b, first, n, x); }
    forall x | l.Or? && AltsHave(l.rest, n, x) ensures next <= n { AltsHaveRange(l.rest, next, n, x); }
    if BranchHas(l.b, n, body) {
      BranchOnlyOne(l.b, first, n, body, body');
    } else {
      AltsOnlyOne(l.rest, next, n, body, body');
    }
  }

  // ----- the last iteration of a group on a path -----

  /** Nothing about group n happens on t. */
  predicate Silent(t: Path, n: nat) {
    forall k :: 0 <= k < |t| ==> t[k].n != n
  }

  /** Events x and y of t open and close the last iteration of group n, which lies within
      (i, j) and in between follows a path of the group's alternatives. */
  ghost predicate LastIteration(t: Path, x: nat, y: nat, n: nat, body: Alts, u: Subject, i: nat, j: nat) {
    x < y < |t| && t[x].n == t[y].n == n && t[x].Opened? && t[y].Closed?
    && Silent(t[x + 1..y], n) && Silent(t[y + 1..], n)
    && i <= t[x].at <= t[y].at <= j
    && AltsPath(body, u, t[x].at, t[y].at, t[x + 1..y])
  }

  ghost predicate Iterated(t: Path, n: nat, body: Alts, u: Subject, i: nat, j: nat) {
    exists x: nat, y: nat :: LastIteration(t, x, y, n, body, u, i, j)
  }

  lemma IteratedInside(t: Path, n: nat, body: Alts, u: Subject, i: nat, j: nat, pre: Path, post: Path, i': nat, j': nat)
    requires Iterated(t, n, body, u, i, j) && Silent(post, n) && i' <= i && j <= j'
    ensures Iterated(pre + t + post, n, body, u, i', j')
  {
    hide AltsPath;
    var x: nat, y: nat :| LastIteration(t, x, y, n, body, u, i, j);
    var w := pre + t + post;
    assert w[|pre| + x + 1..|pre| + y] == t[x + 1..y];
    assert w[|pre| + y + 1..] == t[y + 1..] + post;
    assert LastIteration(w, |pre| + x, |pre| + y, n, body, u, i', j');
  }

  /** What the path of a construct holds about group n. */
  ghost predicate AtomKeeps(a: Atom, t: Path, n: nat, u: Subject, i: nat, j: nat) {
    Silent(t, n) || exists body: Alts :: AtomHas(a, n, body) && Iterated(t, n, body, u, i, j)
  }

  ghost predicate BranchKeeps(b: Branch, t: Path, n: nat, u: Subject, i: nat, j: nat) {
    Silent(t, n) || exists body: Alts :: BranchHas(b, n, body) && Iterated(t, n, body, u, i, j)
  }

  ghost predicate AltsKeep(l: Alts, t: Path, n: nat, u: Subject, i: nat, j: nat) {
    Silent(t, n) || exists body: Alts :: AltsHave(l, n, body) && Iterated(t, n, body, u, i, j)
  }

  /** The later of two parts decides, unless it is silent. */
  lemma Later(t1: Path, t2: Path, n: nat, body: Alts, u: Subject, i: nat, m: nat, j: nat)
    requires i <= m <= j
    requires Iterated(t2, n, body, u, m, j) || (Silent(t2, n) && Iterated(t1, n, body, u, i, m))
    ensures Iterated(t1 + t2, n, body, u, i, j)
  {
    hide Iterated;
    if Iterated(t2, n, body, u, m, j) {
      IteratedInside(t2, n, body, u, m, j, t1, [], i, j);
      assert t1 + t2 + [] == t1 + t2;
    } else {
      IteratedInside(t1, n, body, u, i, m, [], t2, i, j);
      assert [] + t1 + t2 == t1 + t2;
    }
  }

  lemma WholeGroup(a: Atom, u: Subject, i: nat, j: nat, t: Path)
    requires a.Group? && AtomPath(a, u, i, j, t) && Silent(t[1..|t| - 1], a.n)
    ensures Iterated(t, a.n, a.alts, u, i, j)
  {
    hide AltsPath;
    AtomPathSpan(a, u, i, j, t);
    assert t[|t| - 1 + 1..] == [];
    assert LastIteration(t, 0, |t| - 1, a.n, a.alts, u, i, j);
  }

  lemma AtomKept(a: Atom, first: nat, n: nat, u: Subject, i: nat, j: nat, t: Path)
    requires AtomNumbered(a, first) && AtomPath(a, u, i, j, t)
    ensures AtomKeeps(a, t, n, u, i, j)
    decreases a, 0, 0
  {
    hide AltsPath, Iterated;
    if a.Group? {
      var inner := t[1..|t| - 1];
      AltsKept(a.alts, first + 1, n, u, i, j, inner);
      assert t == [t[0]] + inner + [t[|t| - 1]];
      if a.n == n {
        forall body | AltsHave(a.alts, n, body) ensures false { AltsHaveRange(a.alts, first + 1, n, body); }
        WholeGroup(a, u, i, j, t);
      } else if !Silent(inner, n) {
        var body :| AltsHave(a.alts, n, body) && Iterated(inner, n, body, u, i, j);
        IteratedInside(inner, n, body, u, i, j, [t[0]], [t[|t| - 1]], i, j);
        assert AtomHas(a, n, body);
      }
    }
  }

  lemma {:induction false} TimesKept(a: Atom, first: nat, n: nat, k: nat, u: Subject, i: nat, j: nat, t: Path)
    requires AtomNumbered(a, first) && TimesPath(a, k, u, i, j, t)
    ensures AtomKeeps(a, t, n, u, i, j)
    decreases a, 1, k
  {
    hide AtomPath, Iterated;
    if k > 0 {
      var m: nat, c: nat :| c <= |t| && AtomPath(a, u, i, m, t[..c]) && TimesPath(a, k - 1, u, m, j, t[c..]);
      AtomPathSpan(a, u, i, m, t[..c]);
      TimesPathSpan(a, k - 1, u, m, j, t[c..]);
      TimesInside(a, k - 1, u, m, j);
      AtomKept(a, first, n, u, i, m, t[..c]);
      TimesKept(a, first, n, k - 1, u, m, j, t[c..]);
      assert t == t[..c] + t[c..];
      if !Silent(t[c..], n) {
        var body :| AtomHas(a, n, body) && Iterated(t[c..], n, body, u, m, j);
        Later(t[..c], t[c..], n, body, u, i, m, j);
      } else if !Silent(t[..c], n) {
        var body :| AtomHas(a, n, body) && Iterated(t[..c], n, body, u, i, m);
        Later(t[..c], t[c..], n, body, u, i, m, j);
      }
    }
  }

  lemma PieceKept(p: Piece, first: nat, n: nat, u: Subject, i: nat, j: nat, t: Path)
    requires AtomNumbered(p.atom, first) && PiecePath(p, u, i, j, t)
    ensures AtomKeeps(p.atom, t, n, u, i, j)
    decreases p, 2, 0
  {
    hide AtomPath, TimesPath, AtomKeeps;
    if p.rep.Star? || p.rep.Plus? {
      var k: nat :| TimesPath(p.atom, k, u, i, j, t);
      TimesKept(p.atom, first, n, k, u, i, j, t);
    } else if AtomPath(p.atom, u, i, j, t) {
      AtomKept(p.atom, first, n, u, i, j, t);
    } else {
      assert AtomKeeps(p.atom, [], n, u, i, j) by { SilentKeeps(p.atom, n, u, i, j); }
    }
  }

  lemma SilentKeeps(a: Atom, n: nat, u: Subject, i: nat, j: nat)
    ensures AtomKeeps(a, [], n, u, i, j)
  {}

  lemma {:induction false} BranchKept(b: Branch, first: nat, n: nat, u: Subject, i: nat, j: nat, t: Path)
    requires BranchNumbered(b, first) && BranchPath(b, u, i, j, t)
    ensures BranchKeeps(b, t, n, u, i, j)
    decreases b, 3, 0
  {
    hide PiecePath, Iterated;
    if b.Cons? {
      var m: nat, c: nat :| c <= |t| && PiecePath(b.head, u, i, m, t[..c]) && BranchPath(b.tail, u, m, j, t[c..]);
      PiecePathSpan(b.head, u, i, m, t[..c]);
      PieceInside(b.head, u, i, m);
      BranchPathSpan(b.tail, u, m, j, t[c..]);
      BranchInside(b.tail, u, m, j);
      PieceKept(b.head, first, n, u, i, m, t[..c]);
      BranchKept(b.tail, first + AtomGroups(b.head.atom), n, u, m, j, t[c..]);
      assert t == t[..c] + t[c..];
      if !Silent(t[c..], n) {
        var body :| BranchHas(b.tail, n, body) && Iterated(t[c..], n, body, u, m, j);
        Later(t[..c], t[c..], n, body, u, i, m, j);
        assert BranchHas(b, n, body);
      } else if !Silent(t[..c], n) {
        var body :| AtomHas(b.head.atom, n, body) && Iterated(t[..c], n, body, u, i, m);
        Later(t[..c], t[c..], n, body, u, i, m, j);
        assert BranchHas(b, n, body);
      }
    }
  }

  lemma {:induction false} AltsKept(l: Alts, first: nat, n: nat, u: Subject, i: nat, j: nat, t: Path)
    requires AltsNumbered(l, first) && AltsPath(l, u, i, j, t)
    ensures AltsKeep(l, t, n, u, i, j)
    decreases l, 4, 0
  {
    hide BranchPath, Iterated, Silent;
    if BranchPath(l.b, u, i, j, t) {
      BranchKept(l.b, first, n, u, i, j, t);
      if !Silent(t, n) {
        var body :| BranchHas(l.b, n, body) && Iterated(t, n, body, u, i, j);
        assert AltsHave(l, n, body);
      }
    } else {
      AltsKept(l.rest, first + BranchGroups(l.b), n, u, i, j, t);
      if !Silent(t, n) {
        var body :| AltsHave(l.rest, n, body) && Iterated(t, n, body, u, i, j);
        assert AltsHave(l, n, body);
      }
    }
  }

  // ----- what is recorded -----

  lemma {:induction false} SilentRecords(t: Path, n: nat)
    requires Silent(t, n)
    ensures StartOf(t, n) == -1 && EndOf(t, n) == -1
  {
    if t != [] {
      forall k | 0 <= k < |t[1..]| ensures t[1..][k].n != n { assert t[1..][k] == t[k + 1]; }
      SilentRecords(t[1..], n);
    }
  }

  /** What comes last is what is recorded. */
  lemma {:induction false} JoinRecords(t1: Path, t2: Path, n: nat)
    ensures StartOf(t1 + t2, n) == if StartOf(t2, n) == -1 then StartOf(t1, n) else StartOf(t2, n)
    ensures EndOf(t1 + t2, n) == if EndOf(t2, n) == -1 then EndOf(t1, n) else EndOf(t2, n)
  {
    if t1 == [] {
      assert t1 + t2 == t2;
    } else {
      assert (t1 + t2)[1..] == t1[1..] + t2;
      JoinRecords(t1[1..], t2, n);
    }
  }

  lemma LastIterationRecorded(t: Path, x: nat, y: nat, n: nat, body: Alts, u: Subject, i: nat, j: nat)
    requires LastIteration(t, x, y, n, body, u, i, j)
    ensures StartOf(t, n) == t[x].at && EndOf(t, n) == t[y].at
  {
    hide AltsPath;
    assert t[x..] == [t[x]] + (t[x + 1..y] + ([t[y]] + t[y + 1..]));
    assert t == t[..x] + t[x..];
    SilentRecords(t[y + 1..], n);
    SilentRecords(t[x + 1..y], n);
    JoinRecords([t[y]], t[y + 1..], n);
    JoinRecords(t[x + 1..y], [t[y]] + t[y + 1..], n);
    JoinRecords([t[x]], t[x + 1..y] + ([t[y]] + t[y + 1..]), n);
    JoinRecords(t[..x], t[x..], n);
  }

  /** The boundaries of group n, both unset, or those of the group's last iteration within the match. */
  ghost predicate GoodCapture(l: Alts, n: nat, u: Subject, f: Found, from: int, to: int) {
    || (from == to == -1 && Silent(f.m.path, n))
    || (&& f.at <= from <= to <= f.m.end
        && exists body: Alts, x: nat, y: nat ::
             && AltsHave(l, n, body) && LastIteration(f.m.path, x, y, n, body, u, f.at, f.m.end)
             && from == f.m.path[x].at && to == f.m.path[y].at
             && AltsSpan(body, u, from, to))
  }

  /** What a search records: every group is unset, and then was never gone through, or spans
      the text of its last iteration, inside the match and in the language of the group. */
  lemma CapturesAreLastIterations(s: seq<byte>, u: Subject, k: nat, n: nat)
    requires CharsOk(s) && k <= |u.s|
    ensures var p := ParseReg(s, 0, 1, false);
            p.Ok? ==>
              var f := Search(p.value, u, k);
              f.Some? ==> GoodCapture(p.value, n, u, f.value, StartOf(f.value.m.path, n), EndOf(f.value.m.path, n))
  {
    hide Search, AltsPath, AltsSpan, AltsHave, AltsNumbered, ParseReg, LastIteration, StartOf, EndOf;
    var p := ParseReg(s, 0, 1, false);
    if p.Ok? && Search(p.value, u, k).Some? {
      var l := p.value;
      var f := Search(l, u, k).value;
      ParseNumbers(s, 0, 1, false);
      SearchMeans(l, u, k);
      AltsKept(l, 1, n, u, f.at, f.m.end, f.m.path);
      if Silent(f.m.path, n) {
        SilentRecords(f.m.path, n);
      } else {
        var body :| AltsHave(l, n, body) && Iterated(f.m.path, n, body, u, f.at, f.m.end);
        var x: nat, y: nat :| LastIteration(f.m.path, x, y, n, body, u, f.at, f.m.end);
        LastIterationRecorded(f.m.path, x, y, n, body, u, f.at, f.m.end);
        LastIterationSpan(f.m.path, x, y, n, body, u, f.at, f.m.end);
      }
    }
  }

  lemma LastIterationSpan(t: Path, x: nat, y: nat, n: nat, body: Alts, u: Subject, i: nat, j: nat)
    requires LastIteration(t, x, y, n, body, u, i, j)
    ensures x < y < |t| && i <= t[x].at <= t[y].at <= j && AltsSpan(body, u, t[x].at, t[y].at)
  {
    hide AltsPath, AltsSpan;
    AltsPathSpan(body, u, t[x].at, t[y].at, t[x + 1..y]);
  }
}
