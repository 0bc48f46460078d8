/** The ways a pattern matches a span: the group boundaries passed, in order.

    A path of a construct over a span is the sequence of parentheses opened and closed when
    its parts match adjoining spans one after another. */
module RegPaths {
  import opened Chars
  import opened RegSyntax
  import opened RegMeaning

  datatype Event = Opened(n: GroupNumber, at: nat) | Closed(n: GroupNumber, at: nat)

  type Path = seq<Event>

  ghost predicate AtomPath(a: Atom, u: Subject, i: nat, j: nat, t: Path)
    decreases a, 0, 0
  {
    if a.Group? then
      |t| >= 2 && t[0] == Opened(a.n, i) && t[|t| - 1] == Closed(a.n, j) && AltsPath(a.alts, u, i, j, t[1..|t| - 1])
    else AtomSpan(a, u, i, j) && t == []
  }

  ghost predicate TimesPath(a: Atom, n: nat, u: Subject, i: nat, j: nat, t: Path)
    decreases a, 1, n
  {
    if n == 0 then i == j <= |u.s| && t == []
    else
      exists m: nat, c: nat {:trigger AtomPath(a, u, i, m, t[..c])} ::
        c <= |t| && AtomPath(a, u, i, m, t[..c]) && TimesPath(a, n - 1, u, m, j, t[c..])
  }

  ghost predicate PiecePath(p: Piece, u: Subject, i: nat, j: nat, t: Path)
    decreases p, 2, 0
  {
    match p.rep
    case One => AtomPath(p.atom, u, i, j, t)
    case Star => exists n: nat :: TimesPath(p.atom, n, u, i, j, t)
    case Plus => exists n: nat :: n > 0 && TimesPath(p.atom, n, u, i, j, t)
    case Quest => AtomPath(p.atom, u, i, j, t) || (i == j <= |u.s| && t == [])
  }

  ghost predicate BranchPath(b: Branch, u: Subject, i: nat, j: nat, t: Path)
    decreases b, 3, 0
  {
    match b
    case Nil => i == j <= |u.s| && t == []
    case Cons(p, rest) =>
      exists m: nat, c: nat {:trigger PiecePath(p, u, i, m, t[..c])} ::
        c <= |t| && PiecePath(p, u, i, m, t[..c]) && BranchPath(rest, u, m, j, t[c..])
  }

  ghost predicate AltsPath(l: Alts, u: Subject, i: nat, j: nat, t: Path)
    decreases l, 4, 0
  {
    BranchPath(l.b, u, i, j, t) || (l.Or? && AltsPath(l.rest, u, i, j, t))
  }

  // ----- a path runs over a span the construct matches -----

  lemma {:induction false} AtomPathSpan(a: Atom, u: Subject, i: nat, j: nat, t: Path)
    requires AtomPath(a, u, i, j, t)
    ensures AtomSpan(a, u, i, j)
    decreases a, 0, 0
  {
    if a.Group? {
      AltsPathSpan(a.alts, u, i, j, t[1..|t| - 1]);
      AltsInside(a.alts, u, i, j);
    }
  }

  lemma {:induction false} TimesPathSpan(a: Atom, n: nat, u: Subject, i: nat, j: nat, t: Path)
    requires TimesPath(a, n, u, i, j, t)
    ensures Times(a, n, u, i, j)
    decreases a, 1, n
  {
    if n > 0 {
      var m: nat, c: nat :| c <= |t| && AtomPath(a, u, i, m, t[..c]) && TimesPath(a, n - 1, u, m, j, t[c..]);
      AtomPathSpan(a, u, i, m, t[..c]);
      TimesPathSpan(a, n - 1, u, m, j, t[c..]);
    }
  }

  lemma {:induction false} PiecePathSpan(p: Piece, u: Subject, i: nat, j: nat, t: Path)
    requires PiecePath(p, u, i, j, t)
    ensures PieceSpan(p, u, i, j)
    decreases p, 2, 0
  {
    match p.rep
    case One => AtomPathSpan(p.atom, u, i, j, t);
    case Star =>
      var n: nat :| TimesPath(p.atom, n, u, i, j, t);
      TimesPathSpan(p.atom, n, u, i, j, t);
    case Plus =>
      var n: nat :| n > 0 && TimesPath(p.atom, n, u, i, j, t);
      TimesPathSpan(p.atom, n, u, i, j, t);
    case Quest =>
      if AtomPath(p.atom, u, i, j, t) {
        AtomPathSpan(p.atom, u, i, j, t);
      }
  }

  lemma {:induction false} BranchPathSpan(b: Branch, u: Subject, i: nat, j: nat, t: Path)
    requires BranchPath(b, u, i, j, t)
    ensures BranchSpan(b, u, i, j)
    decreases b, 3, 0
  {
    if b.Cons? {
      var m: nat, c: nat :| c <= |t| && PiecePath(b.head, u, i, m, t[..c]) && BranchPath(b.tail, u, m, j, t[c..]);
      PiecePathSpan(b.head, u, i, m, t[..c]);
      BranchPathSpan(b.tail, u, m, j, t[c..]);
    }
  }

  lemma {:induction false} AltsPathSpan(l: Alts, u: Subject, i: nat, j: nat, t: Path)
    requires AltsPath(l, u, i, j, t)
    ensures AltsSpan(l, u, i, j)
    decreases l, 4, 0
  {
    if BranchPath(l.b, u, i, j, t) {
      BranchPathSpan(l.b, u, i, j, t);
    } else {
      AltsPathSpan(l.rest, u, i, j, t);
    }
  }

  // ----- joining paths -----

  lemma TimesMore(a: Atom, n: nat, u: Subject, i: nat, m: nat, j: nat, t: Path, t': Path)
    requires AtomPath(a, u, i, m, t) && TimesPath(a, n, u, m, j, t')
    ensures TimesPath(a, n + 1, u, i, j, t + t')
  {
    assert (t + t')[..|t|] == t && (t + t')[|t|..] == t';
  }

  lemma BranchMore(p: Piece, rest: Branch, u: Subject, i: nat, m: nat, j: nat, t: Path, t': Path)
    requires PiecePath(p, u, i, m, t) && BranchPath(rest, u, m, j, t')
    ensures BranchPath(Cons(p, rest), u, i, j, t + t')
  {
    assert (t + t')[..|t|] == t && (t + t')[|t|..] == t';
  }

  lemma GroupPath(a: Atom, u: Subject, i: nat, j: nat, t: Path)
    requires a.Group? && AltsPath(a.alts, u, i, j, t)
    ensures AtomPath(a, u, i, j, [Opened(a.n, i)] + t + [Closed(a.n, j)])
  {
    var t' := [Opened(a.n, i)] + t + [Closed(a.n, j)];
    assert t'[1..|t'| - 1] == t;
  }
}
