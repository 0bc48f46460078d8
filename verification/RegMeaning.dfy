/** What a pattern means: the spans of a string it matches.

    A subject is a string and the position that counts as the beginning of a line.  Every
    construct denotes a set of spans (i, j) of the subject. */
module RegMeaning {
  import opened Chars
  import opened RegSyntax

  datatype Subject = Subject(s: seq<byte>, bol: int)

  ghost predicate AtomSpan(a: Atom, u: Subject, i: nat, j: nat)
    decreases a, 0, 0
  {
    i <= j <= |u.s| &&
    match a
    case Bol => i == j == u.bol
    case Eol => i == j == |u.s|
    case Any => j == i + 1
    case OneOf(cs) => j == i + 1 && u.s[i] in cs
    case NoneOf(cs) => j == i + 1 && u.s[i] !in cs
    case Exactly(cs) => u.s[i..j] == cs
    case Group(_, alts) => AltsSpan(alts, u, i, j)
  }

  /** n adjoining spans of an atom. */
  ghost predicate Times(a: Atom, n: nat, u: Subject, i: nat, j: nat)
    decreases a, 1, n
  {
    if n == 0 then i == j <= |u.s|
    else exists m: nat {:trigger AtomSpan(a, u, i, m)} :: AtomSpan(a, u, i, m) && Times(a, n - 1, u, m, j)
  }

  ghost predicate PieceSpan(p: Piece, u: Subject, i: nat, j: nat)
    decreases p, 2, 0
  {
    match p.rep
    case One => AtomSpan(p.atom, u, i, j)
    case Star => exists n: nat :: Times(p.atom, n, u, i, j)
    case Plus => exists n: nat :: n > 0 && Times(p.atom, n, u, i, j)
    case Quest => AtomSpan(p.atom, u, i, j) || i == j <= |u.s|
  }

  ghost predicate BranchSpan(b: Branch, u: Subject, i: nat, j: nat)
    decreases b, 3, 0
  {
    match b
    case Nil => i == j <= |u.s|
    case Cons(p, rest) =>
      exists m: nat {:trigger PieceSpan(p, u, i, m)} :: PieceSpan(p, u, i, m) && BranchSpan(rest, u, m, j)
  }

  ghost predicate AltsSpan(l: Alts, u: Subject, i: nat, j: nat)
    decreases l, 4, 0
  {
    BranchSpan(l.b, u, i, j) || (l.Or? && AltsSpan(l.rest, u, i, j))
  }

  // ----- spans lie within the string -----

  lemma FirstTime(a: Atom, n: nat, u: Subject, i: nat, j: nat) returns (m: nat)
    requires n > 0 && Times(a, n, u, i, j)
    ensures AtomSpan(a, u, i, m) && Times(a, n - 1, u, m, j)
  {
    m :| AtomSpan(a, u, i, m) && Times(a, n - 1, u, m, j);
  }

  lemma {:induction false} TimesInside(a: Atom, n: nat, u: Subject, i: nat, j: nat)
    requires Times(a, n, u, i, j)
    ensures i <= j <= |u.s|
    decreases a, 1, n
  {
    if n > 0 {
      var m: nat :| AtomSpan(a, u, i, m) && Times(a, n - 1, u, m, j);
      TimesInside(a, n - 1, u, m, j);
    }
  }

  lemma PieceInside(p: Piece, u: Subject, i: nat, j: nat)
    requires PieceSpan(p, u, i, j)
    ensures i <= j <= |u.s|
  {
    if p.rep.Star? || p.rep.Plus? {
      var n: nat :| Times(p.atom, n, u, i, j);
      TimesInside(p.atom, n, u, i, j);
    }
  }

  lemma {:induction false} BranchInside(b: Branch, u: Subject, i: nat, j: nat)
    requires BranchSpan(b, u, i, j)
    ensures i <= j <= |u.s|
  {
    if b.Cons? {
      var m: nat :| PieceSpan(b.head, u, i, m) && BranchSpan(b.tail, u, m, j);
      PieceInside(b.head, u, i, m);
      BranchInside(b.tail, u, m, j);
    }
  }

  lemma {:induction false} AltsInside(l: Alts, u: Subject, i: nat, j: nat)
    requires AltsSpan(l, u, i, j)
    ensures i <= j <= |u.s|
  {
    if BranchSpan(l.b, u, i, j) {
      BranchInside(l.b, u, i, j);
    } else {
      AltsInside(l.rest, u, i, j);
    }
  }

  // ----- what is flagged as having width never matches the empty string -----

  lemma {:induction false} AtomHasWidth(a: Atom, u: Subject, i: nat, j: nat)
    requires AtomOk(a) && AtomWidth(a) && AtomSpan(a, u, i, j)
    ensures i < j
    decreases a, 0
  {
    if a.Group? {
      AltsHaveWidth(a.alts, u, i, j);
    }
  }

  lemma {:induction false} PieceHasWidth(p: Piece, u: Subject, i: nat, j: nat)
    requires PieceOk(p) && PieceWidth(p) && PieceSpan(p, u, i, j)
    ensures i < j
    decreases p, 1
  {
    if p.rep.One? {
      AtomHasWidth(p.atom, u, i, j);
    } else {
      var n: nat :| n > 0 && Times(p.atom, n, u, i, j);
      var m := FirstTime(p.atom, n, u, i, j);
      AtomHasWidth(p.atom, u, i, m);
      TimesInside(p.atom, n - 1, u, m, j);
    }
  }

  lemma {:induction false} BranchHasWidth(b: Branch, u: Subject, i: nat, j: nat)
    requires BranchOk(b) && BranchWidth(b) && BranchSpan(b, u, i, j)
    ensures i < j
    decreases b, 2
  {
    var m: nat :| PieceSpan(b.head, u, i, m) && BranchSpan(b.tail, u, m, j);
    PieceInside(b.head, u, i, m);
    BranchInside(b.tail, u, m, j);
    if PieceWidth(b.head) {
      PieceHasWidth(b.head, u, i, m);
    } else {
      BranchHasWidth(b.tail, u, m, j);
    }
  }

  /** HASWIDTH is sound. */
  lemma {:induction false} AltsHaveWidth(l: Alts, u: Subject, i: nat, j: nat)
    requires AltsOk(l) && AltsWidth(l) && AltsSpan(l, u, i, j)
    ensures i < j
    decreases l, 3
  {
    if BranchSpan(l.b, u, i, j) {
      BranchHasWidth(l.b, u, i, j);
    } else {
      AltsHaveWidth(l.rest, u, i, j);
    }
  }
}
