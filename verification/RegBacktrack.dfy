/** Backtracking over the tree: what the matcher computes, as a function.

    What is left to match is a list of items.  Alternatives are tried in order, repetitions
    take as much as they can first, and the first way to match everything is the result:
    where it ends and the group boundaries passed on the way. */
module RegBacktrack {
  import opened Chars
  import opened RegSyntax
  import opened RegMeaning
  import opened RegPaths

  datatype Match = Match(end: nat, path: seq<Event>)

  /** Loop: the way back into repetition p, open only if the string advanced since then.
      Again: after an operand of p, a plus: back into p, or on. */
  datatype Item =
    | DoAtom(a: Atom)
    | DoPiece(p: Piece)
    | DoBranch(b: Branch)
    | DoAlts(l: Alts)
    | DoClose(n: GroupNumber)
    | Loop(p: Piece, since: nat)
    | Again(p: Piece, since: nat)

  datatype Cont = Halt | Then(item: Item, k: Cont)

  // ----- how much is left to do -----

  function AtomWeight(a: Atom): nat {
    if a.Group? then 3 + AltsWeight(a.alts) else 1
  }

  function PieceWeight(p: Piece): nat {
    5 + AtomWeight(p.atom)
  }

  function BranchWeight(b: Branch): nat {
    if b.Nil? then 1 else 2 + PieceWeight(b.head) + BranchWeight(b.tail)
  }

  function AltsWeight(l: Alts): nat {
    if l.Last? then 1 + BranchWeight(l.b) else 1 + BranchWeight(l.b) + AltsWeight(l.rest)
  }

  function ItemWeight(item: Item, i: nat): nat {
    match item
    case DoAtom(a) => AtomWeight(a)
    case DoPiece(p) => PieceWeight(p)
    case DoBranch(b) => BranchWeight(b)
    case DoAlts(l) => AltsWeight(l)
    case DoClose(_) => 1
    case Loop(p, since) => if i > since then 1 + PieceWeight(p) else 1
    case Again(p, since) => 2 + if i > since then 1 + PieceWeight(p) else 1
  }

  /** With i at a fixed place of the string every step lowers the weight; the way back into
      a loop weighs something only once the string has advanced. */
  function Weight(k: Cont, i: nat): nat {
    if k.Halt? then 0 else ItemWeight(k.item, i) + Weight(k.k, i)
  }

  /** Two items in front of k. */
  function Both(x: Item, y: Item, k: Cont): (r: Cont)
    ensures r == Then(x, Then(y, k))
    ensures forall i: nat :: Weight(r, i) == ItemWeight(x, i) + ItemWeight(y, i) + Weight(k, i)
  {
    Then(x, Then(y, k))
  }

  /** A piece and the rest of its branch. */
  function Pieces(b: Branch, k: Cont): (r: Cont)
    requires b.Cons?
    ensures r == Then(DoPiece(b.head), if b.tail.Nil? then k else Then(DoBranch(b.tail), k))
    ensures forall i: nat :: Weight(r, i) < BranchWeight(b) + Weight(k, i)
  {
    if b.tail.Nil? then Then(DoPiece(b.head), k) else Both(DoPiece(b.head), DoBranch(b.tail), k)
  }

  // ----- the matcher -----

  /** Where an atom other than a group ends, if it matches at i. */
  function Leaf(a: Atom, u: Subject, i: nat): (r: Option<nat>)
    requires i <= |u.s| && !a.Group?
    ensures r.Some? ==> i <= r.value <= |u.s|
  {
    match a
    case Bol => if i == u.bol then Some(i) else None
    case Eol => if i == |u.s| then Some(i) else None
    case Any => if i < |u.s| then Some(i + 1) else None
    case OneOf(cs) => if i < |u.s| && u.s[i] in cs then Some(i + 1) else None
    case NoneOf(cs) => if i < |u.s| && u.s[i] !in cs then Some(i + 1) else None
    case Exactly(cs) => if i + |cs| <= |u.s| && u.s[i..i + |cs|] == cs then Some(i + |cs|) else None
  }

  function Passing(e: Event, r: Option<Match>): Option<Match> {
    match r
    case Some(m) => Some(Match(m.end, [e] + m.path))
    case None => None
  }

  function OrElse(r: Option<Match>, r': Option<Match>): Option<Match> {
    if r.Some? then r else r'
  }

  function Run(k: Cont, u: Subject, i: nat): (r: Option<Match>)
    requires i <= |u.s|
    decreases |u.s| - i, Weight(k, i)
  {
    match k
    case Halt => Some(Match(i, []))
    case Then(item, k') =>
      match item
      case DoAtom(a) =>
        if a.Group? then
          Passing(Opened(a.n, i), Run(Both(DoAlts(a.alts), DoClose(a.n), k'), u, i))
        else (match Leaf(a, u, i)
              case Some(j) => Run(k', u, j)
              case None => None)
      case DoClose(n) => Passing(Closed(n, i), Run(k', u, i))
      case DoPiece(p) =>
        (match p.rep
         case One => Run(Then(DoAtom(p.atom), k'), u, i)
         case Star => OrElse(Run(Both(DoAtom(p.atom), Loop(p, i), k'), u, i), Run(Then(DoBranch(Nil), k'), u, i))
         case Plus => Run(Both(DoAtom(p.atom), Again(p, i), k'), u, i)
         case Quest => OrElse(Run(Both(DoAtom(p.atom), DoBranch(Nil), k'), u, i), Run(Then(DoBranch(Nil), k'), u, i)))
      case Loop(p, since) => if i > since then Run(Then(DoPiece(p), k'), u, i) else None
      case Again(p, since) => OrElse(Run(Then(Loop(p, since), k'), u, i), Run(Then(DoBranch(Nil), k'), u, i))
      case DoBranch(b) =>
        if b.Nil? then Run(k', u, i)
        else Run(Pieces(b, k'), u, i)
      case DoAlts(l) =>
        if l.Last? then Run(Then(DoBranch(l.b), k'), u, i)
        else OrElse(Run(Then(DoBranch(l.b), k'), u, i), Run(Then(DoAlts(l.rest), k'), u, i))
  }

  // ----- every result is a way to match -----

  ghost predicate ContOk(k: Cont) {
    k.Then? ==>
      && (k.item.Loop? ==> k.item.p.rep.Star? || k.item.p.rep.Plus?)
      && (k.item.Again? ==> k.item.p.rep.Plus?)
      && ContOk(k.k)
  }

  ghost predicate ItemPath(item: Item, u: Subject, i: nat, j: nat, t: Path) {
    match item
    case DoAtom(a) => AtomPath(a, u, i, j, t)
    case DoPiece(p) => PiecePath(p, u, i, j, t)
    case DoBranch(b) => BranchPath(b, u, i, j, t)
    case DoAlts(l) => AltsPath(l, u, i, j, t)
    case DoClose(n) => i == j <= |u.s| && t == [Closed(n, i)]
    case Loop(p, _) => PiecePath(p, u, i, j, t)
    case Again(p, _) => exists n: nat :: TimesPath(p.atom, n, u, i, j, t)
  }

  ghost predicate ContPath(k: Cont, u: Subject, i: nat, j: nat, t: Path)
    decreases k
  {
    match k
    case Halt => i == j <= |u.s| && t == []
    case Then(item, k') =>
      exists m: nat, c: nat {:trigger ItemPath(item, u, i, m, t[..c])} ::
        c <= |t| && ItemPath(item, u, i, m, t[..c]) && ContPath(k', u, m, j, t[c..])
  }

  lemma SplitBoth(x: Item, y: Item, k: Cont, u: Subject, i: nat, j: nat, t: Path)
    returns (m: nat, n: nat, c: nat, d: nat)
    requires ContPath(Then(x, Then(y, k)), u, i, j, t)
    ensures c <= d <= |t|
    ensures ItemPath(x, u, i, m, t[..c]) && ItemPath(y, u, m, n, t[c..d]) && ContPath(k, u, n, j, t[d..])
  {
    hide ItemPath;
    m, c :| c <= |t| && ItemPath(x, u, i, m, t[..c]) && ContPath(Then(y, k), u, m, j, t[c..]);
    var e: nat;
    n, e :| e <= |t[c..]| && ItemPath(y, u, m, n, t[c..][..e]) && ContPath(k, u, n, j, t[c..][e..]);
    d := c + e;
    assert t[c..][..e] == t[c..d] && t[c..][e..] == t[d..];
  }

  lemma SplitOne(x: Item, k: Cont, u: Subject, i: nat, j: nat, t: Path) returns (m: nat, c: nat)
    requires ContPath(Then(x, k), u, i, j, t)
    ensures c <= |t| && ItemPath(x, u, i, m, t[..c]) && ContPath(k, u, m, j, t[c..])
  {
    hide ItemPath;
    m, c :| c <= |t| && ItemPath(x, u, i, m, t[..c]) && ContPath(k, u, m, j, t[c..]);
  }

  lemma Prepend(x: Item, k: Cont, u: Subject, i: nat, m: nat, j: nat, t: Path, c: nat)
    requires c <= |t| && ItemPath(x, u, i, m, t[..c]) && ContPath(k, u, m, j, t[c..])
    ensures ContPath(Then(x, k), u, i, j, t)
  {}

  /** Matching nothing and then k is matching k. */
  lemma SkipNothing(k: Cont, u: Subject, i: nat, j: nat, t: Path)
    requires ContPath(Then(DoBranch(Nil), k), u, i, j, t)
    ensures ContPath(k, u, i, j, t) && i <= |u.s|
  {
    var m, c := SplitOne(DoBranch(Nil), k, u, i, j, t);
    assert t[..c] == [] && t[c..] == t;
  }

  /** One operand and the loop after it make the repetition. */
  lemma LoopPath(p: Piece, u: Subject, i: nat, m: nat, n: nat, t: Path, t': Path)
    requires p.rep.Star? || p.rep.Plus?
    requires AtomPath(p.atom, u, i, m, t)
    requires PiecePath(p, u, m, n, t') || exists x: nat :: TimesPath(p.atom, x, u, m, n, t')
    ensures PiecePath(p, u, i, n, t + t')
  {
    hide AtomPath, TimesPath;
    var x: nat :| TimesPath(p.atom, x, u, m, n, t');
    TimesMore(p.atom, x, u, i, m, n, t, t');
    assert x + 1 > 0;
  }

  /** Soundness of one step at a time: what the items tried first give is a way to match the
      item they stand for. */
  lemma StarSound(p: Piece, k: Cont, u: Subject, i: nat, j: nat, t: Path)
    requires p.rep.Star? && i <= |u.s|
    requires ContPath(Both(DoAtom(p.atom), Loop(p, i), k), u, i, j, t) || ContPath(Then(DoBranch(Nil), k), u, i, j, t)
    ensures ContPath(Then(DoPiece(p), k), u, i, j, t)
  {
    hide AtomPath, ContPath;
    if ContPath(Both(DoAtom(p.atom), Loop(p, i), k), u, i, j, t) {
      var m, n, c, d := SplitBoth(DoAtom(p.atom), Loop(p, i), k, u, i, j, t);
      LoopPath(p, u, i, m, n, t[..c], t[c..d]);
      assert t[..c] + t[c..d] == t[..d];
      Prepend(DoPiece(p), k, u, i, n, j, t, d);
    } else {
      SkipNothing(k, u, i, j, t);
      assert TimesPath(p.atom, 0, u, i, i, t[..0]) && t[0..] == t;
      Prepend(DoPiece(p), k, u, i, i, j, t, 0);
    }
  }

  lemma AgainTimes(p: Piece, since: nat, u: Subject, i: nat, j: nat, t: Path)
    requires ItemPath(Again(p, since), u, i, j, t)
    ensures exists x: nat :: TimesPath(p.atom, x, u, i, j, t)
  {
    hide TimesPath;
    var x: nat :| TimesPath(p.atom, x, u, i, j, t);
  }

  lemma LoopIsAgain(p: Piece, since: nat, u: Subject, i: nat, j: nat, t: Path)
    requires p.rep.Plus? && ItemPath(Loop(p, since), u, i, j, t)
    ensures ItemPath(Again(p, since), u, i, j, t)
  {
    hide TimesPath;
    assert PiecePath(p, u, i, j, t);
    var x: nat :| x > 0 && TimesPath(p.atom, x, u, i, j, t);
  }

  lemma PlusSound(p: Piece, k: Cont, u: Subject, i: nat, j: nat, t: Path)
    requires p.rep.Plus? && ContPath(Both(DoAtom(p.atom), Again(p, i), k), u, i, j, t)
    ensures ContPath(Then(DoPiece(p), k), u, i, j, t)
  {
    hide AtomPath, ContPath;
    var m, n, c, d := SplitBoth(DoAtom(p.atom), Again(p, i), k, u, i, j, t);
    AgainTimes(p, i, u, m, n, t[c..d]);
    LoopPath(p, u, i, m, n, t[..c], t[c..d]);
    assert t[..c] + t[c..d] == t[..d];
    Prepend(DoPiece(p), k, u, i, n, j, t, d);
  }

  lemma QuestSound(p: Piece, k: Cont, u: Subject, i: nat, j: nat, t: Path)
    requires p.rep.Quest?
    requires ContPath(Both(DoAtom(p.atom), DoBranch(Nil), k), u, i, j, t)
             || ContPath(Then(DoBranch(Nil), k), u, i, j, t)
    ensures ContPath(Then(DoPiece(p), k), u, i, j, t)
  {
    hide AtomPath, ContPath;
    if ContPath(Both(DoAtom(p.atom), DoBranch(Nil), k), u, i, j, t) {
      var m, n, c, d := SplitBoth(DoAtom(p.atom), DoBranch(Nil), k, u, i, j, t);
      assert t[c..d] == [] && d == c;
      Prepend(DoPiece(p), k, u, i, m, j, t, c);
    } else {
      SkipNothing(k, u, i, j, t);
      assert t[..0] == [] && t[0..] == t;
      Prepend(DoPiece(p), k, u, i, i, j, t, 0);
    }
  }

  lemma AgainSound(p: Piece, since: nat, k: Cont, u: Subject, i: nat, j: nat, t: Path)
    requires p.rep.Plus?
    requires ContPath(Then(Loop(p, since), k), u, i, j, t) || ContPath(Then(DoBranch(Nil), k), u, i, j, t)
    ensures ContPath(Then(Again(p, since), k), u, i, j, t)
  {
    hide AtomPath, ContPath;
    if ContPath(Then(Loop(p, since), k), u, i, j, t) {
      var m, c := SplitOne(Loop(p, since), k, u, i, j, t);
      LoopIsAgain(p, since, u, i, m, t[..c]);
      Prepend(Again(p, since), k, u, i, m, j, t, c);
    } else {
      SkipNothing(k, u, i, j, t);
      assert TimesPath(p.atom, 0, u, i, i, t[..0]) && t[0..] == t;
      Prepend(Again(p, since), k, u, i, i, j, t, 0);
    }
  }

  lemma GroupSound(a: Atom, k: Cont, u: Subject, i: nat, j: nat, t: Path)
    requires a.Group? && ContPath(Both(DoAlts(a.alts), DoClose(a.n), k), u, i, j, t)
    ensures ContPath(Then(DoAtom(a), k), u, i, j, [Opened(a.n, i)] + t)
  {
    hide AtomPath, AltsPath, ContPath;
    var m, n, c, d := SplitBoth(DoAlts(a.alts), DoClose(a.n), k, u, i, j, t);
    var t' := [Opened(a.n, i)] + t;
    GroupPath(a, u, i, m, t[..c]);
    assert t[c..d] == [Closed(a.n, m)];
    assert t'[..d + 1] == [Opened(a.n, i)] + t[..c] + [Closed(a.n, m)] by {
      assert t[..d] == t[..c] + t[c..d];
    }
    assert t'[d + 1..] == t[d..];
    Prepend(DoAtom(a), k, u, i, m, j, t', d + 1);
  }

  lemma BranchSound(b: Branch, k: Cont, u: Subject, i: nat, j: nat, t: Path)
    requires b.Cons? && ContPath(Pieces(b, k), u, i, j, t)
    ensures ContPath(Then(DoBranch(b), k), u, i, j, t)
  {
    hide PiecePath, ContPath;
    if b.tail.Nil? {
      var m, c := SplitOne(DoPiece(b.head), k, u, i, j, t);
      PiecePathSpan(b.head, u, i, m, t[..c]);
      PieceInside(b.head, u, i, m);
      BranchMore(b.head, Nil, u, i, m, m, t[..c], []);
      assert t[..c] + [] == t[..c];
      Prepend(DoBranch(b), k, u, i, m, j, t, c);
    } else {
      var m, n, c, d := SplitBoth(DoPiece(b.head), DoBranch(b.tail), k, u, i, j, t);
      BranchMore(b.head, b.tail, u, i, m, n, t[..c], t[c..d]);
      assert t[..c] + t[c..d] == t[..d];
      Prepend(DoBranch(b), k, u, i, n, j, t, d);
    }
  }

  lemma AltsSound(l: Alts, k: Cont, u: Subject, i: nat, j: nat, t: Path)
    requires ContPath(Then(DoBranch(l.b), k), u, i, j, t) || (l.Or? && ContPath(Then(DoAlts(l.rest), k), u, i, j, t))
    ensures ContPath(Then(DoAlts(l), k), u, i, j, t)
  {
    hide BranchPath, ContPath;
    if ContPath(Then(DoBranch(l.b), k), u, i, j, t) {
      var m, c := SplitOne(DoBranch(l.b), k, u, i, j, t);
      Prepend(DoAlts(l), k, u, i, m, j, t, c);
    } else {
      var m, c := SplitOne(DoAlts(l.rest), k, u, i, j, t);
      Prepend(DoAlts(l), k, u, i, m, j, t, c);
    }
  }

  lemma LeafSound(a: Atom, k: Cont, u: Subject, i: nat, j: nat, t: Path)
    requires !a.Group? && i <= |u.s| && Leaf(a, u, i).Some? && ContPath(k, u, Leaf(a, u, i).value, j, t)
    ensures ContPath(Then(DoAtom(a), k), u, i, j, t)
  {
    hide ContPath;
    assert t[..0] == [] && t[0..] == t;
    assert ItemPath(DoAtom(a), u, i, Leaf(a, u, i).value, t[..0]);
    Prepend(DoAtom(a), k, u, i, Leaf(a, u, i).value, j, t, 0);
  }

  lemma CloseSound(n: GroupNumber, k: Cont, u: Subject, i: nat, j: nat, t: Path)
    requires i <= |u.s| && ContPath(k, u, i, j, t)
    ensures ContPath(Then(DoClose(n), k), u, i, j, [Closed(n, i)] + t)
  {
    hide ContPath;
    var t' := [Closed(n, i)] + t;
    assert t'[..1] == [Closed(n, i)] && t'[1..] == t;
    Prepend(DoClose(n), k, u, i, i, j, t', 1);
  }

  /** Whatever the matcher returns is a way to match all that was left. */
  lemma {:induction false} RunSound(k: Cont, u: Subject, i: nat)
    requires i <= |u.s| && ContOk(k)
    ensures var r := Run(k, u, i); r.Some? ==> ContPath(k, u, i, r.value.end, r.value.path)
    decreases |u.s| - i, Weight(k, i), 1
  {
    hide ItemPath, ContPath;
    var r := Run(k, u, i);
    if r.None? {
      return;
    }
    var j, t := r.value.end, r.value.path;
    match k
    case Halt => HaltPath(u, i);
    case Then(item, k') =>
      match item
      case DoAtom(a) =>
        if a.Group? {
          RunSound(Both(DoAlts(a.alts), DoClose(a.n), k'), u, i);
          GroupSound(a, k', u, i, j, Run(Both(DoAlts(a.alts), DoClose(a.n), k'), u, i).value.path);
        } else {
          RunSound(k', u, Leaf(a, u, i).value);
          LeafSound(a, k', u, i, j, t);
        }
      case DoClose(n) =>
        RunSound(k', u, i);
        CloseSound(n, k', u, i, j, Run(k', u, i).value.path);
      case DoPiece(p) => PieceRunSound(p, k', u, i);
      case Loop(p, since) =>
        RunSound(Then(DoPiece(p), k'), u, i);
        LoopIsPiece(p, since, k', u, i, j, t);
      case Again(p, since) =>
        RunSound(Then(Loop(p, since), k'), u, i);
        RunSound(Then(DoBranch(Nil), k'), u, i);
        AgainSound(p, since, k', u, i, j, t);
      case DoBranch(b) =>
        if b.Nil? {
          RunSound(k', u, i);
          NothingSound(k', u, i, j, t);
        } else {
          RunSound(Pieces(b, k'), u, i);
          BranchSound(b, k', u, i, j, t);
        }
      case DoAlts(l) =>
        RunSound(Then(DoBranch(l.b), k'), u, i);
        if l.Or? {
          RunSound(Then(DoAlts(l.rest), k'), u, i);
        }
        AltsSound(l, k', u, i, j, t);
  }

  lemma {:induction false} PieceRunSound(p: Piece, k: Cont, u: Subject, i: nat)
    requires i <= |u.s| && ContOk(k)
    ensures var r := Run(Then(DoPiece(p), k), u, i);
            r.Some? ==> ContPath(Then(DoPiece(p), k), u, i, r.value.end, r.value.path)
    decreases |u.s| - i, Weight(Then(DoPiece(p), k), i), 0
  {
    hide ItemPath, ContPath;
    var r := Run(Then(DoPiece(p), k), u, i);
    if r.None? {
      return;
    }
    var j, t := r.value.end, r.value.path;
    match p.rep
    case One =>
      RunSound(Then(DoAtom(p.atom), k), u, i);
      OneSound(p, k, u, i, j, t);
    case Star =>
      RunSound(Both(DoAtom(p.atom), Loop(p, i), k), u, i);
      RunSound(Then(DoBranch(Nil), k), u, i);
      StarSound(p, k, u, i, j, t);
    case Plus =>
      RunSound(Both(DoAtom(p.atom), Again(p, i), k), u, i);
      PlusSound(p, k, u, i, j, t);
    case Quest =>
      RunSound(Both(DoAtom(p.atom), DoBranch(Nil), k), u, i);
      RunSound(Then(DoBranch(Nil), k), u, i);
      QuestSound(p, k, u, i, j, t);
  }

  lemma HaltPath(u: Subject, i: nat)
    requires i <= |u.s|
    ensures ContPath(Halt, u, i, i, [])
  {}

  lemma LoopIsPiece(p: Piece, since: nat, k: Cont, u: Subject, i: nat, j: nat, t: Path)
    requires ContPath(Then(DoPiece(p), k), u, i, j, t)
    ensures ContPath(Then(Loop(p, since), k), u, i, j, t)
  {
    hide ContPath, PiecePath;
    var m, c := SplitOne(DoPiece(p), k, u, i, j, t);
    Prepend(Loop(p, since), k, u, i, m, j, t, c);
  }

  lemma NothingSound(k: Cont, u: Subject, i: nat, j: nat, t: Path)
    requires i <= |u.s| && ContPath(k, u, i, j, t)
    ensures ContPath(Then(DoBranch(Nil), k), u, i, j, t)
  {
    hide ContPath;
    assert t[..0] == [] && t[0..] == t;
    assert ItemPath(DoBranch(Nil), u, i, i, t[..0]);
    Prepend(DoBranch(Nil), k, u, i, i, j, t, 0);
  }

  lemma OneSound(p: Piece, k: Cont, u: Subject, i: nat, j: nat, t: Path)
    requires p.rep.One? && ContPath(Then(DoAtom(p.atom), k), u, i, j, t)
    ensures ContPath(Then(DoPiece(p), k), u, i, j, t)
  {
    hide ContPath, AtomPath;
    var m, c := SplitOne(DoAtom(p.atom), k, u, i, j, t);
    Prepend(DoPiece(p), k, u, i, m, j, t, c);
  }

  // ----- and every way to match is found -----

  ghost predicate ItemSpan(item: Item, u: Subject, i: nat, j: nat) {
    match item
    case DoAtom(a) => AtomSpan(a, u, i, j)
    case DoPiece(p) => PieceSpan(p, u, i, j)
    case DoBranch(b) => BranchSpan(b, u, i, j)
    case DoAlts(l) => AltsSpan(l, u, i, j)
    case DoClose(n) => i == j <= |u.s|
    case Loop(p, since) => i > since && PieceSpan(p, u, i, j)
    case Again(p, since) => i == j <= |u.s| || (i > since && PieceSpan(p, u, i, j))
  }

  ghost predicate ContSpan(k: Cont, u: Subject, i: nat, j: nat)
    decreases k
  {
    match k
    case Halt => i == j <= |u.s|
    case Then(item, k') =>
      exists m: nat {:trigger ItemSpan(item, u, i, m)} :: ItemSpan(item, u, i, m) && ContSpan(k', u, m, j)
  }

  lemma {:induction false} FirstAdvance(a: Atom, n: nat, u: Subject, i: nat, j: nat) returns (m: nat, x: nat)
    requires Times(a, n, u, i, j)
    ensures i < j ==> i < m && AtomSpan(a, u, i, m) && Times(a, x, u, m, j)
    decreases n
  {
    hide AtomSpan;
    m, x := i, 0;
    TimesInside(a, n, u, i, j);
    if i < j {
      m := FirstTime(a, n, u, i, j);
      AtomInside(a, u, i, m);
      x := n - 1;
      if m == i {
        m, x := FirstAdvance(a, n - 1, u, i, j);
      }
    }
  }

  lemma AtomInside(a: Atom, u: Subject, i: nat, j: nat)
    requires AtomSpan(a, u, i, j)
    ensures i <= j <= |u.s|
  {}

  /** A nonempty run of operands: one, and then nothing or, having advanced, more. */
  lemma {:induction false} PlusAdvance(a: Atom, n: nat, u: Subject, i: nat, j: nat) returns (m: nat, x: nat)
    requires n > 0 && Times(a, n, u, i, j)
    ensures AtomSpan(a, u, i, m) && (m == j || (i < m && x > 0 && Times(a, x, u, m, j)))
    decreases n
  {
    hide AtomSpan;
    m := FirstTime(a, n, u, i, j);
    AtomInside(a, u, i, m);
    x := n - 1;
    if x == 0 {
      TimesNone(a, u, m, j);
    } else if m == i {
      m, x := PlusAdvance(a, n - 1, u, i, j);
    }
  }

  lemma TimesNone(a: Atom, u: Subject, i: nat, j: nat)
    requires Times(a, 0, u, i, j)
    ensures i == j
  {}

  lemma BothSpan(x: Item, y: Item, k: Cont, u: Subject, i: nat, m: nat, n: nat, j: nat)
    requires ItemSpan(x, u, i, m) && ItemSpan(y, u, m, n) && ContSpan(k, u, n, j)
    ensures ContSpan(Then(x, Then(y, k)), u, i, j)
  {
    hide ItemSpan;
    assert ContSpan(Then(y, k), u, m, j);
  }

  lemma OneSpan(x: Item, k: Cont, u: Subject, i: nat, m: nat, j: nat)
    requires ItemSpan(x, u, i, m) && ContSpan(k, u, m, j)
    ensures ContSpan(Then(x, k), u, i, j)
  {
    hide ItemSpan;
  }

  /** The ways a repetition is tried cover the ways it can match. */
  lemma StarCovers(p: Piece, k: Cont, u: Subject, i: nat, m: nat, j: nat)
    requires p.rep.Star? && PieceSpan(p, u, i, m) && ContSpan(k, u, m, j)
    ensures ContSpan(Then(DoBranch(Nil), k), u, i, j) || ContSpan(Both(DoAtom(p.atom), Loop(p, i), k), u, i, j)
  {
    hide AtomSpan, ContSpan;
    PieceInside(p, u, i, m);
    var n: nat :| Times(p.atom, n, u, i, m);
    var c, x := FirstAdvance(p.atom, n, u, i, m);
    if i == m {
      OneSpan(DoBranch(Nil), k, u, i, i, j);
    } else {
      BothSpan(DoAtom(p.atom), Loop(p, i), k, u, i, c, m, j);
    }
  }

  lemma PlusCovers(p: Piece, k: Cont, u: Subject, i: nat, m: nat, j: nat)
    requires p.rep.Plus? && PieceSpan(p, u, i, m) && ContSpan(k, u, m, j)
    ensures ContSpan(Both(DoAtom(p.atom), Again(p, i), k), u, i, j)
  {
    hide AtomSpan, ContSpan;
    PieceInside(p, u, i, m);
    var n: nat :| n > 0 && Times(p.atom, n, u, i, m);
    var c, x := PlusAdvance(p.atom, n, u, i, m);
    BothSpan(DoAtom(p.atom), Again(p, i), k, u, i, c, m, j);
  }

  lemma QuestCovers(p: Piece, k: Cont, u: Subject, i: nat, m: nat, j: nat)
    requires p.rep.Quest? && PieceSpan(p, u, i, m) && ContSpan(k, u, m, j)
    ensures ContSpan(Then(DoBranch(Nil), k), u, i, j) || ContSpan(Both(DoAtom(p.atom), DoBranch(Nil), k), u, i, j)
  {
    hide AtomSpan, ContSpan;
    PieceInside(p, u, i, m);
    if AtomSpan(p.atom, u, i, m) {
      BothSpan(DoAtom(p.atom), DoBranch(Nil), k, u, i, m, m, j);
    } else {
      OneSpan(DoBranch(Nil), k, u, i, i, j);
    }
  }

  lemma AgainCovers(p: Piece, since: nat, k: Cont, u: Subject, i: nat, m: nat, j: nat)
    requires ItemSpan(Again(p, since), u, i, m) && ContSpan(k, u, m, j)
    ensures ContSpan(Then(DoBranch(Nil), k), u, i, j) || ContSpan(Then(Loop(p, since), k), u, i, j)
  {
    hide PieceSpan, ContSpan;
    if i == m <= |u.s| {
      OneSpan(DoBranch(Nil), k, u, i, i, j);
    } else {
      OneSpan(Loop(p, since), k, u, i, m, j);
    }
  }

  lemma BranchCovers(b: Branch, k: Cont, u: Subject, i: nat, m: nat, j: nat)
    requires b.Cons? && BranchSpan(b, u, i, m) && ContSpan(k, u, m, j)
    ensures ContSpan(Pieces(b, k), u, i, j)
  {
    hide PieceSpan, ContSpan;
    var c: nat :| PieceSpan(b.head, u, i, c) && BranchSpan(b.tail, u, c, m);
    if b.tail.Nil? {
      OneSpan(DoPiece(b.head), k, u, i, c, j);
    } else {
      BothSpan(DoPiece(b.head), DoBranch(b.tail), k, u, i, c, m, j);
    }
  }

  lemma {:induction false} RunComplete(k: Cont, u: Subject, i: nat, j: nat)
    requires i <= |u.s| && ContSpan(k, u, i, j)
    ensures Run(k, u, i).Some?
    decreases |u.s| - i, Weight(k, i), 1
  {
    hide PieceSpan, AtomSpan, AltsSpan, BranchSpan;
    if k.Halt? {
      return;
    }
    var item, k' := k.item, k.k;
    var m: nat :| ItemSpan(item, u, i, m) && ContSpan(k', u, m, j);
    hide ContSpan;
    match item
    case DoAtom(a) =>
      if a.Group? {
        GroupCovers(a, k', u, i, m, j);
        RunComplete(Both(DoAlts(a.alts), DoClose(a.n), k'), u, i, j);
      } else {
        LeafCovers(a, u, i, m);
        RunComplete(k', u, m, j);
      }
    case DoClose(n) => RunComplete(k', u, i, j);
    case DoPiece(p) => PieceRunComplete(p, k', u, i, m, j);
    case Loop(p, since) =>
      OneSpan(DoPiece(p), k', u, i, m, j);
      RunComplete(Then(DoPiece(p), k'), u, i, j);
    case Again(p, since) =>
      AgainCovers(p, since, k', u, i, m, j);
      if ContSpan(Then(DoBranch(Nil), k'), u, i, j) {
        RunComplete(Then(DoBranch(Nil), k'), u, i, j);
      } else {
        RunComplete(Then(Loop(p, since), k'), u, i, j);
      }
    case DoBranch(b) =>
      if b.Nil? {
        NilSpan(u, i, m);
        RunComplete(k', u, i, j);
      } else {
        BranchCovers(b, k', u, i, m, j);
        RunComplete(Pieces(b, k'), u, i, j);
      }
    case DoAlts(l) => AltsRunComplete(l, k', u, i, m, j);
  }

  lemma NilSpan(u: Subject, i: nat, j: nat)
    requires BranchSpan(Nil, u, i, j)
    ensures i == j
  {}

  lemma GroupCovers(a: Atom, k: Cont, u: Subject, i: nat, m: nat, j: nat)
    requires a.Group? && AtomSpan(a, u, i, m) && ContSpan(k, u, m, j)
    ensures ContSpan(Both(DoAlts(a.alts), DoClose(a.n), k), u, i, j)
  {
    hide ContSpan, AltsSpan;
    BothSpan(DoAlts(a.alts), DoClose(a.n), k, u, i, m, m, j);
  }

  lemma LeafCovers(a: Atom, u: Subject, i: nat, j: nat)
    requires !a.Group? && AtomSpan(a, u, i, j)
    ensures Leaf(a, u, i) == Some(j)
  {
    if a.Exactly? {
      assert |u.s[i..j]| == j - i;
    }
  }

  lemma {:induction false} PieceRunComplete(p: Piece, k: Cont, u: Subject, i: nat, m: nat, j: nat)
    requires i <= |u.s| && PieceSpan(p, u, i, m) && ContSpan(k, u, m, j)
    ensures Run(Then(DoPiece(p), k), u, i).Some?
    decreases |u.s| - i, Weight(Then(DoPiece(p), k), i), 0
  {
    hide ContSpan, AtomSpan;
    match p.rep
    case One =>
      OneSpan(DoAtom(p.atom), k, u, i, m, j);
      RunComplete(Then(DoAtom(p.atom), k), u, i, j);
    case Star =>
      StarCovers(p, k, u, i, m, j);
      if ContSpan(Then(DoBranch(Nil), k), u, i, j) {
        RunComplete(Then(DoBranch(Nil), k), u, i, j);
      } else {
        RunComplete(Both(DoAtom(p.atom), Loop(p, i), k), u, i, j);
      }
    case Plus =>
      PlusCovers(p, k, u, i, m, j);
      RunComplete(Both(DoAtom(p.atom), Again(p, i), k), u, i, j);
    case Quest =>
      QuestCovers(p, k, u, i, m, j);
      if ContSpan(Then(DoBranch(Nil), k), u, i, j) {
        RunComplete(Then(DoBranch(Nil), k), u, i, j);
      } else {
        RunComplete(Both(DoAtom(p.atom), DoBranch(Nil), k), u, i, j);
      }
  }

  lemma {:induction false} AltsRunComplete(l: Alts, k: Cont, u: Subject, i: nat, m: nat, j: nat)
    requires i <= |u.s| && AltsSpan(l, u, i, m) && ContSpan(k, u, m, j)
    ensures Run(Then(DoAlts(l), k), u, i).Some?
    decreases |u.s| - i, Weight(Then(DoAlts(l), k), i), 0
  {
    hide ContSpan, BranchSpan;
    if BranchSpan(l.b, u, i, m) {
      OneSpan(DoBranch(l.b), k, u, i, m, j);
      RunComplete(Then(DoBranch(l.b), k), u, i, j);
    } else {
      OneSpan(DoAlts(l.rest), k, u, i, m, j);
      RunComplete(Then(DoAlts(l.rest), k), u, i, j);
    }
  }

  // ----- a whole pattern -----

  /** Matching a pattern at a position, as the outermost call of the matcher does. */
  function Try(l: Alts, u: Subject, i: nat): Option<Match>
    requires i <= |u.s|
  {
    Run(Then(DoAlts(l), Halt), u, i)
  }

  /** A pattern matches at a position exactly when it matches some span from there; what is
      found is such a span, by one path through the pattern. */
  lemma TryMeans(l: Alts, u: Subject, i: nat)
    requires i <= |u.s|
    ensures Try(l, u, i).Some? <==> exists j: nat :: AltsSpan(l, u, i, j)
    ensures var r := Try(l, u, i); r.Some? ==>
              AltsPath(l, u, i, r.value.end, r.value.path) && AltsSpan(l, u, i, r.value.end)
  {
    hide AltsPath;
    var k := Then(DoAlts(l), Halt);
    RunSound(k, u, i);
    var r := Try(l, u, i);
    if r.Some? {
      var m, c := SplitOne(DoAlts(l), Halt, u, i, r.value.end, r.value.path);
      assert r.value.path[..c] == r.value.path;
      AltsPathSpan(l, u, i, r.value.end, r.value.path);
    }
    if j: nat :| AltsSpan(l, u, i, j) {
      AltsInside(l, u, i, j);
      OneSpan(DoAlts(l), Halt, u, i, j, j);
      RunComplete(k, u, i, j);
      assert exists j: nat :: AltsSpan(l, u, i, j);
    }
  }
}
