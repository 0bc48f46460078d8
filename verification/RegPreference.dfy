/** Which of several matches is found.

    A way of matching says which alternative was taken at every choice and how many times
    every operand was gone through.  Ways are ordered as the choices are made, from left to
    right: an earlier alternative before a later one, another time round before going on.  The
    matcher finds the first way of all. */
module RegPreference {
  import opened Chars
  import opened RegSyntax
  import opened RegMeaning
  import opened RegPaths
  import opened RegBacktrack

  /** Text: a part that is no group.  More, Done: pieces of a branch or rounds of a
      repetition.  Here, Later: the first of the alternatives or one of the others. */
  datatype Way =
    | Text
    | Inside(n: GroupNumber, from: nat, inner: Way, to: nat)
    | Done
    | More(first: Way, rest: Way)
    | Here(way: Way)
    | Later(way: Way)

  ghost predicate AtomWay(a: Atom, u: Subject, i: nat, j: nat, w: Way)
    decreases w, 0
  {
    if a.Group? then w.Inside? && w.n == a.n && w.from == i && w.to == j && AltsWay(a.alts, u, i, j, w.inner)
    else AtomSpan(a, u, i, j) && w == Text
  }

  /** Any number of rounds. */
  ghost predicate RoundsWay(a: Atom, u: Subject, i: nat, j: nat, w: Way)
    decreases w, 1
  {
    if w.More? then
      exists m: nat {:trigger AtomWay(a, u, i, m, w.first)} ::
        AtomWay(a, u, i, m, w.first) && RoundsWay(a, u, m, j, w.rest)
    else w == Done && i == j <= |u.s|
  }

  ghost predicate PieceWay(p: Piece, u: Subject, i: nat, j: nat, w: Way)
    decreases w, 2
  {
    match p.rep
    case One => AtomWay(p.atom, u, i, j, w)
    case Star => RoundsWay(p.atom, u, i, j, w)
    case Plus => w.More? && RoundsWay(p.atom, u, i, j, w)
    case Quest => (w.More? ==> w.rest == Done) && RoundsWay(p.atom, u, i, j, w)
  }

  ghost predicate BranchWay(b: Branch, u: Subject, i: nat, j: nat, w: Way)
    decreases w, 3
  {
    match b
    case Nil => w == Done && i == j <= |u.s|
    case Cons(p, rest) =>
      w.More? && exists m: nat {:trigger PieceWay(p, u, i, m, w.first)} ::
        PieceWay(p, u, i, m, w.first) && BranchWay(rest, u, m, j, w.rest)
  }

  ghost predicate AltsWay(l: Alts, u: Subject, i: nat, j: nat, w: Way)
    decreases w, 4
  {
    (w.Here? && BranchWay(l.b, u, i, j, w.way)) || (w.Later? && l.Or? && AltsWay(l.rest, u, i, j, w.way))
  }

  /** The group boundaries passed. */
  function Events(w: Way): Path {
    match w
    case Text => []
    case Inside(n, from, inner, to) => [Opened(n, from)] + Events(inner) + [Closed(n, to)]
    case Done => []
    case More(first, rest) => Events(first) + Events(rest)
    case Here(x) => Events(x)
    case Later(x) => Events(x)
  }

  /** The first choice that differs decides. */
  predicate Better(w: Way, w': Way) {
    match (w, w')
    case (Here(_), Later(_)) => true
    case (More(_, _), Done) => true
    case (Here(x), Here(x')) => Better(x, x')
    case (Later(x), Later(x')) => Better(x, x')
    case (Inside(_, _, x, _), Inside(_, _, x', _)) => Better(x, x')
    case (More(x, y), More(x', y')) => Better(x, x') || (x == x' && Better(y, y'))
    case _ => false
  }

  /** w is the first of all ways in which the pattern matches from i on. */
  ghost predicate BestWay(l: Alts, u: Subject, i: nat, j: nat, w: Way) {
    AltsWay(l, u, i, j, w) && forall j': nat, w' :: AltsWay(l, u, i, j', w') ==> (w' == w && j' == j) || Better(w, w')
  }

  lemma {:induction false} BetterIsStrict(w: Way, w': Way)
    requires Better(w, w')
    ensures w != w' && !Better(w', w)
  {
    match (w, w')
    case (Here(x), Here(x')) => BetterIsStrict(x, x');
    case (Later(x), Later(x')) => BetterIsStrict(x, x');
    case (Inside(_, _, x, _), Inside(_, _, x', _)) => BetterIsStrict(x, x');
    case (More(x, y), More(x', y')) =>
      if Better(x, x') {
        BetterIsStrict(x, x');
      } else {
        BetterIsStrict(y, y');
      }
    case _ =>
  }

  /** There is at most one such way, so the answer is fixed. */
  lemma BestIsOne(l: Alts, u: Subject, i: nat, j: nat, w: Way, j': nat, w': Way)
    requires BestWay(l, u, i, j, w) && BestWay(l, u, i, j', w')
    ensures j == j' && w == w'
  {
    hide AltsWay;
    if Better(w, w') {
      BetterIsStrict(w, w');
    }
  }

  // ----- ways are ways of the language -----

  lemma {:induction false} AtomWayPath(a: Atom, u: Subject, i: nat, j: nat, w: Way)
    requires AtomWay(a, u, i, j, w)
    ensures AtomPath(a, u, i, j, Events(w))
    decreases w, 0
  {
    hide AltsPath, AltsWay;
    if a.Group? {
      AltsWayPath(a.alts, u, i, j, w.inner);
      GroupPath(a, u, i, j, Events(w.inner));
    }
  }

  lemma {:induction false} RoundsWayPath(a: Atom, u: Subject, i: nat, j: nat, w: Way) returns (n: nat)
    requires RoundsWay(a, u, i, j, w)
    ensures TimesPath(a, n, u, i, j, Events(w)) && (n > 0 <==> w.More?) && (w.More? && w.rest == Done ==> n == 1)
    decreases w, 1
  {
    hide AtomPath, AtomWay;
    n := 0;
    if w.More? {
      var m: nat :| AtomWay(a, u, i, m, w.first) && RoundsWay(a, u, m, j, w.rest);
      AtomWayPath(a, u, i, m, w.first);
      var x := RoundsWayPath(a, u, m, j, w.rest);
      TimesMore(a, x, u, i, m, j, Events(w.first), Events(w.rest));
      n := x + 1;
    }
  }

  lemma {:induction false} PieceWayPath(p: Piece, u: Subject, i: nat, j: nat, w: Way)
    requires PieceWay(p, u, i, j, w)
    ensures PiecePath(p, u, i, j, Events(w))
    decreases w, 2
  {
    hide AtomPath, AtomWay, RoundsWay, Events;
    if p.rep.One? {
      AtomWayPath(p.atom, u, i, j, w);
    } else {
      var n := RoundsWayPath(p.atom, u, i, j, w);
      if p.rep.Quest? && n > 0 { OnceIsAtom(p.atom, u, i, j, Events(w)); }
    }
  }

  lemma OnceIsAtom(a: Atom, u: Subject, i: nat, j: nat, t: Path)
    requires TimesPath(a, 1, u, i, j, t)
    ensures AtomPath(a, u, i, j, t)
  {
    hide AtomPath;
    var m: nat, c: nat :| c <= |t| && AtomPath(a, u, i, m, t[..c]) && TimesPath(a, 0, u, m, j, t[c..]);
    assert t[..c] == t;
  }

  lemma {:induction false} BranchWayPath(b: Branch, u: Subject, i: nat, j: nat, w: Way)
    requires BranchWay(b, u, i, j, w)
    ensures BranchPath(b, u, i, j, Events(w))
    decreases w, 3
  {
    hide PiecePath, PieceWay;
    if b.Cons? {
      var m: nat :| PieceWay(b.head, u, i, m, w.first) && BranchWay(b.tail, u, m, j, w.rest);
      PieceWayPath(b.head, u, i, m, w.first);
      BranchWayPath(b.tail, u, m, j, w.rest);
      BranchMore(b.head, b.tail, u, i, m, j, Events(w.first), Events(w.rest));
    }
  }

  /** What is passed on a way is a path of the pattern. */
  lemma {:induction false} AltsWayPath(l: Alts, u: Subject, i: nat, j: nat, w: Way)
    requires AltsWay(l, u, i, j, w)
    ensures AltsPath(l, u, i, j, Events(w))
    decreases w, 4
  {
    hide BranchPath, BranchWay;
    if w.Here? {
      BranchWayPath(l.b, u, i, j, w.way);
    } else {
      AltsWayPath(l.rest, u, i, j, w.way);
    }
  }

  lemma {:induction false} AtomSpanWay(a: Atom, u: Subject, i: nat, j: nat) returns (w: Way)
    requires AtomSpan(a, u, i, j)
    ensures AtomWay(a, u, i, j, w)
    decreases a, 0, 0
  {
    hide AltsSpan, AltsWay;
    w := Text;
    if a.Group? {
      var x := AltsSpanWay(a.alts, u, i, j);
      w := Inside(a.n, i, x, j);
    }
  }

  lemma {:induction false} TimesWay(a: Atom, n: nat, u: Subject, i: nat, j: nat) returns (w: Way)
    requires Times(a, n, u, i, j)
    ensures RoundsWay(a, u, i, j, w) && (w.More? <==> n > 0) && (n == 1 ==> w.rest == Done)
    decreases a, 1, n
  {
    hide AtomSpan, AtomWay;
    w := Done;
    if n > 0 {
      var m := FirstTime(a, n, u, i, j);
      var x := AtomSpanWay(a, u, i, m);
      var y := TimesWay(a, n - 1, u, m, j);
      w := More(x, y);
    }
  }

  lemma {:induction false} PieceSpanWay(p: Piece, u: Subject, i: nat, j: nat) returns (w: Way)
    requires PieceSpan(p, u, i, j)
    ensures PieceWay(p, u, i, j, w)
    decreases p, 2, 0
  {
    hide AtomSpan, AtomWay;
    match p.rep
    case One => w := AtomSpanWay(p.atom, u, i, j);
    case Star =>
      var n: nat :| Times(p.atom, n, u, i, j);
      w := TimesWay(p.atom, n, u, i, j);
    case Plus =>
      var n: nat :| n > 0 && Times(p.atom, n, u, i, j);
      w := TimesWay(p.atom, n, u, i, j);
    case Quest =>
      if AtomSpan(p.atom, u, i, j) {
        AtomInside(p.atom, u, i, j);
        var x := AtomSpanWay(p.atom, u, i, j);
        assert RoundsWay(p.atom, u, j, j, Done);
        w := More(x, Done);
      } else {
        w := Done;
      }
  }

  lemma {:induction false} BranchSpanWay(b: Branch, u: Subject, i: nat, j: nat) returns (w: Way)
    requires BranchSpan(b, u, i, j)
    ensures BranchWay(b, u, i, j, w)
    decreases b, 3, 0
  {
    hide PieceSpan, PieceWay;
    w := Done;
    if b.Cons? {
      var m: nat :| PieceSpan(b.head, u, i, m) && BranchSpan(b.tail, u, m, j);
      var x := PieceSpanWay(b.head, u, i, m);
      var y := BranchSpanWay(b.tail, u, m, j);
      w := More(x, y);
    }
  }

  /** Every span of the language is matched in some way. */
  lemma {:induction false} AltsSpanWay(l: Alts, u: Subject, i: nat, j: nat) returns (w: Way)
    requires AltsSpan(l, u, i, j)
    ensures AltsWay(l, u, i, j, w)
    decreases l, 4, 0
  {
    hide BranchSpan, BranchWay;
    if BranchSpan(l.b, u, i, j) {
      var x := BranchSpanWay(l.b, u, i, j);
      w := Here(x);
    } else {
      var x := AltsSpanWay(l.rest, u, i, j);
      w := Later(x);
    }
  }

  // ----- ways of all that is left to match -----

  /** As for ways of a piece; the way back into a repetition is open only after an advance. */
  ghost predicate ItemWay(item: Item, u: Subject, i: nat, j: nat, w: Way) {
    match item
    case DoAtom(a) => AtomWay(a, u, i, j, w)
    case DoPiece(p) => PieceWay(p, u, i, j, w)
    case DoBranch(b) => BranchWay(b, u, i, j, w)
    case DoAlts(l) => AltsWay(l, u, i, j, w)
    case DoClose(_) => false
    case Loop(p, since) => i > since && PieceWay(p, u, i, j, w)
    case Again(p, since) => (w.More? ==> i > since) && RoundsWay(p.atom, u, i, j, w)
  }

  /** A way of each item, and the boundaries passed. */
  ghost predicate ContWay(k: Cont, u: Subject, i: nat, j: nat, w: Way, t: Path)
    decreases k
  {
    match k
    case Halt => i == j <= |u.s| && w == Done && t == []
    case Then(item, k') =>
      if item.DoClose? then t != [] && t[0] == Closed(item.n, i) && ContWay(k', u, i, j, w, t[1..])
      else
        w.More? && Events(w.first) <= t
        && exists m: nat {:trigger ItemWay(item, u, i, m, w.first)} ::
             ItemWay(item, u, i, m, w.first) && ContWay(k', u, m, j, w.rest, t[|Events(w.first)|..])
  }

  /** What was found, r, is what the first of all ways, w, gives. */
  ghost predicate Found(k: Cont, u: Subject, i: nat, r: Option<Match>, w: Way) {
    && (r.Some? ==> ContWay(k, u, i, r.value.end, w, r.value.path))
    && forall j: nat, w', t :: ContWay(k, u, i, j, w', t) ==>
         r.Some? && ((w' == w && j == r.value.end && t == r.value.path) || Better(w, w'))
  }

  predicate ItemOk(item: Item) {
    match item
    case DoAtom(a) => AtomOk(a)
    case DoPiece(p) => PieceOk(p)
    case DoBranch(b) => BranchOk(b)
    case DoAlts(l) => AltsOk(l)
    case DoClose(_) => true
    case Loop(p, _) => PieceOk(p) && (p.rep.Star? || p.rep.Plus?)
    case Again(p, _) => PieceOk(p) && p.rep.Plus?
  }

  predicate AllOk(k: Cont) {
    k.Then? ==> ItemOk(k.item) && AllOk(k.k)
  }

  /** Two items, x and y, in the place of one, z, whose way has two parts. */
  lemma Regroup(x: Item, y: Item, z: Item, k: Cont, u: Subject, i: nat, j: nat, a: Way, b: Way, r: Way, t: Path)
    requires !x.DoClose? && !y.DoClose? && !z.DoClose?
    requires forall m: nat :: ItemWay(z, u, i, m, More(a, b)) <==>
                              exists c: nat :: ItemWay(x, u, i, c, a) && ItemWay(y, u, c, m, b)
    ensures ContWay(Then(z, k), u, i, j, More(More(a, b), r), t)
            <==> ContWay(Then(x, Then(y, k)), u, i, j, More(a, More(b, r)), t)
  {
    hide ItemWay;
    var ea, eb := Events(a), Events(b);
    if ContWay(Then(z, k), u, i, j, More(More(a, b), r), t) {
      var m: nat :| ItemWay(z, u, i, m, More(a, b)) && ContWay(k, u, m, j, r, t[|ea + eb|..]);
      var c: nat :| ItemWay(x, u, i, c, a) && ItemWay(y, u, c, m, b);
      assert t[|ea|..][|eb|..] == t[|ea + eb|..];
      assert ContWay(Then(y, k), u, c, j, More(b, r), t[|ea|..]);
    }
    if ContWay(Then(x, Then(y, k)), u, i, j, More(a, More(b, r)), t) {
      var c: nat :| ItemWay(x, u, i, c, a) && ContWay(Then(y, k), u, c, j, More(b, r), t[|ea|..]);
      var m: nat :| ItemWay(y, u, c, m, b) && ContWay(k, u, m, j, r, t[|ea|..][|eb|..]);
      assert t[|ea|..][|eb|..] == t[|ea + eb|..];
      assert ea + eb <= t;
      assert ItemWay(z, u, i, m, More(a, b));
    }
  }

  /** The way of the item in the place of two. */
  function Joined(w: Way): Way {
    if w.More? && w.rest.More? then More(More(w.first, w.rest.first), w.rest.rest) else w
  }

  lemma JoinedBetter(w: Way, w': Way)
    requires w.More? && w.rest.More? && w'.More? && w'.rest.More? && Better(w, w')
    ensures Better(Joined(w), Joined(w'))
  {}

  // ----- the choices, one by one -----

  lemma AtomAdvances(a: Atom, u: Subject, i: nat, j: nat, w: Way)
    requires AtomOk(a) && AtomWidth(a) && AtomWay(a, u, i, j, w)
    ensures i < j
  {
    hide AtomWay, AtomSpan;
    AtomWayPath(a, u, i, j, w);
    AtomPathSpan(a, u, i, j, Events(w));
    AtomHasWidth(a, u, i, j);
  }

  lemma FirstRound(a: Atom, u: Subject, i: nat, j: nat, w: Way) returns (m: nat)
    requires w.More? && RoundsWay(a, u, i, j, w)
    ensures AtomWay(a, u, i, m, w.first) && RoundsWay(a, u, m, j, w.rest)
  {
    hide AtomWay;
    m :| AtomWay(a, u, i, m, w.first) && RoundsWay(a, u, m, j, w.rest);
  }

  /** Nothing is the only way of no more pieces, and of no more rounds. */
  lemma NothingMore(a: Atom, u: Subject, i: nat, j: nat, w: Way)
    ensures BranchWay(Nil, u, i, j, w) <==> w == Done && i == j <= |u.s|
    ensures !w.More? ==> (RoundsWay(a, u, i, j, w) <==> BranchWay(Nil, u, i, j, w))
  {}

  /** A round and the way back make a repetition of at least one round. */
  lemma LoopRounds(p: Piece, u: Subject, i: nat, m: nat, a: Way, b: Way)
    requires PieceOk(p) && (p.rep.Star? || p.rep.Plus?)
    ensures ItemWay(DoPiece(p), u, i, m, More(a, b)) <==>
            exists c: nat :: ItemWay(DoAtom(p.atom), u, i, c, a)
                             && ItemWay(if p.rep.Star? then Loop(p, i) else Again(p, i), u, c, m, b)
  {
    hide AtomWay, AtomOk, AtomWidth;
    forall c: nat | AtomWay(p.atom, u, i, c, a) ensures i < c { AtomAdvances(p.atom, u, i, c, a); }
    var y := if p.rep.Star? then Loop(p, i) else Again(p, i);
    if ItemWay(DoPiece(p), u, i, m, More(a, b)) {
      var c := FirstRound(p.atom, u, i, m, More(a, b));
      assert ItemWay(DoAtom(p.atom), u, i, c, a) && ItemWay(y, u, c, m, b);
    }
    if c: nat :| ItemWay(DoAtom(p.atom), u, i, c, a) && ItemWay(y, u, c, m, b) {
      assert RoundsWay(p.atom, u, c, m, b);
      assert RoundsWay(p.atom, u, i, m, More(a, b));
    }
  }

  lemma QuestRound(p: Piece, u: Subject, i: nat, m: nat, a: Way, b: Way)
    requires p.rep.Quest?
    ensures ItemWay(DoPiece(p), u, i, m, More(a, b)) <==>
            exists c: nat :: ItemWay(DoAtom(p.atom), u, i, c, a) && ItemWay(DoBranch(Nil), u, c, m, b)
  {
    hide AtomWay;
    forall c: nat ensures !b.More? ==> (RoundsWay(p.atom, u, c, m, b) <==> BranchWay(Nil, u, c, m, b)) {
      NothingMore(p.atom, u, c, m, b);
    }
    NothingMore(p.atom, u, i, m, b);
    if ItemWay(DoPiece(p), u, i, m, More(a, b)) {
      var c := FirstRound(p.atom, u, i, m, More(a, b));
      assert ItemWay(DoAtom(p.atom), u, i, c, a) && ItemWay(DoBranch(Nil), u, c, m, b);
    }
    if c: nat :| ItemWay(DoAtom(p.atom), u, i, c, a) && ItemWay(DoBranch(Nil), u, c, m, b) {
      assert RoundsWay(p.atom, u, c, m, b);
      assert RoundsWay(p.atom, u, i, m, More(a, b));
    }
  }

  /** z stands for x and y one after the other. */
  ghost predicate StandsForTwo(z: Item, x: Item, y: Item, u: Subject, i: nat) {
    && !x.DoClose? && !y.DoClose? && !z.DoClose?
    && forall m: nat, a, b {:trigger ItemWay(z, u, i, m, More(a, b))} ::
         ItemWay(z, u, i, m, More(a, b)) <==>
         exists c: nat :: ItemWay(x, u, i, c, a) && ItemWay(y, u, c, m, b)
  }

  lemma TwoWays(x: Item, y: Item, k: Cont, u: Subject, i: nat, j: nat, w: Way, t: Path)
    requires !x.DoClose? && !y.DoClose? && ContWay(Then(x, Then(y, k)), u, i, j, w, t)
    ensures w.More? && w.rest.More?
  {
    hide ItemWay;
  }

  /** Of the ways of z that have two parts the first is that of x and y. */
  lemma TwoBest(z: Item, x: Item, y: Item, k: Cont, u: Subject, i: nat, m: Option<Match>, v: Way)
    requires StandsForTwo(z, x, y, u, i) && Found(Both(x, y, k), u, i, m, v)
    ensures m.Some? ==> ContWay(Then(z, k), u, i, m.value.end, Joined(v), m.value.path)
                        && Joined(v).More? && Joined(v).first.More?
    ensures forall j: nat, w, t :: ContWay(Then(z, k), u, i, j, w, t) && w.More? && w.first.More? ==>
              m.Some? && ((w == Joined(v) && j == m.value.end && t == m.value.path) || Better(Joined(v), w))
  {
    hide ItemWay, ContWay, Better;
    if m.Some? {
      TwoWays(x, y, k, u, i, m.value.end, v, m.value.path);
      Regroup(x, y, z, k, u, i, m.value.end, v.first, v.rest.first, v.rest.rest, m.value.path);
    }
    forall j: nat, w, t | ContWay(Then(z, k), u, i, j, w, t) && w.More? && w.first.More?
      ensures m.Some? && ((w == Joined(v) && j == m.value.end && t == m.value.path) || Better(Joined(v), w))
    {
      Regroup(x, y, z, k, u, i, j, w.first.first, w.first.rest, w.rest, t);
      var w1 := More(w.first.first, More(w.first.rest, w.rest));
      assert ContWay(Both(x, y, k), u, i, j, w1, t);
      assert Joined(w1) == w;
      if Better(v, w1) { JoinedBetter(v, w1); }
    }
  }

  /** z has all ways of x and no others. */
  ghost predicate StandsForOne(z: Item, x: Item, u: Subject, i: nat) {
    !x.DoClose? && !z.DoClose? && forall m: nat, a :: ItemWay(z, u, i, m, a) <==> ItemWay(x, u, i, m, a)
  }

  lemma SameWays(z: Item, x: Item, k: Cont, u: Subject, i: nat, j: nat, w: Way, t: Path)
    requires StandsForOne(z, x, u, i)
    ensures ContWay(Then(z, k), u, i, j, w, t) <==> ContWay(Then(x, k), u, i, j, w, t)
  {
    hide ItemWay;
  }

  lemma OneBest(z: Item, x: Item, k: Cont, u: Subject, i: nat, r: Option<Match>, w: Way)
    requires StandsForOne(z, x, u, i) && Found(Then(x, k), u, i, r, w)
    ensures Found(Then(z, k), u, i, r, w)
  {
    hide ItemWay, ContWay, Better;
    forall j: nat, w', t ensures ContWay(Then(z, k), u, i, j, w', t) <==> ContWay(Then(x, k), u, i, j, w', t) {
      SameWays(z, x, k, u, i, j, w', t);
    }
  }

  /** The ways of an item are the parts of a way; nothing is one part. */
  lemma FirstPart(x: Item, k: Cont, u: Subject, i: nat, j: nat, w: Way, t: Path) returns (m: nat)
    requires !x.DoClose? && ContWay(Then(x, k), u, i, j, w, t)
    ensures w.More? && ItemWay(x, u, i, m, w.first) && Events(w.first) <= t
            && ContWay(k, u, m, j, w.rest, t[|Events(w.first)|..])
  {
    hide ItemWay;
    m :| ItemWay(x, u, i, m, w.first) && ContWay(k, u, m, j, w.rest, t[|Events(w.first)|..]);
  }

  /** No round at all. */
  lemma NoRound(z: Item, k: Cont, u: Subject, i: nat, j: nat, w: Way, t: Path)
    requires z.Again? || (z.DoPiece? && (z.p.rep.Star? || z.p.rep.Quest?))
    ensures ContWay(Then(DoBranch(Nil), k), u, i, j, w, t) <==>
            ContWay(Then(z, k), u, i, j, w, t) && w.More? && !w.first.More?
    ensures ContWay(Then(DoBranch(Nil), k), u, i, j, w, t) ==> w.More? && w.first == Done
  {
    hide AtomWay;
    if ContWay(Then(DoBranch(Nil), k), u, i, j, w, t) {
      var m := FirstPart(DoBranch(Nil), k, u, i, j, w, t);
      NothingMore(z.p.atom, u, i, m, w.first);
      assert ItemWay(z, u, i, m, w.first);
    }
    if ContWay(Then(z, k), u, i, j, w, t) && !w.first.More? {
      var m := FirstPart(z, k, u, i, j, w, t);
      NothingMore(z.p.atom, u, i, m, w.first);
      assert ItemWay(DoBranch(Nil), u, i, m, w.first);
    }
  }

  lemma RoundFirst(w: Way, w': Way)
    requires w.More? && w.first.More? && w'.More? && w'.first == Done
    ensures Better(w, w')
  {}

  /** A choice between a round, with the first way w1 of all that begin with one, and none. */
  lemma RoundOrNone(z: Item, k: Cont, u: Subject, i: nat, m: Option<Match>, w1: Way, d: Option<Match>, w2: Way)
    returns (w: Way)
    requires z.Again? || (z.DoPiece? && (z.p.rep.Star? || z.p.rep.Quest?))
    requires m.Some? ==> ContWay(Then(z, k), u, i, m.value.end, w1, m.value.path) && w1.More? && w1.first.More?
    requires forall j: nat, w, t :: ContWay(Then(z, k), u, i, j, w, t) && w.More? && w.first.More? ==>
               m.Some? && ((w == w1 && j == m.value.end && t == m.value.path) || Better(w1, w))
    requires Found(Then(DoBranch(Nil), k), u, i, d, w2)
    ensures Found(Then(z, k), u, i, OrElse(m, d), w)
  {
    hide ItemWay, ContWay, Better;
    w := if m.Some? then w1 else w2;
    if m.None? && d.Some? {
      NoRound(z, k, u, i, d.value.end, w2, d.value.path);
    }
    forall j: nat, w', t | ContWay(Then(z, k), u, i, j, w', t)
      ensures OrElse(m, d).Some?
      ensures (w' == w && j == OrElse(m, d).value.end && t == OrElse(m, d).value.path) || Better(w, w')
    {
      var c := FirstPart(z, k, u, i, j, w', t);
      if !w'.first.More? {
        NoRound(z, k, u, i, j, w', t);
        if m.Some? { RoundFirst(w, w'); }
      }
    }
  }

  lemma RepeatBest(p: Piece, y: Item, k: Cont, u: Subject, i: nat, m: Option<Match>, wm: Way, d: Option<Match>,
                   wd: Way)
    returns (w: Way)
    requires PieceOk(p) && i <= |u.s|
    requires (p.rep.Star? && y == Loop(p, i)) || (p.rep.Quest? && y == DoBranch(Nil))
    requires Found(Both(DoAtom(p.atom), y, k), u, i, m, wm) && Found(Then(DoBranch(Nil), k), u, i, d, wd)
    ensures Found(Then(DoPiece(p), k), u, i, OrElse(m, d), w)
  {
    hide ItemWay, ContWay, Better, AtomOk, AtomWidth, Found;
    PieceIsTwo(p, y, u, i);
    TwoBest(DoPiece(p), DoAtom(p.atom), y, k, u, i, m, wm);
    w := RoundOrNone(DoPiece(p), k, u, i, m, Joined(wm), d, wd);
  }

  lemma PieceIsTwo(p: Piece, y: Item, u: Subject, i: nat)
    requires PieceOk(p)
    requires if p.rep.Star? then y == Loop(p, i) else if p.rep.Plus? then y == Again(p, i)
             else p.rep.Quest? && y == DoBranch(Nil)
    ensures StandsForTwo(DoPiece(p), DoAtom(p.atom), y, u, i)
  {
    hide ItemWay, AtomOk, AtomWidth;
    forall m: nat, a, b
      ensures ItemWay(DoPiece(p), u, i, m, More(a, b)) <==>
              exists c: nat :: ItemWay(DoAtom(p.atom), u, i, c, a) && ItemWay(y, u, c, m, b)
    {
      if p.rep.Quest? { QuestRound(p, u, i, m, a, b); } else { LoopRounds(p, u, i, m, a, b); }
    }
  }

  lemma PlusBest(p: Piece, k: Cont, u: Subject, i: nat, m: Option<Match>, v: Way)
    requires PieceOk(p) && p.rep.Plus? && Found(Both(DoAtom(p.atom), Again(p, i), k), u, i, m, v)
    ensures Found(Then(DoPiece(p), k), u, i, m, Joined(v))
  {
    hide ContWay, Better, AtomOk, AtomWidth, RoundsWay, StandsForTwo;
    PieceIsTwo(p, Again(p, i), u, i);
    TwoBest(DoPiece(p), DoAtom(p.atom), Again(p, i), k, u, i, m, v);
    forall j: nat, w, t | ContWay(Then(DoPiece(p), k), u, i, j, w, t) ensures w.More? && w.first.More? {
      var c := FirstPart(DoPiece(p), k, u, i, j, w, t);
    }
  }

  /** After a round of a plus: another one before going on. */
  lemma AgainBest(p: Piece, since: nat, k: Cont, u: Subject, i: nat, m: Option<Match>, wm: Way, d: Option<Match>,
                  wd: Way)
    returns (w: Way)
    requires p.rep.Plus?
    requires Found(Then(Loop(p, since), k), u, i, m, wm) && Found(Then(DoBranch(Nil), k), u, i, d, wd)
    ensures Found(Then(Again(p, since), k), u, i, OrElse(m, d), w)
  {
    hide ContWay, Better, RoundsWay;
    forall j: nat, v, t
      ensures ContWay(Then(Loop(p, since), k), u, i, j, v, t) <==>
              ContWay(Then(Again(p, since), k), u, i, j, v, t) && v.More? && v.first.More?
    {
      AgainRounds(p, since, k, u, i, j, v, t);
    }
    w := RoundOrNone(Again(p, since), k, u, i, m, wm, d, wd);
  }

  lemma AgainRounds(p: Piece, since: nat, k: Cont, u: Subject, i: nat, j: nat, w: Way, t: Path)
    requires p.rep.Plus?
    ensures ContWay(Then(Loop(p, since), k), u, i, j, w, t) <==>
            ContWay(Then(Again(p, since), k), u, i, j, w, t) && w.More? && w.first.More?
  {
    hide RoundsWay;
    if ContWay(Then(Loop(p, since), k), u, i, j, w, t) {
      var m := FirstPart(Loop(p, since), k, u, i, j, w, t);
      assert ItemWay(Again(p, since), u, i, m, w.first);
    }
    if ContWay(Then(Again(p, since), k), u, i, j, w, t) && w.first.More? {
      var m := FirstPart(Again(p, since), k, u, i, j, w, t);
      assert ItemWay(Loop(p, since), u, i, m, w.first);
    }
  }

  // ----- a way fixes where it ends -----

  lemma {:induction false} AtomEnd(a: Atom, u: Subject, i: nat, j: nat, j': nat, w: Way)
    requires AtomWay(a, u, i, j, w) && AtomWay(a, u, i, j', w)
    ensures j == j'
  {
    if a.Exactly? { assert |u.s[i..j]| == j - i && |u.s[i..j']| == j' - i; }
  }

  lemma {:induction false} RoundsEnd(a: Atom, u: Subject, i: nat, j: nat, j': nat, w: Way)
    requires RoundsWay(a, u, i, j, w) && RoundsWay(a, u, i, j', w)
    ensures j == j'
    decreases w
  {
    hide AtomWay;
    if w.More? {
      var m := FirstRound(a, u, i, j, w);
      var m' := FirstRound(a, u, i, j', w);
      AtomEnd(a, u, i, m, m', w.first);
      RoundsEnd(a, u, m, j, j', w.rest);
    }
  }

  lemma {:induction false} BranchEnd(b: Branch, u: Subject, i: nat, j: nat, j': nat, w: Way)
    requires BranchWay(b, u, i, j, w) && BranchWay(b, u, i, j', w)
    ensures j == j'
    decreases w
  {
    hide AtomWay, RoundsWay;
    if b.Cons? {
      var m: nat :| PieceWay(b.head, u, i, m, w.first) && BranchWay(b.tail, u, m, j, w.rest);
      var m': nat :| PieceWay(b.head, u, i, m', w.first) && BranchWay(b.tail, u, m', j', w.rest);
      if b.head.rep.One? {
        AtomEnd(b.head.atom, u, i, m, m', w.first);
      } else {
        RoundsEnd(b.head.atom, u, i, m, m', w.first);
      }
      BranchEnd(b.tail, u, m, j, j', w.rest);
    }
  }

  lemma {:induction false} AltsEnd(l: Alts, u: Subject, i: nat, j: nat, j': nat, w: Way)
    requires AltsWay(l, u, i, j, w) && AltsWay(l, u, i, j', w)
    ensures j == j'
    decreases w
  {
    hide BranchWay;
    if w.Here? {
      BranchEnd(l.b, u, i, j, j', w.way);
    } else {
      AltsEnd(l.rest, u, i, j, j', w.way);
    }
  }

  // ----- the other items -----

  function Prefixed(pre: Path, r: Option<Match>): Option<Match> {
    match r
    case Some(m) => Some(Match(m.end, pre + m.path))
    case None => None
  }

  /** The ways of k are those of k1 with something put around them, in the same order. */
  lemma WrappedBest(k: Cont, i: nat, k1: Cont, i1: nat, u: Subject, r: Option<Match>, v: Way, f: Way -> Way, pre: Path)
    requires Found(k1, u, i1, r, v)
    requires forall j: nat, x, t :: ContWay(k1, u, i1, j, x, t) ==> ContWay(k, u, i, j, f(x), pre + t)
    requires forall j: nat, w, t :: ContWay(k, u, i, j, w, t) ==>
               pre <= t && exists x :: w == f(x) && ContWay(k1, u, i1, j, x, t[|pre|..])
    requires forall x, x' :: Better(x, x') ==> Better(f(x), f(x'))
    ensures Found(k, u, i, Prefixed(pre, r), f(v))
  {
    hide ContWay, Better;
    forall j: nat, w, t | ContWay(k, u, i, j, w, t)
      ensures r.Some? && ((w == f(v) && j == r.value.end && t == pre + r.value.path) || Better(f(v), w))
    {
      var x :| w == f(x) && ContWay(k1, u, i1, j, x, t[|pre|..]);
      if !Better(v, x) { assert t == pre + t[|pre|..]; }
    }
  }

  lemma CloseBest(n: GroupNumber, k: Cont, u: Subject, i: nat, r: Option<Match>, w: Way)
    requires Found(k, u, i, r, w)
    ensures Found(Then(DoClose(n), k), u, i, Passing(Closed(n, i), r), w)
  {
    hide Better;
    forall j: nat, x, t | ContWay(k, u, i, j, x, t)
      ensures ContWay(Then(DoClose(n), k), u, i, j, x, [Closed(n, i)] + t)
    {
      assert ([Closed(n, i)] + t)[1..] == t;
    }
    WrappedBest(Then(DoClose(n), k), i, k, i, u, r, w, x => x, [Closed(n, i)]);
  }

  /** An item with one way only, over which nothing is passed. */
  lemma OnlyWayBest(item: Item, only: Way, k: Cont, u: Subject, i: nat, m: nat, r: Option<Match>, w: Way)
    requires !item.DoClose? && Events(only) == [] && !Better(only, only)
    requires forall c: nat, x :: ItemWay(item, u, i, c, x) <==> c == m && x == only
    requires Found(k, u, m, r, w)
    ensures Found(Then(item, k), u, i, r, More(only, w))
  {
    hide ItemWay, Better;
    var f := x => More(only, x);
    forall j: nat, x, t | ContWay(k, u, m, j, x, t) ensures ContWay(Then(item, k), u, i, j, f(x), [] + t) {
      assert [] + t == t == t[0..] && ItemWay(item, u, i, m, f(x).first);
    }
    forall j: nat, x, t | ContWay(Then(item, k), u, i, j, x, t)
      ensures exists y :: x == f(y) && ContWay(k, u, m, j, y, t[0..])
    {
      var c := FirstPart(item, k, u, i, j, x, t);
      assert x == f(x.rest);
    }
    forall x, x' | Better(x, x') ensures Better(f(x), f(x')) { RestBetter(only, x, x'); }
    WrappedBest(Then(item, k), i, k, m, u, r, w, f, []);
    if r.Some? { assert [] + r.value.path == r.value.path; }
  }

  lemma RestBetter(first: Way, x: Way, x': Way)
    requires Better(x, x')
    ensures Better(More(first, x), More(first, x'))
  {}

  lemma LeafBest(a: Atom, k: Cont, u: Subject, i: nat, r: Option<Match>, v: Way) returns (w: Way)
    requires i <= |u.s| && !a.Group? && (Leaf(a, u, i).Some? ==> Found(k, u, Leaf(a, u, i).value, r, v))
    ensures Found(Then(DoAtom(a), k), u, i, if Leaf(a, u, i).Some? then r else None, w)
  {
    hide ContWay, Better, AltsWay, Found;
    var o := Leaf(a, u, i);
    w := More(Text, v);
    forall c: nat, x ensures ItemWay(DoAtom(a), u, i, c, x) <==> o == Some(c) && x == Text {
      if AtomSpan(a, u, i, c) { LeafCovers(a, u, i, c); }
    }
    if o.Some? {
      TextIsOne();
      OnlyWayBest(DoAtom(a), Text, k, u, i, o.value, r, v);
    } else {
      NoWay(DoAtom(a), k, u, i, w);
    }
  }

  lemma TextIsOne()
    ensures forall x :: x == Text || x == Done ==> Events(x) == [] && !Better(x, x)
  {}

  lemma NoWay(item: Item, k: Cont, u: Subject, i: nat, w: Way)
    requires !item.DoClose? && forall c: nat, x :: !ItemWay(item, u, i, c, x)
    ensures Found(Then(item, k), u, i, None, w)
  {
    hide ItemWay, Better;
    forall j: nat, x, t ensures !ContWay(Then(item, k), u, i, j, x, t) {
      if ContWay(Then(item, k), u, i, j, x, t) {
        var c := FirstPart(item, k, u, i, j, x, t);
      }
    }
  }

  lemma NothingBest(k: Cont, u: Subject, i: nat, r: Option<Match>, v: Way)
    requires i <= |u.s| && Found(k, u, i, r, v)
    ensures Found(Then(DoBranch(Nil), k), u, i, r, More(Done, v))
  {
    hide ContWay, Better, Found;
    TextIsOne();
    OnlyWayBest(DoBranch(Nil), Done, k, u, i, i, r, v);
  }

  lemma BranchBest(b: Branch, k: Cont, u: Subject, i: nat, r: Option<Match>, v: Way) returns (w: Way)
    requires b.Cons? && Found(Pieces(b, k), u, i, r, v)
    ensures Found(Then(DoBranch(b), k), u, i, r, w)
  {
    hide ContWay, PieceWay, Better, BranchWay, StandsForTwo;
    if b.tail.Nil? {
      w := LastPieceBest(b, k, u, i, r, v);
    } else {
      w := Joined(v);
      BranchIsTwo(b, u, i);
      TwoBest(DoBranch(b), DoPiece(b.head), DoBranch(b.tail), k, u, i, r, v);
      forall j: nat, w', t | ContWay(Then(DoBranch(b), k), u, i, j, w', t) ensures w'.More? && w'.first.More? {
        var c := FirstPart(DoBranch(b), k, u, i, j, w', t);
        PiecesMore(b, u, i, c, w'.first);
      }
    }
  }

  lemma BranchIsTwo(b: Branch, u: Subject, i: nat)
    requires b.Cons?
    ensures StandsForTwo(DoBranch(b), DoPiece(b.head), DoBranch(b.tail), u, i)
  {
    hide PieceWay, BranchWay;
    forall m: nat, x, y
      ensures ItemWay(DoBranch(b), u, i, m, More(x, y)) <==>
              exists c: nat :: ItemWay(DoPiece(b.head), u, i, c, x) && ItemWay(DoBranch(b.tail), u, c, m, y)
    {
      if BranchWay(b, u, i, m, More(x, y)) {
        PiecesMore(b, u, i, m, More(x, y));
        var c: nat :| PieceWay(b.head, u, i, c, x) && BranchWay(b.tail, u, c, m, y);
        assert ItemWay(DoPiece(b.head), u, i, c, x) && ItemWay(DoBranch(b.tail), u, c, m, y);
      }
      if c: nat :| ItemWay(DoPiece(b.head), u, i, c, x) && ItemWay(DoBranch(b.tail), u, c, m, y) {
        PieceAndMore(b, u, i, c, m, x, y);
      }
    }
  }

  lemma PieceAndMore(b: Branch, u: Subject, i: nat, c: nat, m: nat, x: Way, y: Way)
    requires b.Cons? && PieceWay(b.head, u, i, c, x) && BranchWay(b.tail, u, c, m, y)
    ensures BranchWay(b, u, i, m, More(x, y))
  {
    hide PieceWay;
  }

  lemma PiecesMore(b: Branch, u: Subject, i: nat, j: nat, w: Way)
    requires b.Cons? && BranchWay(b, u, i, j, w)
    ensures w.More? && exists m: nat :: PieceWay(b.head, u, i, m, w.first) && BranchWay(b.tail, u, m, j, w.rest)
  {
    hide PieceWay;
  }

  lemma LastPieceBest(b: Branch, k: Cont, u: Subject, i: nat, r: Option<Match>, v: Way) returns (w: Way)
    requires b.Cons? && b.tail.Nil? && Found(Then(DoPiece(b.head), k), u, i, r, v)
    ensures Found(Then(DoBranch(b), k), u, i, r, w)
  {
    hide ContWay, PieceWay, Better;
    var f := (x: Way) => if x.More? then More(More(x.first, Done), x.rest) else x;
    w := f(v);
    forall j: nat, x, t | ContWay(Then(DoPiece(b.head), k), u, i, j, x, t)
      ensures ContWay(Then(DoBranch(b), k), u, i, j, f(x), [] + t)
    {
      var c := FirstPart(DoPiece(b.head), k, u, i, j, x, t);
      PieceInsideWay(b.head, u, i, c, x.first);
      NothingMore(b.head.atom, u, c, c, Done);
      assert [] + t == t && Events(x.first) + [] == Events(x.first);
      WayOf(DoBranch(b), k, u, i, c, j, f(x), t);
    }
    forall j: nat, x, t | ContWay(Then(DoBranch(b), k), u, i, j, x, t)
      ensures exists y :: x == f(y) && ContWay(Then(DoPiece(b.head), k), u, i, j, y, t[0..])
    {
      var c := FirstPart(DoBranch(b), k, u, i, j, x, t);
      PiecesMore(b, u, i, c, x.first);
      var m: nat :| PieceWay(b.head, u, i, m, x.first.first) && BranchWay(Nil, u, m, c, x.first.rest);
      NothingMore(b.head.atom, u, m, c, x.first.rest);
      var y := More(x.first.first, x.rest);
      assert x == f(y) && t[0..] == t && Events(x.first.first) + [] == Events(x.first.first);
      WayOf(DoPiece(b.head), k, u, i, c, j, y, t);
    }
    forall x, x' | Better(x, x') ensures Better(f(x), f(x')) { LastBetter(x, x', f(x), f(x')); }
    WrappedBest(Then(DoBranch(b), k), i, Then(DoPiece(b.head), k), i, u, r, v, f, []);
    if r.Some? { assert [] + r.value.path == r.value.path; }
  }

  lemma PieceInsideWay(p: Piece, u: Subject, i: nat, j: nat, w: Way)
    requires PieceWay(p, u, i, j, w)
    ensures i <= j <= |u.s|
  {
    hide PieceWay, PiecePath, PieceSpan;
    PieceWayPath(p, u, i, j, w);
    PiecePathSpan(p, u, i, j, Events(w));
    PieceInside(p, u, i, j);
  }

  lemma WayOf(item: Item, k: Cont, u: Subject, i: nat, m: nat, j: nat, w: Way, t: Path)
    requires !item.DoClose? && w.More? && ItemWay(item, u, i, m, w.first) && Events(w.first) <= t
    requires ContWay(k, u, m, j, w.rest, t[|Events(w.first)|..])
    ensures ContWay(Then(item, k), u, i, j, w, t)
  {
    hide ItemWay;
  }

  lemma {:induction false} LastBetter(x: Way, x': Way, w: Way, w': Way)
    requires Better(x, x')
    requires w == (if x.More? then More(More(x.first, Done), x.rest) else x)
    requires w' == (if x'.More? then More(More(x'.first, Done), x'.rest) else x')
    ensures Better(w, w')
  {}

  /** The alternatives in their order. */
  lemma AltsBest(l: Alts, k: Cont, u: Subject, i: nat, r: Option<Match>, v: Way, r': Option<Match>, v': Way)
    returns (w: Way)
    requires Found(Then(DoBranch(l.b), k), u, i, r, v)
    requires if l.Or? then Found(Then(DoAlts(l.rest), k), u, i, r', v') else r' == None
    ensures Found(Then(DoAlts(l), k), u, i, OrElse(r, r'), w)
  {
    hide ContWay, Better;
    w := if r.Some? then Taken(v, true) else Taken(v', false);
    if r.Some? {
      AltTaken(l, true, k, u, i, r.value.end, v, r.value.path);
    } else if r'.Some? {
      AltTaken(l, false, k, u, i, r'.value.end, v', r'.value.path);
    }
    forall j: nat, x, t | ContWay(Then(DoAlts(l), k), u, i, j, x, t)
      ensures OrElse(r, r').Some?
      ensures (x == w && j == OrElse(r, r').value.end && t == OrElse(r, r').value.path) || Better(w, x)
    {
      var y := OneTaken(l, k, u, i, j, x, t);
      if x.first.Here? {
        if Better(v, y) { TakenBetter(v, y, true); }
      } else if r.Some? {
        HereBetter(w, x);
      } else if Better(v', y) {
        TakenBetter(v', y, false);
      }
    }
  }

  /** The way of an item put into the way of the alternatives. */
  function Taken(w: Way, here: bool): Way {
    if w.More? then More(if here then Here(w.first) else Later(w.first), w.rest) else w
  }

  lemma AltTaken(l: Alts, here: bool, k: Cont, u: Subject, i: nat, j: nat, w: Way, t: Path)
    requires here || l.Or?
    requires ContWay(Then(if here then DoBranch(l.b) else DoAlts(l.rest), k), u, i, j, w, t)
    ensures ContWay(Then(DoAlts(l), k), u, i, j, Taken(w, here), t) && w.More?
  {
    hide ContWay, BranchWay;
    var m := FirstPart(if here then DoBranch(l.b) else DoAlts(l.rest), k, u, i, j, w, t);
    WayOf(DoAlts(l), k, u, i, m, j, Taken(w, here), t);
  }

  lemma OneTaken(l: Alts, k: Cont, u: Subject, i: nat, j: nat, w: Way, t: Path) returns (x: Way)
    requires ContWay(Then(DoAlts(l), k), u, i, j, w, t)
    ensures w.More? && (w.first.Here? || (w.first.Later? && l.Or?)) && w == Taken(x, w.first.Here?) && x.More?
    ensures ContWay(Then(if w.first.Here? then DoBranch(l.b) else DoAlts(l.rest), k), u, i, j, x, t)
  {
    hide ContWay, BranchWay;
    var m := FirstPart(DoAlts(l), k, u, i, j, w, t);
    assert AltsWay(l, u, i, m, w.first);
    x := More(w.first.way, w.rest);
    WayOf(if w.first.Here? then DoBranch(l.b) else DoAlts(l.rest), k, u, i, m, j, x, t);
  }

  lemma {:induction false} TakenBetter(w: Way, w': Way, here: bool)
    requires w'.More? && Better(w, w')
    ensures Better(Taken(w, here), Taken(w', here))
  {}

  lemma HereBetter(w: Way, w': Way)
    requires w.More? && w.first.Here? && w'.More? && w'.first.Later?
    ensures Better(w, w')
  {}

  /** A group, its alternatives and its closing. */
  lemma GroupAround(a: Atom, k: Cont, u: Subject, i: nat, j: nat, v: Way, t: Path) returns (m: nat)
    requires a.Group? && ContWay(Both(DoAlts(a.alts), DoClose(a.n), k), u, i, j, v, t)
    ensures v.More? && AltsWay(a.alts, u, i, m, v.first)
    ensures ContWay(Then(DoAtom(a), k), u, i, j, More(Inside(a.n, i, v.first, m), v.rest), [Opened(a.n, i)] + t)
  {
    hide AltsWay;
    m := FirstPart(DoAlts(a.alts), Then(DoClose(a.n), k), u, i, j, v, t);
    var e := Events(v.first);
    var w := More(Inside(a.n, i, v.first, m), v.rest);
    var t' := [Opened(a.n, i)] + t;
    assert t[|e|..][0] == t[|e|] == Closed(a.n, m) && t[|e|..][1..] == t[|e| + 1..];
    assert t' == Events(w.first) + t[|e| + 1..] by {
      assert t == e + t[|e|..] == e + [t[|e|]] + t[|e| + 1..];
    }
    assert t'[|Events(w.first)|..] == t[|e| + 1..];
    WayOf(DoAtom(a), k, u, i, m, j, w, t');
  }

  lemma GroupWithin(a: Atom, k: Cont, u: Subject, i: nat, j: nat, w: Way, t: Path)
    requires a.Group? && ContWay(Then(DoAtom(a), k), u, i, j, w, t)
    ensures w.More? && w.first.Inside? && w.first.n == a.n && w.first.from == i
    ensures AltsWay(a.alts, u, i, w.first.to, w.first.inner) && t != [] && t[0] == Opened(a.n, i)
    ensures ContWay(Both(DoAlts(a.alts), DoClose(a.n), k), u, i, j, More(w.first.inner, w.rest), t[1..])
  {
    hide AltsWay;
    var m := FirstPart(DoAtom(a), k, u, i, j, w, t);
    var e, t' := Events(w.first.inner), t[1..];
    assert t[..|e| + 2] == [Opened(a.n, i)] + e + [Closed(a.n, m)];
    assert t[0] == t[..|e| + 2][0] && t[|e| + 1] == t[..|e| + 2][|e| + 1];
    assert t'[..|e|] == t[..|e| + 2][1..|e| + 1] == e;
    assert t'[|e|..][0] == t[|e| + 1] && t'[|e|..][1..] == t[|e| + 2..];
    WayOf(DoAlts(a.alts), Then(DoClose(a.n), k), u, i, m, j, More(w.first.inner, w.rest), t');
  }

  lemma GroupBest(a: Atom, k: Cont, u: Subject, i: nat, r: Option<Match>, v: Way) returns (w: Way)
    requires a.Group? && Found(Both(DoAlts(a.alts), DoClose(a.n), k), u, i, r, v)
    ensures Found(Then(DoAtom(a), k), u, i, Passing(Opened(a.n, i), r), w)
  {
    hide ContWay, AltsWay;
    w := v;
    if r.Some? {
      var m := GroupAround(a, k, u, i, r.value.end, v, r.value.path);
      w := More(Inside(a.n, i, v.first, m), v.rest);
    }
    forall j: nat, x, t | ContWay(Then(DoAtom(a), k), u, i, j, x, t)
      ensures r.Some?
      ensures (x == w && j == r.value.end && t == [Opened(a.n, i)] + r.value.path) || Better(w, x)
    {
      GroupWithin(a, k, u, i, j, x, t);
      assert t == [Opened(a.n, i)] + t[1..];
      if w.first.inner == x.first.inner {
        AltsEnd(a.alts, u, i, w.first.to, x.first.to, x.first.inner);
      }
    }
  }

  // ----- the matcher -----

  /** Of all ways to match what is left the matcher finds the first, and none only if there is
      none. */
  lemma {:induction false} RunIsBest(k: Cont, u: Subject, i: nat) returns (w: Way)
    requires i <= |u.s| && AllOk(k)
    ensures Found(k, u, i, Run(k, u, i), w)
    decreases |u.s| - i, Weight(k, i), 1
  {
    hide Found, AtomOk, AltsOk, PieceOk;
    match k
    case Halt => w := Done; HaltBest(u, i);
    case Then(item, k') =>
      match item
      case DoAtom(a) =>
        if a.Group? {
          AltsAreOk(a);
          w := RunIsBest(Both(DoAlts(a.alts), DoClose(a.n), k'), u, i);
          w := GroupBest(a, k', u, i, Run(Both(DoAlts(a.alts), DoClose(a.n), k'), u, i), w);
        } else {
          var o := Leaf(a, u, i);
          w := Done;
          if o.Some? { w := RunIsBest(k', u, o.value); }
          w := LeafBest(a, k', u, i, Run(Then(item, k'), u, i), w);
        }
      case DoClose(n) =>
        w := RunIsBest(k', u, i);
        CloseBest(n, k', u, i, Run(k', u, i), w);
      case DoPiece(p) => w := RunPieceBest(p, k', u, i);
      case Loop(p, since) =>
        if i > since {
          w := RunIsBest(Then(DoPiece(p), k'), u, i);
          OneBest(item, DoPiece(p), k', u, i, Run(Then(DoPiece(p), k'), u, i), w);
        } else {
          w := Done;
          NoWay(item, k', u, i, w);
        }
      case Again(p, since) =>
        var x := RunIsBest(Then(Loop(p, since), k'), u, i);
        var y := RunIsBest(Then(DoBranch(Nil), k'), u, i);
        w := AgainBest(p, since, k', u, i, Run(Then(Loop(p, since), k'), u, i), x,
                       Run(Then(DoBranch(Nil), k'), u, i), y);
      case DoBranch(b) =>
        if b.Nil? {
          w := RunIsBest(k', u, i);
          NothingBest(k', u, i, Run(k', u, i), w);
          w := More(Done, w);
        } else {
          PiecesAreOk(b, k');
          w := RunIsBest(Pieces(b, k'), u, i);
          w := BranchBest(b, k', u, i, Run(Pieces(b, k'), u, i), w);
        }
      case DoAlts(l) => w := RunAltsBest(l, k', u, i);
  }

  lemma HaltBest(u: Subject, i: nat)
    requires i <= |u.s|
    ensures Found(Halt, u, i, Some(Match(i, [])), Done)
  {}

  lemma AltsAreOk(a: Atom)
    requires a.Group? && AtomOk(a)
    ensures AltsOk(a.alts)
  {}

  lemma PiecesAreOk(b: Branch, k: Cont)
    requires b.Cons? && BranchOk(b) && AllOk(k)
    ensures AllOk(Pieces(b, k))
  {
    hide PieceOk;
  }

  lemma {:induction false} RunPieceBest(p: Piece, k: Cont, u: Subject, i: nat) returns (w: Way)
    requires i <= |u.s| && PieceOk(p) && AllOk(k)
    ensures Found(Then(DoPiece(p), k), u, i, Run(Then(DoPiece(p), k), u, i), w)
    decreases |u.s| - i, Weight(Then(DoPiece(p), k), i), 0
  {
    hide Found, AtomOk;
    var none := Then(DoBranch(Nil), k);
    match p.rep
    case One =>
      w := RunIsBest(Then(DoAtom(p.atom), k), u, i);
      OneBest(DoPiece(p), DoAtom(p.atom), k, u, i, Run(Then(DoAtom(p.atom), k), u, i), w);
    case Star =>
      var x := RunIsBest(Both(DoAtom(p.atom), Loop(p, i), k), u, i);
      var y := RunIsBest(none, u, i);
      w := RepeatBest(p, Loop(p, i), k, u, i, Run(Both(DoAtom(p.atom), Loop(p, i), k), u, i), x, Run(none, u, i), y);
    case Plus =>
      w := RunIsBest(Both(DoAtom(p.atom), Again(p, i), k), u, i);
      PlusBest(p, k, u, i, Run(Both(DoAtom(p.atom), Again(p, i), k), u, i), w);
      w := Joined(w);
    case Quest =>
      var x := RunIsBest(Both(DoAtom(p.atom), DoBranch(Nil), k), u, i);
      var y := RunIsBest(none, u, i);
      w := RepeatBest(p, DoBranch(Nil), k, u, i, Run(Both(DoAtom(p.atom), DoBranch(Nil), k), u, i), x,
                      Run(none, u, i), y);
  }

  lemma {:induction false} RunAltsBest(l: Alts, k: Cont, u: Subject, i: nat) returns (w: Way)
    requires i <= |u.s| && AltsOk(l) && AllOk(k)
    ensures Found(Then(DoAlts(l), k), u, i, Run(Then(DoAlts(l), k), u, i), w)
    decreases |u.s| - i, Weight(Then(DoAlts(l), k), i), 0
  {
    hide Found, BranchOk;
    var x := RunIsBest(Then(DoBranch(l.b), k), u, i);
    var r := Run(Then(DoBranch(l.b), k), u, i);
    if l.Or? {
      var y := RunIsBest(Then(DoAlts(l.rest), k), u, i);
      w := AltsBest(l, k, u, i, r, x, Run(Then(DoAlts(l.rest), k), u, i), y);
    } else {
      w := AltsBest(l, k, u, i, r, x, None, x);
    }
  }

  // ----- a whole pattern -----

  /** A try at a position finds the first of all ways to match the pattern from there, and
      passes what that way passes. */
  lemma TryIsBest(l: Alts, u: Subject, i: nat) returns (w: Way)
    requires i <= |u.s| && AltsOk(l)
    ensures var r := Try(l, u, i);
            if r.Some? then BestWay(l, u, i, r.value.end, w) && Events(w) == r.value.path
            else forall j: nat, w' :: !AltsWay(l, u, i, j, w')
  {
    hide AltsOk, AltsWay, Better;
    var k := Then(DoAlts(l), Halt);
    var v := RunIsBest(k, u, i);
    var r := Try(l, u, i);
    forall j: nat, x | AltsWay(l, u, i, j, x) ensures ContWay(k, u, i, j, More(x, Done), Events(x)) {
      WholeWay(l, u, i, j, x);
    }
    w := Done;
    if r.Some? {
      w := v.first;
      var m := FirstPart(DoAlts(l), Halt, u, i, r.value.end, v, r.value.path);
      assert r.value.path == Events(w) + r.value.path[|Events(w)|..];
      assert v == More(w, Done);
      forall j: nat, x | AltsWay(l, u, i, j, x) ensures (x == w && j == m) || Better(w, x) {
        assert ContWay(k, u, i, j, More(x, Done), Events(x));
        FirstBetter(w, x);
      }
    }
  }

  lemma WholeWay(l: Alts, u: Subject, i: nat, j: nat, w: Way)
    requires AltsWay(l, u, i, j, w)
    ensures ContWay(Then(DoAlts(l), Halt), u, i, j, More(w, Done), Events(w))
  {
    hide AltsWay, AltsPath, AltsSpan;
    AltsWayPath(l, u, i, j, w);
    AltsPathSpan(l, u, i, j, Events(w));
    AltsInside(l, u, i, j);
    HaltWay(u, j);
    assert Events(w)[|Events(w)|..] == [];
    WayOf(DoAlts(l), Halt, u, i, j, j, More(w, Done), Events(w));
  }

  lemma HaltWay(u: Subject, i: nat)
    requires i <= |u.s|
    ensures ContWay(Halt, u, i, i, Done, [])
  {}

  lemma FirstBetter(w: Way, x: Way)
    ensures Better(More(w, Done), More(x, Done)) <==> Better(w, x)
  {}

  // ----- what that comes to -----

  /** If the first alternative can match at all, it is what matches. */
  lemma FirstAlternativeWins(l: Alts, u: Subject, i: nat, j: nat, w: Way)
    requires BestWay(l, u, i, j, w) && exists m: nat :: BranchSpan(l.b, u, i, m)
    ensures w.Here? && BranchSpan(l.b, u, i, j)
  {
    hide BranchSpan, BranchWay, BranchPath;
    var m: nat :| BranchSpan(l.b, u, i, m);
    var x := BranchSpanWay(l.b, u, i, m);
    assert AltsWay(l, u, i, m, Here(x));
    BranchWayPath(l.b, u, i, j, w.way);
    BranchPathSpan(l.b, u, i, j, Events(w.way));
  }

  /** x is what w starts with, and goes on. */
  predicate GoesOn(w: Way, x: Way) {
    x.More? && (w == Done || (w.More? && w.first == x.first && GoesOn(w.rest, x.rest)))
  }

  lemma {:induction false} GoingOnIsBetter(w: Way, x: Way)
    requires GoesOn(w, x)
    ensures Better(x, w)
  {
    if w.More? {
      GoingOnIsBetter(w.rest, x.rest);
    }
  }

  /** Whenever a repetition at the front stops, no further round can be completed with what
      follows it. */
  lemma NoFurtherRound(p: Piece, rest: Branch, u: Subject, i: nat, j: nat, w: Way, x: Way, m: nat, y: Way, n: nat)
    requires BestWay(Last(Cons(p, rest)), u, i, j, w) && w.Here? && w.way.More?
    requires GoesOn(w.way.first, x) && PieceWay(p, u, i, m, x)
    ensures !BranchWay(rest, u, m, n, y)
  {
    hide PieceWay;
    if BranchWay(rest, u, m, n, y) {
      var b := Cons(p, rest);
      var z := Here(More(x, y));
      assert BranchWay(b, u, i, n, z.way);
      assert AltsWay(Last(b), u, i, n, z);
      GoingOnIsBetter(w.way.first, x);
      assert Better(z, w);
      BetterIsStrict(z, w);
    }
  }
}
