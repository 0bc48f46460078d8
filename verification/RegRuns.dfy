/** How compiled code stands for what is left to match.

    An address of the program implements a list of items when the code of the first item
    stands there and leads to an address that implements the rest. */
module RegRuns {
  import opened Chars
  import opened RegSyntax
  import opened RegCode
  import opened RegLink
  import opened RegMeaning
  import opened RegBacktrack

  ghost predicate PieceAt(code: seq<byte>, p: int, x: Piece, q: int) {
    p + PieceSize(x) <= q < |code| && At(code, p, PieceCode(x, To(q - p - PieceSize(x))))
  }

  /** The code of the item stands at p and leads to q. */
  ghost predicate ItemAt(code: seq<byte>, p: int, item: Item, q: int) {
    match item
    case DoAtom(a) => p + AtomSize(a) <= q < |code| && At(code, p, AtomCode(a, To(q - p - AtomSize(a))))
    case DoPiece(x) => PieceAt(code, p, x, q)
    case DoBranch(b) => p + BranchSize(b) <= q < |code| && At(code, p, BranchCode(b, To(q - p - BranchSize(b))))
    case DoAlts(l) => q == p + AltsSize(l) && At(code, p, AltsCode(l)) && q + 3 <= |code| && code[q] != BRANCH
    case DoClose(n) => p + 3 <= q < |code| && At(code, p, Node(CLOSE + n, q - p))
    case Loop(x, _) =>
      var back := AtomSize(x.atom) + 3;
      At(code, p, Node(BACK, back)) && PieceAt(code, p - back, x, q)
    case Again(x, _) => PieceAt(code, p - AtomSize(x.atom), x, q)
  }

  ghost predicate Impl(code: seq<byte>, p: int, k: Cont)
    decreases k
  {
    match k
    case Halt => At(code, p, Node(END, 0))
    case Then(item, k') =>
      exists q: int {:trigger ItemAt(code, p, item, q)} :: ItemAt(code, p, item, q) && Impl(code, q, k')
  }

  // ----- every loop left to go back through has advanced, or will have -----

  predicate ItemWidth(item: Item) {
    match item
    case DoAtom(a) => AtomWidth(a)
    case DoPiece(p) => PieceWidth(p)
    case DoBranch(b) => BranchWidth(b)
    case DoAlts(l) => AltsWidth(l)
    case _ => false
  }

  predicate LoopOk(p: Piece) {
    PieceOk(p) && !Simple(p.atom) && AtomWidth(p.atom)
  }

  predicate ItemOk(item: Item) {
    match item
    case DoAtom(a) => AtomOk(a)
    case DoPiece(p) => PieceOk(p)
    case DoBranch(b) => BranchOk(b)
    case DoAlts(l) => AltsOk(l)
    case DoClose(_) => true
    case Loop(p, _) => LoopOk(p) && (p.rep.Star? || p.rep.Plus?)
    case Again(p, _) => LoopOk(p) && p.rep.Plus?
  }

  /** The items are well formed, and each loop was entered before here unless something of
      width (w: known already) comes first. */
  predicate Live(k: Cont, i: nat, w: bool) {
    k.Then? ==>
      && ItemOk(k.item)
      && (k.item.Loop? || k.item.Again? ==> if w then k.item.since <= i else k.item.since < i)
      && Live(k.k, i, w || ItemWidth(k.item))
  }

  lemma {:induction false} LiveWeaken(k: Cont, i: nat)
    requires Live(k, i, false)
    ensures Live(k, i, true)
  {
    if k.Then? && !ItemWidth(k.item) {
      LiveWeaken(k.k, i);
    }
  }

  lemma {:induction false} LiveAdvance(k: Cont, i: nat, j: nat, w: bool)
    requires Live(k, i, true) && i < j
    ensures Live(k, j, w)
    decreases k
  {
    if k.Then? {
      LiveAdvance(k.k, i, j, w || ItemWidth(k.item));
    }
  }

  // ----- the item whose node the matcher looks at -----

  /** A branch begins with its first piece, a piece without a repetition is its atom, and x+
      begins with x. */
  function Norm(k: Cont, i: nat): Cont {
    if k.Then? && k.item.DoBranch? && k.item.b.Cons? then NormPiece(Pieces(k.item.b, k.k), i)
    else NormPiece(k, i)
  }

  function NormPiece(k: Cont, i: nat): Cont {
    if k.Then? && k.item.DoPiece? then
      var p := k.item.p;
      if p.rep.One? then Then(DoAtom(p.atom), k.k)
      else if p.rep.Plus? && !Simple(p.atom) then Both(DoAtom(p.atom), Again(p, i), k.k)
      else k
    else k
  }

  predicate IsNorm(k: Cont) {
    k.Then? ==>
      && (k.item.DoBranch? ==> k.item.b.Nil?)
      && (k.item.DoPiece? ==> !k.item.p.rep.One? && (k.item.p.rep.Plus? ==> Simple(k.item.p.atom)))
  }

  lemma NormSteps(k: Cont, u: Subject, i: nat)
    requires i <= |u.s|
    ensures IsNorm(Norm(k, i)) && Run(Norm(k, i), u, i) == Run(k, u, i) && Weight(Norm(k, i), i) <= Weight(k, i)
  {
    if k.Then? && k.item.DoBranch? && k.item.b.Cons? {
      NormPieceSteps(Pieces(k.item.b, k.k), u, i);
    } else {
      NormPieceSteps(k, u, i);
    }
  }

  lemma NormPieceSteps(k: Cont, u: Subject, i: nat)
    requires i <= |u.s|
    ensures Run(NormPiece(k, i), u, i) == Run(k, u, i) && Weight(NormPiece(k, i), i) <= Weight(k, i)
  {}

  lemma NormLive(k: Cont, i: nat)
    requires Live(k, i, false)
    ensures Live(Norm(k, i), i, false)
  {
    hide AtomOk, AtomWidth;
    if k.Then? && k.item.DoBranch? && k.item.b.Cons? {
      PiecesLive(k.item.b, k.k, i);
      NormPieceLive(Pieces(k.item.b, k.k), i);
    } else {
      NormPieceLive(k, i);
    }
  }

  lemma PiecesLive(b: Branch, k: Cont, i: nat)
    requires b.Cons? && Live(Then(DoBranch(b), k), i, false)
    ensures Live(Pieces(b, k), i, false)
  {
    hide PieceOk, PieceWidth;
    var w := PieceWidth(b.head);
    assert Live(k, i, BranchWidth(b)) && BranchWidth(b) == (w || BranchWidth(b.tail));
    if b.tail.Cons? {
      assert Live(Then(DoBranch(b.tail), k), i, w);
    }
  }

  lemma NormPieceLive(k: Cont, i: nat)
    requires Live(k, i, false)
    ensures Live(NormPiece(k, i), i, false)
  {
    hide AtomOk, AtomWidth;
    if k.Then? && k.item.DoPiece? && k.item.p.rep.Plus? && !Simple(k.item.p.atom) {
      var p := k.item.p;
      assert Live(k.k, i, true);
      assert Live(Then(Again(p, i), k.k), i, true);
    }
  }

  // ----- the same for code -----

  lemma ImplIntro(code: seq<byte>, p: int, item: Item, q: int, k: Cont)
    requires ItemAt(code, p, item, q) && Impl(code, q, k)
    ensures Impl(code, p, Then(item, k))
  {
    hide ItemAt;
  }

  lemma ImplItem(code: seq<byte>, p: int, item: Item, k: Cont) returns (q: int)
    requires Impl(code, p, Then(item, k))
    ensures ItemAt(code, p, item, q) && Impl(code, q, k)
  {
    hide ItemAt;
    q :| ItemAt(code, p, item, q) && Impl(code, q, k);
  }

  lemma PiecesImpl(code: seq<byte>, p: int, b: Branch, k: Cont)
    requires b.Cons? && Impl(code, p, Then(DoBranch(b), k))
    ensures Impl(code, p, Pieces(b, k))
  {
    hide Impl, At, PieceCode, BranchCode, PieceSize;
    var q := ImplItem(code, p, DoBranch(b), k);
    var t := To(q - p - BranchSize(b));
    if b.tail.Nil? {
      OnePieceCode(b.head, t);
      ImplIntro(code, p, DoPiece(b.head), q, k);
    } else {
      ConsAt(code, p, b.head, b.tail, t);
      var m := p + PieceSize(b.head);
      ImplIntro(code, m, DoBranch(b.tail), q, k);
      ImplIntro(code, p, DoPiece(b.head), m, Then(DoBranch(b.tail), k));
    }
  }

  lemma PlusImpl(code: seq<byte>, p: int, x: Piece, k: Cont, i: nat)
    requires x.rep.Plus? && !Simple(x.atom) && Impl(code, p, Then(DoPiece(x), k))
    ensures Impl(code, p, Both(DoAtom(x.atom), Again(x, i), k))
  {
    hide Impl, At, AtomCode, LoopCode, Node, AtomSize;
    var q := ImplItem(code, p, DoPiece(x), k);
    AtSplit(code, p, LoopCode(x), Node(NOTHING, 3 + (q - p - PieceSize(x))));
    PlusAt(code, p, x);
    var m := p + AtomSize(x.atom);
    AtFits(code, p, PieceCode(x, To(q - p - PieceSize(x))));
    ImplIntro(code, m, Again(x, i), q, k);
    ImplIntro(code, p, DoAtom(x.atom), m, Then(Again(x, i), k));
  }

  lemma NormImpl(code: seq<byte>, p: int, k: Cont, i: nat)
    requires Impl(code, p, k)
    ensures Impl(code, p, Norm(k, i))
  {
    hide Impl;
    if k.Then? && k.item.DoBranch? && k.item.b.Cons? {
      PiecesImpl(code, p, k.item.b, k.k);
      NormPieceImpl(code, p, Pieces(k.item.b, k.k), i);
    } else {
      NormPieceImpl(code, p, k, i);
    }
  }

  lemma NormPieceImpl(code: seq<byte>, p: int, k: Cont, i: nat)
    requires Impl(code, p, k)
    ensures Impl(code, p, NormPiece(k, i))
  {
    hide Impl, At, AtomCode, AtomSize;
    if k.Then? && k.item.DoPiece? {
      var x := k.item.p;
      if x.rep.One? {
        var q := ImplItem(code, p, DoPiece(x), k.k);
        ImplIntro(code, p, DoAtom(x.atom), q, k.k);
      } else if x.rep.Plus? && !Simple(x.atom) {
        PlusImpl(code, p, x, k.k, i);
      }
    }
  }

  // ----- nodes -----

  /** The opcode the matcher sees. */
  function NormOp(k: Cont): byte {
    match k
    case Halt => END
    case Then(item, _) =>
      match item
      case DoAtom(a) => if a.Group? then OPEN + a.n else LeafOp(a)
      case DoPiece(p) => if RunsInPlace(p) then (if p.rep.Star? then STAR else PLUS) else BRANCH
      case DoBranch(_) => NOTHING
      case DoAlts(_) => BRANCH
      case DoClose(n) => CLOSE + n
      case Loop(_, _) => BACK
      case Again(_, _) => BRANCH
  }

  /** A node at p with that opcode, linked to q. */
  ghost predicate NodeAt(code: seq<byte>, p: int, op: byte, q: int) {
    0 <= p && p + 3 <= |code| && code[p] == op && Next(code, p) == q && q >= 0
  }

  lemma LeafImpl(code: seq<byte>, p: int, a: Atom, k: Cont) returns (q: int)
    requires !a.Group? && Impl(code, p, Then(DoAtom(a), k)) && |code| <= CODE_LIMIT
    ensures NodeAt(code, p, LeafOp(a), q) && Impl(code, q, k) && At(code, p + 3, Operand(a))
  {
    hide Impl, At, Node, Next;
    q := ImplItem(code, p, DoAtom(a), k);
    var t := To(q - p - AtomSize(a));
    AtFits(code, p, AtomCode(a, t));
    LeafAt(code, p, a, t);
    AtNode(code, p, LeafOp(a), q - p);
  }

  lemma GroupImpl(code: seq<byte>, p: int, a: Atom, k: Cont)
    requires a.Group? && Impl(code, p, Then(DoAtom(a), k)) && |code| <= CODE_LIMIT
    ensures NodeAt(code, p, OPEN + a.n, p + 3) && Impl(code, p + 3, Both(DoAlts(a.alts), DoClose(a.n), k))
  {
    hide Impl, At, Node, Next, AltsCode;
    var q := ImplItem(code, p, DoAtom(a), k);
    var t := To(q - p - AtomSize(a));
    AtFits(code, p, AtomCode(a, t));
    GroupAt(code, p, a, t);
    AtNode(code, p, OPEN + a.n, 3);
    var m := p + 3 + AltsSize(a.alts);
    AtNode(code, m, CLOSE + a.n, q - m);
    ImplIntro(code, m, DoClose(a.n), q, k);
    ImplIntro(code, p + 3, DoAlts(a.alts), m, Then(DoClose(a.n), k));
  }

  lemma CloseImpl(code: seq<byte>, p: int, n: GroupNumber, k: Cont) returns (q: int)
    requires Impl(code, p, Then(DoClose(n), k)) && |code| <= CODE_LIMIT
    ensures NodeAt(code, p, CLOSE + n, q) && Impl(code, q, k)
  {
    hide Impl, At, Node, Next;
    q := ImplItem(code, p, DoClose(n), k);
    AtFits(code, p, Node(CLOSE + n, q - p));
    AtNode(code, p, CLOSE + n, q - p);
  }

  lemma NothingImpl(code: seq<byte>, p: int, k: Cont) returns (q: int)
    requires Impl(code, p, Then(DoBranch(Nil), k)) && |code| <= CODE_LIMIT
    ensures NodeAt(code, p, NOTHING, q) && Impl(code, q, k)
  {
    hide Impl, At, Node, Next;
    q := ImplItem(code, p, DoBranch(Nil), k);
    AtFits(code, p, Node(NOTHING, q - p));
    AtNode(code, p, NOTHING, q - p);
  }

  lemma BackImpl(code: seq<byte>, p: int, x: Piece, since: nat, k: Cont) returns (h: int)
    requires Impl(code, p, Then(Loop(x, since), k)) && |code| <= CODE_LIMIT
    ensures NodeAt(code, p, BACK, h) && Impl(code, h, Then(DoPiece(x), k))
  {
    hide Impl, At, Node, Next, PieceCode, AtomSize, PieceSize;
    var q := ImplItem(code, p, Loop(x, since), k);
    var back := AtomSize(x.atom) + 3;
    h := p - back;
    AtFits(code, h, PieceCode(x, To(q - h - PieceSize(x))));
    AtFits(code, p, Node(BACK, back));
    AtNode(code, p, BACK, back);
    ImplIntro(code, h, DoPiece(x), q, k);
  }

  lemma RepeatImpl(code: seq<byte>, p: int, x: Piece, k: Cont) returns (q: int)
    requires RunsInPlace(x) && Impl(code, p, Then(DoPiece(x), k)) && |code| <= CODE_LIMIT
    ensures NodeAt(code, p, if x.rep.Star? then STAR else PLUS, q) && Impl(code, q, k)
    ensures At(code, p + 3, AtomCode(x.atom, Unlinked))
  {
    hide Impl, At, Node, Next, AtomCode;
    q := ImplItem(code, p, DoPiece(x), k);
    var op := if x.rep.Star? then STAR else PLUS;
    AtFits(code, p, PieceCode(x, To(q - p - PieceSize(x))));
    AtSplit(code, p, Node(op, q - p), AtomCode(x.atom, Unlinked));
    AtNode(code, p, op, q - p);
  }

  lemma HaltImpl(code: seq<byte>, p: int)
    requires Impl(code, p, Halt)
    ensures 0 <= p && p + 3 <= |code| && code[p] == END
  {
    hide Next;
    AtNode(code, p, END, 0);
  }

  // ----- choices -----

  /** The BRANCH nodes from p on offer these ways to go on, in this order. */
  ghost predicate Choices(code: seq<byte>, p: int, ks: seq<Cont>)
    decreases |ks|
  {
    |ks| > 0 && 0 <= p && p + 3 <= |code| && code[p] == BRANCH && Impl(code, p + 3, ks[0])
    && var q := Next(code, p);
       0 <= q && q + 3 <= |code| && if |ks| == 1 then code[q] != BRANCH else Choices(code, q, ks[1..])
  }

  function FirstOf(ks: seq<Cont>, u: Subject, i: nat): Option<Match>
    requires i <= |u.s|
  {
    if ks == [] then None else OrElse(Run(ks[0], u, i), FirstOf(ks[1..], u, i))
  }

  predicate IsChoice(k: Cont) {
    IsNorm(k) && k.Then? &&
    (k.item.DoAlts? || k.item.Again? || (k.item.DoPiece? && !RunsInPlace(k.item.p)))
  }

  function Alternatives(k: Cont, i: nat): (ks: seq<Cont>)
    requires IsChoice(k)
    ensures |ks| > 0
  {
    var k' := k.k;
    match k.item
    case DoAlts(l) => AltsAlternatives(l, k')
    case Again(p, since) => [Then(Loop(p, since), k'), Then(DoBranch(Nil), k')]
    case DoPiece(p) =>
      [if p.rep.Star? then Both(DoAtom(p.atom), Loop(p, i), k') else Both(DoAtom(p.atom), DoBranch(Nil), k'),
       Then(DoBranch(Nil), k')]
  }

  function AltsAlternatives(l: Alts, k: Cont): (ks: seq<Cont>)
    ensures |ks| > 0
  {
    if l.Last? then [Then(DoBranch(l.b), k)] else [Then(DoBranch(l.b), k)] + AltsAlternatives(l.rest, k)
  }

  lemma TwoFirst(x: Cont, y: Cont, u: Subject, i: nat)
    requires i <= |u.s|
    ensures FirstOf([x, y], u, i) == OrElse(Run(x, u, i), Run(y, u, i))
  {
    hide Run;
    assert [x, y][1..] == [y] && [y][1..] == [];
    assert FirstOf([y], u, i) == OrElse(Run(y, u, i), FirstOf([], u, i));
  }

  lemma {:induction false} AltsFirstOf(l: Alts, k: Cont, u: Subject, i: nat)
    requires i <= |u.s|
    ensures FirstOf(AltsAlternatives(l, k), u, i) == Run(Then(DoAlts(l), k), u, i)
  {
    var x := Then(DoBranch(l.b), k);
    if l.Last? {
      assert [x][1..] == [];
    } else {
      AltsFirstOf(l.rest, k, u, i);
      assert ([x] + AltsAlternatives(l.rest, k))[1..] == AltsAlternatives(l.rest, k);
    }
  }

  lemma AlternativesRun(k: Cont, u: Subject, i: nat)
    requires IsChoice(k) && i <= |u.s|
    ensures FirstOf(Alternatives(k, i), u, i) == Run(k, u, i)
  {
    hide FirstOf;
    var ks := Alternatives(k, i);
    if k.item.DoAlts? {
      AltsFirstOf(k.item.l, k.k, u, i);
    } else {
      TwoFirst(ks[0], ks[1], u, i);
    }
  }

  lemma {:induction false} AltsLighter(l: Alts, k: Cont, i: nat)
    requires Live(Then(DoAlts(l), k), i, false)
    ensures forall x :: x in AltsAlternatives(l, k) ==>
              Weight(x, i) < Weight(Then(DoAlts(l), k), i) && Live(x, i, false)
  {
    if l.Or? {
      LiveWider(k, i, AltsWidth(l), AltsWidth(l.rest));
      AltsLighter(l.rest, k, i);
    }
    LiveWider(k, i, AltsWidth(l), BranchWidth(l.b));
  }

  lemma LiveWider(k: Cont, i: nat, w: bool, w': bool)
    requires Live(k, i, w) && (w ==> w')
    ensures Live(k, i, w')
  {
    if !w && w' {
      LiveWeaken(k, i);
    }
  }

  lemma AlternativesLighter(k: Cont, i: nat)
    requires IsChoice(k) && Live(k, i, false)
    ensures forall x :: x in Alternatives(k, i) ==> Weight(x, i) < Weight(k, i) && Live(x, i, false)
  {
    hide AtomOk, AtomWidth, AtomWeight;
    match k.item
    case DoAlts(l) => AltsLighter(l, k.k, i);
    case Again(p, since) =>
    case DoPiece(p) =>
      LiveWider(k.k, i, false, AtomWidth(p.atom));
      if p.rep.Star? {
        assert Live(Then(Loop(p, i), k.k), i, true);
      } else {
        assert Live(Then(DoBranch(Nil), k.k), i, AtomWidth(p.atom));
      }
  }

  lemma TwoChoices(code: seq<byte>, p: int, gap: nat, x: Cont, y: Cont)
    requires |code| <= CODE_LIMIT && gap >= 3 && p + gap + 6 <= |code|
    requires At(code, p, Node(BRANCH, gap)) && At(code, p + gap, Node(BRANCH, 3))
    requires Impl(code, p + 3, x) && Impl(code, p + gap + 3, y) && code[p + gap + 3] != BRANCH
    ensures Choices(code, p, [x, y])
  {
    hide Impl, Next;
    AtNode(code, p, BRANCH, gap);
    AtNode(code, p + gap, BRANCH, 3);
    assert [x, y][1..] == [y];
    assert Choices(code, p + gap, [y]);
  }

  /** The NOTHING at the end of a loop or choice leads on. */
  lemma EndImpl(code: seq<byte>, p: int, d: nat, k: Cont)
    requires At(code, p, Node(NOTHING, 3 + d)) && Impl(code, p + 3 + d, k) && p + 3 + d < |code| <= CODE_LIMIT
    ensures Impl(code, p, Then(DoBranch(Nil), k)) && 0 <= p && p + 3 <= |code| && code[p] != BRANCH
  {
    hide Impl, Next;
    AtNode(code, p, NOTHING, 3 + d);
    ImplIntro(code, p, DoBranch(Nil), p + 3 + d, k);
  }

  lemma StarChoices(code: seq<byte>, p: int, x: Piece, k: Cont, i: nat)
    requires x.rep.Star? && !Simple(x.atom) && Impl(code, p, Then(DoPiece(x), k)) && |code| <= CODE_LIMIT
    ensures Choices(code, p, [Both(DoAtom(x.atom), Loop(x, i), k), Then(DoBranch(Nil), k)])
  {
    hide Impl, At, Node, AtomCode, LoopCode, AtomSize, Choices;
    var q := ImplItem(code, p, DoPiece(x), k);
    var d := q - p - PieceSize(x);
    AtFits(code, p, PieceCode(x, To(d)));
    AtSplit(code, p, LoopCode(x), Node(NOTHING, 3 + d));
    StarAt(code, p, x);
    var m := p + 3 + AtomSize(x.atom);
    EndImpl(code, p + LoopSize(x), d, k);
    ImplIntro(code, m, Loop(x, i), q, k);
    ImplIntro(code, p + 3, DoAtom(x.atom), m, Then(Loop(x, i), k));
    TwoChoices(code, p, AtomSize(x.atom) + 6, Both(DoAtom(x.atom), Loop(x, i), k), Then(DoBranch(Nil), k));
  }

  lemma QuestChoices(code: seq<byte>, p: int, x: Piece, k: Cont)
    requires x.rep.Quest? && Impl(code, p, Then(DoPiece(x), k)) && |code| <= CODE_LIMIT
    ensures Choices(code, p, [Both(DoAtom(x.atom), DoBranch(Nil), k), Then(DoBranch(Nil), k)])
  {
    hide Impl, At, Node, AtomCode, LoopCode, AtomSize, Choices;
    var q := ImplItem(code, p, DoPiece(x), k);
    var d := q - p - PieceSize(x);
    AtFits(code, p, PieceCode(x, To(d)));
    AtSplit(code, p, LoopCode(x), Node(NOTHING, 3 + d));
    QuestAt(code, p, x);
    var m := p + LoopSize(x);
    EndImpl(code, m, d, k);
    ImplIntro(code, p + 3, DoAtom(x.atom), m, Then(DoBranch(Nil), k));
    TwoChoices(code, p, AtomSize(x.atom) + 3, Both(DoAtom(x.atom), DoBranch(Nil), k), Then(DoBranch(Nil), k));
  }

  lemma AgainChoices(code: seq<byte>, p: int, x: Piece, since: nat, k: Cont)
    requires x.rep.Plus? && !Simple(x.atom) && Impl(code, p, Then(Again(x, since), k)) && |code| <= CODE_LIMIT
    ensures Choices(code, p, [Then(Loop(x, since), k), Then(DoBranch(Nil), k)])
  {
    hide Impl, At, Node, AtomCode, LoopCode, AtomSize, Choices;
    var q := ImplItem(code, p, Again(x, since), k);
    var h := p - AtomSize(x.atom);
    var d := q - h - PieceSize(x);
    AtFits(code, h, PieceCode(x, To(d)));
    AtSplit(code, h, LoopCode(x), Node(NOTHING, 3 + d));
    PlusAt(code, h, x);
    EndImpl(code, h + LoopSize(x), d, k);
    ImplIntro(code, p + 3, Loop(x, since), q, k);
    TwoChoices(code, p, 6, Then(Loop(x, since), k), Then(DoBranch(Nil), k));
  }

  lemma {:induction false} AltsChoices(code: seq<byte>, p: int, l: Alts, k: Cont)
    requires Impl(code, p, Then(DoAlts(l), k)) && |code| <= CODE_LIMIT
    ensures Choices(code, p, AltsAlternatives(l, k))
    decreases l
  {
    hide Impl, At, Node, AltsCode, BranchCode, BranchSize, Next;
    var q := ImplItem(code, p, DoAlts(l), k);
    AtFits(code, p, AltsCode(l));
    if l.Last? {
      LastAt(code, p, l.b);
      AtNode(code, p, BRANCH, 3 + BranchSize(l.b));
      ImplIntro(code, p + 3, DoBranch(l.b), q, k);
    } else {
      OrAt(code, p, l.b, l.rest);
      AtNode(code, p, BRANCH, 3 + BranchSize(l.b));
      ImplIntro(code, p + 3, DoBranch(l.b), q, k);
      ImplIntro(code, p + 3 + BranchSize(l.b), DoAlts(l.rest), q, k);
      AltsChoices(code, p + 3 + BranchSize(l.b), l.rest, k);
      ChoicesCons(code, p, Then(DoBranch(l.b), k), AltsAlternatives(l.rest, k));
    }
  }

  lemma ChoicesCons(code: seq<byte>, p: int, x: Cont, ks: seq<Cont>)
    requires 0 <= p && p + 3 <= |code| && code[p] == BRANCH && Impl(code, p + 3, x)
    requires Choices(code, Next(code, p), ks)
    ensures Choices(code, p, [x] + ks)
  {
    hide Impl, Next;
    assert ([x] + ks)[1..] == ks;
  }

  lemma AlternativesChoices(code: seq<byte>, p: int, k: Cont, i: nat)
    requires IsChoice(k) && Impl(code, p, k) && Live(k, i, false) && |code| <= CODE_LIMIT
    ensures Choices(code, p, Alternatives(k, i))
  {
    hide Impl, Choices, PieceOk, AtomWidth, AtomOk, AltsOk;
    match k.item
    case DoAlts(l) => AltsChoices(code, p, l, k.k);
    case Again(x, since) => AgainChoices(code, p, x, since, k.k);
    case DoPiece(x) =>
      if x.rep.Star? {
        StarChoices(code, p, x, k.k, i);
      } else {
        QuestChoices(code, p, x, k.k);
      }
  }

  // ----- the outermost program -----

  /** A compiled program implements its pattern from its second byte on. */
  lemma ProgramImpl(l: Alts, i: nat)
    requires AltsOk(l) && |Program(l)| <= CODE_LIMIT
    ensures Impl(Program(l), 1, Then(DoAlts(l), Halt)) && Live(Then(DoAlts(l), Halt), i, false)
  {
    hide AltsCode, AltsSize, Impl, Next;
    var code, end := Program(l), 1 + AltsSize(l);
    assert code == [MAGIC] + AltsCode(l) + Node(END, 0);
    AtMiddle([MAGIC], AltsCode(l), Node(END, 0));
    AtMiddle([MAGIC] + AltsCode(l), Node(END, 0), []);
    assert code == [MAGIC] + AltsCode(l) + Node(END, 0) + [];
    AtNode(code, end, END, 0);
    HaltIntro(code, end);
    ImplIntro(code, 1, DoAlts(l), end, Halt);
  }

  lemma HaltIntro(code: seq<byte>, p: int)
    requires At(code, p, Node(END, 0))
    ensures Impl(code, p, Halt)
  {}
}
