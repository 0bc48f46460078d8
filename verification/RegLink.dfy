/** Following and setting links in code under construction (regtail, regoptail).

    Each fragment is a chain of nodes from its first node to its tail, the one node whose
    link is set later; setting that link turns the code of the unlinked fragment into
    the code of the linked one and touches nothing else. */
module RegLink {
  import opened Chars
  import opened RegSyntax
  import opened RegCode

  /** Code is kept small enough for every link to fit in two bytes. */
  const CODE_LIMIT: nat := 32767

  /** Following n links from p leads to t. */
  ghost predicate Reaches(code: seq<byte>, p: int, t: int, n: nat)
    decreases n
  {
    0 <= p && p + 3 <= |code| &&
    if n == 0 then p == t else Reaches(code, Next(code, p), t, n - 1)
  }

  lemma {:induction false} ReachesTrans(code: seq<byte>, p: int, q: int, t: int, m: nat, n: nat)
    requires Reaches(code, p, q, m) && Reaches(code, q, t, n)
    ensures Reaches(code, p, t, m + n)
    decreases m
  {
    if m > 0 {
      ReachesTrans(code, Next(code, p), q, t, m - 1, n);
    }
  }

  /** A link followed from the far end: from t one step on. */
  lemma ReachesStep(code: seq<byte>, p: int, t: int, n: nat)
    requires Reaches(code, p, t, n) && 0 <= t && t + 3 <= |code|
    requires 0 <= Next(code, t) && Next(code, t) + 3 <= |code|
    ensures Reaches(code, p, Next(code, t), n + 1)
  {
    assert Reaches(code, Next(code, t), Next(code, t), 0);
    assert Reaches(code, t, Next(code, t), 1);
    ReachesTrans(code, p, t, Next(code, t), n, 1);
  }

  /** The code after the link of node t is made to lead to val. */
  function SetLink(code: seq<byte>, t: nat, val: int): (r: seq<byte>)
    requires t + 3 <= |code|
    requires if code[t] == BACK then val <= t else t <= val
    ensures |r| == |code|
  {
    var off := if code[t] == BACK then t - val else val - t;
    code[t + 1 := Hi(off)][t + 2 := Lo(off)]
  }

  // ----- where the tail of a fragment is -----

  function AtomTail(a: Atom): (n: nat)
    ensures n + 3 <= AtomSize(a)
  {
    if a.Group? then AtomSize(a) - 3 else 0
  }

  function PieceTail(p: Piece): (n: nat)
    ensures n + 3 <= PieceSize(p)
  {
    if p.rep.One? then AtomTail(p.atom)
    else if RunsInPlace(p) then 0
    else LoopSize(p)
  }

  function BranchTail(b: Branch): (n: nat)
    ensures n + 3 <= BranchSize(b)
  {
    if b.Nil? then 0
    else if b.tail.Nil? then PieceTail(b.head)
    else PieceSize(b.head) + BranchTail(b.tail)
  }

  // ----- the chain through a fragment -----

  /** The BRANCH nodes of linked alternatives lead to the node after them. */
  lemma {:induction false} AltsReach(code: seq<byte>, p: int, l: Alts) returns (n: nat)
    requires At(code, p, AltsCode(l)) && |code| <= CODE_LIMIT
    requires p + AltsSize(l) + 3 <= |code|
    ensures Reaches(code, p, p + AltsSize(l), n)
    decreases l
  {
    hide AltsCode, BranchCode, Node, Link, At, BranchSize;
    AtFits(code, p, AltsCode(l));
    match l
    case Last(b) =>
      LastAt(code, p, b);
      AtNode(code, p, BRANCH, 3 + BranchSize(b));
      assert Reaches(code, Next(code, p), Next(code, p), 0);
      n := 1;
    case Or(b, rest) =>
      OrAt(code, p, b, rest);
      AtNode(code, p, BRANCH, 3 + BranchSize(b));
      var m := AltsReach(code, p + 3 + BranchSize(b), rest);
      n := m + 1;
  }

  lemma AtomReach(code: seq<byte>, p: int, a: Atom, t: Tail) returns (n: nat)
    requires At(code, p, AtomCode(a, t)) && |code| <= CODE_LIMIT
    ensures Reaches(code, p, p + AtomTail(a), n)
  {
    hide AltsCode, AtomCode;
    n := 0;
    if a.Group? {
      GroupAt(code, p, a, t);
      AtNode(code, p, OPEN + a.n, 3);
      var m := AltsReach(code, p + 3, a.alts);
      n := m + 1;
    }
  }

  /** From the tail of an operand, which leads to q, through the two nodes of the choice
      at q and the NOTHING after it. */
  lemma ChoiceReach(code: seq<byte>, p: int, q: int, gap: nat, m: nat)
    requires |code| <= CODE_LIMIT && Reaches(code, p, q, m)
    requires At(code, q, Node(BRANCH, gap)) && gap >= 3
    requires At(code, q + gap, Node(BRANCH, 3)) && q + gap + 6 <= |code|
    ensures Reaches(code, p, q + gap + 3, m + 2)
  {
    AtNode(code, q, BRANCH, gap);
    ReachesStep(code, p, q, m);
    AtNode(code, q + gap, BRANCH, 3);
    ReachesStep(code, p, q + gap, m + 1);
  }

  /** The tail of a linked atom leads to where it was linked to. */
  lemma AtomTailLeads(code: seq<byte>, p: int, a: Atom, d: nat)
    requires At(code, p, AtomCode(a, To(d))) && |code| <= CODE_LIMIT
    requires p + AtomSize(a) + d <= |code|
    ensures Next(code, p + AtomTail(a)) == p + AtomSize(a) + d
  {
    hide AtomCode, AltsCode, Node, Link, At, AltsSize;
    AtFits(code, p, AtomCode(a, To(d)));
    if a.Group? {
      GroupAt(code, p, a, To(d));
      AtNode(code, p + AtomTail(a), CLOSE + a.n, 3 + d);
    } else {
      LeafAt(code, p, a, To(d));
      AtNode(code, p, LeafOp(a), AtomSize(a) + d);
    }
  }

  lemma LoopReach(code: seq<byte>, p: int, x: Piece) returns (n: nat)
    requires !x.rep.One? && At(code, p, LoopCode(x)) && |code| <= CODE_LIMIT
    requires p + LoopSize(x) + 3 <= |code|
    ensures Reaches(code, p, p + LoopSize(x), n)
  {
    hide AtomCode, LoopCode, Node, AtomSize, Link, Reaches, At;
    ReachesHere(code, p, LoopCode(x));
    AtFits(code, p, LoopCode(x));
    var a := x.atom;
    var size := AtomSize(a);
    match x.rep
    case Star =>
      StarAt(code, p, x);
      ChoiceReach(code, p, p, size + 6, 0);
      n := 2;
    case Quest =>
      QuestAt(code, p, x);
      ChoiceReach(code, p, p, size + 3, 0);
      n := 2;
    case Plus =>
      PlusAt(code, p, x);
      var m := AtomReach(code, p, a, To(0));
      AtomTailLeads(code, p, a, 0);
      ReachesStep(code, p, p + AtomTail(a), m);
      ChoiceReach(code, p, p + size, 6, m + 1);
      n := m + 3;
  }

  lemma PieceReach(code: seq<byte>, p: int, x: Piece, t: Tail) returns (n: nat)
    requires At(code, p, PieceCode(x, t)) && |code| <= CODE_LIMIT
    ensures Reaches(code, p, p + PieceTail(x), n)
  {
    if x.rep.One? {
      n := AtomReach(code, p, x.atom, t);
    } else if RunsInPlace(x) {
      n := 0;
    } else {
      AtSplit(code, p, LoopCode(x), Node(NOTHING, Offset(3, t)));
      n := LoopReach(code, p, x);
    }
  }

  lemma PieceTailLeads(code: seq<byte>, p: int, x: Piece, d: nat)
    requires At(code, p, PieceCode(x, To(d))) && |code| <= CODE_LIMIT
    requires p + PieceSize(x) + d <= |code|
    ensures Next(code, p + PieceTail(x)) == p + PieceSize(x) + d
  {
    hide At, AtomCode, LoopCode, Node, AtomSize, LoopSize, AtomTail, Next;
    AtFits(code, p, PieceCode(x, To(d)));
    if x.rep.One? {
      AtomTailLeads(code, p, x.atom, d);
    } else if RunsInPlace(x) {
      AtSplit(code, p, Node(if x.rep.Star? then STAR else PLUS, PieceSize(x) + d), AtomCode(x.atom, Unlinked));
      AtNode(code, p, if x.rep.Star? then STAR else PLUS, PieceSize(x) + d);
    } else {
      AtSplit(code, p, LoopCode(x), Node(NOTHING, 3 + d));
      AtNode(code, p + LoopSize(x), NOTHING, 3 + d);
    }
  }

  /** The first piece of a longer branch leads to the second. */
  lemma PieceStepReach(code: seq<byte>, p: int, x: Piece) returns (n: nat)
    requires At(code, p, PieceCode(x, To(0))) && |code| <= CODE_LIMIT && p + PieceSize(x) + 3 <= |code|
    ensures Reaches(code, p, p + PieceSize(x), n)
  {
    hide PieceCode, PieceSize;
    var k := PieceReach(code, p, x, To(0));
    PieceTailLeads(code, p, x, 0);
    ReachesStep(code, p, p + PieceTail(x), k);
    n := k + 1;
  }

  lemma ReachesHere(code: seq<byte>, p: int, x: seq<byte>)
    requires At(code, p, x) && |x| >= 3
    ensures Reaches(code, p, p, 0)
  {}

  lemma {:induction false} BranchReach(code: seq<byte>, p: int, b: Branch, t: Tail) returns (n: nat)
    requires At(code, p, BranchCode(b, t)) && |code| <= CODE_LIMIT
    ensures Reaches(code, p, p + BranchTail(b), n)
    decreases b
  {
    hide At, Reaches, PieceCode, BranchCode, PieceSize, BranchSize, PieceTail;
    if b.Nil? {
      ReachesHere(code, p, BranchCode(b, t));
      n := 0;
    } else if b.tail.Nil? {
      OnePieceCode(b.head, t);
      n := PieceReach(code, p, b.head, t);
    } else {
      ConsAt(code, p, b.head, b.tail, t);
      AtFits(code, p + PieceSize(b.head), BranchCode(b.tail, t));
      var k := PieceStepReach(code, p, b.head);
      var m := BranchReach(code, p + PieceSize(b.head), b.tail, t);
      ReachesTrans(code, p, p + PieceSize(b.head), p + BranchTail(b), k, m);
      n := k + m;
    }
  }

  // ----- setting the link of a fragment's tail -----

  /** The code of a fragment whose tail, at offset tail, is not linked or leads d bytes
      past the end: they differ in the two link bytes only. */
  ghost predicate Relinks(unlinked: seq<byte>, linked: seq<byte>, tail: nat, d: nat) {
    |unlinked| == |linked| && tail + 3 <= |unlinked| && unlinked[tail] != BACK
    && unlinked[tail + 1] == 0 && unlinked[tail + 2] == 0
    && linked == unlinked[tail + 1 := Hi(|unlinked| - tail + d)][tail + 2 := Lo(|unlinked| - tail + d)]
  }

  lemma RelinksAppend(pre: seq<byte>, x: seq<byte>, y: seq<byte>, tail: nat, d: nat)
    requires Relinks(x, y, tail, d)
    ensures Relinks(pre + x, pre + y, |pre| + tail, d)
  {
    var off := |x| - tail + d;
    assert (pre + x)[|pre| + tail + 1 := Hi(off)] == pre + x[tail + 1 := Hi(off)];
    assert (pre + x[tail + 1 := Hi(off)])[|pre| + tail + 2 := Lo(off)] == pre + y;
  }

  lemma RelinksNode(op: byte, operand: seq<byte>, d: nat)
    requires op != BACK
    ensures Relinks(Node(op, 0) + operand, Node(op, 3 + |operand| + d) + operand, 0, d)
  {}

  lemma RelinksEmpty(op: byte, d: nat)
    requires op != BACK
    ensures Relinks(Node(op, 0), Node(op, 3 + d), 0, d)
  {
    RelinksNode(op, [], d);
    assert Node(op, 0) + [] == Node(op, 0);
    assert Node(op, 3 + d) + [] == Node(op, 3 + d);
  }

  lemma AtomRelinks(a: Atom, d: nat)
    ensures Relinks(AtomCode(a, Unlinked), AtomCode(a, To(d)), AtomTail(a), d)
  {
    hide AltsCode, AltsSize, Node, Relinks;
    if a.Group? {
      var pre := Node(OPEN + a.n, 3) + AltsCode(a.alts);
      RelinksEmpty(CLOSE + a.n, d);
      RelinksAppend(pre, Node(CLOSE + a.n, 0), Node(CLOSE + a.n, 3 + d), 0, d);
      GroupCode(a, Unlinked);
      GroupCode(a, To(d));
    } else {
      RelinksNode(LeafOp(a), Operand(a), d);
    }
  }

  lemma GroupCode(a: Atom, t: Tail)
    requires a.Group?
    ensures AtomCode(a, t) == Node(OPEN + a.n, 3) + AltsCode(a.alts) + Node(CLOSE + a.n, Offset(3, t))
  {
    hide AltsCode, Node;
  }

  lemma PieceRelinks(x: Piece, d: nat)
    ensures Relinks(PieceCode(x, Unlinked), PieceCode(x, To(d)), PieceTail(x), d)
  {
    hide AtomCode, LoopCode, Node, Relinks, AtomTail, AtomSize, LoopSize;
    if x.rep.One? {
      AtomRelinks(x.atom, d);
    } else if RunsInPlace(x) {
      RelinksNode(if x.rep.Star? then STAR else PLUS, AtomCode(x.atom, Unlinked), d);
    } else {
      RelinksEmpty(NOTHING, d);
      RelinksAppend(LoopCode(x), Node(NOTHING, 0), Node(NOTHING, 3 + d), 0, d);
    }
  }

  lemma {:induction false} BranchRelinks(b: Branch, d: nat)
    ensures Relinks(BranchCode(b, Unlinked), BranchCode(b, To(d)), BranchTail(b), d)
  {
    if b.Nil? {
      RelinksEmpty(NOTHING, d);
    } else if b.tail.Nil? {
      PieceRelinks(b.head, d);
    } else {
      BranchRelinks(b.tail, d);
      RelinksAppend(PieceCode(b.head, To(0)), BranchCode(b.tail, Unlinked), BranchCode(b.tail, To(d)),
                    BranchTail(b.tail), d);
    }
  }

  /** Setting the tail's link inside more code. */
  lemma RelinkMiddle(pre: seq<byte>, x: seq<byte>, y: seq<byte>, post: seq<byte>, tail: nat, d: nat)
    requires Relinks(x, y, tail, d) && d <= |post|
    ensures (pre + x + post)[|pre| + tail] != BACK
    ensures SetLink(pre + x + post, |pre| + tail, |pre| + |x| + d) == pre + y + post
    ensures Next(pre + x + post, |pre| + tail) == -1
  {
    var off := |x| - tail + d;
    var whole := pre + x + post;
    assert whole[|pre| + tail] == x[tail];
    assert whole[|pre| + tail + 1] == x[tail + 1] && whole[|pre| + tail + 2] == x[tail + 2];
    assert whole[|pre| + tail + 1 := Hi(off)] == pre + x[tail + 1 := Hi(off)] + post;
    assert (pre + x[tail + 1 := Hi(off)] + post)[|pre| + tail + 2 := Lo(off)] == pre + y + post;
  }
}
