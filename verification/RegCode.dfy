/** The byte code of exp_clib.c: what a program for each tree looks like.

    A node is an opcode and a two-byte link, high byte first, holding the distance to
    the next node (backwards for BACK); an operand follows the node.  All links are
    relative, so the code of a tree is a function of the tree and of where its last
    node leads: nowhere yet, or to an address some distance past its end. */
module RegCode {
  import opened Chars
  import opened RegSyntax

  const END: byte := 0
  const BOL: byte := 1
  const EOL: byte := 2
  const ANY: byte := 3
  const ANYOF: byte := 4
  const ANYBUT: byte := 5
  const BRANCH: byte := 6
  const BACK: byte := 7
  const EXACTLY: byte := 8
  const NOTHING: byte := 9
  const STAR: byte := 10
  const PLUS: byte := 11
  const OPEN: byte := 20
  const CLOSE: byte := 40
  const MAGIC: byte := 156

  /** Where the last node of a fragment leads: not linked yet, or that many bytes past
      the end of the fragment. */
  datatype Tail = Unlinked | To(d: nat)

  /** The link of a node that ends n bytes before the end of its fragment. */
  function Offset(n: nat, t: Tail): nat {
    if t.Unlinked? then 0 else n + t.d
  }

  function Hi(off: nat): byte { (off / 256) % 256 }

  function Lo(off: nat): byte { off % 256 }

  function Node(op: byte, off: nat): (r: seq<byte>)
    ensures |r| == 3
  {
    [op, Hi(off), Lo(off)]
  }

  /** An atom other than a group is one node and its operand. */
  function LeafOp(a: Atom): byte {
    match a
    case Bol => BOL
    case Eol => EOL
    case Any => ANY
    case OneOf(_) => ANYOF
    case NoneOf(_) => ANYBUT
    case _ => EXACTLY
  }

  function Operand(a: Atom): seq<byte> {
    if a.OneOf? || a.NoneOf? || a.Exactly? then a.cs + [NUL] else []
  }

  function AtomCode(a: Atom, t: Tail): (r: seq<byte>)
    ensures |r| == AtomSize(a)
    decreases a
  {
    if a.Group? then
      Node(OPEN + a.n, 3) + (AltsCode(a.alts) + Node(CLOSE + a.n, Offset(3, t)))
    else
      Node(LeafOp(a), Offset(AtomSize(a), t)) + Operand(a)
  }

  function AtomSize(a: Atom): (n: nat)
    ensures n >= 3
    decreases a
  {
    if a.Group? then 6 + AltsSize(a.alts) else 3 + |Operand(a)|
  }

  /** A simple operand is repeated by a STAR or PLUS node in front of it; any other
      repetition is a loop or a choice around its operand, closed by a NOTHING. */
  predicate RunsInPlace(p: Piece) {
    Simple(p.atom) && (p.rep.Star? || p.rep.Plus?)
  }

  function PieceCode(p: Piece, t: Tail): (r: seq<byte>)
    ensures |r| == PieceSize(p)
    decreases p, 2
  {
    if p.rep.One? then AtomCode(p.atom, t)
    else if RunsInPlace(p) then
      Node(if p.rep.Star? then STAR else PLUS, Offset(PieceSize(p), t)) + AtomCode(p.atom, Unlinked)
    else LoopCode(p) + Node(NOTHING, Offset(3, t))
  }

  function PieceSize(p: Piece): (n: nat)
    ensures n >= 3
    decreases p, 2
  {
    if p.rep.One? then AtomSize(p.atom)
    else if RunsInPlace(p) then AtomSize(p.atom) + 3
    else LoopSize(p) + 3
  }

  /** x* is (x&|), x+ is x(&|) and x? is (x|), where & leads back. */
  function LoopCode(p: Piece): (r: seq<byte>)
    ensures |r| == LoopSize(p)
    decreases p, 1
  {
    var n := AtomSize(p.atom);
    match p.rep
    case Star => Node(BRANCH, n + 6) + (AtomCode(p.atom, To(0)) + (Node(BACK, n + 3) + Node(BRANCH, 3)))
    case Plus => AtomCode(p.atom, To(0)) + (Node(BRANCH, 6) + (Node(BACK, n + 3) + Node(BRANCH, 3)))
    case _ => Node(BRANCH, n + 3) + (AtomCode(p.atom, To(3)) + Node(BRANCH, 3))
  }

  function LoopSize(p: Piece): nat
    decreases p, 1
  {
    AtomSize(p.atom) + (if p.rep.Star? || p.rep.Plus? then 9 else 6)
  }

  /** The pieces of a branch, each leading to the next; an empty branch is a NOTHING. */
  function BranchCode(b: Branch, t: Tail): (r: seq<byte>)
    ensures |r| == BranchSize(b)
    decreases b, 3
  {
    match b
    case Nil => Node(NOTHING, Offset(3, t))
    case Cons(p, rest) =>
      if rest.Nil? then PieceCode(p, t) else PieceCode(p, To(0)) + BranchCode(rest, t)
  }

  function BranchSize(b: Branch): (n: nat)
    ensures n >= 3
    decreases b, 3
  {
    match b
    case Nil => 3
    case Cons(p, rest) => if rest.Nil? then PieceSize(p) else PieceSize(p) + BranchSize(rest)
  }

  /** The alternatives: BRANCH nodes linked to each other and at last to the node that
      follows, to which every branch also leads. */
  function AltsCode(l: Alts): (r: seq<byte>)
    ensures |r| == AltsSize(l)
    decreases l, 4
  {
    match l
    case Last(b) => Node(BRANCH, 3 + BranchSize(b)) + BranchCode(b, To(0))
    case Or(b, rest) =>
      Node(BRANCH, 3 + BranchSize(b)) + (BranchCode(b, To(AltsSize(rest))) + AltsCode(rest))
  }

  function AltsSize(l: Alts): (n: nat)
    ensures n >= 6
    decreases l, 4
  {
    match l
    case Last(b) => 3 + BranchSize(b)
    case Or(b, rest) => 3 + BranchSize(b) + AltsSize(rest)
  }

  /** A whole program: the magic byte, the alternatives and the END node. */
  function Program(l: Alts): (r: seq<byte>)
    ensures |r| == AltsSize(l) + 4
  {
    [MAGIC] + (AltsCode(l) + Node(END, 0))
  }

  // ----- reading code -----

  lemma AtMiddle(pre: seq<byte>, x: seq<byte>, post: seq<byte>)
    ensures At(pre + x + post, |pre|, x)
  {
    assert (pre + x + post)[|pre|..|pre| + |x|] == x;
  }

  /** The stored link of the node at p. */
  function Link(code: seq<byte>, p: nat): int
    requires p + 3 <= |code|
  {
    code[p + 1] * 256 + code[p + 2]
  }

  /** regnext: the address of the node after the one at p, or -1 for NULL. */
  function Next(code: seq<byte>, p: nat): int
    requires p + 3 <= |code|
  {
    var off := Link(code, p);
    if off == 0 then -1 else if code[p] == BACK then p - off else p + off
  }

  lemma AtNode(code: seq<byte>, p: int, op: byte, off: nat)
    requires At(code, p, Node(op, off)) && off < 65536
    ensures 0 <= p && p + 3 <= |code| && code[p] == op && Link(code, p) == off
    ensures Next(code, p) == if off == 0 then -1 else if op == BACK then p - off else p + off
  {
    assert code[p..p + 3][0] == op && code[p..p + 3][1] == Hi(off) && code[p..p + 3][2] == Lo(off);
    assert off / 256 < 256;
    assert off == (off / 256) * 256 + off % 256;
  }

  // ----- the parts of code that stands at an address -----

  lemma GroupAt(code: seq<byte>, p: int, a: Atom, t: Tail)
    requires a.Group? && At(code, p, AtomCode(a, t))
    ensures At(code, p, Node(OPEN + a.n, 3)) && At(code, p + 3, AltsCode(a.alts))
    ensures At(code, p + 3 + AltsSize(a.alts), Node(CLOSE + a.n, Offset(3, t)))
  {
    hide At, AtomSize, AltsSize, BranchSize, Node, AltsCode;
    At3(code, p, Node(OPEN + a.n, 3), AltsCode(a.alts), Node(CLOSE + a.n, Offset(3, t)));
  }

  lemma LeafAt(code: seq<byte>, p: int, a: Atom, t: Tail)
    requires !a.Group? && At(code, p, AtomCode(a, t))
    ensures At(code, p, Node(LeafOp(a), Offset(AtomSize(a), t))) && At(code, p + 3, Operand(a))
  {
    hide At, AtomSize, AltsSize, BranchSize, Node, AltsCode;
    AtSplit(code, p, Node(LeafOp(a), Offset(AtomSize(a), t)), Operand(a));
  }

  lemma StarAt(code: seq<byte>, p: int, x: Piece)
    requires x.rep.Star? && At(code, p, LoopCode(x))
    ensures var n := AtomSize(x.atom);
            At(code, p, Node(BRANCH, n + 6)) && At(code, p + 3, AtomCode(x.atom, To(0)))
            && At(code, p + 3 + n, Node(BACK, n + 3)) && At(code, p + 6 + n, Node(BRANCH, 3))
  {
    hide At, AtomSize, AtomCode, Node;
    var n := AtomSize(x.atom);
    At4(code, p, Node(BRANCH, n + 6), AtomCode(x.atom, To(0)), Node(BACK, n + 3), Node(BRANCH, 3));
  }

  lemma PlusAt(code: seq<byte>, p: int, x: Piece)
    requires x.rep.Plus? && At(code, p, LoopCode(x))
    ensures var n := AtomSize(x.atom);
            At(code, p, AtomCode(x.atom, To(0))) && At(code, p + n, Node(BRANCH, 6))
            && At(code, p + n + 3, Node(BACK, n + 3)) && At(code, p + n + 6, Node(BRANCH, 3))
  {
    hide At, AtomSize, AtomCode, Node;
    var n := AtomSize(x.atom);
    At4(code, p, AtomCode(x.atom, To(0)), Node(BRANCH, 6), Node(BACK, n + 3), Node(BRANCH, 3));
  }

  lemma QuestAt(code: seq<byte>, p: int, x: Piece)
    requires x.rep.Quest? && At(code, p, LoopCode(x))
    ensures var n := AtomSize(x.atom);
            At(code, p, Node(BRANCH, n + 3)) && At(code, p + 3, AtomCode(x.atom, To(3)))
            && At(code, p + 3 + n, Node(BRANCH, 3))
  {
    hide At, AtomSize, AtomCode, Node;
    At3(code, p, Node(BRANCH, AtomSize(x.atom) + 3), AtomCode(x.atom, To(3)), Node(BRANCH, 3));
  }

  lemma LastAt(code: seq<byte>, p: int, b: Branch)
    requires At(code, p, AltsCode(Last(b)))
    ensures At(code, p, Node(BRANCH, 3 + BranchSize(b))) && At(code, p + 3, BranchCode(b, To(0)))
  {
    hide At, AtomSize, AltsSize, BranchSize, Node;
    AtSplit(code, p, Node(BRANCH, 3 + BranchSize(b)), BranchCode(b, To(0)));
  }

  lemma OrCode(b: Branch, rest: Alts)
    ensures AltsCode(Or(b, rest))
         == Node(BRANCH, 3 + BranchSize(b)) + (BranchCode(b, To(AltsSize(rest))) + AltsCode(rest))
  {
    hide BranchCode, Node, BranchSize, AltsSize;
    var l := Or(b, rest);
    assert l.Or? && l.b == b && l.rest == rest;
  }

  lemma OrAt(code: seq<byte>, p: int, b: Branch, rest: Alts)
    requires At(code, p, AltsCode(Or(b, rest)))
    ensures At(code, p, Node(BRANCH, 3 + BranchSize(b)))
    ensures At(code, p + 3, BranchCode(b, To(AltsSize(rest))))
    ensures At(code, p + 3 + BranchSize(b), AltsCode(rest))
  {
    hide BranchCode, AltsCode, Node, At, AltsSize, BranchSize;
    OrCode(b, rest);
    At3(code, p, Node(BRANCH, 3 + BranchSize(b)), BranchCode(b, To(AltsSize(rest))), AltsCode(rest));
  }

  lemma OnePieceCode(x: Piece, t: Tail)
    ensures BranchCode(Cons(x, Nil), t) == PieceCode(x, t)
  {
    hide PieceCode;
  }

  lemma ConsCode(x: Piece, rest: Branch, t: Tail)
    requires rest.Cons?
    ensures BranchCode(Cons(x, rest), t) == PieceCode(x, To(0)) + BranchCode(rest, t)
  {
    hide PieceCode;
  }

  lemma ConsAt(code: seq<byte>, p: int, x: Piece, rest: Branch, t: Tail)
    requires rest.Cons? && At(code, p, BranchCode(Cons(x, rest), t))
    ensures At(code, p, PieceCode(x, To(0))) && At(code, p + PieceSize(x), BranchCode(rest, t))
  {
    hide At, PieceCode, BranchCode, PieceSize, BranchSize;
    ConsCode(x, rest, t);
    AtSplit(code, p, PieceCode(x, To(0)), BranchCode(rest, t));
  }
}
