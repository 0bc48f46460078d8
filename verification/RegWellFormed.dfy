/** Compiled programs are well formed.

    Read from its first node on, a program decodes into nodes that fill it exactly, the
    last being END.  Every link leads to a node, forwards except from BACK, and from every
    node the links lead to END; only the operand of a STAR or PLUS node has no link. */
module RegWellFormed {
  import opened Chars
  import opened RegSyntax
  import opened RegCode
  import opened RegLink
  import opened RegExec

  predicate HasOperand(op: byte) {
    op == ANYOF || op == ANYBUT || op == EXACTLY
  }

  predicate Repeats(op: byte) {
    op == STAR || op == PLUS
  }

  predicate IsOp(op: byte) {
    BOL <= op <= PLUS || OPEN < op < OPEN + NSUBEXP || CLOSE < op < CLOSE + NSUBEXP
  }

  /** The bytes of the node at p, its string operand included. */
  function NodeLength(code: seq<byte>, p: nat): nat
    requires p + 3 <= |code|
  {
    if HasOperand(code[p]) then 3 + StrLen(code, p + 3) + 1 else 3
  }

  /** Decoding from p on gives these nodes and ends at q. */
  ghost predicate Decodes(code: seq<byte>, p: int, nodes: seq<int>, q: int)
    decreases |nodes|
  {
    if nodes == [] then p == q
    else nodes[0] == p && 0 <= p && p + 3 <= |code| && Decodes(code, p + NodeLength(code, p), nodes[1..], q)
  }

  /** Following links from p leads to q. */
  ghost predicate Leads(code: seq<byte>, p: int, q: int) {
    exists n: nat :: Reaches(code, p, q, n)
  }

  /** What holds of a node b of a program, or of a fragment that leads to exit. */
  ghost predicate Good(code: seq<byte>, nodes: seq<int>, b: int, exit: int) {
    && 0 <= b && b + 3 <= |code| && IsOp(code[b])
    && var next := Next(code, b);
    && (Repeats(code[b]) ==> b + 3 in nodes && b + 6 <= |code| && Next(code, b + 3) == -1)
    && (next == -1 ==> b - 3 in nodes && 0 <= b - 3 && Repeats(code[b - 3]))
    && (next != -1 ==> (next in nodes || next == exit) && (if code[b] == BACK then next < b else b < next)
                       && Leads(code, b, exit))
  }

  ghost predicate AllGood(code: seq<byte>, part: seq<int>, nodes: seq<int>, exit: int) {
    forall b :: b in part ==> Good(code, nodes, b, exit)
  }

  /** A stretch of code all of whose nodes are good and lead to exit. */
  ghost predicate Fragment(code: seq<byte>, p: int, nodes: seq<int>, q: int, exit: int) {
    Decodes(code, p, nodes, q) && p in nodes && Leads(code, p, exit) && AllGood(code, nodes, nodes, exit)
  }

  // ----- putting fragments together -----

  lemma DecodesOne(code: seq<byte>, p: int, nodes: seq<int>, q: int)
    requires nodes != []
    ensures Decodes(code, p, nodes, q)
       <==> nodes[0] == p && 0 <= p && p + 3 <= |code| && Decodes(code, p + NodeLength(code, p), nodes[1..], q)
  {
    hide NodeLength;
  }

  lemma {:induction false} DecodesJoin(code: seq<byte>, p: int, x: seq<int>, m: int, y: seq<int>, q: int)
    requires Decodes(code, p, x, m) && Decodes(code, m, y, q)
    ensures Decodes(code, p, x + y, q)
    decreases |x|, 1
  {
    hide NodeLength;
    if x == [] {
      assert x + y == y;
    } else {
      DecodesMore(code, p, x, m, y, q);
    }
  }

  lemma DecodesMore(code: seq<byte>, p: int, x: seq<int>, m: int, y: seq<int>, q: int)
    requires Decodes(code, p, x, m) && Decodes(code, m, y, q) && x != []
    ensures Decodes(code, p, x + y, q)
    decreases |x|, 0
  {
    hide Decodes, NodeLength;
    DecodesOne(code, p, x, m);
    DecodesJoin(code, p + NodeLength(code, p), x[1..], m, y, q);
    assert (x + y)[1..] == x[1..] + y;
    DecodesOne(code, p, x + y, q);
  }

  lemma LeadsHere(code: seq<byte>, p: int)
    requires 0 <= p && p + 3 <= |code|
    ensures Leads(code, p, p)
  {
    assert Reaches(code, p, p, 0);
  }

  lemma LeadsNext(code: seq<byte>, p: int)
    requires 0 <= p && p + 3 <= |code| && 0 <= Next(code, p) && Next(code, p) + 3 <= |code|
    ensures Leads(code, p, Next(code, p))
  {
    assert Reaches(code, Next(code, p), Next(code, p), 0);
    assert Reaches(code, p, Next(code, p), 1);
  }

  lemma LeadsTrans(code: seq<byte>, p: int, q: int, r: int)
    requires Leads(code, p, q) && Leads(code, q, r)
    ensures Leads(code, p, r)
  {
    hide Reaches;
    var m: nat :| Reaches(code, p, q, m);
    var n: nat :| Reaches(code, q, r, n);
    ReachesTrans(code, p, q, r, m, n);
  }

  /** A fragment stays good in a larger one that its exit belongs to or leaves. */
  lemma Widen(code: seq<byte>, part: seq<int>, e: int, nodes: seq<int>, exit: int)
    requires AllGood(code, part, part, e) && (e in nodes || e == exit) && Leads(code, e, exit)
    requires forall b :: b in part ==> b in nodes
    ensures AllGood(code, part, nodes, exit)
  {
    hide Leads, Next, IsOp, Repeats;
    forall b | b in part ensures Good(code, nodes, b, exit) {
      if Next(code, b) != -1 {
        LeadsTrans(code, b, e, exit);
      }
    }
  }

  lemma AllGoodJoin(code: seq<byte>, x: seq<int>, y: seq<int>, nodes: seq<int>, exit: int)
    requires AllGood(code, x, nodes, exit) && AllGood(code, y, nodes, exit)
    ensures AllGood(code, x + y, nodes, exit)
  {
    hide Good;
  }

  /** Two adjoining fragments; the first leads into the second or to the same place. */
  lemma FragmentJoin(code: seq<byte>, p: int, x: seq<int>, m: int, e: int, y: seq<int>, q: int, exit: int)
    requires Fragment(code, p, x, m, e) && Fragment(code, m, y, q, exit)
    requires e == m || e == exit
    requires 0 <= exit && exit + 3 <= |code|
    ensures Fragment(code, p, x + y, q, exit)
  {
    hide Leads, Decodes, AllGood;
    DecodesJoin(code, p, x, m, y, q);
    LeadsHere(code, exit);
    LeadsTrans(code, p, e, exit);
    Widen(code, x, e, x + y, exit);
    Widen(code, y, exit, x + y, exit);
    AllGoodJoin(code, x, y, x + y, exit);
  }

  /** A node without operand. */
  lemma NodeFragment(code: seq<byte>, p: nat, op: byte, off: nat)
    requires At(code, p, Node(op, off)) && IsOp(op) && !HasOperand(op) && !Repeats(op)
    requires 0 < off < 65536
    requires var next := if op == BACK then p - off else p + off; 0 <= next && next + 3 <= |code|
    ensures Fragment(code, p, [p], p + 3, if op == BACK then p - off else p + off)
  {
    hide Reaches, Node, At, Next;
    AtNode(code, p, op, off);
    LeadsNext(code, p);
    assert [p][1..] == [];
    assert Decodes(code, p + 3, [], p + 3);
  }

  // ----- the code of each construct -----

  lemma LeafLength(code: seq<byte>, p: nat, a: Atom, t: Tail)
    requires !a.Group? && AtomOk(a) && At(code, p, AtomCode(a, t)) && Offset(AtomSize(a), t) < 65536
    ensures 0 <= p && p + 3 <= |code| && code[p] == LeafOp(a) && NodeLength(code, p) == AtomSize(a)
    ensures Next(code, p) == if t.Unlinked? then -1 else p + AtomSize(a) + t.d
    ensures IsOp(code[p]) && !Repeats(code[p]) && code[p] != BACK
  {
    hide At, Node, Next, AtomCode;
    LeafAt(code, p, a, t);
    AtNode(code, p, LeafOp(a), Offset(AtomSize(a), t));
    if a.OneOf? || a.NoneOf? || a.Exactly? {
      StrLenIs(code, p + 3, a.cs);
    }
  }

  lemma LeafFragment(code: seq<byte>, p: nat, a: Atom, d: nat)
    requires !a.Group? && AtomOk(a) && At(code, p, AtomCode(a, To(d)))
    requires |code| <= CODE_LIMIT && p + AtomSize(a) + d + 3 <= |code|
    ensures Fragment(code, p, [p], p + AtomSize(a), p + AtomSize(a) + d)
  {
    hide At, AtomCode, Reaches, Next, AtomOk, NodeLength, IsOp;
    LeafLength(code, p, a, To(d));
    LeadsNext(code, p);
    assert [p][1..] == [];
    assert Decodes(code, p + AtomSize(a), [], p + AtomSize(a));
  }

  lemma AtomFragment(code: seq<byte>, p: nat, a: Atom, d: nat) returns (nodes: seq<int>)
    requires AtomOk(a) && At(code, p, AtomCode(a, To(d)))
    requires |code| <= CODE_LIMIT && p + AtomSize(a) + d + 3 <= |code|
    ensures Fragment(code, p, nodes, p + AtomSize(a), p + AtomSize(a) + d)
    decreases a, 0
  {
    hide At, AtomCode, AltsCode, Fragment, Node;
    if a.Group? {
      var close := p + 3 + AltsSize(a.alts);
      GroupAt(code, p, a, To(d));
      NodeFragment(code, p, OPEN + a.n, 3);
      var inner := AltsFragment(code, p + 3, a.alts);
      NodeFragment(code, close, CLOSE + a.n, 3 + d);
      FragmentJoin(code, p, [p], p + 3, p + 3, inner, close, close);
      FragmentJoin(code, p, [p] + inner, close, close, [close], close + 3, close + 3 + d);
      nodes := [p] + inner + [close];
    } else {
      LeafFragment(code, p, a, d);
      nodes := [p];
    }
  }

  /** STAR and PLUS nodes with the operand they repeat. */
  lemma InPlaceFragment(code: seq<byte>, p: nat, x: Piece, d: nat)
    requires RunsInPlace(x) && AtomOk(x.atom) && At(code, p, PieceCode(x, To(d)))
    requires |code| <= CODE_LIMIT && p + PieceSize(x) + d + 3 <= |code|
    ensures Fragment(code, p, [p, p + 3], p + PieceSize(x), p + PieceSize(x) + d)
  {
    hide At, AtomCode, Reaches, Next, Node, AtomOk, NodeLength;
    var op := if x.rep.Star? then STAR else PLUS;
    AtSplit(code, p, Node(op, PieceSize(x) + d), AtomCode(x.atom, Unlinked));
    AtNode(code, p, op, PieceSize(x) + d);
    LeafLength(code, p + 3, x.atom, Unlinked);
    LeadsNext(code, p);
    AtFits(code, p + 3, AtomCode(x.atom, Unlinked));
    PlainLength(code, p);
    assert [p, p + 3][1..] == [p + 3] && [p + 3][1..] == [];
    assert Decodes(code, p + PieceSize(x), [], p + PieceSize(x));
    assert Decodes(code, p + 3, [p + 3], p + PieceSize(x));
  }

  lemma PlainLength(code: seq<byte>, p: nat)
    requires p + 3 <= |code| && !HasOperand(code[p])
    ensures NodeLength(code, p) == 3
  {}

  /** Three stretches of a loop.  Each leads into the loop or out of it. */
  lemma LoopJoin(code: seq<byte>, p: int, x: seq<int>, m: int, e: int, y: seq<int>, n: int, e': int, z: seq<int>,
                 q: int)
    requires Fragment(code, p, x, m, e) && Fragment(code, m, y, n, e') && Fragment(code, n, z, q, q)
    requires e in x + y + z && Leads(code, e, q)
    requires e' in x + y + z && Leads(code, e', q)
    requires 0 <= q && q + 3 <= |code|
    ensures Fragment(code, p, x + y + z, q, q)
  {
    hide Leads, Decodes, AllGood;
    var all := x + y + z;
    DecodesJoin(code, p, x, m, y, n);
    DecodesJoin(code, p, x + y, n, z, q);
    LeadsTrans(code, p, e, q);
    LeadsHere(code, q);
    Widen(code, x, e, all, q);
    Widen(code, y, e', all, q);
    Widen(code, z, q, all, q);
    AllGoodJoin(code, x, y, all, q);
    AllGoodJoin(code, x + y, z, all, q);
  }

  lemma FragmentLeads(code: seq<byte>, p: int, nodes: seq<int>, q: int, exit: int)
    requires Fragment(code, p, nodes, q, exit)
    ensures Leads(code, p, exit) && p in nodes
  {}

  lemma StarFragment(code: seq<byte>, p: nat, x: Piece) returns (nodes: seq<int>)
    requires x.rep.Star? && AtomOk(x.atom) && At(code, p, LoopCode(x))
    requires |code| <= CODE_LIMIT && p + LoopSize(x) + 3 <= |code|
    ensures Fragment(code, p, nodes, p + LoopSize(x), p + LoopSize(x))
    decreases x.atom, 1
  {
    hide At, AtomCode, LoopCode, Fragment, Node, AtomSize, Leads;
    var n := AtomSize(x.atom);
    var back, out := p + 3 + n, p + 6 + n;
    StarAt(code, p, x);
    NodeFragment(code, p, BRANCH, n + 6);
    NodeFragment(code, back, BACK, n + 3);
    NodeFragment(code, out, BRANCH, 3);
    var inner := AtomFragment(code, p + 3, x.atom, 0);
    FragmentLeads(code, p, [p], p + 3, out);
    FragmentLeads(code, out, [out], out + 3, out + 3);
    LeadsTrans(code, p, out, out + 3);
    FragmentJoin(code, p + 3, inner, back, back, [back], out, p);
    assert out in [p] + (inner + [back]) + [out];
    LoopJoin(code, p, [p], p + 3, out, inner + [back], out, p, [out], out + 3);
    nodes := [p] + (inner + [back]) + [out];
  }

  lemma PlusFragment(code: seq<byte>, p: nat, x: Piece) returns (nodes: seq<int>)
    requires x.rep.Plus? && AtomOk(x.atom) && At(code, p, LoopCode(x))
    requires |code| <= CODE_LIMIT && p + LoopSize(x) + 3 <= |code|
    ensures Fragment(code, p, nodes, p + LoopSize(x), p + LoopSize(x))
    decreases x.atom, 1
  {
    hide At, AtomCode, LoopCode, Fragment, Node, AtomSize, Leads;
    var n := AtomSize(x.atom);
    var again, back, out := p + n, p + n + 3, p + n + 6;
    PlusAt(code, p, x);
    NodeFragment(code, again, BRANCH, 6);
    NodeFragment(code, back, BACK, n + 3);
    NodeFragment(code, out, BRANCH, 3);
    var inner := AtomFragment(code, p, x.atom, 0);
    FragmentLeads(code, p, inner, again, again);
    FragmentLeads(code, again, [again], back, out);
    FragmentLeads(code, out, [out], out + 3, out + 3);
    LeadsTrans(code, again, out, out + 3);
    LeadsTrans(code, p, again, out + 3);
    LeadsHere(code, out + 3);
    BackJoin(code, p, inner, again, back, out);
    nodes := inner + ([again] + [back]) + [out];
  }

  /** The end of the loop of a PLUS: the choice to go round again, and the way back. */
  lemma BackJoin(code: seq<byte>, p: int, inner: seq<int>, again: int, back: int, out: int)
    requires Fragment(code, p, inner, again, again) && Fragment(code, again, [again], back, out)
    requires Fragment(code, back, [back], out, p) && Fragment(code, out, [out], out + 3, out + 3)
    requires Leads(code, p, out + 3) && Leads(code, again, out + 3) && Leads(code, out, out + 3)
    requires 0 <= out && out + 6 <= |code|
    ensures Fragment(code, p, inner + ([again] + [back]) + [out], out + 3, out + 3)
  {
    hide Leads, Decodes, AllGood;
    var all := inner + ([again] + [back]) + [out];
    DecodesJoin(code, again, [again], back, [back], out);
    DecodesJoin(code, p, inner, again, [again] + [back], out);
    DecodesJoin(code, p, inner + ([again] + [back]), out, [out], out + 3);
    LeadsHere(code, out + 3);
    Widen(code, inner, again, all, out + 3);
    Widen(code, [again], out, all, out + 3);
    Widen(code, [back], p, all, out + 3);
    Widen(code, [out], out + 3, all, out + 3);
    AllGoodJoin(code, [again], [back], all, out + 3);
    AllGoodJoin(code, inner, [again] + [back], all, out + 3);
    AllGoodJoin(code, inner + ([again] + [back]), [out], all, out + 3);
  }

  lemma QuestFragment(code: seq<byte>, p: nat, x: Piece) returns (nodes: seq<int>)
    requires x.rep.Quest? && AtomOk(x.atom) && At(code, p, LoopCode(x))
    requires |code| <= CODE_LIMIT && p + LoopSize(x) + 3 <= |code|
    ensures Fragment(code, p, nodes, p + LoopSize(x), p + LoopSize(x))
    decreases x.atom, 1
  {
    hide At, AtomCode, LoopCode, Fragment, Node, AtomSize, Leads;
    var n := AtomSize(x.atom);
    var out := p + 3 + n;
    QuestAt(code, p, x);
    NodeFragment(code, p, BRANCH, n + 3);
    NodeFragment(code, out, BRANCH, 3);
    var inner := AtomFragment(code, p + 3, x.atom, 3);
    FragmentLeads(code, out, [out], out + 3, out + 3);
    FragmentJoin(code, p + 3, inner, out, out + 3, [out], out + 3, out + 3);
    HeadJoin(code, p, out, inner + [out], out + 3);
    nodes := [p] + (inner + [out]);
  }

  /** A BRANCH node in front of a fragment, leading to a node of it or to where it leads. */
  lemma HeadJoin(code: seq<byte>, p: int, e: int, y: seq<int>, q: int)
    requires Fragment(code, p, [p], p + 3, e) && Fragment(code, p + 3, y, q, q)
    requires (e in y || e == q) && Leads(code, e, q) && 0 <= q && q + 3 <= |code|
    ensures Fragment(code, p, [p] + y, q, q)
  {
    hide Leads, Decodes, AllGood;
    DecodesJoin(code, p, [p], p + 3, y, q);
    LeadsTrans(code, p, e, q);
    LeadsHere(code, q);
    Widen(code, [p], e, [p] + y, q);
    Widen(code, y, q, [p] + y, q);
    AllGoodJoin(code, [p], y, [p] + y, q);
  }

  lemma LoopFragment(code: seq<byte>, p: nat, x: Piece) returns (nodes: seq<int>)
    requires !x.rep.One? && AtomOk(x.atom) && At(code, p, LoopCode(x))
    requires |code| <= CODE_LIMIT && p + LoopSize(x) + 3 <= |code|
    ensures Fragment(code, p, nodes, p + LoopSize(x), p + LoopSize(x))
    decreases x.atom, 2
  {
    hide At, LoopCode, Fragment, LoopSize, AtomOk;
    match x.rep
    case Star => nodes := StarFragment(code, p, x);
    case Plus => nodes := PlusFragment(code, p, x);
    case Quest => nodes := QuestFragment(code, p, x);
  }

  lemma PieceFragment(code: seq<byte>, p: nat, x: Piece, d: nat) returns (nodes: seq<int>)
    requires PieceOk(x) && At(code, p, PieceCode(x, To(d)))
    requires |code| <= CODE_LIMIT && p + PieceSize(x) + d + 3 <= |code|
    ensures Fragment(code, p, nodes, p + PieceSize(x), p + PieceSize(x) + d)
    decreases x, 3
  {
    hide At, AtomCode, LoopCode, Fragment, LoopSize, AtomSize, Node;
    if x.rep.One? {
      nodes := AtomFragment(code, p, x.atom, d);
    } else if RunsInPlace(x) {
      InPlaceFragment(code, p, x, d);
      nodes := [p, p + 3];
    } else {
      var end := p + LoopSize(x);
      AtSplit(code, p, LoopCode(x), Node(NOTHING, 3 + d));
      var loop := LoopFragment(code, p, x);
      NodeFragment(code, end, NOTHING, 3 + d);
      FragmentJoin(code, p, loop, end, end, [end], end + 3, end + 3 + d);
      nodes := loop + [end];
    }
  }

  lemma BranchFragment(code: seq<byte>, p: nat, b: Branch, d: nat) returns (nodes: seq<int>)
    requires BranchOk(b) && At(code, p, BranchCode(b, To(d)))
    requires |code| <= CODE_LIMIT && p + BranchSize(b) + d + 3 <= |code|
    ensures Fragment(code, p, nodes, p + BranchSize(b), p + BranchSize(b) + d)
    decreases b, 4
  {
    hide At, PieceCode, BranchCode, Fragment, PieceSize, Node, PieceOk;
    if b.Nil? {
      NilFragment(code, p, d);
      nodes := [p];
    } else if b.tail.Nil? {
      OnePieceCode(b.head, To(d));
      nodes := PieceFragment(code, p, b.head, d);
    } else {
      var next := p + PieceSize(b.head);
      ConsAt(code, p, b.head, b.tail, To(d));
      AtFits(code, next, BranchCode(b.tail, To(d)));
      var first := PieceFragment(code, p, b.head, 0);
      var rest := BranchFragment(code, next, b.tail, d);
      var end := next + BranchSize(b.tail);
      FragmentJoin(code, p, first, next, next, rest, end, end + d);
      nodes := first + rest;
    }
  }

  lemma NilFragment(code: seq<byte>, p: nat, d: nat)
    requires At(code, p, BranchCode(Nil, To(d))) && |code| <= CODE_LIMIT && p + 3 + d + 3 <= |code|
    ensures Fragment(code, p, [p], p + 3, p + 3 + d)
  {
    hide At, Node, Fragment;
    NodeFragment(code, p, NOTHING, 3 + d);
  }

  lemma AltsFragment(code: seq<byte>, p: nat, l: Alts) returns (nodes: seq<int>)
    requires AltsOk(l) && At(code, p, AltsCode(l))
    requires |code| <= CODE_LIMIT && p + AltsSize(l) + 3 <= |code|
    ensures Fragment(code, p, nodes, p + AltsSize(l), p + AltsSize(l))
    decreases l, 5
  {
    hide At, BranchCode, AltsCode, Fragment, BranchSize, Node, BranchOk, Leads;
    var end := p + AltsSize(l);
    var next := p + 3 + BranchSize(l.b);
    match l
    case Last(b) =>
      LastAt(code, p, b);
      NodeFragment(code, p, BRANCH, 3 + BranchSize(b));
      var inner := BranchFragment(code, p + 3, b, 0);
      LeadsHere(code, end);
      HeadJoin(code, p, end, inner, end);
      nodes := [p] + inner;
    case Or(b, rest) =>
      OrAt(code, p, b, rest);
      NodeFragment(code, p, BRANCH, 3 + BranchSize(b));
      var inner := BranchFragment(code, p + 3, b, AltsSize(rest));
      var others := AltsFragment(code, next, rest);
      FragmentJoin(code, p + 3, inner, next, end, others, end, end);
      FragmentLeads(code, next, others, end, end);
      assert next in inner + others;
      HeadJoin(code, p, next, inner + others, end);
      nodes := [p] + (inner + others);
  }

  // ----- the theorem -----

  /** The program decodes into nodes from address 1 to its end; the last, and only the last,
      is END; all others are good and lead to it. */
  ghost predicate WellFormed(code: seq<byte>) {
    exists nodes: seq<int> ::
      && Decodes(code, 1, nodes, |code|)
      && |nodes| > 0 && nodes[|nodes| - 1] == |code| - 3
      && |code| > 3 && code[0] == MAGIC && code[|code| - 3] == END && Next(code, |code| - 3) == -1
      && AllGood(code, nodes[..|nodes| - 1], nodes, |code| - 3)
  }

  lemma EndsProgram(code: seq<byte>, x: seq<int>, end: int)
    requires Fragment(code, 1, x, end, end) && end == |code| - 3 && 0 < end && At(code, end, Node(END, 0))
             && code[0] == MAGIC
    ensures WellFormed(code)
  {
    hide AllGood, Decodes, Leads, At, Node, Next;
    AtNode(code, end, END, 0);
    EndDecodes(code, end);
    DecodesJoin(code, 1, x, end, [end], |code|);
    LeadsHere(code, end);
    Widen(code, x, end, x + [end], end);
    assert (x + [end])[..|x + [end]| - 1] == x;
    assert (x + [end])[|x|] == end;
  }

  lemma EndDecodes(code: seq<byte>, end: int)
    requires 0 <= end == |code| - 3 && code[end] == END
    ensures Decodes(code, end, [end], |code|)
  {
    assert [end][1..] == [];
    assert Decodes(code, end + 3, [], |code|);
  }

  /** Every program the compiler accepts is well formed. */
  lemma ProgramWellFormed(s: seq<byte>)
    requires CharsOk(s)
    ensures var r := ParseReg(s, 0, 1, false); r.Ok? && |Program(r.value)| < CODE_LIMIT ==> WellFormed(Program(r.value))
  {
    hide At, ParseReg, Node, Fragment, AltsCode, AltsSize, WellFormed;
    ParseRegOk(s, 0, 1, false);
    var r := ParseReg(s, 0, 1, false);
    if r.Ok? && |Program(r.value)| < CODE_LIMIT {
      var code := Program(r.value);
      ProgramParts(r.value);
      var x := AltsFragment(code, 1, r.value);
      EndsProgram(code, x, 1 + AltsSize(r.value));
    }
  }

  lemma ProgramParts(l: Alts)
    ensures var code := Program(l);
            code[0] == MAGIC && At(code, 1, AltsCode(l)) && At(code, 1 + AltsSize(l), Node(END, 0))
  {
    hide AltsCode, AltsSize, At;
    var code := Program(l);
    assert At(code, 0, code) by { AtWhole(code); }
    At3(code, 0, [MAGIC], AltsCode(l), Node(END, 0));
  }

  lemma AtWhole(code: seq<byte>)
    ensures At(code, 0, code)
  {}
}
