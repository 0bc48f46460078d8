/** The steps by which a repetition is compiled around its operand, shown one link at a
    time to end in the code of the piece. */
module RegBuild {
  import opened Chars
  import opened RegSyntax
  import opened RegCode
  import opened RegLink
  import opened RegOutput

  lemma EmitSize(o: Output, x: seq<byte>)
    ensures o.Emitting? ==> Emit(o, x).Emitting? && |Emit(o, x).code| == |o.code| + |x|
  {}

  lemma EmitAt(o: Output, pre: seq<byte>, x: seq<byte>, post: seq<byte>)
    requires o.Emitting?
    ensures At(Emit(o, pre + x + post).code, |o.code| + |pre|, x)
  {
    assert o.code + (pre + x + post) == (o.code + pre) + x + post;
    AtMiddle(o.code + pre, x, post);
  }

  lemma EmitParts(o: Output, x: seq<byte>, y: seq<byte>, z: seq<byte>)
    requires o.Emitting?
    ensures Emit(o, x + y + z).Emitting?
    ensures var code := Emit(o, x + y + z).code;
            At(code, |o.code|, x) && At(code, |o.code| + |x|, y) && |code| == |o.code| + |x| + |y| + |z|
  {
    EmitAt(o, x, y, z);
    assert o.code + (x + y + z) == o.code + x + (y + z);
    AtMiddle(o.code, x, y + z);
  }

  /** Links the node op after pre, the last of a chain from start, d bytes past its end. */
  lemma LinkNode(o: Output, pre: seq<byte>, op: byte, post: seq<byte>, d: nat, start: int, n: nat)
    requires op != BACK && d <= |post| && Fits(o, |pre| + 3 + |post|)
    requires if o.Emitting? then Reaches(Emit(o, pre + Node(op, 0) + post).code, start, |o.code| + |pre|, n)
             else start == REGDUMMY
    ensures Ties(o, pre + Node(op, 0) + post, start, Past(o, |pre|), n, Past(o, |pre| + 3 + d),
                 pre + Node(op, 3 + d) + post)
  {
    hide Reaches, Node, Ties, Emit, Relinks, Fits;
    RelinksEmpty(op, d);
    LinkFragment(o, pre, Node(op, 0), Node(op, 3 + d), post, 0, d, start, n);
  }

  /** Links the tail of the operand after pre d bytes past its end. */
  lemma LinkOperand(o: Output, pre: seq<byte>, a: Atom, post: seq<byte>, d: nat) returns (t: int, n: nat)
    requires d <= |post| && Fits(o, |pre| + AtomSize(a) + |post|)
    ensures Ties(o, pre + AtomCode(a, Unlinked) + post, Past(o, |pre|), t, n, Past(o, |pre| + AtomSize(a) + d),
                 pre + AtomCode(a, To(d)) + post)
  {
    hide Reaches, AtomCode, At, Ties, Emit, Relinks;
    AtomRelinks(a, d);
    EmitSize(o, pre + AtomCode(a, Unlinked) + post);
    n := 0;
    if o.Emitting? {
      EmitAt(o, pre, AtomCode(a, Unlinked), post);
      n := AtomReach(Emit(o, pre + AtomCode(a, Unlinked) + post).code, |o.code| + |pre|, a, Unlinked);
    }
    LinkFragment(o, pre, AtomCode(a, Unlinked), AtomCode(a, To(d)), post, AtomTail(a), d, Past(o, |pre|), n);
    t := Past(o, |pre| + AtomTail(a));
  }

  /** Links the BACK node after pre to the address back bytes before it. */
  lemma LinkBack(o: Output, pre: seq<byte>, back: nat, start: int, n: nat)
    requires back <= |pre| && Fits(o, |pre| + 3)
    requires if o.Emitting? then Reaches(Emit(o, pre + Node(BACK, 0)).code, start, |o.code| + |pre|, n)
             else start == REGDUMMY
    ensures Ties(o, pre + Node(BACK, 0), start, Past(o, |pre|), n, Past(o, |pre| - back), pre + Node(BACK, back))
  {
    hide Reaches;
    if o.Emitting? {
      var code := o.code + (pre + Node(BACK, 0));
      ReachesStart(code, start, |o.code| + |pre|, n);
      assert code == o.code + pre + Node(BACK, 0);
      assert SetLink(code, |o.code| + |pre|, |o.code| + |pre| - back) == o.code + pre + Node(BACK, back);
      assert o.code + pre + Node(BACK, back) == o.code + (pre + Node(BACK, back));
    }
  }

  /** From a linked operand to where it leads. */
  lemma OperandLeads(code: seq<byte>, p: int, a: Atom, d: nat) returns (n: nat)
    requires At(code, p, AtomCode(a, To(d))) && |code| <= CODE_LIMIT && p + AtomSize(a) + d + 3 <= |code|
    ensures Reaches(code, p, p + AtomSize(a) + d, n)
  {
    hide AtomCode, AtomSize;
    var k := AtomReach(code, p, a, To(d));
    AtomTailLeads(code, p, a, d);
    ReachesStep(code, p, p + AtomTail(a), k);
    n := k + 1;
  }

  /** One link from node op, linked off bytes ahead. */
  lemma NodeLeads(code: seq<byte>, start: int, p: int, op: byte, off: nat, n: nat)
    requires At(code, p, Node(op, off)) && op != BACK && 0 < off && p + off + 3 <= |code| <= CODE_LIMIT
    requires Reaches(code, start, p, n)
    ensures Reaches(code, start, p + off, n + 1)
  {
    AtNode(code, p, op, off);
    ReachesStep(code, start, p, n);
  }

  lemma Regroup(v: seq<byte>, w: seq<byte>, x: seq<byte>, y: seq<byte>, z: seq<byte>)
    ensures w + x + (y + z) == w + x + y + z
    ensures v + w + x + y + z == v + w + (x + y + z)
    ensures v + w + x + y + z == [] + v + (w + (x + y + z))
  {}

  lemma StartsHere(o: Output, pre: seq<byte>, x: seq<byte>, post: seq<byte>)
    requires o.Emitting? && |x| >= 3
    ensures Reaches(Emit(o, pre + x + post).code, |o.code| + |pre|, |o.code| + |pre|, 0)
  {}

  // ----- a choice between a body and nothing -----

  function Choice(body: seq<byte>): (r: seq<byte>)
    ensures |r| == |body| + 9
  {
    Node(BRANCH, |body| + 3) + body + Node(BRANCH, 3) + Node(NOTHING, 0)
  }

  /** BRANCH body BRANCH: the first node is led to the second. */
  lemma ChoiceTie(o: Output, body: seq<byte>)
    requires Fits(o, |body| + 6)
    ensures Ties(o, Node(BRANCH, 0) + body + Node(BRANCH, 0), Past(o, 0), Past(o, 0), 0, Past(o, |body| + 3),
                 Node(BRANCH, |body| + 3) + body + Node(BRANCH, 0))
  {
    hide Node, Reaches, Emit, Ties;
    var post := body + Node(BRANCH, 0);
    assert [] + Node(BRANCH, 0) + post == Node(BRANCH, 0) + body + Node(BRANCH, 0);
    assert [] + Node(BRANCH, |body| + 3) + post == Node(BRANCH, |body| + 3) + body + Node(BRANCH, 0);
    if o.Emitting? {
      StartsHere(o, [], Node(BRANCH, 0), post);
    }
    LinkNode(o, [], BRANCH, post, |body|, Past(o, 0), 0);
  }

  /** BRANCH body BRANCH NOTHING: the second BRANCH is led to the NOTHING. */
  lemma ChoiceEnd(o: Output, body: seq<byte>)
    requires Fits(o, |body| + 9)
    ensures Ties(o, Node(BRANCH, |body| + 3) + body + Node(BRANCH, 0) + Node(NOTHING, 0),
                 Past(o, 0), Past(o, |body| + 3), 1, Past(o, |body| + 6), Choice(body))
  {
    hide Node, Reaches, At, Ties, Emit;
    var first := Node(BRANCH, |body| + 3);
    var whole := first + body + Node(BRANCH, 0) + Node(NOTHING, 0);
    EmitSize(o, whole);
    if o.Emitting? {
      var post := body + Node(BRANCH, 0) + Node(NOTHING, 0);
      assert [] + first + post == whole;
      EmitAt(o, [], first, post);
      StartsHere(o, [], first, post);
      NodeLeads(Emit(o, whole).code, |o.code|, |o.code|, BRANCH, |body| + 3, 0);
    }
    LinkNode(o, first + body, BRANCH, Node(NOTHING, 0), 0, Past(o, 0), 1);
  }

  // ----- x* -----

  /** The loop part of x*: the operand and the BACK. */
  function StarBody(a: Atom): (r: seq<byte>)
    ensures |r| == AtomSize(a) + 3
  {
    AtomCode(a, To(0)) + Node(BACK, AtomSize(a) + 3)
  }

  /** The operand is led to the BACK after it. */
  lemma StarOperand(o: Output, a: Atom) returns (t: int, n: nat)
    requires Fits(o, AtomSize(a) + 6)
    ensures Ties(o, Node(BRANCH, 0) + AtomCode(a, Unlinked) + Node(BACK, 0), Past(o, 3), t, n, Past(o, 3 + AtomSize(a)),
                 Node(BRANCH, 0) + AtomCode(a, To(0)) + Node(BACK, 0))
  {
    hide Node, AtomCode, Ties, AtomSize;
    t, n := LinkOperand(o, Node(BRANCH, 0), a, Node(BACK, 0), 0);
  }

  /** The BACK, now the end of the operand's chain, is led to the BRANCH in front. */
  lemma StarBack(o: Output, a: Atom) returns (t: int, n: nat)
    requires Fits(o, AtomSize(a) + 6)
    ensures Ties(o, Node(BRANCH, 0) + AtomCode(a, To(0)) + Node(BACK, 0), Past(o, 3), t, n, Past(o, 0),
                 Node(BRANCH, 0) + StarBody(a))
  {
    hide Node, AtomCode, Reaches, At, Ties, AtomSize;
    n := 0;
    if o.Emitting? {
      EmitAt(o, Node(BRANCH, 0), AtomCode(a, To(0)), Node(BACK, 0));
      n := OperandLeads(Emit(o, Node(BRANCH, 0) + AtomCode(a, To(0)) + Node(BACK, 0)).code, |o.code| + 3, a, 0);
    }
    LinkBack(o, Node(BRANCH, 0) + AtomCode(a, To(0)), AtomSize(a) + 3, Past(o, 3), n);
    assert Node(BRANCH, 0) + StarBody(a) == Node(BRANCH, 0) + AtomCode(a, To(0)) + Node(BACK, AtomSize(a) + 3);
    t := Past(o, 3 + AtomSize(a));
  }

  // ----- x+ -----

  /** x+ up to its second BRANCH: the operand, the first BRANCH and the BACK. */
  function PlusLoop(a: Atom): (r: seq<byte>)
    ensures |r| == AtomSize(a) + 6
  {
    AtomCode(a, To(0)) + Node(BRANCH, 6) + Node(BACK, AtomSize(a) + 3)
  }

  /** The operand is led to the BRANCH after it. */
  lemma PlusOperand(o: Output, a: Atom) returns (t: int, n: nat)
    requires Fits(o, AtomSize(a) + 3)
    ensures Ties(o, AtomCode(a, Unlinked) + Node(BRANCH, 0), Past(o, 0), t, n, Past(o, AtomSize(a)),
                 AtomCode(a, To(0)) + Node(BRANCH, 0))
  {
    hide Node, AtomCode, Ties;
    t, n := LinkOperand(o, [], a, Node(BRANCH, 0), 0);
    assert [] + AtomCode(a, Unlinked) + Node(BRANCH, 0) == AtomCode(a, Unlinked) + Node(BRANCH, 0);
    assert [] + AtomCode(a, To(0)) + Node(BRANCH, 0) == AtomCode(a, To(0)) + Node(BRANCH, 0);
  }

  /** The BACK is led to the operand. */
  lemma PlusBack(o: Output, a: Atom)
    requires Fits(o, AtomSize(a) + 6)
    ensures var pre := AtomCode(a, To(0)) + Node(BRANCH, 0);
            Ties(o, pre + Node(BACK, 0), Past(o, AtomSize(a) + 3), Past(o, AtomSize(a) + 3), 0, Past(o, 0),
                 pre + Node(BACK, AtomSize(a) + 3))
  {
    hide Node, AtomCode, Ties, Reaches, Emit;
    var pre := AtomCode(a, To(0)) + Node(BRANCH, 0);
    if o.Emitting? {
      StartsHere(o, pre, Node(BACK, 0), []);
      assert pre + Node(BACK, 0) + [] == pre + Node(BACK, 0);
    }
    LinkBack(o, pre, AtomSize(a) + 3, Past(o, AtomSize(a) + 3), 0);
  }

  /** The first BRANCH is led to the second. */
  lemma PlusTie(o: Output, a: Atom)
    requires Fits(o, AtomSize(a) + 9)
    ensures var n := AtomSize(a);
            var pre, back := AtomCode(a, To(0)), Node(BACK, n + 3);
            Ties(o, pre + Node(BRANCH, 0) + back + Node(BRANCH, 0), Past(o, n), Past(o, n), 0, Past(o, n + 6),
                 pre + Node(BRANCH, 6) + back + Node(BRANCH, 0))
  {
    hide Node, AtomCode, Ties, Reaches, Emit;
    var n := AtomSize(a);
    var pre, back := AtomCode(a, To(0)), Node(BACK, n + 3);
    var post := back + Node(BRANCH, 0);
    assert pre + Node(BRANCH, 0) + post == pre + Node(BRANCH, 0) + back + Node(BRANCH, 0);
    assert pre + Node(BRANCH, 6) + post == pre + Node(BRANCH, 6) + back + Node(BRANCH, 0);
    if o.Emitting? {
      StartsHere(o, pre, Node(BRANCH, 0), post);
    }
    LinkNode(o, pre, BRANCH, post, 3, Past(o, n), 0);
  }

  /** The chain from the operand of x+ runs through both BRANCH nodes. */
  lemma PlusChain(o: Output, a: Atom, after: seq<byte>) returns (k: nat)
    requires o.Emitting? && |after| >= 6 && Fits(o, AtomSize(a) + 3 + |after|)
    ensures Emit(o, AtomCode(a, To(0)) + Node(BRANCH, 6) + after).Emitting?
    ensures Reaches(Emit(o, AtomCode(a, To(0)) + Node(BRANCH, 6) + after).code, |o.code|, |o.code| + AtomSize(a) + 6, k)
  {
    hide Node, AtomCode, At, Reaches, Emit, AtomSize;
    EmitParts(o, AtomCode(a, To(0)), Node(BRANCH, 6), after);
    var code := Emit(o, AtomCode(a, To(0)) + Node(BRANCH, 6) + after).code;
    k := OperandLeads(code, |o.code|, a, 0);
    NodeLeads(code, |o.code|, |o.code| + AtomSize(a), BRANCH, 6, k);
    k := k + 1;
  }

  /** The second BRANCH, now the end of the operand's chain, is led to the NOTHING. */
  lemma PlusEnd(o: Output, a: Atom) returns (k: nat)
    requires Fits(o, AtomSize(a) + 12)
    ensures var n := AtomSize(a);
            var pre := AtomCode(a, To(0)) + Node(BRANCH, 6) + Node(BACK, n + 3);
            Ties(o, pre + Node(BRANCH, 0) + Node(NOTHING, 0), Past(o, 0), Past(o, n + 6), k, Past(o, n + 9),
                 pre + Node(BRANCH, 3) + Node(NOTHING, 0))
  {
    hide Node, AtomCode, Ties, Reaches, Emit, AtomSize;
    var n := AtomSize(a);
    var code, first, back := AtomCode(a, To(0)), Node(BRANCH, 6), Node(BACK, n + 3);
    k := 0;
    if o.Emitting? {
      k := PlusChain(o, a, back + Node(BRANCH, 0) + Node(NOTHING, 0));
      Regroup(code, first, back, Node(BRANCH, 0), Node(NOTHING, 0));
    }
    LinkNode(o, code + first + back, BRANCH, Node(NOTHING, 0), 0, Past(o, 0), k);
  }

  // ----- x? -----

  /** The operand is led to the closing NOTHING. */
  lemma QuestOperand(o: Output, a: Atom) returns (t: int, k: nat)
    requires Fits(o, AtomSize(a) + 9)
    ensures Ties(o, Choice(AtomCode(a, Unlinked)), Past(o, 3), t, k, Past(o, AtomSize(a) + 6),
                 Choice(AtomCode(a, To(3))))
  {
    hide Node, AtomCode, Ties, AtomSize;
    var first, post := Node(BRANCH, AtomSize(a) + 3), Node(BRANCH, 3) + Node(NOTHING, 0);
    t, k := LinkOperand(o, first, a, post, 3);
    Regroup([], first, AtomCode(a, Unlinked), Node(BRANCH, 3), Node(NOTHING, 0));
    Regroup([], first, AtomCode(a, To(3)), Node(BRANCH, 3), Node(NOTHING, 0));
  }

  // ----- what was built is the code of the piece -----

  lemma RepeatCode(a: Atom)
    ensures PieceCode(Piece(a, One), Unlinked) == AtomCode(a, Unlinked)
    ensures var star := PieceCode(Piece(a, Star), Unlinked);
            star == if Simple(a) then Node(STAR, 0) + AtomCode(a, Unlinked) else Choice(StarBody(a))
    ensures var plus := PieceCode(Piece(a, Plus), Unlinked);
            plus == if Simple(a) then Node(PLUS, 0) + AtomCode(a, Unlinked)
            else PlusLoop(a) + Node(BRANCH, 3) + Node(NOTHING, 0)
    ensures PieceCode(Piece(a, Quest), Unlinked) == Choice(AtomCode(a, To(3)))
  {
    hide AtomCode, Node, AtomSize;
    Assoc(Node(BRANCH, AtomSize(a) + 6), AtomCode(a, To(0)), Node(BACK, AtomSize(a) + 3), Node(BRANCH, 3));
    Assoc(AtomCode(a, To(0)), Node(BRANCH, 6), Node(BACK, AtomSize(a) + 3), Node(BRANCH, 3));
    Assoc([], Node(BRANCH, AtomSize(a) + 3), AtomCode(a, To(3)), Node(BRANCH, 3));
  }

  lemma Assoc(w: seq<byte>, x: seq<byte>, y: seq<byte>, z: seq<byte>)
    ensures w + (x + (y + z)) == w + (x + y) + z == w + x + y + z
    ensures x + (y + z) == x + y + z
  {}

  // ----- branches and alternatives -----

  /** The last piece so far is led to the one after it. */
  lemma LinkPiece(o: Output, pre: seq<byte>, p: Piece, post: seq<byte>) returns (t: int, n: nat)
    requires Fits(o, |pre| + PieceSize(p) + |post|)
    ensures Ties(o, pre + PieceCode(p, Unlinked) + post, Past(o, |pre|), t, n, Past(o, |pre| + PieceSize(p)),
                 pre + PieceCode(p, To(0)) + post)
  {
    hide Reaches, PieceCode, PieceSize, At, Ties, Emit, Relinks;
    PieceRelinks(p, 0);
    EmitSize(o, pre + PieceCode(p, Unlinked) + post);
    n := 0;
    if o.Emitting? {
      EmitAt(o, pre, PieceCode(p, Unlinked), post);
      n := PieceReach(Emit(o, pre + PieceCode(p, Unlinked) + post).code, |o.code| + |pre|, p, Unlinked);
    }
    LinkFragment(o, pre, PieceCode(p, Unlinked), PieceCode(p, To(0)), post, PieceTail(p), 0, Past(o, |pre|), n);
    t := Past(o, |pre| + PieceTail(p));
  }

  /** The body of one branch is led d bytes past its end. */
  lemma LinkBranch(o: Output, pre: seq<byte>, b: Branch, post: seq<byte>, d: nat) returns (t: int, n: nat)
    requires Fits(o, |pre| + BranchSize(b) + |post|) && d <= |post|
    ensures Ties(o, pre + BranchCode(b, Unlinked) + post, Past(o, |pre|), t, n, Past(o, |pre| + BranchSize(b) + d),
                 pre + BranchCode(b, To(d)) + post)
  {
    hide Reaches, BranchCode, BranchSize, At, Ties, Emit, Relinks;
    BranchRelinks(b, d);
    EmitSize(o, pre + BranchCode(b, Unlinked) + post);
    n := 0;
    if o.Emitting? {
      EmitAt(o, pre, BranchCode(b, Unlinked), post);
      n := BranchReach(Emit(o, pre + BranchCode(b, Unlinked) + post).code, |o.code| + |pre|, b, Unlinked);
    }
    LinkFragment(o, pre, BranchCode(b, Unlinked), BranchCode(b, To(d)), post, BranchTail(b), d, Past(o, |pre|), n);
    t := Past(o, |pre| + BranchTail(b));
  }

  /** What precedes the alternatives: an OPEN node that leads to them, or nothing. */
  ghost predicate IsHead(h: seq<byte>) {
    h == [] || (|h| == 3 && h[0] != BACK && h == Node(h[0], 3))
  }

  /** The last BRANCH so far is led to what follows; the chain starts at the head. */
  lemma LinkAlts(o: Output, h: seq<byte>, l: Alts, post: seq<byte>) returns (t: int, n: nat)
    requires IsHead(h) && Fits(o, |h| + AltsSize(l) + |post|)
    ensures Ties(o, h + RawAlts(l, Unlinked) + post, Past(o, 0), t, n, Past(o, |h| + AltsSize(l)),
                 h + RawAlts(l, To(0)) + post)
  {
    hide Reaches, RawAlts, AltsSize, At, Ties, Emit, Relinks, Node;
    RawRelinks(l, 0);
    n := 0;
    if o.Emitting? {
      n := HeadReach(o, h, l, post);
    }
    LinkFragment(o, h, RawAlts(l, Unlinked), RawAlts(l, To(0)), post, RawTail(l), 0, Past(o, 0), n);
    t := Past(o, |h| + RawTail(l));
  }

  lemma HeadReach(o: Output, h: seq<byte>, l: Alts, post: seq<byte>) returns (n: nat)
    requires o.Emitting? && IsHead(h) && Fits(o, |h| + AltsSize(l) + |post|)
    ensures Emit(o, h + RawAlts(l, Unlinked) + post).Emitting?
    ensures Reaches(Emit(o, h + RawAlts(l, Unlinked) + post).code, |o.code|, |o.code| + |h| + RawTail(l), n)
  {
    hide RawAlts, AltsSize, At, Emit, Node, Reaches;
    EmitSize(o, h + RawAlts(l, Unlinked) + post);
    EmitParts(o, h, RawAlts(l, Unlinked), post);
    var code := Emit(o, h + RawAlts(l, Unlinked) + post).code;
    n := RawReach(code, |o.code| + |h|, l, Unlinked);
    if h != [] {
      FirstLeads(code, |o.code|, h[0]);
      ReachesTrans(code, |o.code|, |o.code| + 3, |o.code| + 3 + RawTail(l), 1, n);
      n := 1 + n;
    }
  }

  lemma FirstLeads(code: seq<byte>, p: int, op: byte)
    requires At(code, p, Node(op, 3)) && op != BACK && p + 6 <= |code|
    ensures Reaches(code, p, p + 3, 1)
  {
    AtNode(code, p, op, 3);
    assert Reaches(code, p + 3, p + 3, 0);
  }

  lemma OneBranch(b: Branch)
    ensures RawAlts(Last(b), Unlinked) == Node(BRANCH, 0) + BranchCode(b, Unlinked)
    ensures BranchCode(Nil, Unlinked) == Node(NOTHING, 0)
  {
    hide PieceCode, Node;
  }

  // ----- tying the branches to the node after them -----

  /** How far that went: at the OPEN; at the BRANCH after pre, with alternatives m to go; at
      the node after the alternatives; or past it. */
  datatype Stage = AtOpen | AtBranch(pre: seq<byte>, m: Alts) | AtEnder | Done

  ghost predicate StageOk(st: Stage, h: seq<byte>, l: Alts) {
    match st
    case AtOpen => h != []
    case AtBranch(pre, m) => pre + AltsCode(m) == h + AltsCode(l)
    case _ => true
  }

  function StageCode(st: Stage, h: seq<byte>, l: Alts, e: seq<byte>): seq<byte> {
    match st
    case AtOpen => h + RawAlts(l, To(0)) + e
    case AtBranch(pre, m) => pre + RawAlts(m, To(0)) + e
    case _ => h + AltsCode(l) + e
  }

  function StageOffset(st: Stage, h: seq<byte>, l: Alts): nat {
    match st
    case AtOpen => 0
    case AtBranch(pre, m) => |pre|
    case _ => |h| + AltsSize(l)
  }

  function StageRank(st: Stage, l: Alts): nat {
    match st
    case AtOpen => 2 + AltsSize(l)
    case AtBranch(_, m) => 1 + AltsSize(m)
    case AtEnder => 1
    case Done => 0
  }

  function NextStage(st: Stage, h: seq<byte>, l: Alts): Stage {
    match st
    case AtOpen => AtBranch(h, l)
    case AtBranch(pre, m) =>
      if m.Last? then AtEnder
      else AtBranch(pre + Node(BRANCH, 3 + BranchSize(m.b)) + BranchCode(m.b, To(AltsSize(m.rest))), m.rest)
    case _ => Done
  }

  function FirstStage(h: seq<byte>, l: Alts): Stage {
    if h == [] then AtBranch(h, l) else AtOpen
  }

  lemma FirstStageOk(h: seq<byte>, l: Alts, e: seq<byte>)
    ensures var st := FirstStage(h, l);
            !st.Done? && StageOk(st, h, l) && StageOffset(st, h, l) == 0
            && StageCode(st, h, l, e) == h + RawAlts(l, To(0)) + e
  {
    hide RawAlts, AltsCode;
  }

  lemma LastStage(h: seq<byte>, l: Alts, e: seq<byte>)
    ensures StageOk(Done, h, l) && StageRank(Done, l) == 0 && StageCode(Done, h, l, e) == h + AltsCode(l) + e
  {
    hide AltsCode;
  }

  lemma NextStageOk(st: Stage, h: seq<byte>, l: Alts)
    requires StageOk(st, h, l)
    ensures StageOk(NextStage(st, h, l), h, l)
    ensures StageRank(NextStage(st, h, l), l) <= StageRank(st, l)
    ensures !st.Done? ==> StageRank(NextStage(st, h, l), l) < StageRank(st, l)
  {
    hide BranchCode, AltsCode, Node, AltsSize, BranchSize;
    if st.AtBranch? {
      AltsParts(st.m);
    }
    if st.AtBranch? && st.m.Or? {
      var b, rest := st.m.b, st.m.rest;
      OrCode(b, rest);
      Assoc(st.pre, Node(BRANCH, 3 + BranchSize(b)), BranchCode(b, To(AltsSize(rest))), AltsCode(rest));
    }
  }

  /** At a BRANCH, its body is tied to the node after the alternatives. */
  lemma TieBranch(o: Output, st: Stage, h: seq<byte>, l: Alts, e: seq<byte>) returns (t: int, n: nat)
    requires st.AtBranch? && StageOk(st, h, l) && |e| >= 3 && Fits(o, |h| + AltsSize(l) + |e|)
    ensures StageOffset(st, h, l) + 6 <= |StageCode(st, h, l, e)| == |h| + AltsSize(l) + |e|
    ensures StageCode(st, h, l, e)[StageOffset(st, h, l)] == BRANCH
    ensures Ties(o, StageCode(st, h, l, e), Past(o, StageOffset(st, h, l) + 3), t, n, Past(o, |h| + AltsSize(l)),
                 StageCode(NextStage(st, h, l), h, l, e))
  {
    hide BranchCode, Node, Ties, AltsCode, RawAlts, AltsSize;
    var pre, b := st.pre, st.m.b;
    var first := Node(BRANCH, 3 + BranchSize(b));
    AltsParts(st.m);
    assert |pre| + AltsSize(st.m) == |h| + AltsSize(l) by {
      assert |pre + AltsCode(st.m)| == |h + AltsCode(l)|;
    }
    FirstByte(BRANCH, 3 + BranchSize(b), pre, RawAlts(st.m, To(0)), e);
    if st.m.Last? {
      t, n := LinkBranch(o, pre + first, b, e, 0);
      assert pre + first + BranchCode(b, Unlinked) + e == pre + RawAlts(st.m, To(0)) + e by {
        Regroup([], pre, first, BranchCode(b, Unlinked), e);
      }
      assert pre + first + BranchCode(b, To(0)) + e == pre + AltsCode(st.m) + e by {
        Regroup([], pre, first, BranchCode(b, To(0)), e);
      }
    } else {
      var rest := st.m.rest;
      t, n := LinkBranch(o, pre + first, b, RawAlts(rest, To(0)) + e, AltsSize(rest));
      Flatten(pre, first, BranchCode(b, Unlinked), RawAlts(rest, To(0)), e);
      Flatten(pre, first, BranchCode(b, To(AltsSize(rest))), RawAlts(rest, To(0)), e);
    }
  }

  lemma Flat4(w: seq<byte>, x: seq<byte>, y: seq<byte>, z: seq<byte>)
    ensures w + (x + y) + z == w + x + y + z == w + (x + y + z)
    ensures w + x + y == w + (x + y)
  {}

  lemma Flatten(v: seq<byte>, w: seq<byte>, x: seq<byte>, y: seq<byte>, z: seq<byte>)
    ensures v + w + x + (y + z) == v + (w + (x + y)) + z
    ensures v + w + x + (y + z) == v + w + x + y + z
  {}

  lemma FirstByte(op: byte, off: nat, pre: seq<byte>, x: seq<byte>, post: seq<byte>)
    requires |x| >= 3 && x[..3] == Node(op, off)
    ensures (pre + x + post)[|pre|] == op
  {
    assert x[0] == x[..3][0];
  }

  lemma AltsParts(l: Alts)
    ensures RawAlts(l, To(0))[..3] == Node(BRANCH, 3 + BranchSize(l.b))
    ensures l.Last? ==> RawAlts(l, To(0)) == Node(BRANCH, 3 + BranchSize(l.b)) + BranchCode(l.b, Unlinked)
    ensures l.Last? ==> AltsCode(l) == Node(BRANCH, 3 + BranchSize(l.b)) + BranchCode(l.b, To(0))
    ensures l.Or? ==>
              RawAlts(l, To(0))
                == Node(BRANCH, 3 + BranchSize(l.b)) + (BranchCode(l.b, Unlinked) + RawAlts(l.rest, To(0)))
    ensures AltsSize(l) == 3 + BranchSize(l.b) + if l.Or? then AltsSize(l.rest) else 0
  {
    hide BranchCode, Node, BranchSize;
    match l
    case Last(b) =>
    case Or(b, rest) => OrCode(b, rest);
  }

  /** An OPEN node is led to what follows it. */
  lemma LinkHead(o: Output, op: byte, post: seq<byte>)
    requires op != BACK && Fits(o, 3 + |post|)
    ensures Ties(o, Node(op, 0) + post, Past(o, 0), Past(o, 0), 0, Past(o, 3), Node(op, 3) + post)
  {
    hide Node, Ties, Emit, Reaches;
    if o.Emitting? {
      StartsHere(o, [], Node(op, 0), post);
    }
    LinkNode(o, [], op, post, 0, Past(o, 0), 0);
    assert [] + Node(op, 0) + post == Node(op, 0) + post;
    assert [] + Node(op, 3) + post == Node(op, 3) + post;
  }

  /** From one stage to the next, once the branch is tied: the address regnext gives. */
  lemma StageNext(code: seq<byte>, p: int, st: Stage, h: seq<byte>, l: Alts, e: seq<byte>, op: byte)
    requires IsHead(h) && StageOk(st, h, l) && e == Node(op, 0) && !st.Done?
    requires At(code, p, StageCode(NextStage(st, h, l), h, l, e)) && |code| <= CODE_LIMIT
    ensures var k := p + StageOffset(st, h, l);
            var next := NextStage(st, h, l);
            && 0 <= k && k + 3 <= |code|
            && Next(code, k) == if next.Done? then -1 else p + StageOffset(next, h, l)
  {
    hide At, Node, RawAlts, AltsCode, BranchCode, AltsSize, BranchSize;
    AtFits(code, p, StageCode(NextStage(st, h, l), h, l, e));
    match st
    case AtOpen =>
      AtSplit(code, p, h + RawAlts(l, To(0)), e);
      AtSplit(code, p, h, RawAlts(l, To(0)));
      AtNode(code, p, h[0], 3);
    case AtEnder =>
      AtSplit(code, p, h + AltsCode(l), e);
      AtNode(code, p + |h| + AltsSize(l), op, 0);
    case AtBranch(pre, m) =>
      TiedBranchAt(code, p, pre, m, h, l, e);
      AtFits(code, p + |pre|, Node(BRANCH, 3 + BranchSize(m.b)));
      assert |pre + AltsCode(m)| == |h + AltsCode(l)|;
      AltsParts(m);
      AtNode(code, p + |pre|, BRANCH, 3 + BranchSize(m.b));
  }

  lemma TiedBranchAt(code: seq<byte>, p: int, pre: seq<byte>, m: Alts, h: seq<byte>, l: Alts, e: seq<byte>)
    requires StageOk(AtBranch(pre, m), h, l)
    requires At(code, p, StageCode(NextStage(AtBranch(pre, m), h, l), h, l, e))
    ensures At(code, p + |pre|, Node(BRANCH, 3 + BranchSize(m.b)))
  {
    hide At, Node, RawAlts, AltsCode, BranchCode, AltsSize, BranchSize;
    if m.Last? {
      AtSplit(code, p, pre + AltsCode(m), e);
      AtSplit(code, p, pre, AltsCode(m));
      LastAt(code, p + |pre|, m.b);
    } else {
      var first, body := Node(BRANCH, 3 + BranchSize(m.b)), BranchCode(m.b, To(AltsSize(m.rest)));
      AtSplit(code, p, pre + first + body + RawAlts(m.rest, To(0)), e);
      AtSplit(code, p, pre + first + body, RawAlts(m.rest, To(0)));
      AtSplit(code, p, pre + first, body);
      AtSplit(code, p, pre, first);
    }
  }

  lemma StageLength(st: Stage, h: seq<byte>, l: Alts, e: seq<byte>)
    requires StageOk(st, h, l) && |e| >= 3
    ensures |StageCode(st, h, l, e)| == |h| + AltsSize(l) + |e|
    ensures StageOffset(st, h, l) + 3 <= |StageCode(st, h, l, e)|
  {
    hide RawAlts, AltsCode, AltsSize;
    if st.AtBranch? {
      assert |st.pre + AltsCode(st.m)| == |h + AltsCode(l)|;
    }
  }

  /** Away from the BRANCH nodes nothing changes. */
  lemma StageStays(st: Stage, h: seq<byte>, l: Alts, e: seq<byte>, op: byte)
    requires StageOk(st, h, l) && !st.AtBranch? && IsHead(h) && (h != [] ==> h[0] != BRANCH) && e == Node(op, 0)
             && op != BRANCH
    ensures StageCode(NextStage(st, h, l), h, l, e) == StageCode(st, h, l, e)
    ensures StageOffset(st, h, l) + 3 <= |StageCode(st, h, l, e)|
    ensures !st.Done? ==> StageCode(st, h, l, e)[StageOffset(st, h, l)] != BRANCH
  {
    hide RawAlts, AltsCode, AltsSize;
  }
}
