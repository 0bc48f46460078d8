/** The two passes of the compiler as one kind of output, and how the emitting steps
    build the code of each construct.

    The sizing pass only counts the bytes; the emitting pass writes them.  Every emitting
    routine is one operation on outputs, so that what is shown about a sequence of
    operations holds in both passes at once. */
module RegOutput {
  import opened Chars
  import opened RegSyntax
  import opened RegCode
  import opened RegLink

  datatype Output = Counting(size: nat) | Emitting(code: seq<byte>)

  /** The NULL pointer, and the pointer that stands for every address while counting. */
  const NULL: int := -1
  const REGDUMMY: int := -2

  function Emit(o: Output, x: seq<byte>): Output {
    match o
    case Counting(n) => Counting(n + |x|)
    case Emitting(code) => Emitting(code + x)
  }

  lemma EmitTwice(o: Output, x: seq<byte>, y: seq<byte>)
    ensures Emit(Emit(o, x), y) == Emit(o, x + y)
  {
    if o.Emitting? {
      assert o.code + x + y == o.code + (x + y);
    }
  }

  /** Positions counted from a later start. */
  lemma EmitPast(o: Output, x: seq<byte>, n: int)
    ensures Past(Emit(o, x), n) == Past(o, |x| + n) && Emit(o, x).Counting? == o.Counting?
  {}

  /** Node t is the last of the chain from p, and may be made to lead to val. */
  ghost predicate CanLink(o: Output, p: int, t: int, n: nat, val: int) {
    o.Emitting? ==>
      && |o.code| <= CODE_LIMIT
      && Reaches(o.code, p, t, n)
      && 0 <= t && t + 3 <= |o.code| && Next(o.code, t) == NULL
      && 0 <= val <= |o.code|
      && (if o.code[t] == BACK then val <= t else t <= val)
  }

  function Linked(o: Output, t: int, val: int): Output
    requires o.Emitting? ==> 0 <= t && t + 3 <= |o.code| && if o.code[t] == BACK then val <= t else t <= val
  {
    if o.Counting? then o else Emitting(SetLink(o.code, t, val))
  }

  /** There is room within the limit for n more bytes. */
  ghost predicate Fits(o: Output, n: nat) {
    o.Emitting? ==> |o.code| + n <= CODE_LIMIT
  }

  /** The address n bytes past the end of o. */
  function Past(o: Output, n: int): int {
    if o.Counting? then REGDUMMY else |o.code| + n
  }

  /** After x was put out, linking the end of the chain from p, node t, to val turns it into y. */
  ghost predicate Ties(o: Output, x: seq<byte>, p: int, t: int, n: nat, val: int, y: seq<byte>) {
    |x| == |y| && CanLink(Emit(o, x), p, t, n, val) && Linked(Emit(o, x), t, val) == Emit(o, y)
    && (o.Counting? <==> p == REGDUMMY)
  }

  /** Linking the tail of a fragment x that stands between pre and post. */
  lemma LinkFragment(o: Output, pre: seq<byte>, x: seq<byte>, y: seq<byte>, post: seq<byte>,
                     tail: nat, d: nat, start: int, n: nat)
    requires Relinks(x, y, tail, d) && d <= |post| && Fits(o, |pre| + |x| + |post|)
    requires o.Emitting? ==> Reaches(Emit(o, pre + x + post).code, start, |o.code| + |pre| + tail, n)
    requires o.Counting? ==> start == REGDUMMY
    ensures Ties(o, pre + x + post, start, Past(o, |pre| + tail), n, Past(o, |pre| + |x| + d), pre + y + post)
  {
    hide Reaches, Next;
    if o.Emitting? {
      ReachesStart(Emit(o, pre + x + post).code, start, |o.code| + |pre| + tail, n);
      RelinkMiddle(o.code + pre, x, y, post, tail, d);
      assert o.code + (pre + x + post) == o.code + pre + x + post;
      assert o.code + (pre + y + post) == o.code + pre + y + post;
    }
  }

  lemma ReachesStart(code: seq<byte>, p: int, t: int, n: nat)
    requires Reaches(code, p, t, n)
    ensures 0 <= p
  {}

  // ----- alternatives while they are being compiled -----

  /** The alternatives before their branches are tied to what follows: BRANCH nodes linked
      to each other, the last one as t says. */
  function RawAlts(l: Alts, t: Tail): (r: seq<byte>)
    ensures |r| == AltsSize(l)
  {
    match l
    case Last(b) => Node(BRANCH, Offset(3 + BranchSize(b), t)) + BranchCode(b, Unlinked)
    case Or(b, rest) => Node(BRANCH, 3 + BranchSize(b)) + (BranchCode(b, Unlinked) + RawAlts(rest, t))
  }

  function RawTail(l: Alts): (n: nat)
    ensures n + 3 <= AltsSize(l)
  {
    if l.Last? then 0 else 3 + BranchSize(l.b) + RawTail(l.rest)
  }

  function Join(l: Alts, m: Alts): Alts {
    match l
    case Last(b) => Or(b, m)
    case Or(b, rest) => Or(b, Join(rest, m))
  }

  lemma {:induction false} JoinFlags(l: Alts, b: Branch)
    ensures AltsWidth(Join(l, Last(b))) == (AltsWidth(l) && BranchWidth(b))
    ensures AltsSpStart(Join(l, Last(b))) == (AltsSpStart(l) || BranchSpStart(b))
    ensures AltsSize(Join(l, Last(b))) == AltsSize(l) + AltsSize(Last(b))
  {
    if l.Or? {
      JoinFlags(l.rest, b);
    }
  }

  lemma {:induction false} RawRelinks(l: Alts, d: nat)
    ensures Relinks(RawAlts(l, Unlinked), RawAlts(l, To(d)), RawTail(l), d)
  {
    hide BranchCode, BranchSize, Node, Relinks, RawAlts;
    match l
    case Last(b) =>
      RelinksNode(BRANCH, BranchCode(b, Unlinked), d);
      RawLast(b, Unlinked);
      RawLast(b, To(d));
    case Or(b, rest) =>
      RawRelinks(rest, d);
      var pre := Node(BRANCH, 3 + BranchSize(b)) + BranchCode(b, Unlinked);
      RelinksAppend(pre, RawAlts(rest, Unlinked), RawAlts(rest, To(d)), RawTail(rest), d);
      RawOrCode(b, rest, Unlinked);
      RawOrCode(b, rest, To(d));
      assert pre + RawAlts(rest, Unlinked)
               == Node(BRANCH, 3 + BranchSize(b)) + (BranchCode(b, Unlinked) + RawAlts(rest, Unlinked));
      assert pre + RawAlts(rest, To(d))
               == Node(BRANCH, 3 + BranchSize(b)) + (BranchCode(b, Unlinked) + RawAlts(rest, To(d)));
  }

  lemma RawLast(b: Branch, t: Tail)
    ensures RawAlts(Last(b), t) == Node(BRANCH, Offset(3 + BranchSize(b), t)) + BranchCode(b, Unlinked)
  {
    hide BranchCode;
  }

  lemma {:induction false} RawJoin(l: Alts, b: Branch, t: Tail)
    ensures RawAlts(Join(l, Last(b)), t) == RawAlts(l, To(0)) + RawAlts(Last(b), t)
  {
    hide BranchCode, BranchSize;
    if l.Or? {
      RawJoin(l.rest, b, t);
    }
  }

  lemma RawOrAt(code: seq<byte>, p: int, b: Branch, rest: Alts, t: Tail)
    requires At(code, p, RawAlts(Or(b, rest), t))
    ensures At(code, p, Node(BRANCH, 3 + BranchSize(b)))
    ensures At(code, p + 3 + BranchSize(b), RawAlts(rest, t))
  {
    hide At, BranchCode, BranchSize, Node, RawAlts;
    RawOrCode(b, rest, t);
    At3(code, p, Node(BRANCH, 3 + BranchSize(b)), BranchCode(b, Unlinked), RawAlts(rest, t));
  }

  lemma RawOrCode(b: Branch, rest: Alts, t: Tail)
    ensures RawAlts(Or(b, rest), t)
         == Node(BRANCH, 3 + BranchSize(b)) + (BranchCode(b, Unlinked) + RawAlts(rest, t))
  {
    hide BranchCode;
  }

  lemma {:induction false} RawReach(code: seq<byte>, p: int, l: Alts, t: Tail) returns (n: nat)
    requires At(code, p, RawAlts(l, t)) && |code| <= CODE_LIMIT
    ensures Reaches(code, p, p + RawTail(l), n)
    decreases l
  {
    hide At, RawAlts, BranchSize, Node;
    match l
    case Last(b) =>
      ReachesHere(code, p, RawAlts(l, t));
      n := 0;
    case Or(b, rest) =>
      RawOrAt(code, p, b, rest, t);
      AtFits(code, p, RawAlts(l, t));
      AtFits(code, p + 3 + BranchSize(b), RawAlts(rest, t));
      AtNode(code, p, BRANCH, 3 + BranchSize(b));
      var m := RawReach(code, p + 3 + BranchSize(b), rest, t);
      n := m + 1;
  }

  // ----- branches while they are being compiled -----

  /** The code of branch b is that of its earlier pieces, front, and of its last piece. */
  ghost predicate EndsWith(b: Branch, front: seq<byte>, last: Piece) {
    forall t: Tail :: BranchCode(b, t) == front + PieceCode(last, t)
  }

  function Snoc(b: Branch, p: Piece): Branch {
    match b
    case Nil => Cons(p, Nil)
    case Cons(q, rest) => Cons(q, Snoc(rest, p))
  }

  lemma {:induction false} SnocCode(b: Branch, p: Piece, t: Tail)
    requires b.Cons?
    ensures BranchCode(Snoc(b, p), t) == BranchCode(b, To(0)) + PieceCode(p, t)
    ensures BranchSize(Snoc(b, p)) == BranchSize(b) + PieceSize(p)
  {
    hide PieceCode, PieceSize;
    if b.tail.Cons? {
      SnocCode(b.tail, p, t);
      assert BranchCode(Snoc(b, p), t) == PieceCode(b.head, To(0)) + BranchCode(Snoc(b.tail, p), t);
    } else {
      OnePieceCode(p, t);
    }
  }

  lemma SnocEndsWith(b: Branch, p: Piece)
    ensures EndsWith(Snoc(b, p), if b.Nil? then [] else BranchCode(b, To(0)), p)
  {
    hide PieceCode, BranchCode;
    forall t: Tail
      ensures BranchCode(Snoc(b, p), t) == (if b.Nil? then [] else BranchCode(b, To(0))) + PieceCode(p, t)
    {
      if b.Nil? {
        OnePieceCode(p, t);
      } else {
        SnocCode(b, p, t);
      }
    }
  }

  lemma {:induction false} SnocFlags(b: Branch, p: Piece)
    ensures BranchWidth(Snoc(b, p)) == (BranchWidth(b) || PieceWidth(p))
    ensures BranchSpStart(Snoc(b, p)) == if b.Nil? then PieceSpStart(p) else BranchSpStart(b)
  {
    if b.Cons? {
      SnocFlags(b.tail, p);
    }
  }

  function Concat(b: Branch, c: Branch): Branch {
    match b
    case Nil => c
    case Cons(p, rest) => Cons(p, Concat(rest, c))
  }

  lemma {:induction false} ConcatNil(b: Branch)
    ensures Concat(b, Nil) == b
  {
    if b.Cons? {
      ConcatNil(b.tail);
    }
  }

  lemma {:induction false} ConcatSnoc(b: Branch, p: Piece, c: Branch)
    ensures Concat(Snoc(b, p), c) == Concat(b, Cons(p, c))
  {
    if b.Cons? {
      ConcatSnoc(b.tail, p, c);
    }
  }

  lemma {:induction false} ConcatSize(b: Branch, c: Branch)
    requires c.Cons?
    ensures BranchSize(Concat(b, c)) == (if b.Nil? then 0 else BranchSize(b)) + BranchSize(c)
  {
    hide PieceSize;
    if b.Cons? {
      ConcatSize(b.tail, c);
    }
  }

  /** A branch of which b was read already and r is the rest. */
  function After(b: Branch, r: Parsed<Branch>): Parsed<Branch> {
    match r
    case Ok(c, pos, n) => Ok(Concat(b, c), pos, n)
    case Fail(e) => Fail(e)
  }

  /** Alternatives of which l was read already, up to pos. */
  function AfterAlts(s: seq<byte>, l: Alts, pos: nat, n: NextGroup): Parsed<Alts>
    requires pos <= |s|
  {
    if Peek(s, pos) != BAR then Ok(l, pos, n)
    else
      match ParseAlts(s, pos + 1, n)
      case Ok(m, pos', n') => Ok(Join(l, m), pos', n')
      case Fail(e) => Fail(e)
  }

  lemma {:induction false} JoinLast(l: Alts, b: Branch, m: Alts)
    ensures Join(Join(l, Last(b)), m) == Join(l, Or(b, m))
  {
    if l.Or? {
      JoinLast(l.rest, b, m);
    }
  }

  /** Reading one more alternative. */
  lemma AfterBranch(s: seq<byte>, l: Alts, pos: nat, n: NextGroup)
    requires pos <= |s| && Peek(s, pos) == BAR
    ensures pos < |s|
    ensures var b := ParseBranch(s, pos + 1, n);
            AfterAlts(s, l, pos, n) == if b.Ok? then AfterAlts(s, Join(l, Last(b.value)), b.pos, b.npar)
            else Fail(b.error)
  {
    hide ParseBranch;
    var b := ParseBranch(s, pos + 1, n);
    if b.Ok? && Peek(s, b.pos) == BAR {
      var m := ParseAlts(s, b.pos + 1, b.npar);
      if m.Ok? {
        JoinLast(l, b.value, m.value);
      }
    }
  }

  lemma {:induction false} JoinSize(l: Alts, m: Alts)
    ensures AltsSize(Join(l, m)) == AltsSize(l) + AltsSize(m)
  {
    hide BranchSize;
    if l.Or? {
      JoinSize(l.rest, m);
    }
  }

  /** Whatever is still to come only makes the code longer. */
  lemma AfterSize(s: seq<byte>, l: Alts, pos: nat, n: NextGroup)
    requires pos <= |s|
    ensures var r := AfterAlts(s, l, pos, n); r.Ok? ==> AltsSize(l) <= AltsSize(r.value)
  {
    hide ParseAlts, AltsSize;
    if Peek(s, pos) == BAR {
      var m := ParseAlts(s, pos + 1, n);
      if m.Ok? {
        JoinSize(l, m.value);
      }
    }
  }

  lemma AltsFirst(s: seq<byte>, i: nat, n: NextGroup)
    requires i <= |s|
    ensures var b := ParseBranch(s, i, n);
            ParseAlts(s, i, n) == if b.Ok? then AfterAlts(s, Last(b.value), b.pos, b.npar) else Fail(b.error)
  {
    hide ParseBranch;
  }

  lemma AfterDone(s: seq<byte>, l: Alts, pos: nat, n: NextGroup)
    requires pos <= |s|
    ensures Peek(s, pos) != BAR ==> AfterAlts(s, l, pos, n) == Ok(l, pos, n)
  {}
}
