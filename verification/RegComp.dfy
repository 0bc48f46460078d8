/** The compiler of exp_clib.c: one scan of the pattern emits the code into one buffer,
    moving operands and setting links in place; a first scan only counts. */
module RegComp {
  import opened Chars
  import opened RegSyntax
  import opened RegCode
  import opened RegLink
  import opened RegOutput
  import opened RegBuild

  /** What a parsing routine returns: the address of its code and its flags, or NULL. */
  datatype Ret = Ptr(p: int, flags: Flags) | Null(error: Error)

  class RegCompState {
    const pattern: seq<byte>
    var regparse: nat
    var regnpar: NextGroup
    var regcode: int
    var regsize: nat
    var program: array<byte>

    constructor (pattern: seq<byte>)
      ensures this.pattern == pattern && regparse == 0 && regnpar == 1
      ensures regcode == REGDUMMY && regsize == 0 && fresh(program) && program.Length == 0
    {
      this.pattern := pattern;
      regparse, regnpar, regcode, regsize := 0, 1, REGDUMMY, 0;
      program := new byte[0];
    }

    ghost predicate Valid()
      reads this`regcode, this`program
    {
      CharsOk(pattern) && program.Length <= CODE_LIMIT
      && (regcode == REGDUMMY || 0 <= regcode <= program.Length)
    }

    /** What has been put out so far. */
    ghost function Out(): Output
      reads this`regcode, this`regsize, this`program, program
      requires Valid()
    {
      if regcode == REGDUMMY then Counting(regsize) else Emitting(program[..regcode])
    }

    /** Since o, x was put out; if bytes are written at all, the buffer has room for size
        bytes after o. */
    ghost predicate Wrote(o: Output, x: seq<byte>, size: nat)
      reads this`regcode, this`regsize, this`program, program
    {
      Valid() && Out() == Emit(o, x) && (o.Emitting? ==> |x| <= size && |o.code| + size <= program.Length)
    }

    /** n bytes after o fit in a buffer with room for size. */
    static ghost predicate Holds(o: Output, n: nat, size: nat) {
      o.Emitting? ==> n <= size
    }

    lemma WroteFits(o: Output, x: seq<byte>, size: nat)
      requires Wrote(o, x, size)
      ensures Fits(o, size) && Holds(o, |x|, size)
    {}

    /** Nothing was put out since now. */
    lemma WroteNothing()
      requires Valid()
      ensures Wrote(Out(), [], if regcode == REGDUMMY then 0 else program.Length - regcode)
    {
      if regcode != REGDUMMY {
        assert program[..regcode] + [] == program[..regcode];
      }
    }

    /** What the sizing pass has counted. */
    lemma Counted(o: Output, x: seq<byte>)
      requires Wrote(o, x, 0) && o == Counting(0)
      ensures regsize == |x| && regcode == REGDUMMY
    {}

    /** Between the passes: the space is allocated and the scan starts again. */
    method Allocate()
      requires CharsOk(pattern) && regsize <= CODE_LIMIT
      modifies this
      ensures Valid() && Out() == Emitting([]) && fresh(program) && program.Length == old(regsize)
      ensures regparse == 0 && regnpar == 1 && regcode == 0
    {
      program := new byte[regsize];
      regparse, regnpar, regcode := 0, 1, 0;
    }

    lemma WroteCounting(o: Output, x: seq<byte>, y: seq<byte>, size: nat)
      requires o.Counting? && |x| == |y|
      ensures Wrote(o, x, size) == Wrote(o, y, size)
    {}

    lemma EmittedAt(o: Output, x: seq<byte>, size: nat)
      requires Wrote(o, x, size) && o.Emitting?
      ensures 0 <= regcode <= program.Length <= CODE_LIMIT && regcode == |o.code| + |x|
      ensures At(program[..regcode], |o.code|, x)
    {
      assert program[..regcode] == o.code + x;
    }

    lemma WroteValid(o: Output, x: seq<byte>, size: nat)
      requires Wrote(o, x, size)
      ensures Valid() && (regcode == REGDUMMY <==> o.Counting?)
    {}

    /** Counting x from an earlier start. */
    lemma Rebase(o: Output, x: seq<byte>, y: seq<byte>, size: nat)
      requires |x| <= size || o.Counting?
      ensures Wrote(o, x + y, size) <==> Wrote(Emit(o, x), y, if o.Counting? then size else size - |x|)
    {
      hide Valid, Out;
      EmitTwice(o, x, y);
    }

    function Cur(): byte
      reads this
    {
      Peek(pattern, regparse)
    }

    // ----- emitting -----

    method RegC(b: byte, ghost o: Output, ghost x: seq<byte>, ghost size: nat)
      requires Wrote(o, x, size) && Holds(o, |x| + 1, size)
      modifies this`regcode, this`regsize, program
      ensures Wrote(o, x + [b], size)
    {
      if regcode != REGDUMMY {
        program[regcode] := b;
        regcode := regcode + 1;
        assert program[..regcode] == old(program[..regcode]) + [b] == o.code + (x + [b]);
      } else {
        regsize := regsize + 1;
      }
    }

    method RegNode(op: byte, ghost o: Output, ghost x: seq<byte>, ghost size: nat) returns (ret: int)
      requires Wrote(o, x, size) && Holds(o, |x| + 3, size)
      modifies this`regcode, this`regsize, program
      ensures Wrote(o, x + Node(op, 0), size) && ret == Past(o, |x|)
    {
      ret := regcode;
      if ret == REGDUMMY {
        regsize := regsize + 3;
        return;
      }
      assert old(program[..regcode]) == o.code + x;
      assert |old(program[..regcode])| == ret;
      program[ret] := op;
      program[ret + 1] := 0;
      program[ret + 2] := 0;
      regcode := ret + 3;
      assert program[..regcode] == old(program[..regcode]) + Node(op, 0) == o.code + (x + Node(op, 0));
    }

    /** Moves the operand at opnd up by three bytes and puts a node in front of it. */
    method RegInsert(op: byte, opnd: int, ghost o: Output, ghost x: seq<byte>, ghost size: nat)
      requires Wrote(o, x, size) && Holds(o, |x| + 3, size) && opnd == Past(o, 0)
      modifies this`regcode, this`regsize, program
      ensures Wrote(o, Node(op, 0) + x, size)
    {
      if regcode == REGDUMMY {
        regsize := regsize + 3;
        return;
      }
      ghost var was := program[..regcode];
      assert was == o.code + x && |was| == regcode;
      var src := regcode;
      regcode := regcode + 3;
      var dst := regcode;
      while src > opnd
        invariant opnd <= src <= |was| && dst == src + 3
        invariant forall k :: 0 <= k < src ==> program[k] == was[k]
        invariant forall k :: dst <= k < |was| + 3 ==> program[k] == was[k - 3]
        modifies program
      {
        dst, src := dst - 1, src - 1;
        program[dst] := program[src];
      }
      program[opnd] := op;
      program[opnd + 1] := 0;
      program[opnd + 2] := 0;
      Inserted(program[..regcode], o.code, x, op);
    }

    lemma Inserted(code: seq<byte>, pre: seq<byte>, x: seq<byte>, op: byte)
      requires |code| == |pre| + |x| + 3
      requires forall k :: 0 <= k < |pre| ==> code[k] == (pre + x)[k]
      requires forall k :: |pre| + 3 <= k < |code| ==> code[k] == (pre + x)[k - 3]
      requires code[|pre|] == op && code[|pre| + 1] == 0 && code[|pre| + 2] == 0
      ensures code == pre + (Node(op, 0) + x)
    {}

    // ----- linking -----

    /** The address of the next node, or NULL. */
    function RegNext(p: int): (r: int)
      reads this, program
      requires Valid()
      requires p != REGDUMMY ==> 0 <= p && p + 3 <= regcode
      ensures r == if p == REGDUMMY then NULL else Next(program[..regcode], p)
    {
      if p == REGDUMMY then NULL
      else
        var offset := program[p + 1] * 256 + program[p + 2];
        if offset == 0 then NULL
        else if program[p] == BACK then p - offset
        else p + offset
    }

    /** Sets the link at the end of the chain from p.  The ghost arguments name the last
        node of that chain, its distance, and what the code put out since o becomes. */
    method RegTail(p: int, val: int, ghost t: int, ghost n: nat,
                   ghost o: Output, ghost x: seq<byte>, ghost y: seq<byte>, ghost size: nat)
      requires Wrote(o, x, size) && Ties(o, x, p, t, n, val, y)
      modifies program
      ensures Wrote(o, y, size)
    {
      if p == REGDUMMY {
        return;
      }
      ghost var code := program[..regcode];
      var scan := p;
      ghost var k := n;
      var temp := RegNext(scan);
      while temp != NULL
        invariant 0 <= scan && scan + 3 <= regcode && temp == Next(code, scan)
        invariant Reaches(code, scan, t, k)
        invariant program[..regcode] == code
        decreases k
      {
        scan := temp;
        k := k - 1;
        temp := RegNext(scan);
      }
      assert scan == t;
      var offset := if program[scan] == BACK then scan - val else val - scan;
      program[scan + 1] := (offset / 256) % 256;
      program[scan + 2] := offset % 256;
      assert program[..regcode] == SetLink(code, t, val);
    }

    /** RegTail on the operand of a BRANCH; nothing for other nodes.  The node is k bytes
        into what was put out since o. */
    method RegOpTail(p: int, val: int, ghost t: int, ghost n: nat, ghost k: nat,
                     ghost o: Output, ghost x: seq<byte>, ghost y: seq<byte>, ghost size: nat)
      requires Wrote(o, x, size) && p == Past(o, k) && k + 3 <= |x|
      requires if x[k] == BRANCH then Ties(o, x, Past(o, k + 3), t, n, val, y) else x == y
      modifies program
      ensures Wrote(o, y, size)
    {
      hide Reaches, SetLink, Next;
      if p == REGDUMMY {
        TiesSize(o, x, y);
        return;
      }
      assert program[..regcode] == o.code + x;
      assert |program[..regcode]| == regcode;
      assert program[p] == program[..regcode][|o.code| + k] == x[k];
      if program[p] != BRANCH {
        return;
      }
      RegTail(p + 3, val, t, n, o, x, y, size);
    }

    lemma TiesSize(o: Output, x: seq<byte>, y: seq<byte>)
      ensures o.Counting? && |x| == |y| ==> Emit(o, x) == Emit(o, y)
    {}

    // ----- repetitions -----

    /** Closes a choice whose first alternative is body: a second BRANCH, with nothing as its
        alternative. */
    method OrNothing(ret: int, ghost o: Output, ghost body: seq<byte>, ghost size: nat) returns (end: int)
      requires Wrote(o, Node(BRANCH, 0) + body, size) && Holds(o, |body| + 9, size) && ret == Past(o, 0)
      modifies this`regcode, this`regsize, program
      ensures Wrote(o, Choice(body), size) && end == Past(o, |body| + 6)
    {
      hide Node, Wrote, Ties;
      ghost var x := Node(BRANCH, 0) + body;
      WroteFits(o, x, size);
      var br := RegNode(BRANCH, o, x, size);
      ChoiceTie(o, body);
      ghost var y := Node(BRANCH, |body| + 3) + body + Node(BRANCH, 0);
      RegTail(ret, br, Past(o, 0), 0, o, x + Node(BRANCH, 0), y, size);
      end := RegNode(NOTHING, o, y, size);
      ChoiceEnd(o, body);
      RegTail(ret, end, Past(o, |body| + 3), 1, o, y + Node(NOTHING, 0), Choice(body), size);
    }

    /** x* as (x&|), where & leads back. */
    method RepeatStar(ret: int, ghost o: Output, ghost a: Atom, ghost size: nat)
      requires Wrote(o, AtomCode(a, Unlinked), size) && Holds(o, AtomSize(a) + 12, size) && ret == Past(o, 0)
      modifies this`regcode, this`regsize, program
      ensures Wrote(o, Choice(StarBody(a)), size)
    {
      hide AtomCode, Node, AtomSize, Wrote, Ties, Emit, Out, Valid, StarBody;
      ghost var branch, x := Node(BRANCH, 0), AtomCode(a, Unlinked);
      WroteFits(o, x, size);
      FirstOp(BRANCH, 0, x, Node(BACK, 0));
      FirstOp(BRANCH, 0, AtomCode(a, To(0)), Node(BACK, 0));
      RegInsert(BRANCH, ret, o, x, size);
      var back := RegNode(BACK, o, branch + x, size);
      ghost var t, n := StarOperand(o, a);
      RegOpTail(ret, back, t, n, 0, o, branch + x + Node(BACK, 0), branch + AtomCode(a, To(0)) + Node(BACK, 0), size);
      t, n := StarBack(o, a);
      RegOpTail(ret, ret, t, n, 0, o, branch + AtomCode(a, To(0)) + Node(BACK, 0), branch + StarBody(a), size);
      var end := OrNothing(ret, o, StarBody(a), size);
    }

    /** x+ as x(&|), where & leads back. */
    method RepeatPlus(ret: int, ghost o: Output, ghost a: Atom, ghost size: nat)
      requires Wrote(o, AtomCode(a, Unlinked), size) && Holds(o, AtomSize(a) + 12, size) && ret == Past(o, 0)
      modifies this`regcode, this`regsize, program
      ensures Wrote(o, PlusLoop(a) + Node(BRANCH, 3) + Node(NOTHING, 0), size)
    {
      hide AtomCode, Node, Wrote, Ties, AtomSize, Emit, Out, Valid;
      ghost var x, y, branch := AtomCode(a, Unlinked), AtomCode(a, To(0)), Node(BRANCH, 0);
      ghost var linkedBack := Node(BACK, AtomSize(a) + 3);
      WroteFits(o, x, size);
      var next := RegNode(BRANCH, o, x, size);
      ghost var t, n := PlusOperand(o, a);
      RegTail(ret, next, t, n, o, x + branch, y + branch, size);
      var back := RegNode(BACK, o, y + branch, size);
      PlusBack(o, a);
      RegTail(back, ret, Past(o, AtomSize(a) + 3), 0, o, y + branch + Node(BACK, 0), y + branch + linkedBack, size);
      RepeatPlusEnd(ret, next, o, a, size);
    }

    method RepeatPlusEnd(ret: int, next: int, ghost o: Output, ghost a: Atom, ghost size: nat)
      requires Wrote(o, AtomCode(a, To(0)) + Node(BRANCH, 0) + Node(BACK, AtomSize(a) + 3), size)
      requires Holds(o, AtomSize(a) + 12, size) && ret == Past(o, 0) && next == Past(o, AtomSize(a))
      modifies this`regcode, this`regsize, program
      ensures Wrote(o, PlusLoop(a) + Node(BRANCH, 3) + Node(NOTHING, 0), size)
    {
      hide AtomCode, Node, Wrote, Ties, AtomSize, Emit, Out, Valid;
      ghost var y, branch := AtomCode(a, To(0)), Node(BRANCH, 0);
      ghost var back := Node(BACK, AtomSize(a) + 3);
      WroteFits(o, y + branch + back, size);
      var br := RegNode(BRANCH, o, y + branch + back, size);
      PlusTie(o, a);
      RegTail(next, br, Past(o, AtomSize(a)), 0, o, y + branch + back + branch, PlusLoop(a) + branch, size);
      var end := RegNode(NOTHING, o, PlusLoop(a) + branch, size);
      ghost var k := PlusEnd(o, a);
      RegTail(ret, end, Past(o, AtomSize(a) + 6), k, o, PlusLoop(a) + branch + Node(NOTHING, 0),
              PlusLoop(a) + Node(BRANCH, 3) + Node(NOTHING, 0), size);
    }

    /** x? as (x|). */
    method RepeatQuest(ret: int, ghost o: Output, ghost a: Atom, ghost size: nat)
      requires Wrote(o, AtomCode(a, Unlinked), size) && Holds(o, AtomSize(a) + 9, size) && ret == Past(o, 0)
      modifies this`regcode, this`regsize, program
      ensures Wrote(o, Choice(AtomCode(a, To(3))), size)
    {
      hide AtomCode, Node, AtomSize, Wrote, Ties, Emit, Out, Valid, Choice;
      ghost var x := AtomCode(a, Unlinked);
      WroteFits(o, x, size);
      FirstChoice(x);
      RegInsert(BRANCH, ret, o, x, size);
      var next := OrNothing(ret, o, x, size);
      ghost var t, n := QuestOperand(o, a);
      RegOpTail(ret, next, t, n, 0, o, Choice(x), Choice(AtomCode(a, To(3))), size);
    }

    lemma FirstOp(op: byte, off: nat, x: seq<byte>, y: seq<byte>)
      ensures (Node(op, off) + x + y)[0] == op
    {}

    lemma FirstChoice(x: seq<byte>)
      ensures Choice(x)[0] == BRANCH
    {}

    /** Puts the operator around the operand just emitted. */
    method RegRepeat(op: byte, ret: int, simple: bool, ghost o: Output, ghost a: Atom, ghost size: nat)
      requires IsMult(op) && simple == Simple(a)
      requires Wrote(o, AtomCode(a, Unlinked), size) && Holds(o, PieceSize(Piece(a, RepOf(op))), size)
               && ret == Past(o, 0)
      modifies this`regcode, this`regsize, program
      ensures Wrote(o, PieceCode(Piece(a, RepOf(op)), Unlinked), size)
    {
      hide Wrote, AtomCode, Node, Choice, StarBody, PlusLoop, PieceCode, AtomSize;
      RepeatCode(a);
      if op == STAR_CHAR && simple {
        RegInsert(STAR, ret, o, AtomCode(a, Unlinked), size);
      } else if op == STAR_CHAR {
        RepeatStar(ret, o, a, size);
      } else if op == PLUS_CHAR && simple {
        RegInsert(PLUS, ret, o, AtomCode(a, Unlinked), size);
      } else if op == PLUS_CHAR {
        RepeatPlus(ret, o, a, size);
      } else if op == QUERY {
        RepeatQuest(ret, o, a, size);
      }
    }

    // ----- parsing and emitting -----

    /** What a routine that reads one construct returns. */
    ghost predicate Returns<T>(ret: Ret, r: Parsed<T>, flags: Flags, p: int)
      reads this
    {
      match r
      case Fail(e) => ret == Null(e)
      case Ok(_, pos, n) => ret == Ptr(p, flags) && regparse == pos && regnpar == n
    }

    /** A piece: an atom and what repeats it. */
    method RegPiece(ghost o: Output, ghost x: seq<byte>, ghost size: nat) returns (ret: Ret)
      requires Wrote(o, x, size) && regparse <= |pattern|
      requires var r := ParsePiece(pattern, regparse, regnpar);
               o.Emitting? ==> r.Ok? && |x| + PieceSize(r.value) <= size
      modifies this`regparse, this`regnpar, this`regcode, this`regsize, program
      ensures var r := old(ParsePiece(pattern, regparse, regnpar));
              if r.Ok? then Wrote(o, x + PieceCode(r.value, Unlinked), size)
                            && Returns(ret, r, PieceFlags(r.value), Past(o, |x|))
              else ret == Null(r.error)
      decreases |pattern| - regparse, 1
    {
      hide Wrote, Out, Valid, AtomCode, AtomSize, PieceCode, Node, Choice, StarBody, ParseAtom, ParseReg, Emit;
      ghost var p := ParsePiece(pattern, regparse, regnpar);
      ret := RegAtom(o, x, size);
      if ret.Null? {
        return;
      }
      ghost var a := ParseAtom(pattern, old(regparse), old(regnpar)).value;
      RepeatCode(a);
      var op := Cur();
      if !IsMult(op) {
        return;
      }
      var flags := ret.flags;
      if !flags.hasWidth && op != QUERY {
        return Null(OperandCouldBeEmpty);
      }
      ret := Ptr(ret.p, if op != PLUS_CHAR then Flags(false, false, true) else Flags(true, false, false));
      Rebase(o, x, AtomCode(a, Unlinked), size);
      EmitPast(o, x, 0);
      RegRepeat(op, ret.p, flags.simple, Emit(o, x), a, if o.Counting? then size else size - |x|);
      Rebase(o, x, PieceCode(Piece(a, RepOf(op)), Unlinked), size);
      regparse := regparse + 1;
      if IsMult(Cur()) {
        return Null(NestedRepeat);
      }
    }

    /** An atom; a run of ordinary characters is taken as one literal. */
    method RegAtom(ghost o: Output, ghost x: seq<byte>, ghost size: nat) returns (ret: Ret)
      requires Wrote(o, x, size) && regparse <= |pattern|
      requires var r := ParseAtom(pattern, regparse, regnpar);
               o.Emitting? ==> r.Ok? && |x| + AtomSize(r.value) <= size
      modifies this`regparse, this`regnpar, this`regcode, this`regsize, program
      ensures var r := old(ParseAtom(pattern, regparse, regnpar));
              if r.Ok? then Wrote(o, x + AtomCode(r.value, Unlinked), size)
                            && Returns(ret, r, AtomFlags(r.value), Past(o, |x|))
              else ret == Null(r.error)
      decreases |pattern| - regparse, 0
    {
      hide Wrote, Out, Valid, Node, Emit, AtomCode, ParseReg, ParseClass, LiteralLength, AltsSize;
      ghost var i, r := regparse, ParseAtom(pattern, regparse, regnpar);
      if r.Ok? {
        AtomUnlinked(r.value);
      }
      var c := Cur();
      regparse := regparse + 1;
      var p;
      if c == CARET {
        p := RegNode(BOL, o, x, size);
        ret := Ptr(p, Flags(false, false, false));
      } else if c == DOLLAR {
        p := RegNode(EOL, o, x, size);
        ret := Ptr(p, Flags(false, false, false));
      } else if c == DOT {
        p := RegNode(ANY, o, x, size);
        ret := Ptr(p, Flags(true, true, false));
      } else if c == LBRACKET {
        ret := RegClass(o, x, size);
      } else if c == LPAREN {
        ret := Reg(true, o, x, size);
        if ret.Ptr? {
          ret := Ptr(ret.p, Flags(ret.flags.hasWidth, false, ret.flags.spStart));
        }
      } else if c == NUL || c == BAR || c == RPAREN {
        ret := Null(InternalUrp);
      } else if c == QUERY || c == PLUS_CHAR || c == STAR_CHAR {
        ret := Null(FollowsNothing);
      } else if c == BACKSLASH {
        if Cur() == NUL {
          return Null(TrailingBackslash);
        }
        p := RegNode(EXACTLY, o, x, size);
        RegC(Cur(), o, x + Node(EXACTLY, 0), size);
        regparse := regparse + 1;
        RegC(0, o, x + Node(EXACTLY, 0) + [pattern[i + 1]], size);
        ret := Ptr(p, Flags(true, true, false));
      } else {
        regparse := regparse - 1;
        ret := RegLiteral(o, x, size);
      }
    }

    /** One alternative: a BRANCH node and its pieces, each linked to the next. */
    method RegBranch(ghost o: Output, ghost x: seq<byte>, ghost size: nat) returns (ret: Ret)
      requires Wrote(o, x, size) && regparse <= |pattern|
      requires var r := ParseBranch(pattern, regparse, regnpar);
               o.Emitting? ==> r.Ok? && |x| + 3 + BranchSize(r.value) <= size
      modifies this`regparse, this`regnpar, this`regcode, this`regsize, program
      ensures var r := old(ParseBranch(pattern, regparse, regnpar));
              if r.Ok? then Wrote(o, x + RawAlts(Last(r.value), Unlinked), size)
                            && Returns(ret, r, BranchFlags(r.value), Past(o, |x|))
              else ret == Null(r.error)
      decreases |pattern| - regparse, 2
    {
      hide Wrote, Out, Valid, Emit, Node, PieceCode, BranchCode, PieceSize, BranchSize, ParsePiece, Ties, RawAlts;
      ghost var r := ParseBranch(pattern, regparse, regnpar);
      WroteFits(o, x, size);
      var branch := RegNode(BRANCH, o, x, size);
      ghost var y, done := x + Node(BRANCH, 0), Nil;
      ghost var front: seq<byte>, last := [], Piece(Bol, One);
      var chain := NULL;
      var flags := Flags(false, false, false);
      while !EndsBranch(Cur())
        invariant regparse <= |pattern| && r == After(done, ParseBranch(pattern, regparse, regnpar))
        invariant chain == NULL <==> done.Nil?
        invariant done.Nil? ==> Wrote(o, y, size)
        invariant done.Cons? ==> EndsWith(done, front, last) && Wrote(o, y + BranchCode(done, Unlinked), size)
        invariant done.Cons? ==> chain == Past(o, |y| + |front|)
        invariant flags == BranchFlags(done)
        decreases |pattern| - regparse
      {
        ghost var rest, piece := ParseBranch(pattern, regparse, regnpar), ParsePiece(pattern, regparse, regnpar);
        ghost var z := if done.Nil? then y else y + BranchCode(done, Unlinked);
        if rest.Ok? {
          ConcatSize(done, rest.value);
          HeadSize(rest.value);
          ConcatSnoc(done, rest.value.head, rest.value.tail);
        }
        var latest := RegPiece(o, z, size);
        if latest.Null? {
          return latest;
        }
        ghost var p := piece.value;
        if chain == NULL {
          flags := Flags(latest.flags.hasWidth, false, latest.flags.spStart);
        } else {
          flags := Flags(flags.hasWidth || latest.flags.hasWidth, false, flags.spStart);
          RegLinkPiece(chain, latest.p, o, y, done, front, last, p, size);
        }
        OnePieceCode(p, Unlinked);
        SnocEndsWith(done, p);
        SnocFlags(done, p);
        front, last := if done.Nil? then [] else BranchCode(done, To(0)), p;
        chain := latest.p;
        done := Snoc(done, p);
      }
      if chain == NULL {
        var nothing := RegNode(NOTHING, o, y, size);
      }
      ConcatNil(done);
      OneBranch(done);
      Flat4(x, Node(BRANCH, 0), BranchCode(done, Unlinked), []);
      ret := Ptr(branch, flags);
    }

    /** The last piece is led to the one just emitted. */
    method RegLinkPiece(chain: int, latest: int, ghost o: Output, ghost y: seq<byte>, ghost done: Branch,
                        ghost front: seq<byte>, ghost last: Piece, ghost p: Piece, ghost size: nat)
      requires Wrote(o, y + BranchCode(done, Unlinked) + PieceCode(p, Unlinked), size)
      requires done.Cons? && EndsWith(done, front, last)
      requires chain == Past(o, |y| + |front|) && latest == Past(o, |y| + BranchSize(done))
      modifies program
      ensures Wrote(o, y + BranchCode(Snoc(done, p), Unlinked), size)
    {
      hide Wrote, Out, Valid, Emit, PieceCode, BranchCode, PieceSize, BranchSize, Ties;
      WroteFits(o, y + BranchCode(done, Unlinked) + PieceCode(p, Unlinked), size);
      SnocCode(done, p, Unlinked);
      ghost var unlinked, linked := PieceCode(last, Unlinked), PieceCode(last, To(0));
      assert BranchCode(done, Unlinked) == front + unlinked && BranchCode(done, To(0)) == front + linked;
      Flat4(y, front, unlinked, PieceCode(p, Unlinked));
      Flat4(y, front, linked, PieceCode(p, Unlinked));
      ghost var t, n := LinkPiece(o, y + front, last, PieceCode(p, Unlinked));
      RegTail(chain, latest, t, n, o, y + front + unlinked + PieceCode(p, Unlinked),
              y + front + linked + PieceCode(p, Unlinked), size);
    }

    lemma HeadSize(b: Branch)
      requires b.Cons?
      ensures PieceSize(b.head) <= BranchSize(b)
    {}

    /** The alternatives of a pattern, linked to each other and to the OPEN before them. */
    method RegAlternatives(start: int, ghost o: Output, ghost op: byte, ghost h: seq<byte>, ghost size: nat)
      returns (ret: Ret)
      requires h == (if start == NULL then [] else Node(op, 3)) && IsHead(h) && op != BACK
      requires start == NULL || start == Past(o, 0)
      requires Wrote(o, if start == NULL then [] else Node(op, 0), size) && regparse <= |pattern|
      requires var r := ParseAlts(pattern, regparse, regnpar);
               o.Emitting? ==> r.Ok? && |h| + AltsSize(r.value) <= size
      modifies this`regparse, this`regnpar, this`regcode, this`regsize, program
      ensures var r := old(ParseAlts(pattern, regparse, regnpar));
              if r.Ok? then Wrote(o, h + RawAlts(r.value, Unlinked), size)
                            && Returns(ret, r, AltsFlags(r.value), Past(o, 0))
              else ret == Null(r.error)
      decreases |pattern| - regparse, 3
    {
      hide Wrote, Out, Valid, Emit, Node, RawAlts, ParseBranch, Ties, AltsSize, IsHead, AfterAlts, BranchSize;
      ghost var r := ParseAlts(pattern, regparse, regnpar);
      ghost var first := ParseBranch(pattern, regparse, regnpar);
      ghost var x := if start == NULL then [] else Node(op, 0);
      WroteFits(o, x, size);
      AltsFirst(pattern, regparse, regnpar);
      if first.Ok? {
        AfterSize(pattern, Last(first.value), first.pos, first.npar);
        LastSize(first.value);
      }
      var br := RegBranch(o, x, size);
      if br.Null? {
        return br;
      }
      ghost var done := Last(first.value);
      ret := br;
      if start != NULL {
        LinkHead(o, op, RawAlts(done, Unlinked));
        RegTail(start, br.p, Past(o, 0), 0, o, Node(op, 0) + RawAlts(done, Unlinked),
                Node(op, 3) + RawAlts(done, Unlinked), size);
        ret := Ptr(start, br.flags);
      }
      while Cur() == BAR
        invariant regparse <= |pattern| && r == AfterAlts(pattern, done, regparse, regnpar)
        invariant Wrote(o, h + RawAlts(done, Unlinked), size)
        invariant ret == Ptr(Past(o, 0), AltsFlags(done))
        decreases |pattern| - regparse
      {
        AfterBranch(pattern, done, regparse, regnpar);
        regparse := regparse + 1;
        ghost var next := ParseBranch(pattern, regparse, regnpar);
        if next.Ok? {
          ghost var b := next.value;
          AfterSize(pattern, Join(done, Last(b)), next.pos, next.npar);
          JoinFlags(done, b);
          LastSize(b);
        }
        ghost var z := h + RawAlts(done, Unlinked);
        br := RegBranch(o, z, size);
        if br.Null? {
          return br;
        }
        RegLinkAlts(ret.p, br.p, o, h, done, next.value, size);
        ret := Ptr(ret.p, Flags(ret.flags.hasWidth && br.flags.hasWidth, false, ret.flags.spStart || br.flags.spStart));
        done := Join(done, Last(next.value));
      }
      AfterDone(pattern, done, regparse, regnpar);
    }

    /** The last alternative is led to the one just emitted. */
    method RegLinkAlts(ret: int, br: int, ghost o: Output, ghost h: seq<byte>, ghost done: Alts, ghost b: Branch,
                       ghost size: nat)
      requires Wrote(o, h + RawAlts(done, Unlinked) + RawAlts(Last(b), Unlinked), size) && IsHead(h)
      requires ret == Past(o, 0) && br == Past(o, |h| + AltsSize(done))
      modifies program
      ensures Wrote(o, h + RawAlts(Join(done, Last(b)), Unlinked), size)
    {
      hide Wrote, Out, Valid, Emit, Node, RawAlts, Ties, AltsSize, IsHead;
      ghost var x, post := h + RawAlts(done, Unlinked), RawAlts(Last(b), Unlinked);
      WroteFits(o, x + post, size);
      RawJoin(done, b, Unlinked);
      ghost var t, n := LinkAlts(o, h, done, post);
      RegTail(ret, br, t, n, o, x + post, h + RawAlts(done, To(0)) + post, size);
      Flat4(h, RawAlts(done, To(0)), post, []);
    }

    lemma LastSize(b: Branch)
      ensures AltsSize(Last(b)) == 3 + BranchSize(b)
    {}

    /** Hooks the tails of the branches to the node after them. */
    method RegTieBranches(ret: int, ender: int, ghost o: Output, ghost h: seq<byte>, ghost l: Alts, ghost op: byte,
                          ghost size: nat)
      requires Wrote(o, h + RawAlts(l, To(0)) + Node(op, 0), size) && IsHead(h) && (h != [] ==> h[0] != BRANCH)
      requires ret == Past(o, 0) && ender == Past(o, |h| + AltsSize(l)) && op != BRANCH
      modifies program
      ensures Wrote(o, h + AltsCode(l) + Node(op, 0), size)
    {
      hide Wrote, Out, Valid, Emit, Node, RawAlts, AltsCode, AltsSize, Ties, At, Next,
           IsHead, FirstStage, NextStage, StageOk, StageCode, StageOffset, StageRank;
      ghost var e := Node(op, 0);
      ghost var st := FirstStage(h, l);
      FirstStageOk(h, l, e);
      LastStage(h, l, e);
      WroteFits(o, h + RawAlts(l, To(0)) + e, size);
      var br := ret;
      while br != NULL
        invariant StageOk(st, h, l) && Wrote(o, StageCode(st, h, l, e), size)
        invariant st.Done? <==> br == NULL
        invariant br != NULL ==> br == Past(o, StageOffset(st, h, l))
        decreases StageRank(st, l)
      {
        ghost var t, n, x, y := 0, 0, StageCode(st, h, l, e), StageCode(NextStage(st, h, l), h, l, e);
        NextStageOk(st, h, l);
        StageLength(st, h, l, e);
        if st.AtBranch? {
          t, n := TieBranch(o, st, h, l, e);
        } else {
          StageStays(st, h, l, e, op);
        }
        RegOpTail(br, ender, t, n, StageOffset(st, h, l), o, x, y, size);
        WroteValid(o, y, size);
        if br != REGDUMMY {
          EmittedAt(o, y, size);
          StageNext(program[..regcode], |o.code|, st, h, l, e, op);
        } else {
          StageLength(Done, h, l, e);
          StageLength(NextStage(st, h, l), h, l, e);
          WroteCounting(o, y, StageCode(Done, h, l, e), size);
        }
        br := RegNext(br);
        st := if o.Counting? then Done else NextStage(st, h, l);
      }
    }

    /** A pattern, or (paren) a parenthesized one from just after its parenthesis. */
    method Reg(paren: bool, ghost o: Output, ghost x: seq<byte>, ghost size: nat) returns (ret: Ret)
      requires Wrote(o, x, size) && regparse <= |pattern|
      requires var r := ParseReg(pattern, regparse, regnpar, paren);
               o.Emitting? ==> r.Ok? && |x| + |RegBytes(paren, regnpar, r.value)| <= size
      modifies this`regparse, this`regnpar, this`regcode, this`regsize, program
      ensures var r := old(ParseReg(pattern, regparse, regnpar, paren));
              if r.Ok? then Wrote(o, x + RegBytes(paren, old(regnpar), r.value), size)
                            && Returns(ret, r, AltsFlags(r.value), Past(o, |x|))
              else ret == Null(r.error)
      decreases |pattern| - regparse, 4
    {
      hide Wrote, Out, Valid, Emit, Node, RawAlts, AltsCode, AltsSize, RegBytes, ParseAlts;
      ghost var g, i := regnpar, regparse;
      if paren && regnpar >= NSUBEXP {
        return Null(TooManyParens);
      }
      var op := if paren then OPEN + regnpar else END;
      var enderOp := if paren then CLOSE + regnpar else END;
      ghost var h := if paren then Node(op, 3) else [];
      ghost var o1, size1 := Emit(o, x), if o.Counting? then size else size - |x|;
      WroteFits(o, x, size);
      assert x + [] == x;
      Rebase(o, x, [], size);
      EmitPast(o, x, 0);
      HeadIs(op);
      ghost var r := ParseAlts(pattern, regparse, if paren then regnpar + 1 else regnpar);
      if r.Ok? {
        RegBytesIs(paren, g, r.value);
      }
      var start := NULL;
      if paren {
        regnpar := regnpar + 1;
        start := RegNode(op, o1, [], size1);
        assert [] + Node(op, 0) == Node(op, 0);
      }
      ret := RegAlternatives(start, o1, op, h, size1);
      if ret.Null? {
        return;
      }
      RegEnd(ret.p, enderOp, o1, h, r.value, size1);
      Rebase(o, x, h + AltsCode(r.value) + Node(enderOp, 0), size);
      var c := Cur();
      if paren {
        regparse := regparse + 1;
        if c != RPAREN {
          return Null(UnmatchedParens);
        }
      } else if c != NUL {
        return Null(if c == RPAREN then UnmatchedParens else JunkOnEnd);
      }
    }

    /** The node after the alternatives, and all links to it. */
    method RegEnd(ret: int, op: byte, ghost o: Output, ghost h: seq<byte>, ghost l: Alts, ghost size: nat)
      requires Wrote(o, h + RawAlts(l, Unlinked), size) && Holds(o, |h| + AltsSize(l) + 3, size)
      requires IsHead(h) && (h != [] ==> h[0] != BRANCH) && op != BRANCH && ret == Past(o, 0)
      modifies this`regcode, this`regsize, program
      ensures Wrote(o, h + AltsCode(l) + Node(op, 0), size)
    {
      hide Wrote, Out, Valid, Emit, Node, RawAlts, AltsCode, AltsSize, Ties, IsHead;
      WroteFits(o, h + RawAlts(l, Unlinked), size);
      var ender := RegNode(op, o, h + RawAlts(l, Unlinked), size);
      ghost var t, n := LinkAlts(o, h, l, Node(op, 0));
      RegTail(ret, ender, t, n, o, h + RawAlts(l, Unlinked) + Node(op, 0), h + RawAlts(l, To(0)) + Node(op, 0), size);
      RegTieBranches(ret, ender, o, h, l, op, size);
    }

    /** A literal: the longest run of ordinary characters, less the last one when that is
        what a repetition applies to. */
    method RegLiteral(ghost o: Output, ghost x: seq<byte>, ghost size: nat) returns (ret: Ret)
      requires Wrote(o, x, size) && regparse < |pattern| && !IsMeta(pattern[regparse])
      requires Holds(o, |x| + LiteralLength(pattern, regparse) + 4, size)
      modifies this`regparse, this`regcode, this`regsize, program
      ensures var i := old(regparse);
              var n := LiteralLength(pattern, i);
              && regparse == i + n
              && Wrote(o, x + (Node(EXACTLY, 0) + (pattern[i..i + n] + [NUL])), size)
              && ret == Ptr(Past(o, |x|), Flags(true, n == 1, false))
    {
      hide Wrote, Out, Valid, Node, Emit;
      ghost var i := regparse;
      var len := StrCSpn();
      var ender := Peek(pattern, regparse + len);
      if len > 1 && IsMult(ender) {
        len := len - 1;
      }
      var p := RegNode(EXACTLY, o, x, size);
      ret := Ptr(p, Flags(true, len == 1, false));
      ghost var n := len;
      ghost var y := x + Node(EXACTLY, 0);
      assert y + pattern[i..i] == y;
      while len > 0
        invariant 0 <= len <= n && regparse == i + n - len && i + n <= |pattern|
        invariant Wrote(o, y + pattern[i..regparse], size)
      {
        RegC(pattern[regparse], o, y + pattern[i..regparse], size);
        assert y + pattern[i..regparse] + [pattern[regparse]] == y + pattern[i..regparse + 1];
        regparse := regparse + 1;
        len := len - 1;
      }
      RegC(0, o, y + pattern[i..i + n], size);
      assert y + pattern[i..i + n] + [0] == x + (Node(EXACTLY, 0) + (pattern[i..i + n] + [NUL]));
    }

    /** strcspn(regparse, META) */
    method StrCSpn() returns (len: nat)
      requires regparse <= |pattern|
      ensures len == Span(pattern, regparse)
    {
      len := 0;
      while regparse + len < |pattern| && !IsMeta(pattern[regparse + len])
        invariant regparse + len <= |pattern|
        invariant Span(pattern, regparse) == len + Span(pattern, regparse + len)
      {
        len := len + 1;
      }
    }

    /** A bracket class, from just after its opening bracket. */
    method RegClass(ghost o: Output, ghost x: seq<byte>, ghost size: nat) returns (ret: Ret)
      requires Wrote(o, x, size) && 0 < regparse <= |pattern|
      requires var r := ParseClass(pattern, regparse, regnpar);
               o.Emitting? ==> r.Ok? && |x| + 4 + |r.value.cs| <= size
      modifies this`regparse, this`regcode, this`regsize, program
      ensures var r := old(ParseClass(pattern, regparse, regnpar));
              if r.Ok? then Wrote(o, x + (Node(LeafOp(r.value), 0) + Operand(r.value)), size)
                            && Returns(ret, r, Flags(true, true, false), Past(o, |x|))
              else ret == Null(r.error)
    {
      hide Wrote, Out, Valid, Node, Emit, ParseClassBody, Past;
      ghost var r := ParseClass(pattern, regparse, regnpar);
      var op := if Cur() == CARET then ANYBUT else ANYOF;
      var p := RegNode(op, o, x, size);
      if op == ANYBUT {
        regparse := regparse + 1;
      }
      ghost var y := x + Node(op, 0);
      ghost var acc: seq<byte> := [];
      assert y + acc == y;
      if Cur() == RBRACKET || Cur() == MINUS {
        RegC(Cur(), o, y, size);
        acc := [Cur()];
        regparse := regparse + 1;
      }
      var ok;
      ok, acc := RegClassBody(o, y, acc, size);
      if !ok {
        return Null(InvalidRange);
      }
      RegC(0, o, y + acc, size);
      if Cur() != RBRACKET {
        return Null(UnmatchedBracket);
      }
      ClassCode(x, Node(op, 0), acc);
      regparse := regparse + 1;
      ret := Ptr(p, Flags(true, true, false));
    }

    /** The characters of a class up to its closing bracket, ranges spelled out; false for an
        invalid range. */
    method RegClassBody(ghost o: Output, ghost y: seq<byte>, ghost acc0: seq<byte>, ghost size: nat)
      returns (ok: bool, ghost acc: seq<byte>)
      requires Wrote(o, y + acc0, size) && 0 < regparse <= |pattern|
      requires var r := ParseClassBody(pattern, regparse, acc0, regnpar);
               o.Emitting? ==> r.Ok? && |y| + |r.value| <= size
      modifies this`regparse, this`regcode, this`regsize, program
      ensures var r := old(ParseClassBody(pattern, regparse, acc0, regnpar));
              if ok then
                && 0 < regparse <= |pattern| && Wrote(o, y + acc, size)
                && r == (if Cur() == RBRACKET then Ok(acc, regparse + 1, regnpar) else Fail(UnmatchedBracket))
              else r == Fail(InvalidRange)
    {
      hide Wrote, Out, Valid, Emit;
      acc := acc0;
      ghost var r := ParseClassBody(pattern, regparse, acc0, regnpar);
      while Cur() != NUL && Cur() != RBRACKET
        invariant 0 < regparse <= |pattern| && Wrote(o, y + acc, size)
        invariant r == ParseClassBody(pattern, regparse, acc, regnpar)
        decreases |pattern| - regparse
      {
        if Cur() == MINUS {
          regparse := regparse + 1;
          if Cur() == RBRACKET || Cur() == NUL {
            RegC(MINUS, o, y + acc, size);
            assert y + acc + [MINUS] == y + (acc + [MINUS]);
            acc := acc + [MINUS];
          } else {
            var clss := pattern[regparse - 2] + 1;
            var classend := Cur();
            if clss > classend + 1 {
              return false, acc;
            }
            RegRange(clss, classend, o, y + acc, size);
            assert y + acc + Range(clss, classend) == y + (acc + Range(clss, classend));
            acc := acc + Range(clss, classend);
            regparse := regparse + 1;
          }
        } else {
          RegC(Cur(), o, y + acc, size);
          assert y + acc + [Cur()] == y + (acc + [Cur()]);
          acc := acc + [Cur()];
          regparse := regparse + 1;
        }
      }
      ok := true;
    }

    method RegRange(lo: byte, hi: byte, ghost o: Output, ghost x: seq<byte>, ghost size: nat)
      requires Wrote(o, x, size) && Holds(o, |x| + |Range(lo, hi)|, size)
      modifies this`regcode, this`regsize, program
      ensures Wrote(o, x + Range(lo, hi), size)
    {
      hide Wrote, Out, Valid, Emit;
      var clss := lo;
      ghost var out: seq<byte> := [];
      assert x + out == x;
      while clss <= hi
        invariant out + Range(clss, hi) == Range(lo, hi) && (clss > hi ==> out == Range(lo, hi))
        invariant Wrote(o, x + out, size)
        decreases hi - clss
      {
        RegC(clss, o, x + out, size);
        assert x + out + [clss] == x + (out + [clss]);
        out := out + [clss];
        clss := clss + 1;
      }
    }
  }

  /** A compiled pattern, as far as its program goes. */
  datatype Compiled = Compiled(program: seq<byte>, flags: Flags) | Failed(error: Error)

  /** The two passes of TclRegComp.  The first finds out whether the pattern is legal and how
      many bytes its code takes; the second writes exactly those bytes. */
  method CompileProgram(exp: Option<seq<byte>>) returns (r: Compiled)
    requires exp.Some? ==> CharsOk(exp.value)
    ensures exp.None? ==> r == Failed(NullArgument)
    ensures exp.Some? ==>
      match ParseReg(exp.value, 0, 1, false)
      case Fail(e) => r == Failed(e)
      case Ok(l, _, _) =>
        if |Program(l)| >= CODE_LIMIT then r == Failed(TooBig) else r == Compiled.Compiled(Program(l), AltsFlags(l))
  {
    hide Program, Node, AltsCode, AltsSize;
    if exp.None? {
      return Failed(NullArgument);
    }
    var state := new RegCompState(exp.value);
    ghost var o := state.Out();
    state.WroteNothing();
    state.RegC(MAGIC, o, [], 0);
    ghost var p := ParseReg(exp.value, 0, 1, false);
    var ret := state.Reg(false, o, [] + [MAGIC], 0);
    if ret.Null? {
      return Failed(ret.error);
    }
    ProgramIs(p.value);
    ghost var code := [] + [MAGIC] + RegBytes(false, 1, p.value);
    state.Counted(o, code);
    if state.regsize >= CODE_LIMIT {
      return Failed(TooBig);
    }
    state.Allocate();
    o := state.Out();
    state.WroteNothing();
    state.RegC(MAGIC, o, [], |code|);
    ret := state.Reg(false, o, [] + [MAGIC], |code|);
    state.EmittedAt(o, code, |code|);
    assert state.program[..state.regcode] == code;
    r := Compiled.Compiled(state.program[..], ret.flags);
  }

  /** The code of a whole pattern, or of a group. */
  ghost function RegBytes(paren: bool, n: NextGroup, l: Alts): seq<byte>
    requires paren ==> n < NSUBEXP
  {
    if paren then AtomCode(Group(n, l), Unlinked) else AltsCode(l) + Node(END, 0)
  }

  lemma ProgramIs(l: Alts)
    ensures [] + [MAGIC] + RegBytes(false, 1, l) == Program(l)
  {
    hide AltsCode, Node;
  }

  lemma HeadIs(op: byte)
    requires op != BACK
    ensures IsHead([]) && IsHead(Node(op, 3)) && Node(op, 3)[0] == op
  {}

  lemma RegBytesIs(paren: bool, g: NextGroup, l: Alts)
    requires paren ==> g < NSUBEXP
    ensures var h := if paren then Node(OPEN + g, 3) else [];
            var e := Node(if paren then CLOSE + g else END, 0);
            RegBytes(paren, g, l) == h + AltsCode(l) + e && |RegBytes(paren, g, l)| == |h| + AltsSize(l) + 3
  {
    hide AltsCode, Node, AltsSize;
    assert [] + AltsCode(l) == AltsCode(l);
  }

  lemma ClassCode(x: seq<byte>, node: seq<byte>, cs: seq<byte>)
    ensures x + node + cs + [NUL] == x + (node + (cs + [NUL]))
  {}

  lemma AtomUnlinked(a: Atom)
    ensures a.Group? ==> AtomCode(a, Unlinked) == RegBytes(true, a.n, a.alts)
    ensures !a.Group? ==> AtomCode(a, Unlinked) == Node(LeafOp(a), 0) + Operand(a)
    ensures a.Bol? || a.Eol? || a.Any? ==> AtomCode(a, Unlinked) == Node(LeafOp(a), 0)
    ensures a.Exactly? ==> forall x: seq<byte> {:trigger x + AtomCode(a, Unlinked)} ::
              x + AtomCode(a, Unlinked) == x + Node(EXACTLY, 0) + a.cs + [NUL]
  {
    hide AltsCode, Node;
    if !a.Group? {
      assert Node(LeafOp(a), 0) + [] == Node(LeafOp(a), 0);
    }
  }
}
