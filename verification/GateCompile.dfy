/** exp_retoglob of retoglob.c, over its output buffer and its stack of parentheses, and the
    gate in front of the matching of regular expressions in expect.c. */
module GateCompile {
  import opened Chars
  import opened Glob
  import opened GlobSteps
  import opened GlobMatch
  import opened GateUnits
  import opened GateText
  import opened GatePasses
  import opened GateRegexp
  import opened GateRuns
  import opened GateUse
  import opened GateSound

  /** How a round of the loop ends. */
  datatype Round = Went | Branched | Broke

  class ReToGlobState {
    const str: seq<byte>
    const out: array<byte>
    const paren: array<nat>
    const backslash: Backslash
    var pos: nat
    var nexto: nat
    var lastsz: int
    var nextp: nat

    /** The output buffer takes two characters for each of the input, the stack one entry. */
    predicate Shape()
      reads this`pos, this`nexto, this`nextp
    {
      out.Length == 2 * |str| && paren.Length == |str| && (out as object) != (paren as object)
      && pos <= |str| && nexto <= out.Length && nextp <= paren.Length
    }

    /** Between rounds. */
    predicate Valid()
      reads this`pos, this`nexto, this`nextp
    {
      Shape() && nexto <= 2 * pos && nextp <= pos
    }

    function St(): State
      requires Shape()
      reads this, out, paren
    {
      State(pos, out[..nexto], lastsz, paren[..nextp])
    }

    constructor (s: seq<byte>, b: Backslash)
      ensures str == s && backslash == b && Valid() && St() == State(0, [], -1, [])
      ensures fresh(out) && fresh(paren)
    {
      str, backslash := s, b;
      out, paren := new byte[2 * |s|], new nat[|s|];
      pos, nexto, lastsz, nextp := 0, 0, -1, 0;
    }

    /** A round ended as the step says. */
    predicate Agrees(r: Round, step: Step)
      requires Shape()
      reads this, out, paren
    {
      match step
      case Next(st) => r == Went && St() == st
      case Branching => r == Branched
      case Stuck => r == Broke
    }

    // ----- output -----

    method Emit(c: byte)
      requires Shape() && nexto < out.Length
      modifies this`nexto, this`lastsz, out
      ensures Shape() && nexto == old(nexto) + 1 && St() == old(St()).(out := old(out[..nexto]) + [c], lastsz := 1)
    {
      lastsz := 1;
      out[nexto] := c;
      nexto := nexto + 1;
    }

    /** EMIT(c); CHOP(n) */
    method EmitChop(c: byte, n: nat)
      requires Shape() && nexto < out.Length && pos + n <= |str|
      modifies this`pos, this`nexto, this`lastsz, out
      ensures Shape() && St() == GateText.Emit(old(St()), old(pos) + n, [c])
    {
      Emit(c);
      pos := pos + n;
    }

    method EmitX(c: byte)
      requires Shape() && nexto < out.Length
      modifies this`nexto, this`lastsz, out
      ensures Shape() && nexto == old(nexto) + 1
      ensures St() == old(St()).(out := old(out[..nexto]) + [c], lastsz := old(lastsz) + 1)
    {
      lastsz := lastsz + 1;
      out[nexto] := c;
      nexto := nexto + 1;
    }

    /** EMIT('\\'); EMITX('\\'); CHOP(1) */
    method EmitBackslash()
      requires Shape() && nexto + 2 <= out.Length && pos < |str|
      modifies this`pos, this`nexto, this`lastsz, out
      ensures Shape() && St() == GateText.Emit(old(St()), old(pos) + 1, [BACKSLASH, BACKSLASH])
    {
      ghost var before := out[..nexto];
      Emit(BACKSLASH);
      EmitX(BACKSLASH);
      pos := pos + 1;
      assert before + [BACKSLASH] + [BACKSLASH] == before + [BACKSLASH, BACKSLASH];
    }

    method EmitC(c: byte)
      requires Shape() && nexto + 2 <= out.Length
      modifies this`nexto, this`lastsz, out
      ensures Shape() && nexto == old(nexto) + |Quote(c)|
      ensures St() == old(St()).(out := old(out[..nexto]) + Quote(c), lastsz := |Quote(c)|)
    {
      ghost var before := out[..nexto];
      if c == BACKSLASH || c == STAR_CHAR || c == QUERY || c == DOLLAR || c == CARET || c == LBRACKET {
        Emit(BACKSLASH);
        EmitX(c);
        assert before + [BACKSLASH] + [c] == before + Quote(c);
      } else {
        Emit(c);
      }
    }

    /** UNEMIT; EMIT('*') */
    method Replace() returns (r: Round)
      requires Shape() && nexto < out.Length
      modifies this`nexto, this`lastsz, out
      ensures Shape()
      ensures Agrees(r, Quantify(old(St()), pos))
    {
      if lastsz < 0 || lastsz > nexto {
        return Broke;
      }
      ghost var all := out[..nexto];
      nexto := nexto - lastsz;
      assert out[..nexto] == all[..|all| - lastsz];
      lastsz := -1;
      Emit(STAR_CHAR);
      r := Went;
    }

    method PushParen()
      requires Shape() && nextp < paren.Length
      modifies this`nextp, paren
      ensures Shape() && St() == old(St()).(parens := old(St()).parens + [old(nexto)])
    {
      paren[nextp] := nexto;
      nextp := nextp + 1;
    }

    // ----- input -----

    predicate Match(c: byte)
      reads this`pos
    {
      pos < |str| && str[pos] == c
    }

    predicate Match2(c: byte, c': byte)
      reads this`pos
    {
      pos + 2 <= |str| && str[pos] == c && str[pos + 1] == c'
    }

    method ChopC(c: byte)
      requires Shape()
      modifies this`pos
      ensures Shape() && pos == ChopTo(str, old(pos), c)
    {
      while pos < |str| && str[pos] != c
        invariant pos <= |str| && ChopTo(str, old(pos), c) == ChopTo(str, pos, c)
      {
        pos := pos + 1;
      }
    }

    method ChopNestedParens()
      requires Shape()
      modifies this`pos
      ensures Shape() && pos == ChopNested(str, old(pos), 0)
    {
      var level := 0;
      while pos < |str|
        invariant pos <= |str| && 0 <= level && ChopNested(str, old(pos), 0) == ChopNested(str, pos, level)
        decreases |str| - pos
      {
        if str[pos] == LPAREN {
          level := level + 1;
        } else if str[pos] == RPAREN {
          level := level - 1;
          if level < 0 {
            pos := pos + 1;
            break;
          }
        }
        pos := pos + 1;
      }
    }

    /** To the end of a bracket class, from inside it. */
    method ChopClass() returns (r: Round)
      requires Shape()
      modifies this`pos
      ensures Shape()
      ensures match ClassEnd(str, old(pos), true, true)
              case Some(q) => r == Went && pos == q
              case None => r == Broke
    {
      hide ClassEnd, AfterNamed;
      var first, allowed := true, true;
      while pos < |str|
        invariant pos <= |str| && ClassEnd(str, old(pos), true, true) == ClassEnd(str, pos, first, allowed)
        decreases |str| - pos
      {
        ClassRound(str, pos, first, allowed);
        if first && str[pos] == CARET {
          pos, first := pos + 1, false;
          continue;
        } else if allowed && str[pos] == RBRACKET {
          pos := pos + 1;
        } else if str[pos] == RBRACKET {
          pos := pos + 1;
          return Went;
        } else if Match2(LBRACKET, DOT) || Match2(LBRACKET, EQUALS) || Match2(LBRACKET, COLON) {
          r := ChopNamed();
          if r.Broke? {
            return;
          }
        } else {
          pos := pos + 1;
        }
        allowed, first := false, false;
      }
      ClassRound(str, pos, first, allowed);
      r := Went;
    }

    /** Past a `[.x.]`, `[=x=]` or `[:x:]`. */
    method ChopNamed() returns (r: Round)
      requires Shape() && OpensNamed(str, pos)
      modifies this`pos
      ensures Shape()
      ensures match AfterNamed(str, old(pos) + 2, str[old(pos) + 1])
              case Some(q) => r == Went && pos == q
              case None => r == Broke
    {
      var delim := str[pos + 1];
      pos := pos + 2;
      while !Match2(delim, RBRACKET)
        invariant pos <= |str| && AfterNamed(str, old(pos) + 2, delim) == AfterNamed(str, pos, delim)
        decreases |str| - pos
      {
        if pos == |str| {
          return Broke;
        }
        pos := pos + 1;
      }
      pos := pos + 2;
      r := Went;
    }

    // ----- the rounds -----

    /** Room for what a round writes. */
    lemma Room()
      requires Valid() && pos < |str|
      ensures nexto + 2 <= out.Length && nextp < paren.Length
    {}

    method StepParen() returns (r: Round)
      requires Valid() && pos < |str|
      modifies this`pos, this`nextp, paren
      ensures Shape()
      ensures Agrees(r, OpenParen(str, old(St())))
    {
      hide ChopNested, ChopTo;
      Room();
      pos := pos + 1;
      if Match2(QUERY, COLON) {
        PushParen();
        pos := pos + 2;
      } else if Match2(QUERY, EQUALS) || Match2(QUERY, BANG) {
        pos := pos + 2;
        ChopNestedParens();
      } else if Match2(QUERY, HASH) {
        ChopC(RPAREN);
        if pos == |str| {
          return Broke;
        }
        pos := pos + 1;
      } else {
        PushParen();
      }
      r := Went;
    }

    method StepClose() returns (r: Round)
      requires Valid() && pos < |str|
      modifies this`pos, this`nextp, this`lastsz
      ensures Shape()
      ensures Agrees(r, CloseParen(old(St())))
    {
      pos := pos + 1;
      if nextp == 0 {
        return Broke;
      }
      nextp := nextp - 1;
      lastsz := nexto - paren[nextp];
      assert paren[..nextp] == old(paren[..nextp])[..nextp];
      r := Went;
    }

    method StepHex()
      requires Shape() && nexto + 2 <= out.Length
      modifies this`pos, this`nexto, this`lastsz, out
      ensures Shape() && HexEscape(str, old(St()), old(pos), backslash) == Next(St())
    {
      if pos < |str| && IsHexDigit(str[pos]) {
        var mark := pos;
        while pos < |str| && IsHexDigit(str[pos])
          modifies this`pos
          invariant mark <= pos <= |str| && SkipHex(str, mark) == SkipHex(str, pos)
        {
          pos := pos + 1;
        }
        if pos - mark > 2 {
          mark := pos - 2;
        }
        EmitC(backslash(LETTER_x, str[mark..pos]));
      } else {
        Emit(LETTER_x);
      }
    }

    method StepCode(c: byte, digits: nat) returns (r: Round)
      requires Shape() && nexto + 2 <= out.Length
      modifies this`pos, this`nexto, this`lastsz, out
      ensures Shape()
      ensures Agrees(r, CodeEscape(str, old(St()), old(pos), c, digits, backslash))
    {
      var mark := pos;
      if mark + digits > |str| {
        return Broke;
      }
      pos := pos + digits;
      EmitC(backslash(c, str[mark..pos]));
      r := Went;
    }

    method StepDigits()
      requires Shape() && pos < |str| && nexto < out.Length
      modifies this`pos, this`nexto, this`lastsz, out
      ensures Shape() && Emitted(old(St()), SkipDigits(str, old(pos) + 1), [STAR_CHAR])
    {
      pos := pos + 1;
      while pos < |str| && IsDigit(str[pos])
        modifies this`pos
        invariant pos <= |str| && SkipDigits(str, old(pos) + 1) == SkipDigits(str, pos)
      {
        pos := pos + 1;
      }
      Emit(STAR_CHAR);
    }

    /** This state is the one after x became the last unit. */
    predicate Emitted(st: State, p: nat, x: seq<byte>)
      requires Shape()
      reads this, out, paren
    {
      St() == GateText.Emit(st, p, x)
    }

    /** LongEscape */
    method StepLong() returns (r: Round)
      requires Shape() && nexto + 2 <= out.Length && pos < |str|
      modifies this`pos, this`nexto, this`lastsz, out
      ensures Shape()
      ensures Agrees(r, LongEscape(str, old(St()), old(pos), backslash))
    {
      hide Quote, SkipHex, SkipDigits, IsHexDigit, IsDigit;
      r := Went;
      var c := str[pos];
      if c == LETTER_x {
        pos := pos + 1;
        StepHex();
      } else if c == LETTER_u {
        pos := pos + 1;
        r := StepCode(c, 4);
      } else if c == LETTER_U {
        pos := pos + 1;
        r := StepCode(c, 8);
      } else if IsDigit(c) {
        StepDigits();
      } else {
        EmitC(c);
        pos := pos + 1;
      }
    }

    method StepEscape() returns (r: Round)
      requires Valid() && pos < |str|
      modifies this`pos, this`nexto, this`lastsz, out
      ensures Shape()
      ensures Agrees(r, Escape(str, old(St()), backslash))
    {
      hide LongEscape, IsShorthand, IsConstraint, Control;
      Room();
      ControlB();
      r := Went;
      pos := pos + 1;
      if pos == |str| {
        return Broke;
      }
      var c := str[pos];
      if IsShorthand(c) {
        EmitChop(QUERY, 1);
      } else if IsConstraint(c) {
        pos := pos + 1;
      } else if c == LETTER_B {
        EmitBackslash();
      } else if Control(c).Some? {
        EmitChop(Control(c).value, 1);
      } else if c == LETTER_c && pos + 2 <= |str| {
        EmitChop(QUERY, 2);
      } else {
        LongAt(str, old(St()), St(), pos, backslash);
        r := StepLong();
      }
    }

    method StepBrace() returns (r: Round)
      requires Valid() && pos < |str|
      modifies this`pos, this`nexto, this`lastsz, out
      ensures Shape()
      ensures Agrees(r, Brace(str, old(St())))
    {
      hide ChopTo;
      Room();
      pos := pos + 1;
      if pos < |str| && IsDigit(str[pos]) {
        ChopC(RBRACE);
        if pos == |str| {
          return Broke;
        }
        pos := pos + 1;
        if Match(QUERY) {
          pos := pos + 1;
        }
        r := Replace();
      } else {
        Emit(LBRACE);
        r := Went;
      }
    }

    /** One round of the loop leaves room for the next. */
    method Step() returns (r: Round)
      requires Valid() && pos < |str|
      modifies this`pos, this`nexto, this`lastsz, this`nextp, out, paren
      ensures Shape() && (r.Went? ==> Valid() && old(pos) < pos)
      ensures Agrees(r, StepAt(str, old(St()), backslash))
    {
      hide StepAt;
      StepMoves(str, St(), backslash);
      r := StepOnce();
    }

    /** One round of the loop. */
    method StepOnce() returns (r: Round)
      requires Valid() && pos < |str|
      modifies this`pos, this`nexto, this`lastsz, this`nextp, out, paren
      ensures Shape()
      ensures Agrees(r, StepAt(str, old(St()), backslash))
    {
      hide OpenParen, CloseParen, Escape, Brace, ClassEnd, Quantify;
      Room();
      r := Went;
      if Match(BAR) {
        return Branched;
      } else if Match(LPAREN) {
        r := StepParen();
      } else if Match(RPAREN) {
        r := StepClose();
      } else if Match(DOLLAR) || Match(CARET) {
        pos := pos + 1;
      } else if Match(LBRACKET) {
        pos := pos + 1;
        r := ChopClass();
        if r.Broke? {
          return;
        }
        Emit(QUERY);
      } else if Match(BACKSLASH) {
        r := StepEscape();
      } else if Match(LBRACE) {
        r := StepBrace();
      } else if Match(STAR_CHAR) || Match(PLUS_CHAR) || Match(QUERY) {
        pos := pos + 1;
        if Match(QUERY) {
          pos := pos + 1;
        }
        QuantifyAt(old(St()), St());
        r := Replace();
      } else if Match(DOT) {
        EmitChop(QUERY, 1);
      } else {
        EmitChop(str[pos], 1);
      }
    }

    method ChopBlanks()
      requires Shape()
      modifies this`pos
      ensures Shape() && pos == SkipBlanks(str, old(pos))
    {
      while Match(SPACE) || Match(TAB) || Match(NEWLINE)
        invariant pos <= |str| && SkipBlanks(str, old(pos)) == SkipBlanks(str, pos)
        decreases |str| - pos
      {
        pos := pos + 1;
      }
    }

    /** The main loop. */
    method Translate(expanded: bool) returns (r: Round)
      requires Valid()
      modifies this`pos, this`nexto, this`lastsz, this`nextp, out, paren
      ensures Shape()
      ensures match Run(str, old(St()), expanded, backslash)
              case Ended(x) => r == Went && out[..nexto] == x
              case Abandoned => r == Branched
              case Astray => r == Broke
    {
      hide Run, StepAt, SkipBlanks, ChopTo;
      while pos < |str|
        invariant Valid() && Run(str, old(St()), expanded, backslash) == Run(str, St(), expanded, backslash)
        decreases |str| - pos
      {
        ghost var st := St();
        RunRound(str, st, expanded, backslash);
        if expanded {
          ChopBlanks();
          if Match(HASH) {
            ChopC(NEWLINE);
            if pos < |str| {
              pos := pos + 1;
            }
            assert St() == st.(pos := pos);
            continue;
          }
          if pos == |str| {
            return Broke;
          }
        }
        assert St() == st.(pos := pos);
        r := Step();
        if !r.Went? {
          return;
        }
      }
      RunRound(str, St(), expanded, backslash);
      r := Went;
    }

    /** ExpLiteral */
    method TranslateLiteral()
      requires Valid() && nexto == 0
      modifies this`pos, this`nexto, this`lastsz, out
      ensures Shape() && out[..nexto] == Literal(str, old(pos))
    {
      hide Quote, Literal;
      assert out[..nexto] == [];
      while pos < |str|
        invariant Valid()
        invariant Literal(str, old(pos)) == out[..nexto] + Literal(str, pos)
      {
        QuoteFits(str[pos]);
        LiteralFirst(str, pos, out[..nexto]);
        EmitC(str[pos]);
        pos := pos + 1;
      }
      LiteralLast(str);
    }

    /** Directors and embedded options at the beginning: is the rest a literal, is it in
        expanded syntax? */
    method TranslateStart() returns (r: Round, literal: bool, expanded: bool)
      requires Valid() && pos == 0
      modifies this`pos
      ensures Valid()
      ensures match ReadStart(str)
              case BadStart => r == Broke
              case Start(p, l, x) => r == Went && pos == p && literal == l && (l || expanded == x)
    {
      hide ChopTo, AllOptions;
      r, literal, expanded := Went, false, false;
      if HasDirector(str, EQUALS) {
        pos := 4;
        literal := true;
        return;
      }
      if HasDirector(str, COLON) {
        pos := 4;
      }
      if Match2(LPAREN, QUERY) {
        var save := pos;
        pos := pos + 2;
        var mark := pos;
        ChopC(RPAREN);
        var all := AllLegal(mark, pos);
        if !all {
          pos := save;
        } else {
          if pos == |str| {
            return Broke, literal, expanded;
          }
          literal, expanded := ReadOptions(mark, pos);
          pos := pos + 1;
        }
      }
    }

    /** Only option letters stand between the two places. */
    method AllLegal(from: nat, stop: nat) returns (all: bool)
      requires from <= stop <= |str|
      ensures all == AllOptions(str[from..stop])
    {
      var mark := from;
      while mark < stop
        invariant from <= mark <= stop && forall k :: from <= k < mark ==> IsOption(str[k])
      {
        if !IsOption(str[mark]) {
          assert str[from..stop][mark - from] == str[mark];
          return false;
        }
        mark := mark + 1;
      }
      all := true;
    }

    method ReadOptions(from: nat, stop: nat) returns (literal: bool, expanded: bool)
      requires from <= stop <= |str|
      ensures literal == (LETTER_q in str[from..stop]) && (literal || expanded == (LETTER_x in str[from..stop]))
    {
      literal, expanded := false, false;
      var mark := from;
      while mark < stop
        invariant from <= mark <= stop && (forall k :: from <= k < mark ==> str[k] != LETTER_q)
        invariant expanded <==> exists k :: from <= k < mark && str[k] == LETTER_x
      {
        if str[mark] == LETTER_q {
          assert str[from..stop][mark - from] == LETTER_q;
          return true, expanded;
        } else if str[mark] == LETTER_x {
          expanded := true;
        }
        mark := mark + 1;
      }
      if expanded {
        var k :| from <= k < stop && str[k] == LETTER_x;
        assert str[from..stop][k - from] == LETTER_x;
      }
    }

    /** The clean-up passes, and the test whether the result is of use. */
    method CleanUp() returns (r: Outcome)
      requires Shape()
      modifies this`nexto, out
      ensures r == Finish(old(out[..nexto]))
    {
      hide QForward, QBack, Stars, CountStars;
      nexto := CollapseQForward(out, nexto);
      nexto := CollapseQBack(out, nexto);
      nexto := CollapseStar(out, nexto);
      var stars := CountStar(out, nexto);
      if stars > 2 {
        return NoGate;
      }
      if nexto == 0 || (nexto == 1 && (out[0] == STAR_CHAR || out[0] == QUERY)) {
        return NoGate;
      }
      r := Glob(out[..nexto]);
    }
  }

  lemma LiteralFirst(s: seq<byte>, p: nat, before: seq<byte>)
    requires p < |s|
    ensures before + Literal(s, p) == (before + Quote(s[p])) + Literal(s, p + 1)
  {}

  lemma LiteralLast(s: seq<byte>)
    ensures Literal(s, |s|) == []
  {}

  /** Only the output matters for an escape. */
  lemma LongAt(s: seq<byte>, st: State, st': State, p: nat, b: Backslash)
    requires p < |s| && st'.out == st.out && st'.parens == st.parens
    ensures LongEscape(s, st, p, b) == LongEscape(s, st', p, b)
  {}

  lemma ControlB()
    ensures Control(LETTER_B) == Some(BACKSLASH)
  {}

  lemma ClassRound(s: seq<byte>, p: nat, first: bool, allowed: bool)
    requires p <= |s|
    ensures ClassEnd(s, p, first, allowed) ==
            if p == |s| then Some(p)
            else if first && s[p] == CARET then ClassEnd(s, p + 1, false, allowed)
            else if allowed && s[p] == RBRACKET then ClassEnd(s, p + 1, false, false)
            else if s[p] == RBRACKET then Some(p + 1)
            else if OpensNamed(s, p) then
              var q := AfterNamed(s, p + 2, s[p + 1]);
              if q.None? then None else ClassEnd(s, q.value, false, false)
            else ClassEnd(s, p + 1, false, false)
  {}

  /** Only the output and the size of the last unit matter for a quantifier. */
  lemma QuantifyAt(st: State, st': State)
    requires st'.out == st.out && st'.lastsz == st.lastsz && st'.parens == st.parens
    ensures Quantify(st, st'.pos) == Quantify(st', st'.pos)
  {}

  lemma RunRound(s: seq<byte>, st: State, expanded: bool, b: Backslash)
    requires st.pos <= |s|
    ensures st.pos == |s| ==> Run(s, st, expanded, b) == Ended(st.out)
    ensures st.pos < |s| ==>
              var p := if expanded then SkipBlanks(s, st.pos) else st.pos;
              if p == |s| then Run(s, st, expanded, b) == Astray
              else if expanded && s[p] == HASH then
                var q := ChopTo(s, p, NEWLINE);
                Run(s, st, expanded, b) == Run(s, st.(pos := if q < |s| then q + 1 else q), expanded, b)
              else
                match StepAt(s, st.(pos := p), b)
                case Branching => Run(s, st, expanded, b) == Abandoned
                case Stuck => Run(s, st, expanded, b) == Astray
                case Next(st') => st'.pos <= |s| && Run(s, st, expanded, b) == Run(s, st', expanded, b)
  {
    hide StepAt, ChopTo, SkipBlanks;
    if st.pos < |s| {
      var p := if expanded then SkipBlanks(s, st.pos) else st.pos;
      if p < |s| {
        StepMoves(s, st.(pos := p), b);
      }
    }
  }

  /** exp_retoglob: the translation of the text, in a buffer of twice its size. */
  method ExpReToGlob(s: seq<byte>, b: Backslash) returns (r: Outcome)
    ensures r == ReToGlob(s, b)
  {
    hide Run, Finish, Literal, ReadStart;
    var t := new ReToGlobState(s, b);
    var round, literal, expanded := t.TranslateStart();
    if round.Broke? {
      return Undefined;
    }
    if literal {
      t.TranslateLiteral();
      return Glob(t.out[..t.nexto]);
    }
    round := t.Translate(expanded);
    match round
    case Broke => r := Undefined;
    case Branched => r := NoGate;
    case Went => r := t.CleanUp();
  }

  /** Whether the expression is to be tried on a buffer at all: without a gate always, with one
      exactly if the search for it succeeds. */
  method PassesGate(d: Dialect, gate: Option<seq<byte>>, buffer: seq<byte>)
    returns (globmatch: int, dummy: nat)
    requires DialectOk(d)
    ensures gate.None? ==> globmatch >= 0
    ensures gate.Some? ==>
              var caret := Peek(gate.value, 0) == CARET;
              TextSearched(d, gate.value, if caret then 1 else 0, buffer, caret, globmatch, dummy)
    ensures gate.Some? && Peek(gate.value, 0) != CARET && PlainFrom(d, gate.value, 0) ==>
              (globmatch >= 0 <==> Passes(d, gate.value, buffer))
  {
    hide PlainFrom, Read, Served, Promised, TextSearched;
    dummy := 0;
    if gate.Some? {
      globmatch, dummy := StringCaseMatch(d, buffer, gate.value);
      if Peek(gate.value, 0) != CARET && PlainFrom(d, gate.value, 0) {
        forall r: int, offset: nat | Searched(d, Read(d, gate.value, 0), buffer, false, r, offset)
          ensures r == -1 <==> globmatch == -1
        {
          OneVerdict(d, Read(d, gate.value, 0), buffer, globmatch, dummy, r, offset);
        }
      }
    } else {
      globmatch := 1;
    }
  }

  /** All right answers agree on whether there is a match. */
  lemma OneVerdict(d: Dialect, ts: Tokens, s: seq<byte>, r: int, offset: nat, r': int, offset': nat)
    requires Searched(d, ts, s, false, r, offset) && Searched(d, ts, s, false, r', offset')
    ensures r == -1 <==> r' == -1
  {
    hide Fits;
    assert r != -1 ==> Matches(d, ts, s, offset);
    assert r' != -1 ==> Matches(d, ts, s, offset');
  }

  /** An expression and its gate, as an expect command keeps them. */
  method GateOf(s: seq<byte>, b: Backslash) returns (gate: Option<seq<byte>>)
    requires !ReToGlob(s, b).Undefined?
    ensures gate == match ReToGlob(s, b) case Glob(x) => Some(x) case _ => None
  {
    var r := ExpReToGlob(s, b);
    gate := match r case Glob(x) => Some(x) case _ => None;
  }

  /** An expression is tried exactly if it has no gate or its gate matches somewhere, and so
      never missed if it is kept. */
  method GatedMatch(s: seq<byte>, d: Dialect, buffer: seq<byte>, stray: byte,
                    ghost e: Engine, ghost opts: Option<seq<byte>>, ghost re: Regexp)
    returns (tried: bool)
    requires IsExpression(s, opts, e, d.nocase, re)
    requires (RegexpRagged(re) ==> RegexpBranches(re)) && DialectOk(d) && NulFree(buffer)
    ensures var us := RegexpUnits(Decoded(stray), re);
            tried <==> RegexpBranches(re) || GateFor(us).NoGate?
                       || exists i: nat, j: nat :: UnitsFit(d, Cleaned([], us), buffer, i, j)
    ensures PiecesKept(e, d, stray, re.b) && (exists i: nat, j: nat :: RegexpSpan(e, re, buffer, i, j)) ==> tried
  {
    hide ReToGlob, IsExpression, RegexpSpan, Passes, NulFree, PiecesKept, Decoded, RegexpRagged, RegexpBranches,
         StarRuns, Useless, Cleaned, UnitsFit, UnitsOk, Text, TextSearched, PlainFrom, RegexpUnits;
    GateExactly(s, opts, re, e, stray, d.nocase);
    GateIsSound(s, opts, re, e, stray, d, buffer, 0, 0);
    ghost var us := RegexpUnits(Decoded(stray), re);
    PassesMeans(d, Cleaned([], us), buffer);
    var gate := GateOf(s, Decoded(stray));
    var globmatch, dummy := PassesGate(d, gate, buffer);
    tried := globmatch >= 0;
    if PiecesKept(e, d, stray, re.b) {
      forall i: nat, j: nat | RegexpSpan(e, re, buffer, i, j) ensures tried {
        GateIsSound(s, opts, re, e, stray, d, buffer, i, j);
      }
    }
  }
}
