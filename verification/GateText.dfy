/** The translation of regular expressions into glob patterns in retoglob.c, as a function of
    the text.

    The translation reads the expression once.  It keeps the output, the size of the last
    translated unit, which a quantifier replaces by a star, and a stack of the places in the
    output where groups began.  Reading past the end of the text, closing a group that was
    not opened and quantifying nothing are undefined. */
module GateText {
  import opened Chars
  import opened GateUnits

  const TAB: byte := 9
  const NEWLINE: byte := 10
  const SPACE: byte := 32
  const BANG: byte := 33
  const HASH: byte := 35
  const COLON: byte := 58
  const EQUALS: byte := 61
  const LBRACE: byte := 123
  const RBRACE: byte := 125
  const LETTER_B: byte := 'B' as int
  const LETTER_U: byte := 'U' as int
  const LETTER_b: byte := 'b' as int
  const LETTER_c: byte := 'c' as int
  const LETTER_e: byte := 'e' as int
  const LETTER_i: byte := 'i' as int
  const LETTER_q: byte := 'q' as int
  const LETTER_t: byte := 't' as int
  const LETTER_u: byte := 'u' as int
  const LETTER_x: byte := 'x' as int

  /** lastsz is -1 when there is nothing to quantify. */
  datatype State = State(pos: nat, out: seq<byte>, lastsz: int, parens: seq<nat>)

  /** One round of the loop: on to the next state, giving up at a `|`, or undefined. */
  datatype Step = Next(st: State) | Branching | Stuck

  datatype Ran = Ended(out: seq<byte>) | Abandoned | Astray

  datatype Outcome = Glob(text: seq<byte>) | NoGate | Undefined

  /** The character an escape x, u or U with its digits is decoded to (ExpBackslash). */
  type Backslash = (byte, seq<byte>) -> byte

  /** Larger values take no more digits. */
  const CODE_MAX := 0x10FFF

  // ----- character tests -----

  predicate IsDigit(c: byte) { 48 <= c <= 57 }

  predicate IsOctalDigit(c: byte) { 48 <= c <= 55 }

  predicate IsHexDigit(c: byte) { IsDigit(c) || 97 <= c <= 102 || 65 <= c <= 70 }

  function DigitValue(c: byte): (n: nat)
    requires IsHexDigit(c)
    ensures n < 16
  {
    if IsDigit(c) then c - 48 else if c >= 97 then c - 87 else c - 55
  }

  /** d, D, s, S, w, W */
  predicate IsShorthand(c: byte) { c == 100 || c == 68 || c == 115 || c == 83 || c == 119 || c == 87 }

  /** m, M, y, Y, A, Z */
  predicate IsConstraint(c: byte) { c == 109 || c == 77 || c == 121 || c == 89 || c == 65 || c == 90 }

  /** What the escapes B, 0, e, a, b, f, n, r, t and v stand for. */
  function Control(c: byte): Option<byte> {
    if c == LETTER_B then Some(BACKSLASH)
    else if c == 48 then Some(NUL)
    else if c == 101 then Some(27)
    else if c == 97 then Some(7)
    else if c == 98 then Some(8)
    else if c == 102 then Some(12)
    else if c == 110 then Some(10)
    else if c == 114 then Some(13)
    else if c == 116 then Some(9)
    else if c == 118 then Some(11)
    else None
  }

  /** b, c, e, i, m, n, p, q, s, t, w, x */
  predicate IsOption(c: byte) {
    c == 98 || c == 99 || c == 101 || c == 105 || c == 109 || c == 110
    || c == 112 || c == 113 || c == 115 || c == 116 || c == 119 || c == 120
  }

  predicate NeedsQuote(c: byte) {
    c == BACKSLASH || c == STAR_CHAR || c == QUERY || c == DOLLAR || c == CARET || c == LBRACKET
  }

  // ----- escapes with digits -----

  /** Characters are two bytes wide. */
  function Unicode(n: nat): byte {
    if n > 0xFFFF then 0xFFFD else n
  }

  /** TclParseHex: at most n digits of x, after digits of value v. */
  function ParseHex(x: seq<byte>, n: nat, v: nat): nat {
    if n == 0 || x == [] || !IsHexDigit(x[0]) || v > CODE_MAX then v
    else ParseHex(x[1..], n - 1, 16 * v + DigitValue(x[0]))
  }

  /** Tcl_UtfBackslash on what ExpBackslash puts into its buffer: the letter and the digits, cut
      to bytes.  What stands after them was never set. */
  function UtfBackslash(letter: byte, digits: seq<byte>, stray: byte): byte {
    var x := seq(|digits|, k requires 0 <= k < |digits| => digits[k] % 256) + [stray];
    if !IsHexDigit(x[0]) then letter
    else Unicode(ParseHex(x, if letter == LETTER_x then 2 else if letter == LETTER_u then 4 else 8, 0))
  }

  function Decoded(stray: byte): Backslash {
    (letter, digits) => UtfBackslash(letter, digits, stray)
  }

  // ----- moving through the text -----

  /** CHOPC: to the next c, or to the end. */
  function ChopTo(s: seq<byte>, p: nat, c: byte): (r: nat)
    requires p <= |s|
    ensures p <= r <= |s| && (r < |s| ==> s[r] == c) && forall k :: p <= k < r ==> s[k] != c
    decreases |s| - p
  {
    if p == |s| || s[p] == c then p else ChopTo(s, p + 1, c)
  }

  /** Past the parenthesis that closes the current level (ExpChopNested). */
  function ChopNested(s: seq<byte>, p: nat, level: nat): (r: nat)
    requires p <= |s|
    ensures p <= r <= |s|
    decreases |s| - p
  {
    if p == |s| then p
    else if s[p] == LPAREN then ChopNested(s, p + 1, level + 1)
    else if s[p] != RPAREN then ChopNested(s, p + 1, level)
    else if level == 0 then p + 1
    else ChopNested(s, p + 1, level - 1)
  }

  function SkipHex(s: seq<byte>, p: nat): (r: nat)
    requires p <= |s|
    ensures p <= r <= |s|
    decreases |s| - p
  {
    if p < |s| && IsHexDigit(s[p]) then SkipHex(s, p + 1) else p
  }

  function SkipDigits(s: seq<byte>, p: nat): (r: nat)
    requires p <= |s|
    ensures p <= r <= |s|
    decreases |s| - p
  {
    if p < |s| && IsDigit(s[p]) then SkipDigits(s, p + 1) else p
  }

  function SkipBlanks(s: seq<byte>, p: nat): (r: nat)
    requires p <= |s|
    ensures p <= r <= |s|
    decreases |s| - p
  {
    if p < |s| && (s[p] == SPACE || s[p] == TAB || s[p] == NEWLINE) then SkipBlanks(s, p + 1) else p
  }

  /** Where the text goes on after the next `c]`. */
  function AfterNamed(s: seq<byte>, p: nat, c: byte): (r: Option<nat>)
    requires p <= |s|
    ensures r.Some? ==> p < r.value <= |s|
    decreases |s| - p
  {
    if p + 2 > |s| then None
    else if s[p] == c && s[p + 1] == RBRACKET then Some(p + 2)
    else AfterNamed(s, p + 1, c)
  }

  predicate OpensNamed(s: seq<byte>, p: nat) {
    p + 2 <= |s| && s[p] == LBRACKET && (s[p + 1] == DOT || s[p + 1] == EQUALS || s[p + 1] == COLON)
  }

  /** The end of a bracket class; first: nothing read yet; allowed: a `]` would be a member. */
  function ClassEnd(s: seq<byte>, p: nat, first: bool, allowed: bool): (r: Option<nat>)
    requires p <= |s|
    ensures r.Some? ==> p <= r.value <= |s|
    decreases |s| - p
  {
    if p == |s| then Some(p)
    else if first && s[p] == CARET then ClassEnd(s, p + 1, false, allowed)
    else if allowed && s[p] == RBRACKET then ClassEnd(s, p + 1, false, false)
    else if s[p] == RBRACKET then Some(p + 1)
    else if OpensNamed(s, p) then
      var q := AfterNamed(s, p + 2, s[p + 1]);
      if q.None? then None else ClassEnd(s, q.value, false, false)
    else ClassEnd(s, p + 1, false, false)
  }

  // ----- output -----

  function Quote(c: byte): seq<byte> {
    if NeedsQuote(c) then [BACKSLASH, c] else [c]
  }

  /** x becomes the last unit, reading goes on at p. */
  function Emit(st: State, p: nat, x: seq<byte>): State {
    State(p, st.out + x, |x|, st.parens)
  }

  /** The last unit is replaced by a star. */
  function Quantify(st: State, p: nat): Step {
    if st.lastsz < 0 || st.lastsz > |st.out| then Stuck
    else Next(State(p, st.out[..|st.out| - st.lastsz] + [STAR_CHAR], 1, st.parens))
  }

  // ----- one round of the loop -----

  function OpenParen(s: seq<byte>, st: State): Step
    requires st.pos < |s|
  {
    var p := st.pos + 1;
    if Peek(s, p) == QUERY && Peek(s, p + 1) == COLON then Next(st.(pos := p + 2, parens := st.parens + [|st.out|]))
    else if Peek(s, p) == QUERY && (Peek(s, p + 1) == EQUALS || Peek(s, p + 1) == BANG) then
      Next(st.(pos := ChopNested(s, p + 2, 0)))
    else if Peek(s, p) == QUERY && Peek(s, p + 1) == HASH then
      var q := ChopTo(s, p, RPAREN);
      if q == |s| then Stuck else Next(st.(pos := q + 1))
    else Next(st.(pos := p, parens := st.parens + [|st.out|]))
  }

  function CloseParen(st: State): Step {
    var n := |st.parens|;
    if n == 0 then Stuck
    else Next(State(st.pos + 1, st.out, |st.out| - st.parens[n - 1], st.parens[..n - 1]))
  }

  function HexEscape(s: seq<byte>, st: State, p: nat, b: Backslash): Step
    requires p <= |s|
  {
    if IsHexDigit(Peek(s, p)) then
      var q := SkipHex(s, p);
      Next(Emit(st, q, Quote(b(LETTER_x, s[if q - p > 2 then q - 2 else p..q]))))
    else Next(Emit(st, p, [LETTER_x]))
  }

  function CodeEscape(s: seq<byte>, st: State, p: nat, c: byte, digits: nat, b: Backslash): Step {
    if p + digits > |s| then Stuck else Next(Emit(st, p + digits, Quote(b(c, s[p..p + digits]))))
  }

  /** An escape that may have more than one character, from the one at p on. */
  function LongEscape(s: seq<byte>, st: State, p: nat, b: Backslash): Step
    requires p < |s|
  {
    var c := s[p];
    if c == LETTER_x then HexEscape(s, st, p + 1, b)
    else if c == LETTER_u then CodeEscape(s, st, p + 1, c, 4, b)
    else if c == LETTER_U then CodeEscape(s, st, p + 1, c, 8, b)
    else if IsDigit(c) then Next(Emit(st, SkipDigits(s, p + 1), [STAR_CHAR]))
    else Next(Emit(st, p + 1, Quote(c)))
  }

  function Escape(s: seq<byte>, st: State, b: Backslash): Step
    requires st.pos < |s|
  {
    var p := st.pos + 1;
    if p == |s| then Stuck
    else
      var c := s[p];
      if IsShorthand(c) then Next(Emit(st, p + 1, [QUERY]))
      else if IsConstraint(c) then Next(st.(pos := p + 1))
      else if Control(c).Some? then
        Next(Emit(st, p + 1, if c == LETTER_B then [BACKSLASH, BACKSLASH] else [Control(c).value]))
      else if c == LETTER_c && p + 2 <= |s| then Next(Emit(st, p + 2, [QUERY]))
      else LongEscape(s, st, p, b)
  }

  /** Past a `?` that makes a quantifier not greedy. */
  function SkipLazy(s: seq<byte>, p: nat): (r: nat)
    requires p <= |s|
    ensures p <= r <= |s|
  {
    if Peek(s, p) == QUERY then p + 1 else p
  }

  function Brace(s: seq<byte>, st: State): Step
    requires st.pos < |s|
  {
    var p := st.pos + 1;
    if IsDigit(Peek(s, p)) then
      var q := ChopTo(s, p, RBRACE);
      if q == |s| then Stuck else Quantify(st, SkipLazy(s, q + 1))
    else Next(Emit(st, p, [LBRACE]))
  }

  function StepAt(s: seq<byte>, st: State, b: Backslash): Step
    requires st.pos < |s|
  {
    var c := s[st.pos];
    if c == BAR then Branching
    else if c == LPAREN then OpenParen(s, st)
    else if c == RPAREN then CloseParen(st)
    else if c == DOLLAR || c == CARET then Next(st.(pos := st.pos + 1))
    else if c == LBRACKET then
      var q := ClassEnd(s, st.pos + 1, true, true);
      if q.None? then Stuck else Next(Emit(st, q.value, [QUERY]))
    else if c == BACKSLASH then Escape(s, st, b)
    else if c == LBRACE then Brace(s, st)
    else if c == STAR_CHAR || c == PLUS_CHAR || c == QUERY then Quantify(st, SkipLazy(s, st.pos + 1))
    else if c == DOT then Next(Emit(st, st.pos + 1, [QUERY]))
    else Next(Emit(st, st.pos + 1, [c]))
  }

  /** A round moves on, writes at most two characters for each read, and opens at most one
      group. */
  predicate Moves(s: seq<byte>, st: State, r: Step) {
    r.Next? ==> st.pos < r.st.pos <= |s| && |r.st.out| <= |st.out| + 2 * (r.st.pos - st.pos)
                && |r.st.parens| <= |st.parens| + (r.st.pos - st.pos)
  }

  lemma EmitMoves(s: seq<byte>, st: State, p: nat, x: seq<byte>)
    requires st.pos < p <= |s| && |x| <= 2 * (p - st.pos)
    ensures Moves(s, st, Next(Emit(st, p, x)))
  {}

  lemma QuantifyMoves(s: seq<byte>, st: State, p: nat)
    requires st.pos < p <= |s|
    ensures Moves(s, st, Quantify(st, p))
  {}

  lemma OpenMoves(s: seq<byte>, st: State)
    requires st.pos < |s|
    ensures Moves(s, st, OpenParen(s, st))
  {
    hide ChopNested, ChopTo;
  }

  lemma EscapeMoves(s: seq<byte>, st: State, b: Backslash)
    requires st.pos < |s|
    ensures Moves(s, st, Escape(s, st, b))
  {
    hide Emit, Quote, SkipHex, SkipDigits, Moves, IsShorthand, IsHexDigit, IsDigit;
    forall p: nat, x: seq<byte> | st.pos < p <= |s| && |x| <= 2 * (p - st.pos)
      ensures Moves(s, st, Next(Emit(st, p, x)))
    {
      EmitMoves(s, st, p, x);
    }
    forall c ensures |Quote(c)| <= 2 { QuoteFits(c); }
    if st.pos + 1 < |s| && IsConstraint(s[st.pos + 1]) {
      SkipMoves(s, st, st.pos + 2);
    }
    StuckMoves(s, st);
  }

  lemma QuoteFits(c: byte)
    ensures 1 <= |Quote(c)| <= 2
  {}

  lemma SkipMoves(s: seq<byte>, st: State, p: nat)
    requires st.pos < p <= |s|
    ensures Moves(s, st, Next(st.(pos := p)))
  {}

  lemma StuckMoves(s: seq<byte>, st: State)
    ensures Moves(s, st, Stuck)
  {}

  lemma BraceMoves(s: seq<byte>, st: State)
    requires st.pos < |s|
    ensures Moves(s, st, Brace(s, st))
  {
    hide ChopTo;
  }

  lemma StepMoves(s: seq<byte>, st: State, b: Backslash)
    requires st.pos < |s|
    ensures Moves(s, st, StepAt(s, st, b))
  {
    hide OpenParen, Escape, Brace, ClassEnd, Quantify;
    OpenMoves(s, st);
    EscapeMoves(s, st, b);
    BraceMoves(s, st);
    QuantifyMoves(s, st, SkipLazy(s, st.pos + 1));
  }

  // ----- the whole text -----

  function Run(s: seq<byte>, st: State, expanded: bool, b: Backslash): Ran
    requires st.pos <= |s|
    decreases |s| - st.pos
  {
    if st.pos == |s| then Ended(st.out)
    else
      var p := if expanded then SkipBlanks(s, st.pos) else st.pos;
      if p == |s| then Astray
      else if expanded && s[p] == HASH then
        var q := ChopTo(s, p, NEWLINE);
        Run(s, st.(pos := if q < |s| then q + 1 else q), expanded, b)
      else
        StepMoves(s, st.(pos := p), b);
        match StepAt(s, st.(pos := p), b)
        case Branching => Abandoned
        case Stuck => Astray
        case Next(st') => Run(s, st', expanded, b)
  }

  /** A literal, quoted (ExpLiteral). */
  function Literal(s: seq<byte>, p: nat): (r: seq<byte>)
    requires p <= |s|
    ensures |r| <= 2 * (|s| - p)
    decreases |s| - p
  {
    if p == |s| then [] else Quote(s[p]) + Literal(s, p + 1)
  }

  /** How a text begins: where the expression starts, whether it is a literal, and whether it
      is in expanded syntax. */
  datatype Start = Start(pos: nat, literal: bool, expanded: bool) | BadStart

  predicate HasDirector(s: seq<byte>, c: byte) {
    |s| >= 4 && s[0] == STAR_CHAR && s[1] == STAR_CHAR && s[2] == STAR_CHAR && s[3] == c
  }

  predicate AllOptions(x: seq<byte>) {
    forall k :: 0 <= k < |x| ==> IsOption(x[k])
  }

  function ReadStart(s: seq<byte>): (r: Start)
    ensures r.Start? ==> r.pos <= |s|
  {
    if HasDirector(s, EQUALS) then Start(4, true, false)
    else
      var p := if HasDirector(s, COLON) then 4 else 0;
      if Peek(s, p) == LPAREN && Peek(s, p + 1) == QUERY then
        var stop := ChopTo(s, p + 2, RPAREN);
        var opts := s[p + 2..stop];
        if !AllOptions(opts) then Start(p, false, false)
        else if stop == |s| then BadStart
        else Start(stop + 1, LETTER_q in opts, LETTER_x in opts)
      else Start(p, false, false)
  }

  /** The clean-up passes, and the test whether the pattern is of use. */
  function Finish(x: seq<byte>): (r: Outcome)
    ensures !r.Undefined? && (r.Glob? ==> |r.text| <= |x|)
  {
    var y := Stars(QBack([], QForward(x, false, false), false), false, false);
    if CountStars(y, false) > 2 || y == [] || y == [STAR_CHAR] || y == [QUERY] then NoGate else Glob(y)
  }

  function ReToGlob(s: seq<byte>, b: Backslash): Outcome {
    match ReadStart(s)
    case BadStart => Undefined
    case Start(p, literal, expanded) =>
      if literal then Glob(Literal(s, p))
      else
        match Run(s, State(p, [], -1, []), expanded, b)
        case Ended(out) => Finish(out)
        case Abandoned => NoGate
        case Astray => Undefined
  }

  lemma {:induction false} RunFits(s: seq<byte>, st: State, expanded: bool, b: Backslash)
    requires st.pos <= |s| && |st.out| <= 2 * st.pos
    ensures var r := Run(s, st, expanded, b); r.Ended? ==> |r.out| <= 2 * |s|
    decreases |s| - st.pos
  {
    hide StepAt;
    if st.pos < |s| {
      var p := if expanded then SkipBlanks(s, st.pos) else st.pos;
      if p < |s| {
        if expanded && s[p] == HASH {
          var q := ChopTo(s, p, NEWLINE);
          RunFits(s, st.(pos := if q < |s| then q + 1 else q), expanded, b);
        } else {
          StepMoves(s, st.(pos := p), b);
          var r := StepAt(s, st.(pos := p), b);
          if r.Next? {
            RunFits(s, r.st, expanded, b);
          }
        }
      }
    }
  }

  /** The output is at most twice as long as the input. */
  lemma OutputFits(s: seq<byte>, b: Backslash)
    ensures var r := ReToGlob(s, b); r.Glob? ==> |r.text| <= 2 * |s|
  {
    hide Run;
    var r := ReadStart(s);
    if r.Start? && !r.literal {
      RunFits(s, State(r.pos, [], -1, []), r.expanded, b);
    }
  }
}
