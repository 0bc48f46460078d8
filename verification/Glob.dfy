/** Glob patterns of exp_glob.c and exp_clib.c: how they are read and what they match.

    A pattern is read as a list of tokens.  `*` stands for any string, `?` for any
    character, a bracket class for one of its characters, a final `$` for the end of the
    string.  Patterns match prefixes of what stands at a place of a string. */
module Glob {
  import opened Chars

  /** Which matcher: the wide one of exp_glob.c, which may fold case, or that of exp_clib.c. */
  datatype Dialect = Dialect(wide: bool, nocase: bool, lower: byte -> byte)

  function Fold(d: Dialect, c: byte): byte {
    if d.nocase then d.lower(c) else c
  }

  /** A range of a class, given by its ends in either order. */
  datatype Range = Range(a: byte, b: byte)

  datatype Token = Star | AnyOne | Class(items: seq<Range>) | Lit(c: byte) | End

  datatype Tokens = Nil | Cons(head: Token, tail: Tokens)

  predicate InRange(r: Range, c: byte) {
    r.a <= c <= r.b || r.b <= c <= r.a
  }

  predicate InClass(items: seq<Range>, c: byte) {
    exists r :: r in items && InRange(r, c)
  }

  /** The character c satisfies the token. */
  predicate Accepts(d: Dialect, t: Token, c: byte) {
    match t
    case AnyOne => true
    case Class(items) => InClass(items, c)
    case Lit(x) => Fold(d, c) == Fold(d, x)
    case Star => false
    case End => false
  }

  /** The tokens match s from i to j. */
  ghost predicate Fits(d: Dialect, ts: Tokens, s: seq<byte>, i: nat, j: nat)
    decreases ts
  {
    match ts
    case Nil => i == j <= |s|
    case Cons(t, rest) =>
      match t
      case Star => exists m: nat :: i <= m && Fits(d, rest, s, m, j)
      case End => i == |s| && Fits(d, rest, s, i, j)
      case _ => i < |s| && Accepts(d, t, s[i]) && Fits(d, rest, s, i + 1, j)
  }

  /** Some prefix of what stands at i matches. */
  ghost predicate Matches(d: Dialect, ts: Tokens, s: seq<byte>, i: nat) {
    exists j: nat :: Fits(d, ts, s, i, j)
  }

  /** r is the length of the longest prefix at i that matches, or -1 if none does. */
  ghost predicate IsLongest(d: Dialect, ts: Tokens, s: seq<byte>, i: nat, r: int) {
    if r == -1 then !Matches(d, ts, s, i)
    else r >= 0 && Fits(d, ts, s, i, i + r) && forall j: nat :: Fits(d, ts, s, i, j) ==> j <= i + r
  }

  // ----- reading a pattern -----

  /** The ranges of a class and the position after it. */
  datatype ClassText = ClassText(items: seq<Range>, next: nat)

  /** A class from position k inside it: up to its closing bracket or the end of the pattern.
      A range cut short by the end of the pattern is dropped by the wide matcher and taken
      for its first character by the other. */
  function ReadClass(d: Dialect, p: seq<byte>, k: nat): (r: ClassText)
    requires k <= |p|
    ensures k <= r.next <= |p|
    decreases |p| - k
  {
    if k == |p| then ClassText([], k)
    else if p[k] == RBRACKET then ClassText([], k + 1)
    else
      var a := Fold(d, p[k]);
      if Peek(p, k + 1) != MINUS then
        var rest := ReadClass(d, p, k + 1);
        ClassText([Range(a, a)] + rest.items, rest.next)
      else if k + 2 == |p| then ClassText(if d.wide then [] else [Range(a, a)], |p|)
      else
        var rest := ReadClass(d, p, k + 3);
        ClassText([Range(a, Fold(d, p[k + 2]))] + rest.items, rest.next)
  }

  /** The tokens of the pattern from k on. */
  function Read(d: Dialect, p: seq<byte>, k: nat): Tokens
    decreases |p| - k
  {
    if k >= |p| then Nil
    else if p[k] == DOLLAR && k + 1 == |p| then Cons(End, Nil)
    else if p[k] == STAR_CHAR then Cons(Star, Read(d, p, k + 1))
    else if p[k] == QUERY then Cons(AnyOne, Read(d, p, k + 1))
    else if p[k] == LBRACKET then
      var c := ReadClass(d, p, k + 1);
      Cons(Class(c.items), Read(d, p, c.next))
    else if p[k] != BACKSLASH then Cons(Lit(p[k]), Read(d, p, k + 1))
    else if k + 1 == |p| then Cons(Class([]), Nil)
    else Cons(Lit(p[k + 1]), Read(d, p, k + 2))
  }

  /** The position of the next range of a class. */
  function NextRange(p: seq<byte>, k: nat): (n: nat)
    requires k < |p|
    ensures k < n
  {
    if Peek(p, k + 1) == MINUS then k + 3 else k + 1
  }

  /** No range of the class from k on ends with a bracket, unless the pattern ends there. */
  predicate BracketFree(p: seq<byte>, k: nat)
    decreases |p| - k
  {
    k >= |p| || p[k] == RBRACKET
    || ((Peek(p, k + 1) == MINUS && Peek(p, k + 2) == RBRACKET ==> k + 3 == |p|) && BracketFree(p, NextRange(p, k)))
  }

  /** The class ends where the matcher takes it to end: no range ends with a bracket, but for
      the wide matcher the first may. */
  predicate PlainClass(d: Dialect, p: seq<byte>, k: nat) {
    k >= |p| || p[k] == RBRACKET || BracketFree(p, if d.wide then NextRange(p, k) else k)
  }

  predicate PlainFrom(d: Dialect, p: seq<byte>, k: nat)
    decreases |p| - k
  {
    if k >= |p| then true
    else if p[k] == LBRACKET then PlainClass(d, p, k + 1) && PlainFrom(d, p, ReadClass(d, p, k + 1).next)
    else if p[k] == BACKSLASH then PlainFrom(d, p, k + 2)
    else PlainFrom(d, p, k + 1)
  }

  /** The pattern ends in a star directly followed by the final `$`. */
  predicate StarAtEnd(ts: Tokens) {
    ts.Cons? && ((ts.head.Star? && ts.tail == Cons(End, Nil)) || StarAtEnd(ts.tail))
  }

  /** The wide matcher never matches such a pattern. */
  predicate Missed(d: Dialect, ts: Tokens) {
    d.wide && StarAtEnd(ts)
  }

  predicate BareEnd(ts: Tokens) {
    ts == Cons(End, Nil)
  }

  // ----- laws of matching -----

  lemma {:induction false} FitsInside(d: Dialect, ts: Tokens, s: seq<byte>, i: nat, j: nat)
    requires Fits(d, ts, s, i, j)
    ensures i <= j <= |s|
    decreases ts
  {
    if ts.Cons? {
      if ts.head.Star? {
        var m: nat :| i <= m && Fits(d, ts.tail, s, m, j);
        FitsInside(d, ts.tail, s, m, j);
      } else {
        FitsInside(d, ts.tail, s, if ts.head.End? then i else i + 1, j);
      }
    }
  }

  /** Starting later never makes the longest match end earlier. */
  lemma {:induction false} LaterReachesFurther(d: Dialect, ts: Tokens, s: seq<byte>, i: nat, j: nat, i': nat, j': nat)
    returns (e: nat)
    requires Fits(d, ts, s, i, j) && Fits(d, ts, s, i', j') && i <= i'
    ensures j <= e && Fits(d, ts, s, i', e)
    decreases ts
  {
    e := j';
    if ts.Cons? {
      if ts.head.Star? {
        var m: nat :| i <= m && Fits(d, ts.tail, s, m, j);
        var m': nat :| i' <= m' && Fits(d, ts.tail, s, m', j');
        if i' <= m {
          e := j;
        } else {
          e := LaterReachesFurther(d, ts.tail, s, m, j, m', j');
        }
      } else if ts.head.End? {
        e := LaterReachesFurther(d, ts.tail, s, i, j, i', j');
      } else {
        e := LaterReachesFurther(d, ts.tail, s, i + 1, j, i' + 1, j');
      }
    }
  }

  lemma StarFits(d: Dialect, rest: Tokens, s: seq<byte>, i: nat, m: nat, j: nat)
    requires i <= m && Fits(d, rest, s, m, j)
    ensures Fits(d, Cons(Star, rest), s, i, j)
  {}

  lemma StarSplits(d: Dialect, rest: Tokens, s: seq<byte>, i: nat, j: nat) returns (m: nat)
    requires Fits(d, Cons(Star, rest), s, i, j)
    ensures i <= m <= j <= |s| && Fits(d, rest, s, m, j)
  {
    m :| i <= m && Fits(d, rest, s, m, j);
    FitsInside(d, rest, s, m, j);
  }

  lemma TwoStars(d: Dialect, rest: Tokens, s: seq<byte>, i: nat, j: nat)
    ensures Fits(d, Cons(Star, Cons(Star, rest)), s, i, j) <==> Fits(d, Cons(Star, rest), s, i, j)
  {
    hide Fits;
    if Fits(d, Cons(Star, Cons(Star, rest)), s, i, j) {
      var m := StarSplits(d, Cons(Star, rest), s, i, j);
      var m' := StarSplits(d, rest, s, m, j);
      StarFits(d, rest, s, i, m', j);
    }
    if Fits(d, Cons(Star, rest), s, i, j) {
      StarFits(d, Cons(Star, rest), s, i, i, j);
    }
  }
}
