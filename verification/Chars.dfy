/** Characters and C strings. */
module Chars {
  /** Characters, bytes or wider, are kept as their codes. */
  type byte = int

  datatype Option<+T> = None | Some(value: T) {
    function GetOr(default: T): T {
      if Some? then value else default
    }
  }

  const NUL: byte := 0
  const DOLLAR: byte := 36
  const LPAREN: byte := 40
  const RPAREN: byte := 41
  const STAR_CHAR: byte := 42
  const PLUS_CHAR: byte := 43
  const MINUS: byte := 45
  const DOT: byte := 46
  const QUERY: byte := 63
  const LBRACKET: byte := 91
  const BACKSLASH: byte := 92
  const RBRACKET: byte := 93
  const CARET: byte := 94
  const BAR: byte := 124

  /** Reading at i, where a string ends with NUL. */
  function Peek(s: seq<byte>, i: nat): (c: byte) {
    if i < |s| then s[i] else NUL
  }

  /** x stands in s at position p. */
  predicate At(s: seq<byte>, p: int, x: seq<byte>) {
    0 <= p && p + |x| <= |s| && s[p..p + |x|] == x
  }

  lemma AtSplit(s: seq<byte>, p: int, x: seq<byte>, y: seq<byte>)
    ensures At(s, p, x + y) <==> At(s, p, x) && At(s, p + |x|, y)
  {
    if At(s, p, x + y) {
      assert s[p..p + |x|] == (x + y)[..|x|] == x;
      assert s[p + |x|..p + |x| + |y|] == (x + y)[|x|..] == y;
    }
    if At(s, p, x) && At(s, p + |x|, y) {
      assert s[p..p + |x + y|] == x + y;
    }
  }

  lemma At3(s: seq<byte>, p: int, x: seq<byte>, y: seq<byte>, z: seq<byte>)
    requires At(s, p, x + (y + z))
    ensures At(s, p, x) && At(s, p + |x|, y) && At(s, p + |x| + |y|, z)
  {
    AtSplit(s, p, x, y + z);
    AtSplit(s, p + |x|, y, z);
  }

  lemma At4(s: seq<byte>, p: int, w: seq<byte>, x: seq<byte>, y: seq<byte>, z: seq<byte>)
    requires At(s, p, w + (x + (y + z)))
    ensures At(s, p, w) && At(s, p + |w|, x)
    ensures At(s, p + |w| + |x|, y) && At(s, p + |w| + |x| + |y|, z)
  {
    AtSplit(s, p, w, x + (y + z));
    At3(s, p + |w|, x, y, z);
  }

  lemma AtFits(s: seq<byte>, p: int, x: seq<byte>)
    requires At(s, p, x)
    ensures 0 <= p && p + |x| <= |s|
  {}
}
