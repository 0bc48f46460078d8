/** Glob patterns as the translator in retoglob.c writes them, and its clean-up passes.

    The output is a sequence of units: stars, question marks, characters and quoted
    characters.  The passes drop question marks next to stars and collapse stars; they
    work on the text, know only whether the character in front was a backslash, and never
    make the pattern match less. */
module GateUnits {
  import opened Chars
  import opened Glob
  import opened GlobSteps

  datatype Unit = AnyString | AnyChar | Raw(c: byte) | Quoted(c: byte)

  /** Characters that stand for themselves in a glob pattern wherever they are. */
  predicate PlainInGlob(c: byte) {
    c != STAR_CHAR && c != QUERY && c != LBRACKET && c != BACKSLASH && c != DOLLAR && c != CARET
  }

  function UnitText(u: Unit): (x: seq<byte>)
    ensures 1 <= |x| <= 2
  {
    match u
    case AnyString => [STAR_CHAR]
    case AnyChar => [QUERY]
    case Raw(c) => [c]
    case Quoted(c) => [BACKSLASH, c]
  }

  function Text(us: seq<Unit>): seq<byte> {
    if us == [] then [] else UnitText(us[0]) + Text(us[1..])
  }

  predicate UnitsOk(us: seq<Unit>) {
    forall k :: 0 <= k < |us| ==> us[k].Raw? ==> PlainInGlob(us[k].c)
  }

  function UnitToken(u: Unit): Token {
    match u
    case AnyString => Star
    case AnyChar => AnyOne
    case Raw(c) => Lit(c)
    case Quoted(c) => Lit(c)
  }

  function ToTokens(us: seq<Unit>): Tokens {
    if us == [] then Nil else Cons(UnitToken(us[0]), ToTokens(us[1..]))
  }

  /** The units match s from i to j. */
  ghost predicate UnitsFit(d: Dialect, us: seq<Unit>, s: seq<byte>, i: nat, j: nat) {
    Fits(d, ToTokens(us), s, i, j)
  }

  /** Whatever x matches, y matches. */
  ghost predicate Larger(d: Dialect, x: seq<Unit>, y: seq<Unit>) {
    forall s: seq<byte>, i: nat, j: nat :: UnitsFit(d, x, s, i, j) ==> UnitsFit(d, y, s, i, j)
  }

  // ----- text and tokens -----

  lemma {:induction false} TextJoin(x: seq<Unit>, y: seq<Unit>)
    ensures Text(x + y) == Text(x) + Text(y)
  {
    if x == [] {
      assert x + y == y;
    } else {
      assert (x + y)[1..] == x[1..] + y;
      TextJoin(x[1..], y);
    }
  }

  lemma TextOne(u: Unit)
    ensures Text([u]) == UnitText(u) && ToTokens([u]) == Cons(UnitToken(u), Nil)
  {
    assert [u][1..] == [];
  }

  /** The text reads as the units, and holds no class. */
  lemma {:induction false} ReadUnits(d: Dialect, pre: seq<byte>, us: seq<Unit>)
    requires UnitsOk(us)
    ensures Read(d, pre + Text(us), |pre|) == ToTokens(us) && PlainFrom(d, pre + Text(us), |pre|)
    decreases |us|
  {
    var p := pre + Text(us);
    if us != [] {
      var x := UnitText(us[0]);
      ReadUnits(d, pre + x, us[1..]);
      assert p == pre + x + Text(us[1..]);
      assert p[|pre|] == x[0] && (|x| == 2 ==> p[|pre| + 1] == x[1]);
      assert |pre + x| == |pre| + |x|;
    }
  }

  lemma {:induction false} FitJoin(d: Dialect, x: seq<Unit>, y: seq<Unit>, s: seq<byte>, i: nat, m: nat, j: nat)
    requires UnitsFit(d, x, s, i, m) && UnitsFit(d, y, s, m, j)
    ensures UnitsFit(d, x + y, s, i, j)
    decreases |x|
  {
    if x == [] {
      assert x + y == y;
    } else {
      assert (x + y)[1..] == x[1..] + y;
      if x[0].AnyString? {
        var k := StarSplits(d, ToTokens(x[1..]), s, i, m);
        FitJoin(d, x[1..], y, s, k, m, j);
        StarFits(d, ToTokens(x[1..] + y), s, i, k, j);
      } else {
        FitJoin(d, x[1..], y, s, i + 1, m, j);
      }
    }
  }

  lemma {:induction false} FitSplit(d: Dialect, x: seq<Unit>, y: seq<Unit>, s: seq<byte>, i: nat, j: nat)
    returns (m: nat)
    requires UnitsFit(d, x + y, s, i, j)
    ensures UnitsFit(d, x, s, i, m) && UnitsFit(d, y, s, m, j) && i <= m <= j <= |s|
    decreases |x|
  {
    FitsInside(d, ToTokens(x + y), s, i, j);
    if x == [] {
      assert x + y == y;
      m := i;
    } else {
      assert (x + y)[1..] == x[1..] + y;
      if x[0].AnyString? {
        var k := StarSplits(d, ToTokens(x[1..] + y), s, i, j);
        m := FitSplit(d, x[1..], y, s, k, j);
        StarFits(d, ToTokens(x[1..]), s, i, k, m);
      } else {
        m := FitSplit(d, x[1..], y, s, i + 1, j);
      }
    }
  }

  lemma LargerTrans(d: Dialect, x: seq<Unit>, y: seq<Unit>, z: seq<Unit>)
    requires Larger(d, x, y) && Larger(d, y, z)
    ensures Larger(d, x, z)
  {
    hide UnitsFit;
  }

  lemma LargerInside(d: Dialect, pre: seq<Unit>, x: seq<Unit>, y: seq<Unit>, post: seq<Unit>)
    requires Larger(d, x, y)
    ensures Larger(d, pre + x + post, pre + y + post)
  {
    hide UnitsFit;
    forall s: seq<byte>, i: nat, j: nat | UnitsFit(d, pre + x + post, s, i, j)
      ensures UnitsFit(d, pre + y + post, s, i, j)
    {
      var n := FitSplit(d, pre + x, post, s, i, j);
      var m := FitSplit(d, pre, x, s, i, n);
      FitJoin(d, pre, y, s, i, m, n);
      FitJoin(d, pre + y, post, s, i, n, j);
    }
  }

  lemma AnyStringFits(d: Dialect, s: seq<byte>, i: nat, j: nat)
    ensures UnitsFit(d, [AnyString], s, i, j) <==> i <= j <= |s|
  {
    TextOne(AnyString);
    if UnitsFit(d, [AnyString], s, i, j) {
      FitsInside(d, Cons(Star, Nil), s, i, j);
    }
    if i <= j <= |s| {
      assert Fits(d, Nil, s, j, j);
      StarFits(d, Nil, s, i, j, j);
    }
  }

  lemma OneFits(d: Dialect, u: Unit, s: seq<byte>, i: nat, j: nat)
    requires !u.AnyString?
    ensures UnitsFit(d, [u], s, i, j) <==> j == i + 1 <= |s| && Accepts(d, UnitToken(u), s[i])
  {
    TextOne(u);
    assert Fits(d, Nil, s, i + 1, j) <==> j == i + 1 <= |s|;
  }

  // ----- question marks after a star are dropped (ExpCollapseQForward) -----

  function QForward(x: seq<byte>, skip: bool, quest: bool): (r: seq<byte>)
    ensures |r| <= |x|
  {
    if x == [] then []
    else if skip then [x[0]] + QForward(x[1..], false, false)
    else if x[0] == BACKSLASH then [x[0]] + QForward(x[1..], true, false)
    else if x[0] == QUERY && quest then QForward(x[1..], false, true)
    else [x[0]] + QForward(x[1..], false, x[0] == STAR_CHAR)
  }

  function QForwardUnits(us: seq<Unit>, quest: bool): seq<Unit> {
    if us == [] then []
    else if us[0].AnyChar? && quest then QForwardUnits(us[1..], true)
    else [us[0]] + QForwardUnits(us[1..], us[0].AnyString?)
  }

  lemma QForwardStep(u: Unit, t: seq<byte>, quest: bool)
    requires u.Raw? ==> PlainInGlob(u.c)
    ensures QForward(UnitText(u) + t, false, quest)
         == if u.AnyChar? && quest then QForward(t, false, true) else UnitText(u) + QForward(t, false, u.AnyString?)
  {
    var x := UnitText(u) + t;
    if u.Quoted? {
      assert x[1..] == [u.c] + t && x[1..][1..] == t;
    } else {
      assert x[1..] == t;
    }
  }

  lemma {:induction false} QForwardText(us: seq<Unit>, quest: bool)
    requires UnitsOk(us)
    ensures QForward(Text(us), false, quest) == Text(QForwardUnits(us, quest)) && UnitsOk(QForwardUnits(us, quest))
    decreases |us|
  {
    hide QForward, UnitText;
    if us == [] {
      assert QForward([], false, quest) == [] by { QForwardEmpty(quest); }
    } else {
      var u, rest := us[0], us[1..];
      var more := !(u.AnyChar? && quest);
      QForwardStep(u, Text(rest), quest);
      QForwardText(rest, if more then u.AnyString? else true);
      if more { TextFront(u, QForwardUnits(rest, u.AnyString?)); }
    }
  }

  lemma QForwardEmpty(quest: bool)
    ensures QForward([], false, quest) == []
  {}

  lemma TextFront(u: Unit, us: seq<Unit>)
    ensures Text([u] + us) == UnitText(u) + Text(us)
  {
    assert ([u] + us)[1..] == us;
  }

  lemma StarFront(us: seq<Unit>)
    ensures ToTokens([AnyString] + us) == Cons(Star, ToTokens(us))
  {
    assert ([AnyString] + us)[1..] == us;
  }

  lemma UnitFront(u: Unit, us: seq<Unit>)
    ensures ToTokens([u] + us) == Cons(UnitToken(u), ToTokens(us))
  {
    assert ([u] + us)[1..] == us;
  }

  /** With a star in front (quest) the match may begin earlier. */
  lemma {:induction false} QForwardEnlarges(d: Dialect, us: seq<Unit>, quest: bool, s: seq<byte>, i0: nat, i: nat,
                                            j: nat)
    requires UnitsFit(d, us, s, i, j) && if quest then i0 <= i else i0 == i
    ensures UnitsFit(d, if quest then [AnyString] + QForwardUnits(us, true) else QForwardUnits(us, false), s, i0, j)
    decreases |us|
  {
    var r := QForwardUnits(us, quest);
    if us == [] {
      if quest { StarFront(r); StarFits(d, Nil, s, i0, i, j); }
    } else {
      var u, rest := us[0], us[1..];
      if u.AnyString? {
        var m := StarSplits(d, ToTokens(rest), s, i, j);
        QForwardEnlarges(d, rest, true, s, i, m, j);
      } else if u.AnyChar? && quest {
        QForwardEnlarges(d, rest, true, s, i0, i + 1, j);
      } else {
        QForwardEnlarges(d, rest, false, s, i + 1, i + 1, j);
        UnitFront(u, QForwardUnits(rest, false));
      }
      if quest && !u.AnyChar? { StarFront(r); StarFits(d, ToTokens(r), s, i0, i, j); }
    }
  }

  lemma QForwardLarger(d: Dialect, us: seq<Unit>)
    ensures Larger(d, us, QForwardUnits(us, false))
  {
    hide UnitsFit;
    forall s: seq<byte>, i: nat, j: nat | UnitsFit(d, us, s, i, j)
      ensures UnitsFit(d, QForwardUnits(us, false), s, i, j)
    {
      QForwardEnlarges(d, us, false, s, i, i, j);
    }
  }

  // ----- stars are collapsed (ExpCollapseStar) -----

  function Stars(x: seq<byte>, skip: bool, star: bool): (r: seq<byte>)
    ensures |r| <= |x|
  {
    if x == [] then []
    else if skip then [x[0]] + Stars(x[1..], false, false)
    else if x[0] == BACKSLASH then [x[0]] + Stars(x[1..], true, false)
    else if x[0] == STAR_CHAR && star then Stars(x[1..], false, true)
    else [x[0]] + Stars(x[1..], false, x[0] == STAR_CHAR)
  }

  function StarsUnits(us: seq<Unit>, star: bool): seq<Unit> {
    if us == [] then []
    else if us[0].AnyString? && star then StarsUnits(us[1..], true)
    else [us[0]] + StarsUnits(us[1..], us[0].AnyString?)
  }

  lemma StarsStep(u: Unit, t: seq<byte>, star: bool)
    requires u.Raw? ==> PlainInGlob(u.c)
    ensures Stars(UnitText(u) + t, false, star)
         == if u.AnyString? && star then Stars(t, false, true) else UnitText(u) + Stars(t, false, u.AnyString?)
  {
    var x := UnitText(u) + t;
    if u.Quoted? {
      assert x[1..] == [u.c] + t && x[1..][1..] == t;
    } else {
      assert x[1..] == t;
    }
  }

  lemma {:induction false} StarsText(us: seq<Unit>, star: bool)
    requires UnitsOk(us)
    ensures Stars(Text(us), false, star) == Text(StarsUnits(us, star)) && UnitsOk(StarsUnits(us, star))
    decreases |us|
  {
    hide Stars, UnitText;
    if us == [] {
      assert Stars([], false, star) == [] by { StarsEmpty(star); }
    } else {
      var u, rest := us[0], us[1..];
      var more := !(u.AnyString? && star);
      StarsStep(u, Text(rest), star);
      StarsText(rest, if more then u.AnyString? else true);
      if more { TextFront(u, StarsUnits(rest, u.AnyString?)); }
    }
  }

  lemma StarsEmpty(star: bool)
    ensures Stars([], false, star) == []
  {}

  lemma UnderStar(d: Dialect, x: seq<Unit>, y: seq<Unit>, s: seq<byte>, i: nat, j: nat)
    requires forall m: nat :: UnitsFit(d, x, s, m, j) ==> UnitsFit(d, y, s, m, j)
    ensures UnitsFit(d, [AnyString] + x, s, i, j) ==> UnitsFit(d, [AnyString] + y, s, i, j)
  {
    hide Fits;
    if UnitsFit(d, [AnyString] + x, s, i, j) {
      StarFront(x);
      StarFront(y);
      var m := StarSplits(d, ToTokens(x), s, i, j);
      assert UnitsFit(d, x, s, m, j);
      StarFits(d, ToTokens(y), s, i, m, j);
    }
  }

  /** Collapsing stars keeps the language. */
  lemma {:induction false} StarsSame(d: Dialect, us: seq<Unit>, star: bool, s: seq<byte>, i: nat, j: nat)
    ensures star ==>
              (UnitsFit(d, [AnyString] + us, s, i, j) <==> UnitsFit(d, [AnyString] + StarsUnits(us, true), s, i, j))
    ensures !star ==> (UnitsFit(d, us, s, i, j) <==> UnitsFit(d, StarsUnits(us, false), s, i, j))
    decreases |us|, star
  {
    if us != [] {
      var u, rest := us[0], us[1..];
      if u.AnyString? && star {
        StarFront(us);
        StarFront(rest);
        TwoStars(d, ToTokens(rest), s, i, j);
        StarsSame(d, rest, true, s, i, j);
      } else if star {
        forall m: nat ensures UnitsFit(d, us, s, m, j) <==> UnitsFit(d, StarsUnits(us, true), s, m, j) {
          StarsSame(d, us, false, s, m, j);
        }
        UnderStar(d, us, StarsUnits(us, true), s, i, j);
        UnderStar(d, StarsUnits(us, true), us, s, i, j);
      } else if u.AnyString? {
        assert us == [AnyString] + rest;
        StarsSame(d, rest, true, s, i, j);
      } else {
        UnitFront(u, StarsUnits(rest, false));
        StarsSame(d, rest, false, s, i + 1, j);
      }
    }
  }

  lemma StarsLarger(d: Dialect, us: seq<Unit>)
    ensures Larger(d, us, StarsUnits(us, false)) && Larger(d, StarsUnits(us, false), us)
  {
    hide UnitsFit;
    forall s: seq<byte>, i: nat, j: nat
      ensures UnitsFit(d, us, s, i, j) <==> UnitsFit(d, StarsUnits(us, false), s, i, j)
    {
      StarsSame(d, us, false, s, i, j);
    }
  }

  // ----- question marks before a star are dropped (ExpCollapseQBack) -----

  /** Whether the last character is taken for an unescaped question mark. */
  predicate DropsLast(x: seq<byte>) {
    (|x| > 2 && x[|x| - 1] == QUERY && x[|x| - 2] != BACKSLASH) || (|x| == 1 && x[0] == QUERY)
  }

  function Trim(x: seq<byte>): (r: seq<byte>)
    ensures |r| <= |x| && r == x[..|r|]
  {
    if DropsLast(x) then Trim(x[..|x| - 1]) else x
  }

  function QBack(done: seq<byte>, x: seq<byte>, skip: bool): (r: seq<byte>)
    ensures |r| <= |done| + |x|
    decreases |x|
  {
    if x == [] then done
    else if !skip && x[0] == STAR_CHAR then QBack(Trim(done) + [x[0]], x[1..], false)
    else QBack(done + [x[0]], x[1..], !skip && x[0] == BACKSLASH)
  }

  /** What is dropped is whole question marks. */
  lemma {:induction false} TrimUnits(us: seq<Unit>) returns (n: nat)
    requires UnitsOk(us)
    ensures n <= |us| && Trim(Text(us)) == Text(us[..n]) && forall k :: n <= k < |us| ==> us[k].AnyChar?
    decreases |us|
  {
    n := |us|;
    assert us[..n] == us;
    if us != [] {
      var front, u := us[..|us| - 1], us[|us| - 1];
      assert us == front + [u];
      TextJoin(front, [u]);
      TextOne(u);
      if !u.AnyChar? {
        LastKept(front, u);
      }
      if DropsLast(Text(us)) {
        assert Text(us)[..|Text(us)| - 1] == Text(front);
        n := TrimUnits(front);
        assert front[..n] == us[..n];
      }
    }
  }

  lemma LastKept(front: seq<Unit>, u: Unit)
    requires UnitsOk([u]) && !u.AnyChar?
    ensures !DropsLast(Text(front) + UnitText(u))
  {
    var x := Text(front) + UnitText(u);
    assert x[|x| - 1] == UnitText(u)[|UnitText(u)| - 1];
    assert u.Quoted? ==> x[|x| - 2] == BACKSLASH;
    assert [u][0] == u;
  }

  lemma {:induction false} QuestsBeforeStar(d: Dialect, us: seq<Unit>)
    requires forall k :: 0 <= k < |us| ==> us[k].AnyChar?
    ensures Larger(d, us + [AnyString], [AnyString])
    decreases |us|
  {
    hide UnitsFit;
    forall s: seq<byte>, i: nat, j: nat | UnitsFit(d, us + [AnyString], s, i, j)
      ensures UnitsFit(d, [AnyString], s, i, j)
    {
      var m := FitSplit(d, us, [AnyString], s, i, j);
      AnyStringFits(d, s, i, j);
    }
  }

  lemma {:induction false} QBackLarger(d: Dialect, done: seq<Unit>, us: seq<Unit>) returns (ws: seq<Unit>)
    requires UnitsOk(done) && UnitsOk(us)
    ensures QBack(Text(done), Text(us), false) == Text(ws) && UnitsOk(ws) && Larger(d, done + us, ws)
    decreases |us|
  {
    hide Larger, QBack, Text, Trim, UnitText;
    if us == [] {
      QBackEmpty(Text(done));
      assert done + us == done;
      ws := done;
      LargerSelf(d, done);
    } else {
      var u, rest := us[0], us[1..];
      var n := |done|;
      if u.AnyString? {
        n := TrimUnits(done);
      }
      var kept := done[..n];
      TextJoin(kept, [u]);
      TextOne(u);
      QBackStep(done, n, u, rest);
      assert us == [u] + rest;
      ws := QBackLarger(d, kept + [u], rest);
      if n < |done| {
        QuestsBeforeStar(d, done[n..]);
        LargerInside(d, kept, done[n..] + [AnyString], [AnyString], rest);
        assert kept + (done[n..] + [AnyString]) + rest == done + us;
        LargerTrans(d, done + us, kept + [u] + rest, ws);
      } else {
        assert kept + [u] + rest == done + us;
      }
    }
  }

  lemma QBackEmpty(done: seq<byte>)
    ensures QBack(done, Text([]), false) == done
  {}

  lemma LargerSelf(d: Dialect, us: seq<Unit>)
    ensures Larger(d, us, us)
  {}

  lemma QBackStep(done: seq<Unit>, n: nat, u: Unit, rest: seq<Unit>)
    requires UnitsOk([u]) && n <= |done|
    requires if u.AnyString? then Trim(Text(done)) == Text(done[..n]) else n == |done|
    ensures QBack(Text(done), Text([u] + rest), false) == QBack(Text(done[..n]) + UnitText(u), Text(rest), false)
  {
    var x := UnitText(u);
    assert ([u] + rest)[1..] == rest;
    assert done[..|done|] == done;
    var t := Text([u] + rest);
    assert t == x + Text(rest);
    assert [u][0] == u;
    if u.Quoted? {
      assert t[0] == BACKSLASH && t[1..][0] == u.c && t[1..][1..] == Text(rest);
      assert Text(done) + [BACKSLASH] + [u.c] == Text(done) + x;
      assert QBack(Text(done), t, false) == QBack(Text(done) + [BACKSLASH], t[1..], true);
    } else {
      assert t[0] == x[0] && t[1..] == Text(rest) && x == [x[0]];
    }
  }

  // ----- counting stars (ExpCountStar) -----

  function CountStars(x: seq<byte>, skip: bool): nat {
    if x == [] then 0
    else if skip then CountStars(x[1..], false)
    else (if x[0] == STAR_CHAR then 1 else 0) + CountStars(x[1..], x[0] == BACKSLASH)
  }

  function CountUnits(us: seq<Unit>): nat {
    if us == [] then 0 else (if us[0].AnyString? then 1 else 0) + CountUnits(us[1..])
  }

  lemma {:induction false} CountText(us: seq<Unit>)
    requires UnitsOk(us)
    ensures CountStars(Text(us), false) == CountUnits(us)
    decreases |us|
  {
    if us != [] {
      var u, rest := us[0], us[1..];
      var x := UnitText(u);
      CountText(rest);
      assert Text(us)[1..] == x[1..] + Text(rest);
      if u.Quoted? {
        assert x[1..] == [u.c];
        assert Text(us)[1..][1..] == Text(rest);
      }
    }
  }
}
