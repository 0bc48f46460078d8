/** Glob patterns as the matchers take them, character by character.

    A class is left just after the first bracket that follows the range in which the
    character was found, so where the pattern goes on can depend on the character.  For
    patterns in which no class is left too early this is what Glob says they match. */
module GlobText {
  import opened Chars
  import opened Glob

  /** The matcher of exp_clib.c does not fold case. */
  predicate Reads(d: Dialect) {
    d.wide || !d.nocase
  }

  // ----- bracket classes -----

  /** Just after the first bracket from k on, or the end of the pattern. */
  function AfterBracket(p: seq<byte>, k: nat): (n: nat)
    requires k <= |p|
    ensures k <= n <= |p|
    decreases |p| - k
  {
    if k == |p| then k else if p[k] == RBRACKET then k + 1 else AfterBracket(p, k + 1)
  }

  lemma {:induction false} BracketFreeEnd(d: Dialect, p: seq<byte>, k: nat)
    requires k <= |p| && BracketFree(p, k)
    ensures AfterBracket(p, k) == ReadClass(d, p, k).next
    decreases |p| - k
  {
    if k < |p| && p[k] != RBRACKET {
      if Peek(p, k + 1) != MINUS {
        BracketFreeEnd(d, p, k + 1);
      } else if k + 2 < |p| {
        assert AfterBracket(p, k + 1) == AfterBracket(p, k + 2);
        BracketFreeEnd(d, p, k + 3);
      }
    }
  }

  lemma {:induction false} BracketEndsEarly(d: Dialect, p: seq<byte>, k: nat)
    requires k <= |p| && !BracketFree(p, k)
    ensures AfterBracket(p, k) < ReadClass(d, p, k).next
    decreases |p| - k
  {
    if Peek(p, k + 1) != MINUS {
      BracketEndsEarly(d, p, k + 1);
    } else {
      assert AfterBracket(p, k + 1) == AfterBracket(p, k + 2);
      if p[k + 2] != RBRACKET {
        BracketEndsEarly(d, p, k + 3);
      }
    }
  }

  /** exp_glob.c looks for ch in the class from k on, and then for a bracket behind the range
      that holds it. */
  function WideScan(d: Dialect, p: seq<byte>, k: nat, ch: byte): (r: Option<nat>)
    requires k <= |p|
    ensures r.Some? ==> k <= r.value <= |p|
    decreases |p| - k
  {
    if k == |p| || p[k] == RBRACKET then None
    else
      var a, n := Fold(d, p[k]), NextRange(p, k);
      if n == k + 1 then if a == ch then Some(AfterBracket(p, n)) else WideScan(d, p, n, ch)
      else if k + 2 == |p| then None
      else if InRange(Range(a, Fold(d, p[k + 2])), ch) then Some(AfterBracket(p, n))
      else WideScan(d, p, n, ch)
  }

  /** exp_clib.c looks for the bracket from the beginning of the range on. */
  function ByteScan(p: seq<byte>, k: nat, ch: byte): (r: Option<nat>)
    requires k <= |p|
    ensures r.Some? ==> k < r.value <= |p|
    decreases |p| - k
  {
    if k == |p| || p[k] == RBRACKET then None
    else if p[k] == ch then Some(AfterBracket(p, k))
    else if Peek(p, k + 1) != MINUS then ByteScan(p, k + 1, ch)
    else if k + 2 == |p| then None
    else if InRange(Range(p[k], p[k + 2]), ch) then Some(AfterBracket(p, k))
    else ByteScan(p, k + 3, ch)
  }

  function Scan(d: Dialect, p: seq<byte>, k: nat, ch: byte): (r: Option<nat>)
    requires k <= |p|
    ensures r.Some? ==> k <= r.value <= |p|
  {
    if d.wide then WideScan(d, p, k, ch) else ByteScan(p, k, ch)
  }

  lemma EmptyClass(c: byte)
    ensures !InClass([], c)
  {}

  lemma InClassCons(r: Range, items: seq<Range>, c: byte)
    ensures InClass([r] + items, c) <==> InRange(r, c) || InClass(items, c)
  {
    if InClass([r] + items, c) {
      var x :| x in [r] + items && InRange(x, c);
      assert x == r || x in items;
    }
    if InRange(r, c) {
      assert r in [r] + items;
    }
    if InClass(items, c) {
      var x :| x in items && InRange(x, c);
      assert x in [r] + items;
    }
  }

  /** The scan finds a character exactly when it is in the class. */
  lemma {:induction false} ScanFinds(d: Dialect, p: seq<byte>, k: nat, ch: byte)
    requires k <= |p| && Reads(d)
    ensures Scan(d, p, k, ch).Some? <==> InClass(ReadClass(d, p, k).items, ch)
    decreases |p| - k
  {
    EmptyClass(ch);
    if k < |p| && p[k] != RBRACKET {
      var n := NextRange(p, k);
      var a := Fold(d, p[k]);
      if n <= |p| {
        ScanFinds(d, p, n, ch);
        InClassCons(Range(a, Fold(d, p[if n == k + 1 then k else k + 2])), ReadClass(d, p, n).items, ch);
      } else {
        InClassCons(Range(a, a), [], ch);
        assert [Range(a, a)] + [] == [Range(a, a)];
      }
    }
  }

  lemma {:induction false} BracketFreeScan(d: Dialect, p: seq<byte>, k: nat, ch: byte)
    requires k <= |p| && Reads(d) && BracketFree(p, k) && Scan(d, p, k, ch).Some?
    ensures Scan(d, p, k, ch).value == ReadClass(d, p, k).next
    decreases |p| - k
  {
    var n := NextRange(p, k);
    BracketFreeEnd(d, p, k);
    if n <= |p| {
      BracketFreeEnd(d, p, n);
      if Scan(d, p, k, ch) != Some(AfterBracket(p, if d.wide then n else k)) {
        BracketFreeScan(d, p, n, ch);
      }
    }
  }

  /** The scan leaves a class where it ends, for every character it holds, exactly when no
      range of it ends with a bracket; in exp_glob.c the first range may. */
  lemma ScanEndsClass(d: Dialect, p: seq<byte>, k: nat)
    requires k <= |p| && Reads(d)
    ensures PlainClass(d, p, k)
       <==> forall ch :: Scan(d, p, k, ch).Some? ==> Scan(d, p, k, ch).value == ReadClass(d, p, k).next
  {
    if k < |p| && p[k] != RBRACKET {
      var n := NextRange(p, k);
      if PlainClass(d, p, k) {
        forall ch | Scan(d, p, k, ch).Some? ensures Scan(d, p, k, ch).value == ReadClass(d, p, k).next {
          PlainScan(d, p, k, ch);
        }
      } else {
        var ch := Fold(d, p[k]);
        BracketEndsEarly(d, p, if d.wide then n else k);
        assert Scan(d, p, k, ch) == Some(AfterBracket(p, if d.wide then n else k));
      }
    }
  }

  lemma PlainScan(d: Dialect, p: seq<byte>, k: nat, ch: byte)
    requires k < |p| && p[k] != RBRACKET && Reads(d) && PlainClass(d, p, k) && Scan(d, p, k, ch).Some?
    ensures Scan(d, p, k, ch).value == ReadClass(d, p, k).next
  {
    var n := NextRange(p, k);
    if !d.wide {
      BracketFreeScan(d, p, k, ch);
    } else {
      BracketFreeEnd(d, p, n);
      if Scan(d, p, k, ch) != Some(AfterBracket(p, n)) {
        BracketFreeScan(d, p, n, ch);
      }
    }
  }

  // ----- what a pattern matches as it is taken -----

  predicate LastDollar(p: seq<byte>, k: nat) {
    k + 1 == |p| && p[k] == DOLLAR
  }

  /** Where the pattern goes on after the character c, if c fits. */
  function Next(d: Dialect, p: seq<byte>, k: nat, c: byte): (r: Option<nat>)
    requires k < |p|
    ensures r.Some? ==> k < r.value <= |p|
  {
    if p[k] == QUERY then Some(k + 1)
    else if p[k] == LBRACKET then Scan(d, p, k + 1, c)
    else if p[k] == BACKSLASH then if k + 1 < |p| && Fold(d, c) == Fold(d, p[k + 1]) then Some(k + 2) else None
    else if Fold(d, c) == Fold(d, p[k]) then Some(k + 1)
    else None
  }

  /** The pattern from k on matches s from i to j.  exp_glob.c never matches a star directly
      followed by the final `$`. */
  ghost predicate TextFits(d: Dialect, p: seq<byte>, k: nat, s: seq<byte>, i: nat, j: nat)
    decreases |p| - k, 0
  {
    if k >= |p| then i == j <= |s|
    else if LastDollar(p, k) then i == j == |s|
    else if p[k] == STAR_CHAR then
      !(d.wide && LastDollar(p, k + 1)) && TailFits(d, p, k + 1, s, i, j)
    else i < |s| && Next(d, p, k, s[i]).Some? && TextFits(d, p, Next(d, p, k, s[i]).value, s, i + 1, j)
  }

  ghost predicate TailFits(d: Dialect, p: seq<byte>, k: nat, s: seq<byte>, i: nat, j: nat)
    decreases |p| - k, 1
  {
    exists m: nat :: i <= m && TextFits(d, p, k, s, m, j)
  }

  ghost predicate TextMatches(d: Dialect, p: seq<byte>, k: nat, s: seq<byte>, i: nat) {
    exists j: nat :: TextFits(d, p, k, s, i, j)
  }

  lemma {:induction false} TextInside(d: Dialect, p: seq<byte>, k: nat, s: seq<byte>, i: nat, j: nat)
    requires TextFits(d, p, k, s, i, j)
    ensures i <= j <= |s|
    decreases |p| - k
  {
    if k < |p| && !LastDollar(p, k) {
      if p[k] == STAR_CHAR {
        var n := k + 1;
        assert TailFits(d, p, n, s, i, j);
        var m: nat :| i <= m && TextFits(d, p, n, s, m, j);
        TextInside(d, p, n, s, m, j);
      } else {
        TextInside(d, p, Next(d, p, k, s[i]).value, s, i + 1, j);
      }
    }
  }

  // ----- patterns that are taken as they read -----

  /** The position after a character is the one where the next token is read. */
  lemma NextReads(d: Dialect, p: seq<byte>, k: nat, c: byte)
    requires PlainFrom(d, p, k) && Reads(d) && k < |p| && p[k] != STAR_CHAR && !LastDollar(p, k)
    ensures var ts, n := Read(d, p, k), Next(d, p, k, c);
            && ts.Cons? && !ts.head.Star? && !ts.head.End? && (n.Some? <==> Accepts(d, ts.head, c))
            && (n.Some? ==> ts.tail == Read(d, p, n.value) && PlainFrom(d, p, n.value))
  {
    hide ReadClass, Scan, PlainClass;
    if p[k] == LBRACKET {
      ScanFinds(d, p, k + 1, c);
      ScanEndsClass(d, p, k + 1);
    } else if p[k] == BACKSLASH && k + 1 == |p| {
      EmptyClass(c);
    }
  }

  lemma DollarReads(d: Dialect, p: seq<byte>, k: nat)
    ensures LastDollar(p, k) <==> Read(d, p, k) == Cons(End, Nil)
  {}

  /** A pattern in which no class is left too early matches, as it is taken, what its tokens
      match, or nothing if the matcher misses it. */
  lemma {:induction false} TextIsTokens(d: Dialect, p: seq<byte>, k: nat, s: seq<byte>, i: nat, j: nat)
    requires PlainFrom(d, p, k) && Reads(d)
    ensures TextFits(d, p, k, s, i, j) <==> !Missed(d, Read(d, p, k)) && Fits(d, Read(d, p, k), s, i, j)
    decreases |p| - k
  {
    hide Next, ReadClass;
    if k >= |p| {
    } else if LastDollar(p, k) {
      EndFits(d, s, i, j);
    } else if p[k] == STAR_CHAR {
      DollarReads(d, p, k + 1);
      var n := k + 1;
      forall m: nat
        ensures TextFits(d, p, n, s, m, j) <==> !Missed(d, Read(d, p, n)) && Fits(d, Read(d, p, n), s, m, j)
      {
        TextIsTokens(d, p, n, s, m, j);
      }
      StarIsStar(d, p, n, s, i, j);
    } else if i < |s| {
      NextReads(d, p, k, s[i]);
      if Next(d, p, k, s[i]).Some? {
        TextIsTokens(d, p, Next(d, p, k, s[i]).value, s, i + 1, j);
      }
    } else {
      NextReads(d, p, k, NUL);
    }
  }

  lemma EndFits(d: Dialect, s: seq<byte>, i: nat, j: nat)
    ensures Fits(d, Cons(End, Nil), s, i, j) <==> i == j == |s|
  {}

  /** k is the position after a star. */
  lemma StarIsStar(d: Dialect, p: seq<byte>, k: nat, s: seq<byte>, i: nat, j: nat)
    requires 0 < k <= |p| && p[k - 1] == STAR_CHAR && (LastDollar(p, k) <==> Read(d, p, k) == Cons(End, Nil))
    requires forall m: nat ::
               TextFits(d, p, k, s, m, j) <==> !Missed(d, Read(d, p, k)) && Fits(d, Read(d, p, k), s, m, j)
    ensures TextFits(d, p, k - 1, s, i, j) <==> !Missed(d, Read(d, p, k - 1)) && Fits(d, Read(d, p, k - 1), s, i, j)
  {
    var rest := Read(d, p, k);
    assert Read(d, p, k - 1) == Cons(Star, rest);
    if TextFits(d, p, k - 1, s, i, j) {
      var m := TailOf(d, p, k, s, i, j);
      StarFits(d, rest, s, i, m, j);
    }
    if !Missed(d, Cons(Star, rest)) && Fits(d, Cons(Star, rest), s, i, j) {
      var m := StarSplits(d, rest, s, i, j);
      TailAt(d, p, k, s, i, m, j);
    }
  }

  // ----- the answer of a matcher -----

  /** n characters more were matched. */
  function More(n: nat, r: int): int {
    if r == -1 then -1 else n + r
  }

  /** How many characters at i the pattern from k on is taken to match, or -1.  After a star
      the last tail that matches counts. */
  function Answer(d: Dialect, p: seq<byte>, k: nat, s: seq<byte>, i: nat): (r: int)
    requires i <= |s|
    ensures r == -1 || (r >= 0 && i + r <= |s|)
    decreases |p| - k, 0
  {
    if k >= |p| then 0
    else if LastDollar(p, k) then if i == |s| then 0 else -1
    else if p[k] == STAR_CHAR then
      if d.wide && Peek(p, k + 1) == STAR_CHAR then Answer(d, p, k + 1, s, i)
      else if d.wide && LastDollar(p, k + 1) then -1
      else TailAnswer(d, p, k + 1, s, i, |s|)
    else if i == |s| || Next(d, p, k, s[i]).None? then -1
    else More(1, Answer(d, p, Next(d, p, k, s[i]).value, s, i + 1))
  }

  /** The same for the tails from m down to i. */
  function TailAnswer(d: Dialect, p: seq<byte>, k: nat, s: seq<byte>, i: nat, m: nat): (r: int)
    requires i <= m <= |s|
    ensures r == -1 || (r >= 0 && i + r <= |s|)
    decreases |p| - k, m - i + 1
  {
    var r := Answer(d, p, k, s, m);
    if r != -1 then m - i + r else if m == i then -1 else TailAnswer(d, p, k, s, i, m - 1)
  }

  /** r is the length of a prefix at i that the pattern from k on matches, -1 if there is none;
      for patterns that are taken as they read it is the longest. */
  ghost predicate Takes(d: Dialect, p: seq<byte>, k: nat, s: seq<byte>, i: nat, r: int) {
    if r == -1 then !TextMatches(d, p, k, s, i)
    else r >= 0 && TextFits(d, p, k, s, i, i + r)
         && (PlainFrom(d, p, k) ==> forall j: nat :: TextFits(d, p, k, s, i, j) ==> j <= i + r)
  }

  lemma Unfit(d: Dialect, p: seq<byte>, k: nat, s: seq<byte>, i: nat)
    requires k < |p| && p[k] != STAR_CHAR && !LastDollar(p, k) && (i < |s| ==> Next(d, p, k, s[i]).None?)
    ensures !TextMatches(d, p, k, s, i)
  {
    forall j: nat ensures !TextFits(d, p, k, s, i, j) {}
  }

  lemma AtEnd(d: Dialect, p: seq<byte>, k: nat, s: seq<byte>, i: nat)
    requires i <= |s|
    ensures k >= |p| ==> Takes(d, p, k, s, i, 0)
    ensures LastDollar(p, k) ==> Takes(d, p, k, s, i, if i == |s| then 0 else -1)
  {}

  /** Of two stars the first adds nothing. */
  lemma TwoTextStars(d: Dialect, p: seq<byte>, k: nat, s: seq<byte>, i: nat, j: nat)
    requires k + 1 < |p| && p[k] == STAR_CHAR && p[k + 1] == STAR_CHAR
    ensures TextFits(d, p, k, s, i, j) <==> TextFits(d, p, k + 1, s, i, j)
  {
    if TextFits(d, p, k, s, i, j) {
      var m := TailOf(d, p, k + 1, s, i, j);
      var m' := TailOf(d, p, k + 2, s, m, j);
      TailAt(d, p, k + 2, s, i, m', j);
    }
    if TextFits(d, p, k + 1, s, i, j) {
      TailAt(d, p, k + 1, s, i, i, j);
    }
  }

  // ----- tails: k is the position after a star -----

  lemma TailAt(d: Dialect, p: seq<byte>, k: nat, s: seq<byte>, i: nat, m: nat, j: nat)
    requires 0 < k <= |p| && p[k - 1] == STAR_CHAR && !(d.wide && LastDollar(p, k)) && i <= m
             && TextFits(d, p, k, s, m, j)
    ensures TextFits(d, p, k - 1, s, i, j)
  {
    assert TailFits(d, p, k, s, i, j);
  }

  lemma TailOf(d: Dialect, p: seq<byte>, k: nat, s: seq<byte>, i: nat, j: nat) returns (m: nat)
    requires 0 < k <= |p| && p[k - 1] == STAR_CHAR && TextFits(d, p, k - 1, s, i, j)
    ensures !(d.wide && LastDollar(p, k)) && i <= m <= j <= |s| && TextFits(d, p, k, s, m, j)
            && TextMatches(d, p, k, s, m)
  {
    assert TailFits(d, p, k, s, i, j);
    m :| i <= m && TextFits(d, p, k, s, m, j);
    TextInside(d, p, k, s, m, j);
  }

  /** The last tail that matches gives the answer after a star. */
  lemma LastTail(d: Dialect, p: seq<byte>, k: nat, s: seq<byte>, i: nat, m: nat, r: int)
    requires 0 < k <= |p| && p[k - 1] == STAR_CHAR && !(d.wide && LastDollar(p, k)) && Reads(d) && i <= m
    requires Takes(d, p, k, s, m, r) && r >= 0 && forall m': nat :: m < m' <= |s| ==> !TextMatches(d, p, k, s, m')
    ensures Takes(d, p, k - 1, s, i, m - i + r)
  {
    hide TextFits;
    TailAt(d, p, k, s, i, m, m + r);
    var star := k - 1;
    if PlainFrom(d, p, star) {
      forall j: nat | TextFits(d, p, star, s, i, j) ensures j <= m + r {
        var m' := TailOf(d, p, k, s, i, j);
        var e := TextReachesFurther(d, p, k, s, m', j, m, m + r);
      }
    }
  }

  /** Starting later never makes the longest match end earlier. */
  lemma TextReachesFurther(d: Dialect, p: seq<byte>, k: nat, s: seq<byte>, i: nat, j: nat, i': nat, j': nat)
    returns (e: nat)
    requires TextFits(d, p, k, s, i, j) && TextFits(d, p, k, s, i', j') && i <= i' && PlainFrom(d, p, k) && Reads(d)
    ensures j <= e && TextFits(d, p, k, s, i', e)
  {
    hide TextFits, Fits, Read, PlainFrom;
    TextIsTokens(d, p, k, s, i, j);
    TextIsTokens(d, p, k, s, i', j');
    e := LaterReachesFurther(d, Read(d, p, k), s, i, j, i', j');
    TextIsTokens(d, p, k, s, i', e);
  }

  /** No tail matches. */
  lemma NoTail(d: Dialect, p: seq<byte>, k: nat, s: seq<byte>, i: nat)
    requires 0 < k <= |p| && p[k - 1] == STAR_CHAR
    requires (d.wide && LastDollar(p, k)) || forall m: nat :: i <= m <= |s| ==> !TextMatches(d, p, k, s, m)
    ensures Takes(d, p, k - 1, s, i, -1)
  {
    hide TextFits;
    var star := k - 1;
    forall j: nat ensures !TextFits(d, p, star, s, i, j) {
      if TextFits(d, p, star, s, i, j) {
        var m := TailOf(d, p, k, s, i, j);
        assert false;
      }
    }
  }

  /** With a leading star, failing at one place means failing at every later one. */
  lemma StarFails(d: Dialect, p: seq<byte>, k: nat, s: seq<byte>, i: nat, i': nat)
    requires 0 < k <= |p| && p[k - 1] == STAR_CHAR && i <= i' && TextMatches(d, p, k - 1, s, i')
    ensures TextMatches(d, p, k - 1, s, i)
  {
    hide TextFits;
    var j: nat :| TextFits(d, p, k - 1, s, i', j);
    var m := TailOf(d, p, k, s, i', j);
    TailAt(d, p, k, s, i, m, j);
  }

  /** A star at the end takes all that is left. */
  lemma LastStar(d: Dialect, p: seq<byte>, s: seq<byte>, i: nat)
    requires i <= |s| && p != [] && p[|p| - 1] == STAR_CHAR
    ensures Answer(d, p, |p| - 1, s, i) == |s| - i
  {
    assert Answer(d, p, |p|, s, |s|) == 0;
  }

  // ----- the answer is right -----

  lemma OneMore(d: Dialect, p: seq<byte>, k: nat, s: seq<byte>, i: nat, r: int)
    requires k < |p| && p[k] != STAR_CHAR && !LastDollar(p, k) && i < |s| && Next(d, p, k, s[i]).Some? && Reads(d)
    requires Takes(d, p, Next(d, p, k, s[i]).value, s, i + 1, r)
    ensures Takes(d, p, k, s, i, More(1, r))
  {
    hide Next, PlainFrom, Read;
    var n := Next(d, p, k, s[i]).value;
    if PlainFrom(d, p, k) { NextReads(d, p, k, s[i]); }
    forall j: nat ensures TextFits(d, p, k, s, i, j) <==> TextFits(d, p, n, s, i + 1, j) {}
  }

  lemma StarsTaken(d: Dialect, p: seq<byte>, k: nat, s: seq<byte>, i: nat, r: int)
    requires k + 1 < |p| && p[k] == STAR_CHAR && p[k + 1] == STAR_CHAR && Takes(d, p, k + 1, s, i, r)
    ensures Takes(d, p, k, s, i, r)
  {
    hide TextFits;
    forall j: nat ensures TextFits(d, p, k, s, i, j) <==> TextFits(d, p, k + 1, s, i, j) {
      TwoTextStars(d, p, k, s, i, j);
    }
  }

  lemma {:induction false} TailsTaken(d: Dialect, p: seq<byte>, k: nat, s: seq<byte>, i: nat, m: nat)
    requires 0 < k <= |p| && p[k - 1] == STAR_CHAR && !(d.wide && LastDollar(p, k)) && Reads(d) && i <= m <= |s|
    requires forall m': nat :: m < m' <= |s| ==> !TextMatches(d, p, k, s, m')
    ensures Takes(d, p, k - 1, s, i, TailAnswer(d, p, k, s, i, m))
    decreases |p| - k, m - i + 1
  {
    hide TextFits, Takes, Answer, LastDollar, TextMatches;
    AnswerTakes(d, p, k, s, m);
    if Answer(d, p, k, s, m) != -1 {
      LastTail(d, p, k, s, i, m, Answer(d, p, k, s, m));
    } else {
      NothingTaken(d, p, k, s, m);
      if m == i {
        NoTail(d, p, k, s, i);
      } else {
        TailsTaken(d, p, k, s, i, m - 1);
      }
    }
  }

  lemma NothingTaken(d: Dialect, p: seq<byte>, k: nat, s: seq<byte>, i: nat)
    requires Takes(d, p, k, s, i, -1)
    ensures !TextMatches(d, p, k, s, i)
  {}

  lemma UnfitTaken(d: Dialect, p: seq<byte>, k: nat, s: seq<byte>, i: nat)
    requires !TextMatches(d, p, k, s, i)
    ensures Takes(d, p, k, s, i, -1)
  {}

  /** For every pattern the answer is -1 exactly if there is no match, and otherwise the length
      of one; the longest, if the pattern is taken as it reads. */
  lemma {:induction false} AnswerTakes(d: Dialect, p: seq<byte>, k: nat, s: seq<byte>, i: nat)
    requires i <= |s| && Reads(d)
    ensures Takes(d, p, k, s, i, Answer(d, p, k, s, i))
    decreases |p| - k, 0
  {
    hide TextFits, Takes, TailAnswer, Next, TextMatches;
    AtEnd(d, p, k, s, i);
    if k < |p| && !LastDollar(p, k) {
      if p[k] == STAR_CHAR {
        if d.wide && Peek(p, k + 1) == STAR_CHAR {
          AnswerTakes(d, p, k + 1, s, i);
          StarsTaken(d, p, k, s, i, Answer(d, p, k + 1, s, i));
        } else if d.wide && LastDollar(p, k + 1) {
          NoTail(d, p, k + 1, s, i);
        } else {
          TailsTaken(d, p, k + 1, s, i, |s|);
        }
      } else if i == |s| || Next(d, p, k, s[i]).None? {
        Unfit(d, p, k, s, i);
        UnfitTaken(d, p, k, s, i);
      } else {
        AnswerTakes(d, p, Next(d, p, k, s[i]).value, s, i + 1);
        OneMore(d, p, k, s, i, Answer(d, p, Next(d, p, k, s[i]).value, s, i + 1));
      }
    }
  }

  // ----- the longest match is missed -----

  /** With classes that are left too early the answer need not be the longest match: taken as
      it is, `*a[x^-]aY]` matches all of `axaY]`; but the last tail that matches is `aY]`, with
      its first two characters. */
  lemma LongestIsMissed(d: Dialect)
    requires d.wide && !d.nocase
    ensures var p := [STAR_CHAR, 97, LBRACKET, 120, CARET, MINUS, RBRACKET, 97, 89, RBRACKET];
            var s := [97, 120, 97, 89, RBRACKET];
            Answer(d, p, 0, s, 0) == 4 && TextFits(d, p, 0, s, 0, 5)
  {
    var p := [STAR_CHAR, 97, LBRACKET, 120, CARET, MINUS, RBRACKET, 97, 89, RBRACKET];
    var s := [97, 120, 97, 89, RBRACKET];
    assert AfterBracket(p, 10) == 10 && AfterBracket(p, 9) == 10;
    assert AfterBracket(p, 6) == 7 && AfterBracket(p, 5) == 7 && AfterBracket(p, 4) == 7;
    assert WideScan(d, p, 3, 120) == Some(7);
    assert WideScan(d, p, 8, 89) == Some(10);
    assert WideScan(d, p, 7, 89) == Some(10);
    assert WideScan(d, p, 4, 89) == Some(10);
    assert WideScan(d, p, 3, 89) == Some(10);
    assert TextFits(d, p, 10, s, 5, 5) && TextFits(d, p, 9, s, 4, 5) && TextFits(d, p, 8, s, 3, 5);
    assert TextFits(d, p, 7, s, 2, 5) && TextFits(d, p, 2, s, 1, 5) && TextFits(d, p, 1, s, 0, 5);
    TailAt(d, p, 1, s, 0, 0, 5);
    assert Answer(d, p, 10, s, 4) == 0 && Answer(d, p, 2, s, 3) == 1 && Answer(d, p, 1, s, 2) == 2;
    assert Answer(d, p, 1, s, 3) == Answer(d, p, 1, s, 4) == Answer(d, p, 1, s, 5) == -1;
    assert TailAnswer(d, p, 1, s, 0, 2) == TailAnswer(d, p, 1, s, 0, 3) == TailAnswer(d, p, 1, s, 0, 4) == 4;
  }
}
