/** What the glob matchers and searches answer: for every pattern as it is taken, and for
    patterns that are taken as they read in terms of what they mean. */
module GlobSteps {
  import opened Chars
  import opened Glob
  import opened GlobText

  /** What one call answers: -1 if the pattern ends in a star directly followed by the final
      `$`, otherwise the longest match. */
  ghost predicate Answers(d: Dialect, ts: Tokens, s: seq<byte>, i: nat, r: int) {
    if Missed(d, ts) then r == -1 else IsLongest(d, ts, s, i, r)
  }

  /** For a pattern that is taken as it reads, the answer is right for what it means. */
  lemma TakenAsRead(d: Dialect, p: seq<byte>, k: nat, s: seq<byte>, i: nat, r: int)
    requires PlainFrom(d, p, k) && Reads(d) && Takes(d, p, k, s, i, r)
    ensures Answers(d, Read(d, p, k), s, i, r)
  {
    hide Fits, TextFits, Missed, Read, PlainFrom;
    forall j: nat ensures TextFits(d, p, k, s, i, j) <==> !Missed(d, Read(d, p, k)) && Fits(d, Read(d, p, k), s, i, j) {
      TextIsTokens(d, p, k, s, i, j);
    }
    if r == -1 {
      assert !TextMatches(d, p, k, s, i);
    }
  }

  lemma NeverFits(d: Dialect, ts: Tokens, s: seq<byte>, i: nat)
    requires ts.Cons? && !ts.head.Star? && !ts.head.End? && (i >= |s| || !Accepts(d, ts.head, s[i]))
    ensures !Matches(d, ts, s, i)
  {
    forall j: nat ensures !Fits(d, ts, s, i, j) {}
  }

  // ----- searching -----

  /** The leftmost longest match, only at the front if anchored; r is -1 if there is none. */
  ghost predicate Promised(d: Dialect, ts: Tokens, s: seq<byte>, anchored: bool, r: int, offset: nat) {
    if r == -1 then forall o: nat :: o <= |s| && (anchored ==> o == 0) ==> !Matches(d, ts, s, o)
    else offset <= |s| && (anchored ==> offset == 0) && IsLongest(d, ts, s, offset, r)
         && forall o: nat :: o < offset ==> !Matches(d, ts, s, o)
  }

  predicate StarAtFront(ts: Tokens) {
    ts.Cons? && ts.head.Star?
  }

  /** The search looks everywhere it must.  It never tries the end of a nonempty string, where
      only a bare `$` could match, it takes a NUL in front for the end of the string, and the
      matcher never matches a star directly followed by the final `$`. */
  ghost predicate Served(d: Dialect, ts: Tokens, s: seq<byte>, anchored: bool) {
    !Missed(d, ts)
    && (anchored || s == [] || StarAtFront(ts) || Matches(d, ts, s, 0) || (s[0] != NUL && !BareEnd(ts)))
  }

  ghost predicate Searched(d: Dialect, ts: Tokens, s: seq<byte>, anchored: bool, r: int, offset: nat) {
    if Served(d, ts, s, anchored) then Promised(d, ts, s, anchored, r, offset) else r == -1
  }

  // ----- searching with a pattern as it is taken -----

  /** The leftmost match of the pattern from k on, and the matcher's answer there. */
  ghost predicate TextPromised(d: Dialect, p: seq<byte>, k: nat, s: seq<byte>, anchored: bool, r: int, offset: nat) {
    if r == -1 then forall o: nat :: o <= |s| && (anchored ==> o == 0) ==> !TextMatches(d, p, k, s, o)
    else offset <= |s| && (anchored ==> offset == 0) && r >= 0 && r == Answer(d, p, k, s, offset)
         && forall o: nat :: o < offset ==> !TextMatches(d, p, k, s, o)
  }

  ghost predicate TextServed(d: Dialect, p: seq<byte>, k: nat, s: seq<byte>, anchored: bool) {
    anchored || s == [] || Peek(p, k) == STAR_CHAR || TextMatches(d, p, k, s, 0) || (s[0] != NUL && !LastDollar(p, k))
  }

  ghost predicate TextSearched(d: Dialect, p: seq<byte>, k: nat, s: seq<byte>, anchored: bool, r: int, offset: nat) {
    if TextServed(d, p, k, s, anchored) then TextPromised(d, p, k, s, anchored, r, offset) else r == -1
  }

  /** For a pattern that is taken as it reads, the search is right for what it means. */
  lemma SearchedAsRead(d: Dialect, p: seq<byte>, k: nat, s: seq<byte>, anchored: bool, r: int, offset: nat)
    requires PlainFrom(d, p, k) && Reads(d) && TextSearched(d, p, k, s, anchored, r, offset)
    ensures Searched(d, Read(d, p, k), s, anchored, r, offset)
  {
    hide Takes, Answer, Matches, TextMatches, IsLongest, Missed, Read, PlainFrom, Answers, LastDollar, BareEnd;
    var ts := Read(d, p, k);
    forall o: nat ensures TextMatches(d, p, k, s, o) <==> !Missed(d, ts) && Matches(d, ts, s, o) {
      MatchesAsRead(d, p, k, s, o);
    }
    FrontReads(d, p, k);
    if r != -1 && offset <= |s| && r == Answer(d, p, k, s, offset) {
      AnswerMeans(d, p, k, s, offset);
      AnswerTakes(d, p, k, s, offset);
      TakenAsRead(d, p, k, s, offset, r);
      assert !Missed(d, ts) ==> IsLongest(d, ts, s, offset, r) by { AnswerIs(d, ts, s, offset, r); }
    }
  }

  lemma AnswerIs(d: Dialect, ts: Tokens, s: seq<byte>, i: nat, r: int)
    requires Answers(d, ts, s, i, r) && !Missed(d, ts)
    ensures IsLongest(d, ts, s, i, r)
  {}

  lemma MatchesAsRead(d: Dialect, p: seq<byte>, k: nat, s: seq<byte>, i: nat)
    requires PlainFrom(d, p, k) && Reads(d)
    ensures TextMatches(d, p, k, s, i) <==> !Missed(d, Read(d, p, k)) && Matches(d, Read(d, p, k), s, i)
  {
    hide TextFits, Fits, Missed, Read, PlainFrom;
    forall j: nat ensures TextFits(d, p, k, s, i, j) <==> !Missed(d, Read(d, p, k)) && Fits(d, Read(d, p, k), s, i, j) {
      TextIsTokens(d, p, k, s, i, j);
    }
  }

  lemma FrontReads(d: Dialect, p: seq<byte>, k: nat)
    ensures StarAtFront(Read(d, p, k)) <==> Peek(p, k) == STAR_CHAR
    ensures BareEnd(Read(d, p, k)) <==> LastDollar(p, k)
  {
    hide ReadClass;
  }

  /** The answer says whether there is a match. */
  lemma AnswerMeans(d: Dialect, p: seq<byte>, k: nat, s: seq<byte>, i: nat)
    requires i <= |s| && Reads(d)
    ensures Answer(d, p, k, s, i) == -1 <==> !TextMatches(d, p, k, s, i)
    ensures Answer(d, p, k, s, i) >= 0 && LastDollar(p, k) ==> i == |s|
  {
    hide TextFits;
    AnswerTakes(d, p, k, s, i);
  }

  // ----- the steps of a search -----

  lemma FoundFirst(d: Dialect, p: seq<byte>, k: nat, s: seq<byte>, anchored: bool)
    requires Answer(d, p, k, s, 0) >= 0 && Reads(d)
    ensures TextSearched(d, p, k, s, anchored, Answer(d, p, k, s, 0), 0)
  {
    hide Answer, TextMatches, LastDollar;
    AnswerMeans(d, p, k, s, 0);
  }

  lemma GiveUp(d: Dialect, p: seq<byte>, k: nat, s: seq<byte>, anchored: bool)
    requires !TextMatches(d, p, k, s, 0) && (anchored || Peek(p, k) == STAR_CHAR)
    ensures TextSearched(d, p, k, s, anchored, -1, 0)
  {
    hide TextMatches, LastDollar;
    if !anchored {
      forall o: nat | o <= |s| ensures !TextMatches(d, p, k, s, o) {
        if TextMatches(d, p, k, s, o) {
          StarFails(d, p, k + 1, s, 0, o);
        }
      }
    }
  }

  lemma GiveUpAtNul(d: Dialect, p: seq<byte>, k: nat, s: seq<byte>)
    requires !TextMatches(d, p, k, s, 0) && Peek(p, k) != STAR_CHAR && Peek(s, 0) == NUL
    ensures TextSearched(d, p, k, s, false, -1, 0)
  {
    hide TextMatches, LastDollar;
  }

  lemma FoundAt(d: Dialect, p: seq<byte>, k: nat, s: seq<byte>, o: nat)
    requires o < |s| && s[0] != NUL && Answer(d, p, k, s, o) >= 0 && Reads(d)
    requires forall x: nat :: x < o ==> !TextMatches(d, p, k, s, x)
    ensures TextSearched(d, p, k, s, false, Answer(d, p, k, s, o), o)
  {
    hide Answer, TextMatches, LastDollar;
    AnswerMeans(d, p, k, s, o);
  }

  lemma NotFound(d: Dialect, p: seq<byte>, k: nat, s: seq<byte>)
    requires s != [] && Peek(p, k) != STAR_CHAR && forall x: nat :: x < |s| ==> !TextMatches(d, p, k, s, x)
    ensures TextSearched(d, p, k, s, false, -1, 0)
  {
    hide TextMatches, TextFits;
    if TextServed(d, p, k, s, false) {
      if k >= |p| {
        NothingFits(d, p, k, s);
      } else {
        Unfit(d, p, k, s, |s|);
      }
    }
  }

  lemma NothingFits(d: Dialect, p: seq<byte>, k: nat, s: seq<byte>)
    requires k >= |p|
    ensures TextMatches(d, p, k, s, 0)
  {
    assert TextFits(d, p, k, s, 0, 0);
  }
}
