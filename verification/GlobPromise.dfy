/** When the glob searches keep what they promise, and when they do not.

    A search promises the leftmost place of the string where the pattern matches and the
    length of the longest match there.  It keeps that promise except for two kinds of
    patterns; for these the exact condition is given. */
module GlobPromise {
  import opened Chars
  import opened Glob
  import opened GlobSteps

  /** The pattern matches at one of the places that count. */
  ghost predicate Somewhere(d: Dialect, ts: Tokens, s: seq<byte>, anchored: bool) {
    exists o: nat :: o <= |s| && (anchored ==> o == 0) && Matches(d, ts, s, o)
  }

  /** The pattern without its final `$`. */
  function DropEnd(ts: Tokens): Tokens {
    if ts.Nil? || BareEnd(ts) then Nil else Cons(ts.head, DropEnd(ts.tail))
  }

  lemma {:induction false} DropEndFits(d: Dialect, ts: Tokens, s: seq<byte>, i: nat, j: nat)
    requires StarAtEnd(ts)
    ensures Fits(d, ts, s, i, j) ==> Fits(d, DropEnd(ts), s, i, j)
    ensures Fits(d, DropEnd(ts), s, i, j) ==> Fits(d, ts, s, i, |s|)
    decreases ts
  {
    var rest := ts.tail;
    if ts.head.Star? && rest == Cons(End, Nil) {
      LastStarFits(d, s, i, j);
    } else if ts.head.Star? {
      if Fits(d, ts, s, i, j) {
        var m := StarSplits(d, rest, s, i, j);
        DropEndFits(d, rest, s, m, j);
      }
      if Fits(d, DropEnd(ts), s, i, j) {
        var m := StarSplits(d, DropEnd(rest), s, i, j);
        DropEndFits(d, rest, s, m, j);
      }
    } else {
      DropEndFits(d, rest, s, if ts.head.End? then i else i + 1, j);
    }
  }

  lemma LastStarFits(d: Dialect, s: seq<byte>, i: nat, j: nat)
    ensures Fits(d, Cons(Star, Cons(End, Nil)), s, i, j) ==> Fits(d, Cons(Star, Nil), s, i, j)
    ensures Fits(d, Cons(Star, Nil), s, i, j) ==> Fits(d, Cons(Star, Cons(End, Nil)), s, i, |s|)
  {
    hide Fits;
    if Fits(d, Cons(Star, Cons(End, Nil)), s, i, j) {
      var m := StarSplits(d, Cons(End, Nil), s, i, j);
      EndFits(d, s, m, j);
      StarFits(d, Nil, s, i, m, j);
    }
    if Fits(d, Cons(Star, Nil), s, i, j) {
      var m := StarSplits(d, Nil, s, i, j);
      EndFits(d, s, |s|, |s|);
      StarFits(d, Cons(End, Nil), s, i, |s|, |s|);
    }
  }

  lemma EndFits(d: Dialect, s: seq<byte>, i: nat, j: nat)
    ensures Fits(d, Cons(End, Nil), s, i, j) <==> i == j == |s|
    ensures i == j == |s| ==> Fits(d, Nil, s, i, j)
  {}

  /** A `*$` at the end of a pattern adds nothing to a `*` there. */
  lemma DropEndMatches(d: Dialect, ts: Tokens, s: seq<byte>, i: nat)
    requires StarAtEnd(ts)
    ensures Matches(d, ts, s, i) <==> Matches(d, DropEnd(ts), s, i)
  {
    hide Fits, StarAtEnd;
    if j: nat :| Fits(d, ts, s, i, j) {
      DropEndFits(d, ts, s, i, j);
    }
    if j: nat :| Fits(d, DropEnd(ts), s, i, j) {
      DropEndFits(d, ts, s, i, j);
    }
  }

  /** A search of a string that does not start with NUL keeps its promise exactly when the
      pattern is neither a bare `$` sought in a nonempty string nor, with the wide matcher,
      one that ends in `*$` and without the `$` matches somewhere. */
  lemma PromiseKept(d: Dialect, ts: Tokens, s: seq<byte>, anchored: bool, r: int, offset: nat)
    requires Searched(d, ts, s, anchored, r, offset) && (s == [] || s[0] != NUL)
    ensures Promised(d, ts, s, anchored, r, offset)
       <==> !(BareEnd(ts) && !anchored && s != []) && !(Missed(d, ts) && Somewhere(d, DropEnd(ts), s, anchored))
  {
    hide Matches, StarAtEnd, IsLongest, DropEnd;
    if Missed(d, ts) {
      forall o: nat ensures Matches(d, ts, s, o) <==> Matches(d, DropEnd(ts), s, o) {
        DropEndMatches(d, ts, s, o);
      }
      if BareEnd(ts) { BareEndMisses(d, ts, s); }
    } else if BareEnd(ts) && !anchored && s != [] {
      BareEndMisses(d, ts, s);
    }
  }

  lemma BareEndMisses(d: Dialect, ts: Tokens, s: seq<byte>)
    requires BareEnd(ts)
    ensures !Missed(d, ts) && Matches(d, ts, s, |s|)
    ensures s != [] ==> !Matches(d, ts, s, 0)
  {
    assert Fits(d, ts, s, |s|, |s|);
  }

  /** A string that starts with NUL is given up after its first place. */
  lemma NulGivesUp(d: Dialect, ts: Tokens, s: seq<byte>, r: int, offset: nat)
    requires Searched(d, ts, s, false, r, offset) && s != [] && s[0] == NUL && !Missed(d, ts) && !StarAtFront(ts)
    ensures Promised(d, ts, s, false, r, offset) <==> Matches(d, ts, s, 0) || !Somewhere(d, ts, s, false)
  {
    hide Matches, StarAtEnd, IsLongest;
  }

  // ----- folding of case -----

  /** The class does not tell characters apart that fold alike. */
  ghost predicate ClassFolds(d: Dialect, items: seq<Range>) {
    forall c: byte, e: byte {:trigger InClass(items, c), InClass(items, e)} ::
      Fold(d, c) == Fold(d, e) ==> (InClass(items, c) <==> InClass(items, e))
  }

  /** No class of the pattern does. */
  ghost predicate Folds(d: Dialect, ts: Tokens) {
    ts.Cons? ==> (ts.head.Class? ==> ClassFolds(d, ts.head.items)) && Folds(d, ts.tail)
  }

  predicate SameFolded(d: Dialect, s: seq<byte>, t: seq<byte>) {
    |s| == |t| && forall k :: 0 <= k < |s| ==> Fold(d, s[k]) == Fold(d, t[k])
  }

  /** Strings that differ in case only are matched alike unless a class tells them apart. */
  lemma {:induction false} CaseBlind(d: Dialect, ts: Tokens, s: seq<byte>, t: seq<byte>, i: nat, j: nat)
    requires Folds(d, ts) && SameFolded(d, s, t)
    ensures Fits(d, ts, s, i, j) <==> Fits(d, ts, t, i, j)
    decreases ts
  {
    if ts.Cons? {
      if ts.head.Star? {
        if Fits(d, ts, s, i, j) {
          var m := StarSplits(d, ts.tail, s, i, j);
          CaseBlind(d, ts.tail, s, t, m, j);
        }
        if Fits(d, ts, t, i, j) {
          var m := StarSplits(d, ts.tail, t, i, j);
          CaseBlind(d, ts.tail, s, t, m, j);
        }
      } else {
        CaseBlind(d, ts.tail, s, t, if ts.head.End? then i else i + 1, j);
      }
    }
  }

  /** A class alone is matched by strings that differ in case only alike exactly when it does
      not tell such characters apart. */
  lemma ClassBlindExactly(d: Dialect, items: seq<Range>)
    ensures ClassFolds(d, items) <==>
            forall s: seq<byte>, t: seq<byte> {:trigger SameFolded(d, s, t)} :: SameFolded(d, s, t) ==>
              (Fits(d, Cons(Class(items), Nil), s, 0, 1) <==> Fits(d, Cons(Class(items), Nil), t, 0, 1))
  {
    var ts := Cons(Class(items), Nil);
    if ClassFolds(d, items) {
      forall s: seq<byte>, t: seq<byte> | SameFolded(d, s, t) ensures Fits(d, ts, s, 0, 1) <==> Fits(d, ts, t, 0, 1) {
        CaseBlind(d, ts, s, t, 0, 1);
      }
    } else {
      var c: byte, e: byte :| Fold(d, c) == Fold(d, e) && (InClass(items, c) <==> !InClass(items, e));
      assert SameFolded(d, [c], [e]);
      assert Fits(d, Nil, [c], 1, 1) && Fits(d, Nil, [e], 1, 1);
    }
  }

  /** A class is not: `[q]` without regard to case matches `q`, but not `Q`. */
  lemma ClassSeesCase(d: Dialect)
    requires d.wide && d.nocase && d.lower(81) == 113 && d.lower(113) == 113
    ensures var ts := Read(d, [LBRACKET, 113, RBRACKET], 0);
            SameFolded(d, [81], [113]) && Matches(d, ts, [113], 0) && !Matches(d, ts, [81], 0)
  {
    var p := [LBRACKET, 113, RBRACKET];
    var items := [Range(113, 113)];
    assert ReadClass(d, p, 2).items == [];
    assert ReadClass(d, p, 1).items == items;
    assert Read(d, p, 0) == Cons(Class(items), Nil);
    assert Range(113, 113) in items;
    assert Fits(d, Nil, [113], 1, 1);
    assert Fits(d, Cons(Class(items), Nil), [113], 0, 1);
    NeverFits(d, Cons(Class(items), Nil), [81], 0);
  }
}
