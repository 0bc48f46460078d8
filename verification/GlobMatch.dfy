/** The glob matcher of exp_glob.c: longest match, cruising backwards over the string. */
module GlobMatch {
  import opened Chars
  import opened Glob
  import opened GlobText
  import opened GlobSteps

  /** The lowering of characters leaves the characters that are special after a star alone. */
  ghost predicate DialectOk(d: Dialect) {
    d.wide && (d.nocase ==> d.lower(LBRACKET) == LBRACKET && d.lower(QUERY) == QUERY && d.lower(BACKSLASH) == BACKSLASH)
  }

  /** The class scan, from just after the opening bracket: is ch one of its characters, and
      where does the pattern go on? */
  method ScanClass(d: Dialect, p: seq<byte>, from: nat, ch: byte) returns (r: Option<nat>)
    requires DialectOk(d) && from <= |p|
    ensures r == Scan(d, p, from, ch)
  {
    var k := from;
    while true
      invariant from <= k <= |p| && WideScan(d, p, from, ch) == WideScan(d, p, k, ch)
      decreases |p| - k
    {
      if k >= |p| || p[k] == RBRACKET {
        return None;
      }
      var startChar := p[k];
      k := k + 1;
      if d.nocase {
        startChar := d.lower(startChar);
      }
      if Peek(p, k) == MINUS {
        k := k + 1;
        if k >= |p| {
          return None;
        }
        var endChar := p[k];
        k := k + 1;
        if d.nocase {
          endChar := d.lower(endChar);
        }
        if (startChar <= ch && ch <= endChar) || (endChar <= ch && ch <= startChar) {
          break;
        }
      } else if startChar == ch {
        break;
      }
    }
    ghost var hit := k;
    while k < |p| && p[k] != RBRACKET
      invariant hit <= k <= |p| && AfterBracket(p, hit) == AfterBracket(p, k)
      invariant WideScan(d, p, from, ch) == Some(AfterBracket(p, hit))
    {
      k := k + 1;
    }
    if k < |p| {
      k := k + 1;
    }
    r := Some(k);
  }

  // ----- the matcher -----

  /** Passing over a tail whose first character is not the one the pattern goes on with. */
  lemma CruiseSkips(d: Dialect, p: seq<byte>, k: nat, s: seq<byte>, tail: nat)
    requires k < |p| && p[k] != STAR_CHAR && p[k] != QUERY && p[k] != LBRACKET && p[k] != BACKSLASH
    requires tail < |s| && Fold(d, p[k]) != Fold(d, s[tail])
    ensures Answer(d, p, k, s, tail) == -1 && !TextMatches(d, p, k, s, tail)
  {
    forall j: nat ensures !TextFits(d, p, k, s, tail, j) {}
  }

  /** The answer of the tails from tail down to i, none if tail is i - 1. */
  function TailsFrom(d: Dialect, p: seq<byte>, k: nat, s: seq<byte>, i: nat, tail: int): int
    requires i <= |s| && i - 1 <= tail <= |s|
  {
    if tail < i then -1 else TailAnswer(d, p, k, s, i, tail)
  }

  lemma NextTail(d: Dialect, p: seq<byte>, k: nat, s: seq<byte>, i: nat, tail: nat)
    requires i <= tail <= |s|
    ensures TailsFrom(d, p, k, s, i, tail)
         == if Answer(d, p, k, s, tail) != -1 then tail - i + Answer(d, p, k, s, tail)
            else TailsFrom(d, p, k, s, i, tail - 1)
  {
    hide Answer;
  }

  /** After the last star, the empty tail need not be tried. */
  lemma FirstTail(d: Dialect, p: seq<byte>, k: nat, s: seq<byte>, i: nat)
    requires d.wide && i <= |s| && 0 < k < |p| && p[k - 1] == STAR_CHAR && p[k] != STAR_CHAR
    ensures Answer(d, p, k - 1, s, i) == if LastDollar(p, k) then -1 else TailsFrom(d, p, k, s, i, |s| - 1)
    ensures LastDollar(p, k) ==> forall m: nat :: m < |s| ==> Answer(d, p, k, s, m) == -1
  {
    hide Next, TailAnswer;
    NextTail(d, p, k, s, i, |s|);
  }

  lemma {:induction false} NoTailAnswers(d: Dialect, p: seq<byte>, k: nat, s: seq<byte>, i: nat, tail: int)
    requires i <= |s| && i - 1 <= tail < |s| && forall m: nat :: m < |s| ==> Answer(d, p, k, s, m) == -1
    ensures TailsFrom(d, p, k, s, i, tail) == -1
    decreases tail + 1
  {
    hide Answer;
    if tail >= i {
      NextTail(d, p, k, s, i, tail);
      NoTailAnswers(d, p, k, s, i, tail - 1);
    }
  }

  /** The rest of the match from a `*` on, k the position after it and the stars that follow
      it: tails from the last character backwards. */
  method MatchTails(d: Dialect, s: seq<byte>, i: nat, p: seq<byte>, k: nat) returns (r: int)
    requires DialectOk(d) && i <= |s| && 0 < k < |p| && p[k - 1] == STAR_CHAR && p[k] != STAR_CHAR
    ensures r == Answer(d, p, k - 1, s, i)
    decreases |p| - k, 1
  {
    hide Answer, TailAnswer, TailsFrom, TextMatches, LastDollar;
    var c := p[k];
    if d.nocase {
      c := d.lower(c);
    }
    var tail := |s| - 1;
    FirstTail(d, p, k, s, i);
    if LastDollar(p, k) { NoTailAnswers(d, p, k, s, i, tail); }
    ghost var answer := TailsFrom(d, p, k, s, i, tail);
    while true
      invariant i - 1 <= tail < |s| && answer == TailsFrom(d, p, k, s, i, tail)
      decreases tail - i
    {
      if c != LBRACKET && c != QUERY && c != BACKSLASH {
        if d.nocase {
          while tail >= i && c != s[tail] && c != d.lower(s[tail])
            invariant i - 1 <= tail < |s| && answer == TailsFrom(d, p, k, s, i, tail)
          {
            CruiseSkips(d, p, k, s, tail);
            NextTail(d, p, k, s, i, tail);
            tail := tail - 1;
          }
        } else {
          while tail >= i && c != s[tail]
            invariant i - 1 <= tail < |s| && answer == TailsFrom(d, p, k, s, i, tail)
          {
            CruiseSkips(d, p, k, s, tail);
            NextTail(d, p, k, s, i, tail);
            tail := tail - 1;
          }
        }
      }
      if tail < i {
        break;
      }
      var rc := StringCaseMatch2(d, s, tail, p, k);
      NextTail(d, p, k, s, i, tail);
      if rc != -1 {
        return tail - i + rc;
      }
      if tail == i {
        tail := tail - 1;
        break;
      }
      tail := tail - 1;
    }
    NoneLeft(d, p, k, s, i, tail);
    r := -1;
  }

  lemma NoneLeft(d: Dialect, p: seq<byte>, k: nat, s: seq<byte>, i: nat, tail: int)
    requires i <= |s| && tail == i - 1
    ensures TailsFrom(d, p, k, s, i, tail) == -1
  {}

  /** How many characters of s from a place on the pattern from `at` on matches. */
  method StringCaseMatch2(d: Dialect, s: seq<byte>, from: nat, p: seq<byte>, at: nat) returns (r: int)
    requires DialectOk(d) && from <= |s| && at <= |p|
    ensures r == Answer(d, p, at, s, from)
    decreases |p| - at, 0
  {
    hide Scan, TailAnswer;
    var i, k, matched := from, at, 0;
    while true
      invariant from <= i <= |s| && at <= k <= |p| && matched == i - from
      invariant Answer(d, p, at, s, from) == More(matched, Answer(d, p, k, s, i))
      decreases |p| - k
    {
      if k >= |p| {
        return matched;
      }
      if p[k] == DOLLAR && k + 1 >= |p| {
        if i == |s| {
          return matched;
        } else {
          return -1;
        }
      }
      if p[k] == STAR_CHAR {
        k := k + 1;
        ghost var first := k;
        while k < |p| && p[k] == STAR_CHAR
          invariant first <= k <= |p| && p[k - 1] == STAR_CHAR
          invariant Answer(d, p, at, s, from) == More(matched, Answer(d, p, k - 1, s, i))
        {
          k := k + 1;
        }
        if k >= |p| {
          LastStar(d, p, s, i);
          return |s| - i + matched;
        }
        var rc := MatchTails(d, s, i, p, k);
        return if rc == -1 then -1 else matched + rc;
      }
      if i >= |s| {
        return -1;
      }
      if p[k] == QUERY {
        k, i, matched := k + 1, i + 1, matched + 1;
      } else if p[k] == LBRACKET {
        var found := ScanClass(d, p, k + 1, s[i]);
        if found.None? {
          return -1;
        }
        k, i, matched := found.value, i + 1, matched + 1;
      } else {
        if p[k] == BACKSLASH {
          k := k + 1;
          if k >= |p| {
            return -1;
          }
        }
        var ch1, ch2 := s[i], p[k];
        k := k + 1;
        if d.nocase {
          if d.lower(ch1) != d.lower(ch2) {
            return -1;
          }
        } else if ch1 != ch2 {
          return -1;
        }
        i, matched := i + 1, matched + 1;
      }
    }
  }

  // ----- searching -----

  /** Exp_StringCaseMatch: the pattern anchored by a leading `^`, or anywhere. */
  method StringCaseMatch(d: Dialect, s: seq<byte>, p: seq<byte>) returns (r: int, offset: nat)
    requires DialectOk(d)
    ensures r == -1 || (0 <= r && offset + r <= |s|)
    ensures var caret := Peek(p, 0) == CARET;
            var start := if caret then 1 else 0;
            && TextSearched(d, p, start, s, caret, r, offset)
            && (PlainFrom(d, p, start) ==> Searched(d, Read(d, p, start), s, caret, r, offset))
  {
    hide TextMatches, Answer, PlainFrom, Read, TextSearched, Searched;
    var caret, start;
    r, offset, caret, start := SearchText(d, s, p);
    if PlainFrom(d, p, start) { SearchedAsRead(d, p, start, s, caret, r, offset); }
  }

  method SearchText(d: Dialect, s: seq<byte>, p: seq<byte>) returns (r: int, offset: nat, caret: bool, start: nat)
    requires DialectOk(d)
    ensures caret == (Peek(p, 0) == CARET) && start == if caret then 1 else 0
    ensures TextSearched(d, p, start, s, caret, r, offset) && (r == -1 || (0 <= r && offset + r <= |s|))
  {
    hide TextMatches, Answer, PlainFrom, Read, TextSearched;
    offset, caret, start := 0, false, 0;
    var star := false;
    if Peek(p, 0) == CARET {
      caret, start := true, 1;
    } else if Peek(p, 0) == STAR_CHAR {
      star := true;
    }
    r := StringCaseMatch2(d, s, 0, p, start);
    AnswerMeans(d, p, start, s, 0);
    if r >= 0 {
      FoundFirst(d, p, start, s, caret);
      return;
    }
    if caret || star {
      GiveUp(d, p, start, s, caret);
      return -1, 0, caret, start;
    }
    if Peek(s, 0) == NUL {
      GiveUpAtNul(d, p, start, s);
      return -1, 0, caret, start;
    }
    var o := 1;
    while o < |s|
      invariant 1 <= o <= |s| && forall x: nat :: x < o ==> !TextMatches(d, p, start, s, x)
    {
      r := StringCaseMatch2(d, s, o, p, start);
      AnswerMeans(d, p, start, s, o);
      if r != -1 {
        FoundAt(d, p, start, s, o);
        offset := o;
        return;
      }
      o := o + 1;
    }
    NotFound(d, p, start, s);
    r := -1;
  }
}
