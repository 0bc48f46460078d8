/** The glob matcher of exp_clib.c, over C strings: tails are tried from the very end. */
module GlobBytes {
  import opened Chars
  import opened Glob
  import opened GlobText
  import opened GlobSteps

  /** C strings hold no NUL. */
  predicate IsString(s: seq<byte>) {
    forall k :: 0 <= k < |s| ==> s[k] != NUL
  }

  const BYTES: Dialect := Dialect(false, false, (c: byte) => c)

  /** The class scan, from just after the opening bracket: is ch one of its characters, and
      where is the last character of the class? */
  method ScanClass(p: seq<byte>, from: nat, ch: byte) returns (ok: bool, last: nat)
    requires IsString(p) && 0 < from <= |p| && ch != NUL
    ensures ok ==> last < |p| && Scan(BYTES, p, from, ch) == Some(last + 1)
    ensures !ok ==> Scan(BYTES, p, from, ch) == None
  {
    var k := from;
    while true
      invariant from <= k <= |p| && ByteScan(p, from, ch) == ByteScan(p, k, ch)
      decreases |p| - k
    {
      if Peek(p, k) == RBRACKET || Peek(p, k) == NUL {
        return false, k;
      }
      if p[k] == ch {
        break;
      }
      if Peek(p, k + 1) == MINUS {
        var c2 := Peek(p, k + 2);
        if c2 == NUL {
          return false, k;
        }
        if p[k] <= ch && c2 >= ch {
          break;
        }
        if p[k] >= ch && c2 <= ch {
          break;
        }
        k := k + 2;
      }
      k := k + 1;
    }
    ghost var hit := k;
    while Peek(p, k) != RBRACKET
      invariant hit <= k <= |p| && AfterBracket(p, hit) == AfterBracket(p, k)
      decreases |p| - k
    {
      if Peek(p, k) == NUL {
        k := k - 1;
        break;
      }
      k := k + 1;
    }
    ok, last := true, k;
  }

  // ----- the matcher -----

  /** The rest of the match from a `*` on, k the position after it: tails from the empty one
      backwards. */
  method MatchTails(s: seq<byte>, i: nat, p: seq<byte>, k: nat) returns (r: int)
    requires IsString(s) && IsString(p) && i <= |s| && 0 < k <= |p| && p[k - 1] == STAR_CHAR
    ensures r == Answer(BYTES, p, k - 1, s, i)
    decreases |p| - k, 1
  {
    hide Answer;
    StarAnswer(p, k, s, i);
    var headLen := |s| - i;
    while headLen >= 0
      invariant -1 <= headLen <= |s| - i
      invariant Answer(BYTES, p, k - 1, s, i) == if headLen < 0 then -1 else TailAnswer(BYTES, p, k, s, i, i + headLen)
    {
      var rc := StringMatch2(s, i + headLen, p, k);
      if rc != -1 {
        return rc + headLen;
      }
      headLen := headLen - 1;
    }
    r := -1;
  }

  lemma StarAnswer(p: seq<byte>, k: nat, s: seq<byte>, i: nat)
    requires i <= |s| && 0 < k <= |p| && p[k - 1] == STAR_CHAR
    ensures Answer(BYTES, p, k - 1, s, i) == TailAnswer(BYTES, p, k, s, i, |s|)
  {
    hide TailAnswer;
  }

  /** How many characters of s from a place on the pattern from `at` on matches. */
  method StringMatch2(s: seq<byte>, from: nat, p: seq<byte>, at: nat) returns (r: int)
    requires IsString(s) && IsString(p) && from <= |s| && at <= |p|
    ensures r == Answer(BYTES, p, at, s, from)
    decreases |p| - at, 0
  {
    hide Scan, TailAnswer;
    var i, k, matched := from, at, 0;
    while true
      invariant from <= i <= |s| && at <= k <= |p| && matched == i - from
      invariant Answer(BYTES, p, at, s, from) == More(matched, Answer(BYTES, p, k, s, i))
      decreases |p| - k
    {
      if Peek(p, k) == NUL {
        return matched;
      }
      if p[k] == DOLLAR && Peek(p, k + 1) == NUL {
        if Peek(s, i) == NUL {
          return matched;
        } else {
          return -1;
        }
      }
      if p[k] == STAR_CHAR {
        k := k + 1;
        if Peek(p, k) == NUL {
          LastStar(BYTES, p, s, i);
          return |s| - i + matched;
        }
        var rc := MatchTails(s, i, p, k);
        return if rc == -1 then -1 else rc + matched;
      }
      if Peek(s, i) == NUL {
        return -1;
      }
      if p[k] == QUERY {
      } else if p[k] == LBRACKET {
        k := k + 1;
        var ok, last := ScanClass(p, k, s[i]);
        if !ok {
          return -1;
        }
        k := last;
      } else {
        if p[k] == BACKSLASH {
          k := k + 1;
          if Peek(p, k) == NUL {
            return -1;
          }
        }
        if p[k] != s[i] {
          return -1;
        }
      }
      k, i, matched := k + 1, i + 1, matched + 1;
    }
  }

  // ----- searching -----

  /** Exp_StringMatch: the pattern anchored by a leading `^`, or anywhere. */
  method StringMatch(s: seq<byte>, p: seq<byte>) returns (r: int, offset: nat)
    requires IsString(s) && IsString(p)
    ensures r == -1 || (0 <= r && offset + r <= |s|)
    ensures var caret := Peek(p, 0) == CARET;
            var start := if caret then 1 else 0;
            && TextSearched(BYTES, p, start, s, caret, r, offset)
            && (PlainFrom(BYTES, p, start) ==> Searched(BYTES, Read(BYTES, p, start), s, caret, r, offset))
  {
    hide TextMatches, Answer, PlainFrom, Read, TextSearched, Searched;
    var caret, start;
    r, offset, caret, start := SearchText(s, p);
    if PlainFrom(BYTES, p, start) { SearchedAsRead(BYTES, p, start, s, caret, r, offset); }
  }

  method SearchText(s: seq<byte>, p: seq<byte>) returns (r: int, offset: nat, caret: bool, start: nat)
    requires IsString(s) && IsString(p)
    ensures caret == (Peek(p, 0) == CARET) && start == if caret then 1 else 0
    ensures TextSearched(BYTES, p, start, s, caret, r, offset) && (r == -1 || (0 <= r && offset + r <= |s|))
  {
    hide TextMatches, Answer, PlainFrom, Read, TextSearched;
    offset, caret, start := 0, false, 0;
    var star := false;
    if Peek(p, 0) == CARET {
      caret, start := true, 1;
    } else if Peek(p, 0) == STAR_CHAR {
      star := true;
    }
    r := StringMatch2(s, 0, p, start);
    AnswerMeans(BYTES, p, start, s, 0);
    if r >= 0 {
      FoundFirst(BYTES, p, start, s, caret);
      return;
    }
    if caret || star {
      GiveUp(BYTES, p, start, s, caret);
      return -1, 0, caret, start;
    }
    if Peek(s, 0) == NUL {
      GiveUpAtNul(BYTES, p, start, s);
      return -1, 0, caret, start;
    }
    var o := 1;
    while Peek(s, o) != NUL
      invariant 1 <= o <= |s| && forall x: nat :: x < o ==> !TextMatches(BYTES, p, start, s, x)
      decreases |s| - o
    {
      r := StringMatch2(s, o, p, start);
      AnswerMeans(BYTES, p, start, s, o);
      if r != -1 {
        FoundAt(BYTES, p, start, s, o);
        offset := o;
        return;
      }
      o := o + 1;
    }
    NotFound(BYTES, p, start, s);
    r := -1;
  }
}
