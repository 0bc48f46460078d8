/** From pattern to answer: compiling a pattern and searching a string with the program finds
    exactly what the pattern means. */
module RegMatching {
  import opened Chars
  import opened RegSyntax
  import opened RegCode
  import opened RegLink
  import opened RegMeaning
  import opened RegPaths
  import opened RegBacktrack
  import opened RegPreference
  import opened RegExec
  import opened RegSearch
  import opened RegCaptures
  import RegRefusals

  datatype Outcome = Refused(error: Error) | NoMatch | Matched(starts: seq<int>, ends: seq<int>)

  /** The pattern matches nowhere from a place on. */
  ghost predicate NowhereFrom(l: Alts, u: Subject, from: nat) {
    forall i: nat, j: nat :: from <= i ==> !AltsSpan(l, u, i, j)
  }

  /** The match is the first of all ways to match from its place on, and every group has the
      boundaries it passed last. */
  ghost predicate Chosen(l: Alts, u: Subject, starts: seq<int>, ends: seq<int>, w: Way) {
    && |starts| == |ends| == NSUBEXP && 0 <= starts[0] <= ends[0] && BestWay(l, u, starts[0], ends[0], w)
    && forall n :: 0 < n < NSUBEXP ==> starts[n] == StartOf(Events(w), n) && ends[n] == EndOf(Events(w), n)
  }

  /** The whole match is leftmost, in the language of the pattern and the one to be preferred;
      every group is unset, or its boundaries enclose a match of the group inside the whole. */
  ghost predicate GoodMatch(l: Alts, u: Subject, from: nat, starts: seq<int>, ends: seq<int>) {
    && |starts| == |ends| == NSUBEXP && from <= starts[0] <= ends[0] <= |u.s|
    && AltsSpan(l, u, starts[0], ends[0])
    && (forall i: nat, j: nat :: from <= i < starts[0] ==> !AltsSpan(l, u, i, j))
    && (exists w :: Chosen(l, u, starts, ends, w))
    && forall n :: 0 < n < NSUBEXP ==> GroupSpan(l, n, u, starts[0], starts[n], ends[n], ends[0])
  }

  ghost predicate GroupSpan(l: Alts, n: nat, u: Subject, first: int, from: int, to: int, last: int) {
    from == to == -1
    || (0 <= first <= from <= to <= last && exists body: Alts :: AltsHave(l, n, body) && AltsSpan(body, u, from, to))
  }

  /** That leaves only one answer. */
  lemma OneAnswer(l: Alts, u: Subject, from: nat, starts: seq<int>, ends: seq<int>, starts': seq<int>, ends': seq<int>)
    requires GoodMatch(l, u, from, starts, ends) && GoodMatch(l, u, from, starts', ends')
    ensures starts == starts' && ends == ends'
  {
    hide AltsSpan, GroupSpan, BestWay, StartOf, EndOf;
    assert starts[0] == starts'[0];
    var w :| Chosen(l, u, starts, ends, w);
    var w' :| Chosen(l, u, starts', ends', w');
    BestIsOne(l, u, starts[0], ends[0], w, ends'[0], w');
  }

  lemma {:induction false} FoundByTrying(l: Alts, u: Subject, k: nat)
    requires k <= |u.s|
    ensures var f := Search(l, u, k); f.Some? ==> f.value.at <= |u.s| && Try(l, u, f.value.at) == Some(f.value.m)
    decreases |u.s| - k
  {
    hide Try;
    SearchStep(l, u, k);
    if Try(l, u, k).None? && k < |u.s| {
      FoundByTrying(l, u, k + 1);
    }
  }

  lemma RecordedIsGood(exp: seq<byte>, u: Subject, from: nat, starts: seq<int>, ends: seq<int>)
    requires CharsOk(exp) && from <= |u.s| && ParseReg(exp, 0, 1, false).Ok?
    requires var f := Search(ParseReg(exp, 0, 1, false).value, u, from); f.Some? && Recorded(starts, ends, f.value)
    ensures GoodMatch(ParseReg(exp, 0, 1, false).value, u, from, starts, ends)
  {
    hide Search, Try, ParseReg, AltsSpan, AltsHave, AltsOk, BestWay, StartOf, EndOf, LastIteration;
    var l := ParseReg(exp, 0, 1, false).value;
    var f := Search(l, u, from).value;
    SearchMeans(l, u, from);
    AltsInside(l, u, f.at, f.m.end);
    ParseRegOk(exp, 0, 1, false);
    FoundByTrying(l, u, from);
    var w := TryIsBest(l, u, f.at);
    assert Chosen(l, u, starts, ends, w);
    forall n | 0 < n < NSUBEXP ensures GroupSpan(l, n, u, starts[0], starts[n], ends[n], ends[0]) {
      CapturesAreLastIterations(exp, u, from, n);
    }
  }

  lemma NothingFound(l: Alts, u: Subject, from: nat)
    requires from <= |u.s| && Search(l, u, from).None?
    ensures NowhereFrom(l, u, from)
  {
    hide Search, AltsSpan;
    SearchMeans(l, u, from);
    assert forall i: nat, j: nat :: from <= i && AltsSpan(l, u, i, j) ==> false;
  }

  /** TclRegComp, then TclRegExec on s from a place on, the line beginning at `start`. */
  method CompileAndSearch(exp: seq<byte>, s: seq<byte>, from: nat, start: nat) returns (r: Outcome)
    requires CharsOk(exp) && CharsOk(s) && start <= from <= |s|
    ensures match ParseReg(exp, 0, 1, false)
            case Fail(e) => r == Refused(e)
            case Ok(l, _, _) =>
              if |Program(l)| >= CODE_LIMIT then r == Refused(TooBig)
              else
                var u := Subject(s, start);
                match r
                case Refused(_) => false
                case NoMatch => NowhereFrom(l, u, from)
                case Matched(starts, ends) => GoodMatch(l, u, from, starts, ends)
    ensures var wrong := RegRefusals.Verdict(exp, 0, 1, RegRefusals.Level(true, false), []);
            if wrong.Some? then r == Refused(wrong.value) else r.Refused? ==> r.error == TooBig
  {
    hide Program, Search, ParseReg, AltsSpan, GoodMatch, IsFor, RegRefusals.Verdict, RegRefusals.Nest;
    RegRefusals.AcceptedExactly(exp);
    var c := TclRegComp(Some(exp));
    if c.Err? {
      return Refused(c.error);
    }
    ghost var l := ParseReg(exp, 0, 1, false).value;
    ghost var u := Subject(s, start);
    var ok, starts, ends := TclRegExec(c.r, s, from, start, l);
    if ok {
      RecordedIsGood(exp, u, from, starts, ends);
      r := Matched(starts, ends);
    } else {
      NothingFound(l, u, from);
      r := NoMatch;
    }
  }
}
