/** When an expression gets a gate, and which.

    The three clean-up passes together come to one walk over the units: of every run of stars
    and question marks that holds a star, the question marks before its first star are
    dropped, with two exceptions, and everything after that star.  There is a gate unless more
    than two stars are left, or nothing, or one star or question mark alone. */
module GateUse {
  import opened Chars
  import opened GateUnits
  import opened GateText

  predicate Wild(u: Unit) {
    u.AnyString? || u.AnyChar?
  }

  predicate EndsInStar(us: seq<Unit>) {
    us != [] && us[|us| - 1].AnyString?
  }

  /** A question mark after these units is not taken for one: it would be the second character,
      or stands after a backslash. */
  predicate KeepsQuery(front: seq<Unit>) {
    (|front| == 1 && !front[0].Quoted?) || (front != [] && front[|front| - 1] == Quoted(BACKSLASH))
  }

  /** Without the question marks at the end. */
  function Trimmed(us: seq<Unit>): (r: seq<Unit>)
    ensures |r| <= |us|
  {
    if us != [] && us[|us| - 1].AnyChar? && !KeepsQuery(us[..|us| - 1]) then Trimmed(us[..|us| - 1]) else us
  }

  /** What the passes leave of us, after what they left of the units before. */
  function Cleaned(done: seq<Unit>, us: seq<Unit>): seq<Unit>
    decreases |us|
  {
    if us == [] then done
    else if Wild(us[0]) && EndsInStar(done) then Cleaned(done, us[1..])
    else if us[0].AnyString? then Cleaned(Trimmed(done) + [AnyString], us[1..])
    else Cleaned(done + [us[0]], us[1..])
  }

  /** The runs of stars and question marks that hold a star; counted: in one already counted. */
  function StarRuns(us: seq<Unit>, counted: bool): nat {
    if us == [] then 0
    else if us[0].AnyString? then (if counted then 0 else 1) + StarRuns(us[1..], true)
    else StarRuns(us[1..], counted && us[0].AnyChar?)
  }

  predicate AllWild(us: seq<Unit>) {
    forall k :: 0 <= k < |us| ==> Wild(us[k])
  }

  /** Nothing, a question mark, or a run with a star that comes first or second. */
  predicate Useless(us: seq<Unit>) {
    us == [] || us == [AnyChar]
    || (AllWild(us) && (us[0].AnyString? || (|us| > 1 && us[1].AnyString?)))
  }

  // ----- one pass for three -----

  lemma LastText(front: seq<Unit>, u: Unit)
    requires UnitsOk(front)
    ensures Text(front + [u]) == Text(front) + UnitText(u)
    ensures |Text(front)| == 0 <==> front == []
    ensures |Text(front)| == 1 <==> |front| == 1 && !front[0].Quoted?
    ensures var x := Text(front);
            |x| > 1 ==> (x[|x| - 1] == BACKSLASH <==> front[|front| - 1] == Quoted(BACKSLASH))
  {
    hide Text, UnitText, UnitsOk;
    TextJoin(front, [u]);
    TextOne(u);
    NoText();
    if front != [] {
      LastOk(front);
      TextEnds(front[..|front| - 1], front[|front| - 1]);
      assert front == front[..|front| - 1] + [front[|front| - 1]];
    }
  }

  lemma LastOk(us: seq<Unit>)
    requires UnitsOk(us) && us != []
    ensures us[|us| - 1].Raw? ==> PlainInGlob(us[|us| - 1].c)
  {}

  lemma TextEnds(before: seq<Unit>, v: Unit)
    requires v.Raw? ==> PlainInGlob(v.c)
    ensures var x := Text(before + [v]);
            && |x| > 0 && (|x| == 1 <==> before == [] && !v.Quoted?)
            && (x[|x| - 1] == BACKSLASH <==> v == Quoted(BACKSLASH))
  {
    hide Text, UnitText;
    var y, z := Text(before), UnitText(v);
    TextJoin(before, [v]);
    TextOne(v);
    UnitEnds(v);
    assert (y + z)[|y + z| - 1] == z[|z| - 1];
    if before == [] { NoText(); } else { TextSome(before); }
  }

  lemma UnitEnds(u: Unit)
    requires u.Raw? ==> PlainInGlob(u.c)
    ensures var x := UnitText(u);
            |x| == (if u.Quoted? then 2 else 1) && (x[|x| - 1] == BACKSLASH <==> u == Quoted(BACKSLASH))
  {}

  lemma TextSome(us: seq<Unit>)
    requires us != []
    ensures |Text(us)| > 0
  {}

  lemma {:induction false} TrimmedText(us: seq<Unit>)
    requires UnitsOk(us)
    ensures Trim(Text(us)) == Text(Trimmed(us)) && UnitsOk(Trimmed(us))
    decreases |us|
  {
    hide Text, UnitText, KeepsQuery, DropsLast, Trimmed, Trim;
    if us == [] {
      NoText();
      NothingTrimmed();
    } else {
      var front, u := us[..|us| - 1], us[|us| - 1];
      assert us == front + [u];
      TrimStep(front, u);
      if u.AnyChar? {
        DropsIs(front);
        TrimmedText(front);
      } else {
        LastText(front, u);
        LastKept(front, u);
        TrimsNothing(Text(us));
      }
    }
  }

  lemma TrimsNothing(x: seq<byte>)
    requires !DropsLast(x)
    ensures Trim(x) == x
  {}

  lemma DropsIs(front: seq<Unit>)
    requires UnitsOk(front)
    ensures Trim(Text(front + [AnyChar])) == if KeepsQuery(front) then Text(front + [AnyChar]) else Trim(Text(front))
  {
    hide Text, UnitText, Trim, UnitsOk;
    LastText(front, AnyChar);
    QueryText();
    TrimOne(Text(front));
    var x := Text(front);
    assert |x| > 1 ==> front != [];
  }

  /** A question mark at the end goes, unless it is the second character or follows a
      backslash. */
  lemma TrimOne(x: seq<byte>)
    ensures Trim(x + [QUERY]) == if |x| == 1 || (|x| > 1 && x[|x| - 1] == BACKSLASH) then x + [QUERY] else Trim(x)
  {
    hide Trim;
    var y := x + [QUERY];
    assert y[..|y| - 1] == x;
    TrimUnfolds(y);
  }

  lemma TrimUnfolds(x: seq<byte>)
    ensures Trim(x) == if DropsLast(x) then Trim(x[..|x| - 1]) else x
  {}

  lemma NothingTrimmed()
    ensures Trim([]) == [] && Trimmed([]) == []
  {}

  lemma NoText()
    ensures Text([]) == []
  {}

  lemma QueryText()
    ensures UnitText(AnyChar) == [QUERY]
  {}

  function QBackUnits(done: seq<Unit>, us: seq<Unit>): seq<Unit>
    decreases |us|
  {
    if us == [] then done
    else QBackUnits((if us[0].AnyString? then Trimmed(done) else done) + [us[0]], us[1..])
  }

  lemma {:induction false} QBackText(done: seq<Unit>, us: seq<Unit>)
    requires UnitsOk(done) && UnitsOk(us)
    ensures QBack(Text(done), Text(us), false) == Text(QBackUnits(done, us)) && UnitsOk(QBackUnits(done, us))
    decreases |us|
  {
    hide QBack, Text, Trim, UnitText, Trimmed;
    if us == [] {
      QBackEmpty(Text(done));
    } else {
      var u, rest := us[0], us[1..];
      var kept := if u.AnyString? then Trimmed(done) else done;
      if u.AnyString? { TrimmedText(done); }
      TrimmedFront(done);
      assert kept == done[..|kept|];
      TextJoin(kept, [u]);
      TextOne(u);
      QBackStep(done, |kept|, u, rest);
      assert us == [u] + rest;
      QBackText(kept + [u], rest);
    }
  }

  lemma {:induction false} TrimmedFront(us: seq<Unit>)
    ensures Trimmed(us) == us[..|Trimmed(us)|]
  {
    if us != [] {
      TrimmedFront(us[..|us| - 1]);
    }
  }

  lemma {:induction false} StarsLast(us: seq<Unit>, u: Unit, star: bool)
    ensures StarsUnits(us + [u], star) ==
            if u.AnyString? && (EndsInStar(us) || (us == [] && star)) then StarsUnits(us, star)
            else StarsUnits(us, star) + [u]
    decreases |us|
  {
    if us == [] {
      assert us + [u] == [u];
    } else {
      assert (us + [u])[1..] == us[1..] + [u];
      StarsLast(us[1..], u, us[0].AnyString?);
    }
  }

  lemma StarsKeepLast(us: seq<Unit>)
    requires us != []
    ensures StarsUnits(us, false) != [] && StarsUnits(us, false)[|StarsUnits(us, false)| - 1] == us[|us| - 1]
    decreases |us|
  {
    var front, u := us[..|us| - 1], us[|us| - 1];
    assert us == front + [u];
    StarsLast(front, u, false);
    if EndsInStar(front) { StarsKeepLast(front); }
  }

  /** After the first pass no question mark follows a star. */
  predicate NoQueryAfterStar(us: seq<Unit>) {
    forall k :: 0 < k < |us| && us[k].AnyChar? ==> !us[k - 1].AnyString?
  }

  lemma TrimStep(front: seq<Unit>, u: Unit)
    ensures Trimmed(front + [u]) == if u.AnyChar? && !KeepsQuery(front) then Trimmed(front) else front + [u]
  {
    hide KeepsQuery;
    assert (front + [u])[..|front|] == front;
  }

  /** Collapsing stars earlier does not change what is trimmed. */
  lemma {:induction false} TrimCollapsed(us: seq<Unit>)
    requires NoQueryAfterStar(us) && !EndsInStar(us)
    ensures StarsUnits(Trimmed(us), false) == Trimmed(StarsUnits(us, false)) && !EndsInStar(Trimmed(us))
    decreases |us|
  {
    hide StarsUnits, Trimmed, KeepsQuery;
    if us == [] {
      NoUnits();
      NothingTrimmed();
    } else {
      var front, u := us[..|us| - 1], us[|us| - 1];
      assert us == front + [u];
      StarsLast(front, u, false);
      TrimStep(front, u);
      TrimStep(StarsUnits(front, false), u);
      if u.AnyChar? {
        assert !EndsInStar(front);
        SameKeeps(front);
        TrimCollapsed(front);
      }
    }
  }

  lemma SameKeeps(us: seq<Unit>)
    requires !EndsInStar(us)
    ensures KeepsQuery(StarsUnits(us, false)) <==> KeepsQuery(us)
  {
    if us != [] {
      StarsKeepLast(us);
      var front, u := us[..|us| - 1], us[|us| - 1];
      assert us == front + [u];
      StarsLast(front, u, false);
      if front != [] { StarsKeepLast(front); }
    }
  }

  lemma {:induction false} PassesAreOne(done: seq<Unit>, us: seq<Unit>)
    requires NoQueryAfterStar(done)
    ensures StarsUnits(QBackUnits(done, QForwardUnits(us, EndsInStar(done))), false)
            == Cleaned(StarsUnits(done, false), us)
    decreases |us|
  {
    hide Trimmed, Cleaned, QBackUnits, QForwardUnits, StarsUnits;
    var c := StarsUnits(done, false);
    if done != [] { StarsKeepLast(done); } else { NoUnits(); }
    OneWalkStep(done, c, us);
    if us != [] {
      var u, rest := us[0], us[1..];
      TrimmedFront(done);
      var kept := if u.AnyString? then Trimmed(done) else done;
      StarsLast(kept, u, false);
      if u.AnyString? {
        if EndsInStar(done) {
          StarIsKept(done);
        } else {
          TrimCollapsed(done);
        }
        PassesAreOne(kept + [u], rest);
        BackStep(done, u, QForwardUnits(rest, true));
      } else if u.AnyChar? && EndsInStar(done) {
        PassesAreOne(done, rest);
      } else {
        PassesAreOne(done + [u], rest);
        BackStep(done, u, QForwardUnits(rest, false));
      }
    }
  }

  lemma StarIsKept(us: seq<Unit>)
    requires EndsInStar(us)
    ensures Trimmed(us) == us
  {}

  lemma BackStep(done: seq<Unit>, u: Unit, us: seq<Unit>)
    ensures QBackUnits(done, [u] + us) == QBackUnits((if u.AnyString? then Trimmed(done) else done) + [u], us)
  {
    hide Trimmed;
    assert ([u] + us)[0] == u && ([u] + us)[1..] == us;
  }

  /** One step of the first pass, the last of the second, and one of the single walk. */
  lemma OneWalkStep(done: seq<Unit>, c: seq<Unit>, us: seq<Unit>)
    ensures us == [] ==> Cleaned(c, us) == c && forall q: bool :: QBackUnits(done, QForwardUnits(us, q)) == done
    ensures us != [] ==>
              Cleaned(c, us) == if Wild(us[0]) && EndsInStar(c) then Cleaned(c, us[1..])
                                else if us[0].AnyString? then Cleaned(Trimmed(c) + [AnyString], us[1..])
                                else Cleaned(c + [us[0]], us[1..])
    ensures us != [] ==> forall q: bool ::
              QForwardUnits(us, q) == if us[0].AnyChar? && q then QForwardUnits(us[1..], true)
                                      else [us[0]] + QForwardUnits(us[1..], us[0].AnyString?)
  {
    hide Trimmed;
  }

  // ----- what is kept -----

  /** The characters, without stars and question marks. */
  function Fixed(us: seq<Unit>): seq<Unit> {
    if us == [] then [] else (if Wild(us[0]) then [] else [us[0]]) + Fixed(us[1..])
  }

  lemma {:induction false} FixedJoin(x: seq<Unit>, y: seq<Unit>)
    ensures Fixed(x + y) == Fixed(x) + Fixed(y)
    decreases |x|
  {
    if x == [] {
      assert x + y == y;
    } else {
      assert (x + y)[1..] == x[1..] + y;
      FixedJoin(x[1..], y);
    }
  }

  lemma FixedOne(u: Unit)
    ensures Fixed([u]) == if Wild(u) then [] else [u]
  {
    assert [u][1..] == [];
  }

  lemma {:induction false} CountJoin(x: seq<Unit>, y: seq<Unit>)
    ensures CountUnits(x + y) == CountUnits(x) + CountUnits(y)
    decreases |x|
  {
    if x == [] {
      assert x + y == y;
    } else {
      assert (x + y)[1..] == x[1..] + y;
      CountJoin(x[1..], y);
    }
  }

  lemma CountOne(u: Unit)
    ensures CountUnits([u]) == if u.AnyString? then 1 else 0
  {
    assert [u][1..] == [];
  }

  lemma {:induction false} TrimKeeps(us: seq<Unit>)
    ensures Fixed(Trimmed(us)) == Fixed(us) && CountUnits(Trimmed(us)) == CountUnits(us)
    decreases |us|
  {
    hide Fixed, CountUnits;
    if us != [] {
      var front, u := us[..|us| - 1], us[|us| - 1];
      assert us == front + [u];
      FixedJoin(front, [u]);
      FixedOne(u);
      CountJoin(front, [u]);
      CountOne(u);
      if u.AnyChar? { TrimKeeps(front); }
    }
  }

  lemma NothingFixed()
    ensures Fixed([]) == []
  {}

  /** The clean-up keeps all characters in their order, and one star for every run that holds
      one. */
  lemma {:induction false} CleanedKeeps(done: seq<Unit>, us: seq<Unit>)
    ensures Fixed(Cleaned(done, us)) == Fixed(done) + Fixed(us)
    ensures CountUnits(Cleaned(done, us)) == CountUnits(done) + StarRuns(us, EndsInStar(done))
    decreases |us|
  {
    hide Trimmed, Fixed, CountUnits;
    NothingFixed();
    if us != [] {
      var u, rest := us[0], us[1..];
      assert us == [u] + rest;
      FixedJoin([u], rest);
      FixedOne(u);
      if Wild(u) && EndsInStar(done) {
        CleanedKeeps(done, rest);
      } else {
        var kept := if u.AnyString? then Trimmed(done) else done;
        TrimKeeps(done);
        FixedJoin(kept, [u]);
        CountJoin(kept, [u]);
        CountOne(u);
        CleanedKeeps(kept + [u], rest);
      }
    }
  }

  lemma {:induction false} FixedNone(us: seq<Unit>)
    ensures Fixed(us) == [] <==> AllWild(us)
  {
    if us != [] {
      FixedNone(us[1..]);
    }
  }

  // ----- when it is of use -----

  lemma {:induction false} RestDropped(done: seq<Unit>, us: seq<Unit>)
    requires EndsInStar(done) && AllWild(us)
    ensures Cleaned(done, us) == done
    decreases |us|
  {
    if us != [] {
      RestDropped(done, us[1..]);
    }
  }

  lemma {:induction false} OnlyQueries(done: seq<Unit>, us: seq<Unit>)
    requires (forall k :: 0 <= k < |us| ==> us[k].AnyChar?) && !EndsInStar(done)
    ensures Cleaned(done, us) == done + us
    decreases |us|
  {
    if us != [] {
      OnlyQueries(done + [us[0]], us[1..]);
      assert done + us == done + [us[0]] + us[1..];
    } else {
      assert done + us == done;
    }
  }

  /** Two question marks at the front are not both dropped. */
  lemma {:induction false} TwoStay(done: seq<Unit>, us: seq<Unit>)
    requires |done| >= 2 && (EndsInStar(done) || forall k :: 0 <= k < |done| ==> done[k].AnyChar?) && AllWild(us)
    ensures |Cleaned(done, us)| >= 2
    decreases |us|
  {
    if us != [] {
      if EndsInStar(done) {
        RestDropped(done, us);
      } else if us[0].AnyString? {
        TwoQueries(done);
        TwoStay(Trimmed(done) + [AnyString], us[1..]);
      } else {
        TwoStay(done + [us[0]], us[1..]);
      }
    }
  }

  lemma {:induction false} TwoQueries(us: seq<Unit>)
    requires |us| >= 2 && forall k :: 0 <= k < |us| ==> us[k].AnyChar?
    ensures |Trimmed(us)| >= 2
    decreases |us|
  {
    if |us| > 2 {
      TwoQueries(us[..|us| - 1]);
    }
  }

  lemma {:induction false} NoRuns(us: seq<Unit>)
    requires AllWild(us) && StarRuns(us, false) == 0
    ensures forall k :: 0 <= k < |us| ==> us[k].AnyChar?
    decreases |us|
  {
    if us != [] {
      NoRuns(us[1..]);
      forall k | 0 <= k < |us| ensures us[k].AnyChar? { assert k > 0 ==> us[k] == us[1..][k - 1]; }
    }
  }

  lemma CleanedEmpty(us: seq<Unit>)
    ensures Cleaned([], us) == [] <==> us == []
  {
    if us != [] && Cleaned([], us) == [] {
      CleanedKeeps([], us);
      FixedNone(us);
      NoRuns(us);
      OnlyQueries([], us);
    }
  }

  lemma CleanedQuery(us: seq<Unit>)
    ensures Cleaned([], us) == [AnyChar] <==> us == [AnyChar]
  {
    if us == [AnyChar] {
      OnlyQueries([], us);
    } else if Cleaned([], us) == [AnyChar] {
      CleanedKeeps([], us);
      FixedOne(AnyChar);
      CountOne(AnyChar);
      FixedNone(us);
      NoRuns(us);
      OnlyQueries([], us);
    }
  }

  lemma QueryFirst(us: seq<Unit>)
    requires us != [] && AllWild(us)
    ensures Cleaned([], [AnyChar] + us) == [AnyString] <==> us[0].AnyString?
  {
    var all, q := [AnyChar] + us, [AnyChar];
    assert all[1..] == us && [] + [all[0]] == q;
    assert Cleaned([], all) == Cleaned(q, us);
    if us[0].AnyString? {
      assert q[..0] == [] && Trimmed(q) == [] && [] + [AnyString] == [AnyString];
      RestDropped([AnyString], us[1..]);
    } else {
      assert q + [us[0]] == [AnyChar, AnyChar];
      TwoStay([AnyChar, AnyChar], us[1..]);
    }
  }

  lemma StarFirst(us: seq<Unit>)
    requires us != [] && AllWild(us) && us[0].AnyString?
    ensures Cleaned([], us) == [AnyString]
  {
    hide Trimmed;
    NothingTrimmed();
    assert [] + [AnyString] == [AnyString];
    RestDropped([AnyString], us[1..]);
  }

  lemma OnlyWildLeft(us: seq<Unit>)
    requires Cleaned([], us) == [AnyString]
    ensures us != [] && AllWild(us)
  {
    hide Fixed, CountUnits, StarRuns, Trimmed;
    CleanedKeeps([], us);
    NothingFixed();
    FixedOne(AnyString);
    FixedNone(us);
  }

  lemma CleanedStar(us: seq<Unit>)
    ensures Cleaned([], us) == [AnyString] <==>
            us != [] && AllWild(us) && (us[0].AnyString? || (|us| > 1 && us[1].AnyString?))
  {
    hide Cleaned;
    if us != [] && AllWild(us) {
      if us[0].AnyString? {
        StarFirst(us);
      } else if |us| > 1 {
        assert us == [AnyChar] + us[1..];
        QueryFirst(us[1..]);
      } else {
        OnlyQueries([], us);
      }
    } else if Cleaned([], us) == [AnyString] {
      OnlyWildLeft(us);
    }
  }

  lemma OneCharText(us: seq<Unit>)
    requires UnitsOk(us)
    ensures Text(us) == [] <==> us == []
    ensures Text(us) == [STAR_CHAR] <==> us == [AnyString]
    ensures Text(us) == [QUERY] <==> us == [AnyChar]
  {
    if us != [] {
      assert us == [us[0]] + us[1..];
      var x, y := UnitText(us[0]), Text(us[1..]);
      assert Text(us) == x + y && (us[0].Raw? ==> PlainInGlob(us[0].c));
      if us[1..] != [] {
        TextSome(us[1..]);
      } else {
        assert x + y == x && us == [us[0]];
        assert x == [STAR_CHAR] ==> us[0].AnyString?;
      }
    }
  }

  /** What the clean-up passes and the last tests give, for any units. */
  lemma FinishIs(us: seq<Unit>)
    requires UnitsOk(us)
    ensures Finish(Text(us)) ==
            if StarRuns(us, false) > 2 || Useless(us) then NoGate else Glob(Text(Cleaned([], us)))
    ensures UnitsOk(Cleaned([], us))
  {
    hide QForward, QBack, Stars, CountStars, Text, UnitsOk, Cleaned, StarsUnits, QForwardUnits, QBackUnits, CountUnits;
    var x := QForwardUnits(us, false);
    QForwardText(us, false);
    NoText();
    NoUnits();
    QBackText([], x);
    var y := QBackUnits([], x);
    StarsText(y, false);
    PassesAreOne([], us);
    var z := Cleaned([], us);
    assert Text(z) == Stars(QBack([], QForward(Text(us), false, false), false), false, false);
    CountText(z);
    CleanedKeeps([], us);
    OneCharText(z);
    CleanedEmpty(us);
    CleanedQuery(us);
    CleanedStar(us);
  }

  lemma NoUnits()
    ensures UnitsOk([]) && StarsUnits([], false) == [] && CountUnits([]) == 0
  {}
}
