/** The clean-up passes of retoglob.c, in place on the output buffer. */
module GatePasses {
  import opened Chars
  import opened GateUnits

  lemma FirstOf(a: seq<byte>, src: nat, last: nat, x: seq<byte>)
    requires src < last <= |a| && |x| == last && a[src..last] == x[src..]
    ensures a[src] == x[src] == x[src..][0] && x[src..][1..] == x[src + 1..] && a[src + 1..last] == x[src + 1..]
  {
    assert a[src..last][0] == a[src];
    assert a[src..last][1..] == a[src + 1..last];
  }

  /** A character moves from src down to dst. */
  method Move(a: array<byte>, dst: nat, src: nat, last: nat)
    requires dst <= src < last <= a.Length
    modifies a
    ensures a[..dst + 1] == old(a[..dst]) + [old(a[src])] && a[src + 1..last] == old(a[src + 1..last])
  {
    a[dst] := a[src];
  }

  /** ExpCollapseQForward: returns the new end of the text. */
  method CollapseQForward(a: array<byte>, last: nat) returns (dst: nat)
    requires last <= a.Length
    modifies a
    ensures dst <= last && a[..dst] == QForward(old(a[..last]), false, false)
  {
    hide QForward;
    ghost var x := a[..last];
    var src, skip, quest := 0, false, false;
    dst := 0;
    while src < last
      invariant dst <= src <= last && a[src..last] == x[src..]
      invariant QForward(x, false, false) == a[..dst] + QForward(x[src..], skip, quest)
    {
      FirstOf(a[..], src, last, x);
      QForwardFirst(a[..dst], x[src..], skip, quest);
      if skip {
        skip, quest := false, false;
      } else if a[src] == BACKSLASH {
        skip, quest := true, false;
      } else if a[src] == QUERY {
        if quest {
          src := src + 1;
          continue;
        }
      } else if a[src] == STAR_CHAR {
        quest := true;
      } else {
        quest := false;
      }
      Move(a, dst, src, last);
      dst, src := dst + 1, src + 1;
    }
    QForwardEnd(skip, quest);
  }

  lemma QForwardFirst(done: seq<byte>, x: seq<byte>, skip: bool, quest: bool)
    requires x != []
    ensures done + QForward(x, skip, quest) ==
            if skip then (done + [x[0]]) + QForward(x[1..], false, false)
            else if x[0] == BACKSLASH then (done + [x[0]]) + QForward(x[1..], true, false)
            else if x[0] == QUERY && quest then done + QForward(x[1..], false, true)
            else (done + [x[0]]) + QForward(x[1..], false, x[0] == STAR_CHAR)
  {}

  lemma QForwardEnd(skip: bool, quest: bool)
    ensures QForward([], skip, quest) == []
  {}

  /** ExpCollapseQBack */
  method CollapseQBack(a: array<byte>, last: nat) returns (dst: nat)
    requires last <= a.Length
    modifies a
    ensures dst <= last && a[..dst] == QBack([], old(a[..last]), false)
  {
    hide QBack, Trim;
    ghost var x := a[..last];
    var src, skip := 0, false;
    dst := 0;
    while src < last
      invariant dst <= src <= last && a[src..last] == x[src..]
      invariant QBack([], x, false) == QBack(a[..dst], x[src..], skip)
    {
      FirstOf(a[..], src, last, x);
      QBackFirst(a[..dst], x[src..], skip);
      if skip {
        skip := false;
      } else if a[src] == BACKSLASH {
        skip := true;
      } else if a[src] == STAR_CHAR {
        ghost var done := a[..dst];
        while (dst > 2 && a[dst - 1] == QUERY && a[dst - 2] != BACKSLASH) || (dst == 1 && a[dst - 1] == QUERY)
          modifies {}
          invariant dst <= |done| && a[..dst] == done[..dst] && Trim(done) == Trim(a[..dst])
          decreases dst
        {
          TrimMore(a[..dst]);
          assert a[..dst][..dst - 1] == a[..dst - 1];
          dst := dst - 1;
        }
        TrimDone(a[..dst]);
      }
      Move(a, dst, src, last);
      dst, src := dst + 1, src + 1;
    }
    QBackEnd(a[..dst], skip);
  }

  lemma QBackFirst(done: seq<byte>, x: seq<byte>, skip: bool)
    requires x != []
    ensures QBack(done, x, skip) ==
            if !skip && x[0] == STAR_CHAR then QBack(Trim(done) + [x[0]], x[1..], false)
            else QBack(done + [x[0]], x[1..], !skip && x[0] == BACKSLASH)
  {}

  lemma QBackEnd(done: seq<byte>, skip: bool)
    ensures QBack(done, [], skip) == done
  {}

  lemma TrimMore(x: seq<byte>)
    requires DropsLast(x)
    ensures Trim(x) == Trim(x[..|x| - 1])
  {}

  lemma TrimDone(x: seq<byte>)
    requires !DropsLast(x)
    ensures Trim(x) == x
  {}

  /** ExpCollapseStar */
  method CollapseStar(a: array<byte>, last: nat) returns (dst: nat)
    requires last <= a.Length
    modifies a
    ensures dst <= last && a[..dst] == Stars(old(a[..last]), false, false)
  {
    hide Stars;
    ghost var x := a[..last];
    var src, skip, star := 0, false, false;
    dst := 0;
    while src < last
      invariant dst <= src <= last && a[src..last] == x[src..]
      invariant Stars(x, false, false) == a[..dst] + Stars(x[src..], skip, star)
    {
      FirstOf(a[..], src, last, x);
      StarsFirst(a[..dst], x[src..], skip, star);
      if skip {
        skip, star := false, false;
      } else if a[src] == BACKSLASH {
        skip, star := true, false;
      } else if a[src] == STAR_CHAR {
        if star {
          src := src + 1;
          continue;
        }
        star := true;
      } else {
        star := false;
      }
      Move(a, dst, src, last);
      dst, src := dst + 1, src + 1;
    }
    StarsEnd(skip, star);
  }

  lemma StarsFirst(done: seq<byte>, x: seq<byte>, skip: bool, star: bool)
    requires x != []
    ensures done + Stars(x, skip, star) ==
            if skip then (done + [x[0]]) + Stars(x[1..], false, false)
            else if x[0] == BACKSLASH then (done + [x[0]]) + Stars(x[1..], true, false)
            else if x[0] == STAR_CHAR && star then done + Stars(x[1..], false, true)
            else (done + [x[0]]) + Stars(x[1..], false, x[0] == STAR_CHAR)
  {}

  lemma StarsEnd(skip: bool, star: bool)
    ensures Stars([], skip, star) == []
  {}

  /** ExpCountStar */
  method CountStar(a: array<byte>, last: nat) returns (stars: nat)
    requires last <= a.Length
    ensures stars == CountStars(a[..last], false)
  {
    hide CountStars;
    var src, skip := 0, false;
    stars := 0;
    assert a[..last] == a[0..last];
    while src < last
      invariant 0 <= src <= last && CountStars(a[..last], false) == stars + CountStars(a[src..last], skip)
    {
      assert a[src..last][0] == a[src] && a[src..last][1..] == a[src + 1..last];
      CountFirst(a[src..last], skip);
      if skip {
        skip := false;
      } else if a[src] == BACKSLASH {
        skip := true;
      } else if a[src] == STAR_CHAR {
        stars := stars + 1;
      }
      src := src + 1;
    }
    assert a[src..last] == [];
    CountEnd(skip);
  }

  lemma CountFirst(x: seq<byte>, skip: bool)
    requires x != []
    ensures CountStars(x, skip) ==
            if skip then CountStars(x[1..], false)
            else (if x[0] == STAR_CHAR then 1 else 0) + CountStars(x[1..], x[0] == BACKSLASH)
  {}

  lemma CountEnd(skip: bool)
    ensures CountStars([], skip) == 0
  {}
}
