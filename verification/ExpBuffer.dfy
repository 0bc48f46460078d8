/** The input buffer of a spawned process in expect.c, and what match_max guarantees.

    Characters are read to the end of the buffer, nulls are stripped from what was just
    read, a third of the buffer is dropped when it is two thirds full, and matched
    characters are removed from its front. */
module ExpBuffer {
  import opened Chars

  /** What became of a character that left the buffer. */
  datatype Fate = Dropped | Matched

  /** All characters that came in, stripped, and what became of those that left; the others
      are in the buffer. */
  datatype History = History(stream: seq<byte>, fates: seq<Fate>)

  function Buffered(h: History): seq<byte>
    requires |h.fates| <= |h.stream|
  {
    h.stream[|h.fates|..]
  }

  function Use(h: History): int {
    |h.stream| - |h.fates|
  }

  /** The buffer holds three times umsize and one. */
  function Max(umsize: nat): nat {
    umsize * 3 + 1
  }

  function Strip(rmNulls: bool, x: seq<byte>): (r: seq<byte>)
    ensures |r| <= |x| && (rmNulls ==> NUL !in r) && (!rmNulls ==> r == x)
  {
    if !rmNulls then x
    else if x == [] then []
    else (if x[0] == NUL then [] else [x[0]]) + Strip(true, x[1..])
  }

  /** Exactly the nulls are taken out, and the order is kept. */
  lemma {:induction false} StripParts(rmNulls: bool, x: seq<byte>, c: byte, y: seq<byte>)
    ensures Strip(rmNulls, x + [c] + y)
            == Strip(rmNulls, x) + (if rmNulls && c == NUL then [] else [c]) + Strip(rmNulls, y)
    decreases |x|
  {
    var all := x + [c] + y;
    if rmNulls {
      if x == [] {
        assert all[0] == c && all[1..] == y;
      } else {
        assert all[0] == x[0] && all[1..] == x[1..] + [c] + y;
        StripParts(true, x[1..], c, y);
      }
    }
  }

  function Repeat(f: Fate, n: nat): (r: seq<Fate>)
    ensures |r| == n && forall k :: 0 <= k < n ==> r[k] == f
  {
    seq(n, i => f)
  }

  // ----- what happens to the history -----

  predicate Ok(h: History, umsize: nat) {
    |h.fates| <= |h.stream| && Use(h) <= Max(umsize)
  }

  /** A third is dropped. */
  function Shuffled(h: History): (r: History)
    requires |h.fates| <= |h.stream|
    ensures |r.fates| <= |r.stream| && r.stream == h.stream
  {
    History(h.stream, h.fates + Repeat(Dropped, Use(h) / 3))
  }

  function MadeRoom(h: History, umsize: nat): (r: History)
    requires |h.fates| <= |h.stream|
    ensures |r.fates| <= |r.stream| && r.stream == h.stream
  {
    if Use(h) * 3 >= Max(umsize) * 2 then Shuffled(h) else h
  }

  function Room(h: History, umsize: nat): int
    requires |h.fates| <= |h.stream|
  {
    Max(umsize) - Use(MadeRoom(h, umsize))
  }

  /** Every read has room for at least umsize characters. */
  lemma RoomForRead(h: History, umsize: nat)
    requires Ok(h, umsize) && umsize > 0
    ensures Room(h, umsize) >= umsize
  {}

  /** As many characters as there is room for are read from what the channel has. */
  function ReadCount(h: History, umsize: nat, channel: seq<byte>): (n: nat)
    requires Ok(h, umsize) && umsize > 0
    ensures n <= |channel| && n <= Room(h, umsize) && (channel != [] ==> n > 0)
  {
    RoomForRead(h, umsize);
    if |channel| <= Room(h, umsize) then |channel| else Room(h, umsize)
  }

  function AfterRead(h: History, umsize: nat, rmNulls: bool, channel: seq<byte>): (r: History)
    requires Ok(h, umsize) && umsize > 0
    ensures Ok(r, umsize)
  {
    var m := MadeRoom(h, umsize);
    var n := ReadCount(h, umsize, channel);
    History(h.stream + Strip(rmNulls, channel[..n]), m.fates)
  }

  function AfterMatch(h: History, umsize: nat, n: nat): (r: History)
    requires Ok(h, umsize) && n <= Use(h)
    ensures Ok(r, umsize)
  {
    History(h.stream, h.fates + Repeat(Matched, n))
  }

  /** What is left after a match is what followed it. */
  lemma RestAfterMatch(h: History, umsize: nat, n: nat)
    requires Ok(h, umsize) && n <= Use(h)
    ensures Buffered(AfterMatch(h, umsize, n)) == Buffered(h)[n..]
  {
    assert h.stream[|h.fates| + n..] == h.stream[|h.fates|..][n..];
  }

  // ----- the guarantee -----

  /** The place after the last matched character of the first n. */
  function MatchedBefore(fates: seq<Fate>, n: nat): (r: nat)
    requires n <= |fates|
    ensures r <= n && (r > 0 ==> fates[r - 1] == Matched) && forall k :: r <= k < n ==> fates[k] != Matched
  {
    if n == 0 || fates[n - 1] == Matched then n else MatchedBefore(fates, n - 1)
  }

  function MatchedEnd(fates: seq<Fate>): (n: nat)
    ensures n <= |fates| && (n > 0 ==> fates[n - 1] == Matched) && forall k :: n <= k < |fates| ==> fates[k] != Matched
  {
    MatchedBefore(fates, |fates|)
  }

  /** As many characters are left at least when a third is dropped. */
  function Left(umsize: nat): (n: nat)
    ensures umsize > 0 ==> n >= umsize
  {
    (4 * umsize + 4) / 3
  }

  /** Nothing was dropped that is not older than the last Left(umsize) characters, unless a
      match took what came after it. */
  predicate Guarded(h: History, umsize: nat) {
    |h.fates| == MatchedEnd(h.fates) || |h.fates| + Left(umsize) <= |h.stream|
  }

  lemma MatchedEndKept(fates: seq<Fate>, n: nat)
    ensures MatchedEnd(fates + Repeat(Matched, n)) >= MatchedEnd(fates)
    ensures n > 0 ==> MatchedEnd(fates + Repeat(Matched, n)) == |fates| + n
  {
    var all := fates + Repeat(Matched, n);
    if n == 0 {
      assert all == fates;
    } else {
      assert all[|all| - 1] == Matched;
    }
  }

  lemma ReadGuards(h: History, umsize: nat, rmNulls: bool, channel: seq<byte>)
    requires Ok(h, umsize) && umsize > 0 && Guarded(h, umsize)
    ensures Guarded(AfterRead(h, umsize, rmNulls, channel), umsize)
    ensures var m := MadeRoom(h, umsize); |m.fates| == MatchedEnd(m.fates) || |m.fates| + Left(umsize) <= |h.stream|
  {
    hide MatchedEnd;
    if Use(h) * 3 >= Max(umsize) * 2 {
      assert |Shuffled(h).fates| + Left(umsize) <= |h.stream|;
    }
  }

  lemma MatchGuards(h: History, umsize: nat, n: nat)
    requires Ok(h, umsize) && n <= Use(h) && Guarded(h, umsize)
    ensures Guarded(AfterMatch(h, umsize, n), umsize)
  {
    MatchedEndKept(h.fates, n);
    if n == 0 {
      assert h.fates + Repeat(Matched, 0) == h.fates;
    }
  }

  /** None of the characters from i to j was matched. */
  predicate Unmatched(h: History, i: nat, j: nat) {
    forall k :: i <= k < j && k < |h.fates| ==> h.fates[k] != Matched
  }

  /** match_max: a run of at most Left(umsize) + 1 characters, which is more than umsize, none
      of which was matched is wholly in the buffer right after the read that brought its last
      character. */
  lemma RunIsBuffered(h: History, umsize: nat, rmNulls: bool, channel: seq<byte>, i: nat, j: nat)
    requires Ok(h, umsize) && umsize > 0 && Guarded(h, umsize)
    requires var r := AfterRead(h, umsize, rmNulls, channel);
             i < j <= i + Left(umsize) + 1 && |h.stream| < j <= |r.stream| && Unmatched(r, i, j)
    ensures var r := AfterRead(h, umsize, rmNulls, channel);
            |r.fates| <= i && r.stream[i..j] == Buffered(r)[i - |r.fates|..j - |r.fates|]
  {
    hide Unmatched, MatchedEnd, Repeat, Strip;
    var r := AfterRead(h, umsize, rmNulls, channel);
    ReadGuards(h, umsize, rmNulls, channel);
    UnmatchedAfter(r, i, j);
    BufferedPart(r, i, j);
  }

  lemma BufferedPart(h: History, i: nat, j: nat)
    requires |h.fates| <= |h.stream|
    ensures |h.fates| <= i <= j <= |h.stream| ==> h.stream[i..j] == Buffered(h)[i - |h.fates|..j - |h.fates|]
  {
    if |h.fates| <= i <= j <= |h.stream| {
      var b, n := Buffered(h), |h.fates|;
      forall k | 0 <= k < j - i ensures h.stream[i..j][k] == b[i - n..j - n][k] {
        assert b[i - n + k] == h.stream[i + k];
      }
    }
  }

  lemma UnmatchedAfter(h: History, i: nat, j: nat)
    requires Unmatched(h, i, j) && |h.fates| <= j
    ensures MatchedEnd(h.fates) <= i
  {
    var n := MatchedEnd(h.fates);
    assert n == 0 || h.fates[n - 1] == Matched;
  }

  // ----- whole runs -----

  datatype Event = Arrived(channel: seq<byte>) | MatchedFront(n: nat)

  function After(h: History, umsize: nat, rmNulls: bool, e: Event): (r: History)
    requires Ok(h, umsize) && umsize > 0
    ensures Ok(r, umsize)
  {
    match e
    case Arrived(channel) => AfterRead(h, umsize, rmNulls, channel)
    case MatchedFront(n) => if n <= Use(h) then AfterMatch(h, umsize, n) else h
  }

  function Run(umsize: nat, rmNulls: bool, events: seq<Event>): (h: History)
    requires umsize > 0
    ensures Ok(h, umsize)
  {
    if events == [] then History([], [])
    else After(Run(umsize, rmNulls, events[..|events| - 1]), umsize, rmNulls, events[|events| - 1])
  }

  /** How many characters met this fate. */
  function Count(fates: seq<Fate>, f: Fate): nat {
    if fates == [] then 0 else Count(fates[..|fates| - 1], f) + if fates[|fates| - 1] == f then 1 else 0
  }

  lemma {:induction false} CountRepeat(fates: seq<Fate>, f: Fate, n: nat, g: Fate)
    ensures Count(fates + Repeat(f, n), g) == Count(fates, g) + if f == g then n else 0
    decreases n
  {
    var all := fates + Repeat(f, n);
    if n == 0 {
      assert all == fates;
    } else {
      assert all[..|all| - 1] == fates + Repeat(f, n - 1) && all[|all| - 1] == f;
      CountRepeat(fates, f, n - 1, g);
    }
  }

  /** As many characters as were matched, by events that match no more than is buffered. */
  function TotalMatched(umsize: nat, rmNulls: bool, events: seq<Event>): nat
    requires umsize > 0
  {
    if events == [] then 0
    else
      var before, e := events[..|events| - 1], events[|events| - 1];
      TotalMatched(umsize, rmNulls, before)
      + if e.MatchedFront? && e.n <= Use(Run(umsize, rmNulls, before)) then e.n else 0
  }

  /** Over whole runs exactly the characters leave as matched that matches took; all others
      that left were dropped. */
  lemma {:induction false} MatchedAreCounted(umsize: nat, rmNulls: bool, events: seq<Event>)
    requires umsize > 0
    ensures var h := Run(umsize, rmNulls, events);
            && Count(h.fates, Matched) == TotalMatched(umsize, rmNulls, events)
            && Count(h.fates, Dropped) == |h.fates| - TotalMatched(umsize, rmNulls, events)
    decreases |events|
  {
    hide Count;
    if events == [] {
      NoneCounted();
    } else {
      var h := Run(umsize, rmNulls, events[..|events| - 1]);
      MatchedAreCounted(umsize, rmNulls, events[..|events| - 1]);
      match events[|events| - 1]
      case Arrived(channel) =>
        CountRepeat(h.fates, Dropped, Use(h) / 3, Matched);
        CountRepeat(h.fates, Dropped, Use(h) / 3, Dropped);
      case MatchedFront(n) =>
        CountRepeat(h.fates, Matched, n, Matched);
        CountRepeat(h.fates, Matched, n, Dropped);
    }
  }

  lemma NoneCounted()
    ensures Count([], Matched) == Count([], Dropped) == 0
  {}

  lemma {:induction false} RunGuarded(umsize: nat, rmNulls: bool, events: seq<Event>)
    requires umsize > 0
    ensures Guarded(Run(umsize, rmNulls, events), umsize)
    decreases |events|
  {
    hide MatchedEnd, AfterRead, AfterMatch;
    if events == [] {
      assert MatchedEnd([]) == 0 by { NoneMatched(); }
    } else {
      var h := Run(umsize, rmNulls, events[..|events| - 1]);
      RunGuarded(umsize, rmNulls, events[..|events| - 1]);
      match events[|events| - 1]
      case Arrived(channel) => ReadGuards(h, umsize, rmNulls, channel);
      case MatchedFront(n) =>
        if n <= Use(h) {
          MatchGuards(h, umsize, n);
        }
    }
  }

  lemma NoneMatched()
    ensures MatchedEnd([]) == 0
  {}

  /** Over whole runs: the last read is one after which every unmatched run of at most
      Left(umsize) + 1 characters that it completed is in the buffer. */
  lemma MatchMaxHolds(umsize: nat, rmNulls: bool, events: seq<Event>, channel: seq<byte>, i: nat, j: nat)
    requires umsize > 0
    requires var h, r := Run(umsize, rmNulls, events), Run(umsize, rmNulls, events + [Arrived(channel)]);
             i < j <= i + Left(umsize) + 1 && |h.stream| < j <= |r.stream| && Unmatched(r, i, j)
    ensures var r := Run(umsize, rmNulls, events + [Arrived(channel)]);
            |r.fates| <= i && r.stream[i..j] == Buffered(r)[i - |r.fates|..j - |r.fates|]
  {
    hide AfterRead, Guarded, Unmatched;
    var all := events + [Arrived(channel)];
    assert all[..|all| - 1] == events;
    RunGuarded(umsize, rmNulls, events);
    RunIsBuffered(Run(umsize, rmNulls, events), umsize, rmNulls, channel, i, j);
  }

  /** A character more can be too many, whatever umsize is: when twice umsize and one came in
      at once and then one more, the last Left(umsize) + 2, never matched, are not all there. */
  lemma LongRunIsLost(umsize: nat, rmNulls: bool, x: seq<byte>, c: byte)
    requires umsize > 0 && |x| == 2 * umsize + 1 && NUL !in x && c != NUL
    ensures var r := Run(umsize, rmNulls, [Arrived(x), Arrived([c])]);
            && r.stream == x + [c] && Unmatched(r, 0, |r.stream|)
            && |r.fates| == |r.stream| - (Left(umsize) + 2) + 1
            && Buffered(r) == (x + [c])[|r.stream| - (Left(umsize) + 1)..]
  {
    hide Strip;
    NothingStripped(rmNulls, x);
    NothingStripped(rmNulls, [c]);
    var e1, e2 := Arrived(x), Arrived([c]);
    assert [e1][..0] == [] && [e1, e2][..1] == [e1];
    assert [] + x == x && x[..|x|] == x && [c][..1] == [c];
    assert Run(umsize, rmNulls, [e1]) == History(x, []);
  }

  lemma {:induction false} NothingStripped(rmNulls: bool, x: seq<byte>)
    requires NUL !in x
    ensures Strip(rmNulls, x) == x
  {
    if rmNulls && x != [] {
      NothingStripped(rmNulls, x[1..]);
      assert [x[0]] + x[1..] == x;
    }
  }

  // ----- the buffer -----

  class ExpState {
    const buffer: array<byte>
    const umsize: nat
    const rmNulls: bool
    var use: nat
    var printed: int
    ghost var history: History

    predicate Shape()
      reads this`use, this`printed
    {
      umsize > 0 && buffer.Length == Max(umsize) && 0 <= printed <= use <= buffer.Length
    }

    /** Between commands: everything buffered was shown, and the buffer holds what came in and
        did not leave. */
    ghost predicate Valid()
      reads this`use, this`printed, this`history, buffer
    {
      Shape() && printed == use && Ok(history, umsize) && buffer[..use] == Buffered(history) && Guarded(history, umsize)
    }

    /** In the middle of a read. */
    ghost predicate Sound()
      reads this`use, this`printed, this`history, buffer
    {
      Shape() && Ok(history, umsize) && use == Use(history) && buffer[..use] == Buffered(history)
    }

    constructor (matchMax: nat, stripNulls: bool)
      requires matchMax > 0
      ensures Valid() && umsize == matchMax && rmNulls == stripNulls && history == History([], []) && fresh(buffer)
    {
      umsize, rmNulls := matchMax, stripNulls;
      buffer := new byte[matchMax * 3 + 1];
      use, printed := 0, 0;
      history := History([], []);
      new;
      NoneMatched();
    }

    /** memmove of the characters from `from` on to the front. */
    method MoveDown(from: nat)
      requires from <= use <= buffer.Length
      modifies buffer
      ensures buffer[..use - from] == old(buffer[from..use])
    {
      var k := 0;
      while k < use - from
        invariant 0 <= k <= use - from
        invariant buffer[..k] == old(buffer[from..from + k]) && buffer[from + k..use] == old(buffer[from + k..use])
      {
        assert buffer[from + k] == old(buffer[from + k]) by {
          assert buffer[from + k..use][0] == old(buffer[from + k..use])[0];
        }
        buffer[k] := buffer[from + k];
        assert buffer[from + k + 1..use] == old(buffer[from + k + 1..use]) by {
          assert old(buffer[from + k..use])[1..] == old(buffer[from + k + 1..use]);
        }
        k := k + 1;
      }
    }

    /** exp_buffer_shuffle */
    method Shuffle()
      requires Sound()
      modifies this`use, this`printed, this`history, buffer
      ensures Sound() && history == Shuffled(old(history))
      ensures var shown := old(printed) - old(use) / 3; printed == if shown < 0 then 0 else shown
      ensures buffer[..use] == old(buffer[use / 3..use])
    {
      var numchars := use;
      var skiplen := numchars / 3;
      MoveDown(skiplen);
      assert old(buffer[..use])[skiplen..] == old(buffer[skiplen..use]);
      use := numchars - skiplen;
      printed := printed - skiplen;
      if printed < 0 {
        printed := 0;
      }
      history := Shuffled(history);
    }

    /** memcpy of the first cc new characters to the end of the buffer. */
    method Append(newchars: seq<byte>, cc: nat)
      requires cc <= |newchars| && use + cc <= buffer.Length
      modifies buffer
      ensures buffer[..use] == old(buffer[..use]) && buffer[use..use + cc] == newchars[..cc]
    {
      var k := 0;
      while k < cc
        invariant 0 <= k <= cc && buffer[..use] == old(buffer[..use]) && buffer[use..use + k] == newchars[..k]
      {
        buffer[use + k] := newchars[k];
        k := k + 1;
      }
    }

    /** The first part of expIRead: a third is dropped if the buffer is two thirds full. */
    method MakeRoom()
      requires Valid()
      modifies this`use, this`printed, this`history, buffer
      ensures Sound() && history == MadeRoom(old(history), umsize) && printed == use
      ensures buffer[..use] == old(if use * 3 >= buffer.Length * 2 then buffer[use / 3..use] else buffer[..use])
    {
      hide Guarded, Shuffled, Repeat;
      if use * 3 >= buffer.Length * 2 {
        Shuffle();
      }
    }

    /** expIRead: returns how many characters of what the channel has were read. */
    method ExpIRead(channel: seq<byte>) returns (cc: nat)
      requires Valid()
      modifies this`use, this`printed, this`history, buffer
      ensures Shape() && cc == ReadCount(old(history), umsize, channel)
      ensures history == MadeRoom(old(history), umsize) && printed == Use(history) && use == printed + cc
      ensures buffer[..printed] == Buffered(history) && buffer[printed..use] == channel[..cc]
      ensures cc == (if |channel| <= buffer.Length - printed then |channel| else buffer.Length - printed)
      ensures buffer[..printed] == old(if use * 3 >= buffer.Length * 2 then buffer[use / 3..use] else buffer[..use])
    {
      hide Guarded, Buffered, MadeRoom, Repeat;
      RoomForRead(history, umsize);
      MakeRoom();
      cc := if |channel| <= buffer.Length - use then |channel| else buffer.Length - use;
      Append(channel, cc);
      use := use + cc;
    }

    /** One character is stripped, or moves from src down to dest. */
    method StripOne(offset: nat, dest: nat, src: nat, ghost x: seq<byte>) returns (dest': nat)
      requires use <= buffer.Length && src < use && Stripping(buffer[..use], offset, dest, src, x)
      modifies buffer
      ensures Stripping(buffer[..use], offset, dest', src + 1, x) && buffer[..offset] == old(buffer[..offset])
    {
      hide Strip, Stripping;
      ghost var all := buffer[..use];
      StripNext(all, offset, dest, src, x);
      assert all[src] == buffer[src];
      dest' := dest;
      if buffer[src] != NUL {
        buffer[dest] := buffer[src];
        assert buffer[..use] == all[dest := all[src]];
        dest' := dest + 1;
      }
    }

    /** expNullStrip, from offset on */
    method NullStrip(offset: nat)
      requires Shape() && offset <= use
      modifies this`use, buffer
      ensures offset <= use <= old(use)
              && buffer[..use] == old(buffer[..offset]) + Strip(true, old(buffer[offset..use]))
    {
      hide Stripping, Strip;
      ghost var x := buffer[offset..use];
      var src, dest := offset, offset;
      StripStart(buffer[..use], offset);
      assert buffer[..use][offset..] == x;
      while src < use
        invariant offset <= src <= use && use == old(use)
        invariant Stripping(buffer[..use], offset, dest, src, x) && buffer[..offset] == old(buffer[..offset])
        modifies buffer
      {
        dest := StripOne(offset, dest, src, x);
        src := src + 1;
      }
      StripEnd(buffer[..use], offset, dest, src, x);
      assert buffer[..use][..dest] == buffer[..dest] && buffer[..use][..offset] == buffer[..offset];
      use := dest;
    }

    /** expRead, its buffer part, once there is news: 0 is the end of file, more is what was
        read. */
    method ExpRead(channel: seq<byte>) returns (cc: nat)
      requires Valid()
      modifies this`use, this`printed, this`history, buffer
      ensures Valid()
      ensures cc == ReadCount(old(history), umsize, channel)
      ensures history == AfterRead(old(history), umsize, rmNulls, channel)
      ensures var kept := old(if use * 3 >= buffer.Length * 2 then buffer[use / 3..use] else buffer[..use]);
              && cc == (if |channel| <= buffer.Length - |kept| then |channel| else buffer.Length - |kept|)
              && buffer[..use] == kept + Strip(rmNulls, channel[..cc])
    {
      hide Guarded, MadeRoom, ReadCount, AfterRead, Strip, Buffered;
      ghost var h := history;
      ghost var kept := if use * 3 >= buffer.Length * 2 then buffer[use / 3..use] else buffer[..use];
      ReadGuards(h, umsize, rmNulls, channel);
      cc := ExpIRead(channel);
      ghost var raw, shown := channel[..cc], buffer[..printed];
      assert shown == kept && |shown| == printed;
      AfterReadIs(h, umsize, rmNulls, channel);
      history := AfterRead(h, umsize, rmNulls, channel);
      if cc == 0 {
        StripNothing(rmNulls, raw);
        return;
      }
      var writeCount := use - printed;
      if writeCount != 0 {
        if rmNulls {
          NullStrip(printed);
        } else {
          StripKeeps(raw);
          assert buffer[..use] == shown + raw;
        }
        printed := use;
      }
    }

    /** expMatchProcess: matched characters leave the buffer. */
    method RemoveMatch(matched: nat)
      requires Valid() && matched <= use
      modifies this`use, this`printed, this`history, buffer
      ensures Valid() && history == AfterMatch(old(history), umsize, matched)
      ensures use == old(use) - matched && buffer[..use] == old(buffer[matched..use])
    {
      hide Guarded;
      MatchGuards(history, umsize, matched);
      var numchars := use;
      var remainder := numchars - matched;
      printed := printed - matched;
      if numchars != 0 {
        MoveDown(matched);
        assert old(buffer[..use])[matched..] == old(buffer[matched..use]);
      }
      use := remainder;
      history := AfterMatch(history, umsize, matched);
    }
  }

  /** What is buffered after a read: what was before it, and the new characters stripped. */
  lemma AfterReadIs(h: History, umsize: nat, rmNulls: bool, channel: seq<byte>)
    requires Ok(h, umsize) && umsize > 0
    ensures var r, m := AfterRead(h, umsize, rmNulls, channel), MadeRoom(h, umsize);
            Buffered(r) == Buffered(m) + Strip(rmNulls, channel[..ReadCount(h, umsize, channel)])
  {
    hide MadeRoom, ReadCount, Strip;
  }

  lemma StripKeeps(x: seq<byte>)
    ensures Strip(false, x) == x
  {}

  /** In the middle of stripping x, which stood in a from offset on: what is before src is done
      and stands before dest. */
  predicate Stripping(a: seq<byte>, offset: nat, dest: nat, src: nat, x: seq<byte>) {
    offset <= dest <= src <= |a| && src - offset <= |x|
    && a[src..] == x[src - offset..] && Strip(true, x) == a[offset..dest] + Strip(true, x[src - offset..])
  }

  lemma StripStart(a: seq<byte>, offset: nat)
    requires offset <= |a|
    ensures Stripping(a, offset, offset, offset, a[offset..])
  {
    assert a[offset..][0..] == a[offset..];
  }

  lemma StripNext(a: seq<byte>, offset: nat, dest: nat, src: nat, x: seq<byte>)
    requires Stripping(a, offset, dest, src, x) && src < |a|
    ensures offset <= dest <= src
    ensures a[src] == NUL ==> Stripping(a, offset, dest, src + 1, x)
    ensures a[src] != NUL ==> Stripping(a[dest := a[src]], offset, dest + 1, src + 1, x)
  {
    hide Strip;
    var rest := x[src - offset..];
    assert rest[0] == a[src..][0] == a[src] && rest[1..] == a[src..][1..] == a[src + 1..];
    assert rest[1..] == x[src + 1 - offset..];
    StripFirst(rest, a[offset..dest]);
    if a[src] != NUL {
      var b := a[dest := a[src]];
      assert b[src + 1..] == a[src + 1..] && b[offset..dest + 1] == a[offset..dest] + [a[src]];
    }
  }

  lemma StripEnd(a: seq<byte>, offset: nat, dest: nat, src: nat, x: seq<byte>)
    requires Stripping(a, offset, dest, src, x) && src == |a|
    ensures offset <= dest <= |a| && a[..dest] == a[..offset] + Strip(true, x)
  {
    assert x[src - offset..] == a[src..] == [];
  }

  lemma StripFirst(x: seq<byte>, kept: seq<byte>)
    requires x != []
    ensures kept + Strip(true, x) == (if x[0] == NUL then kept else kept + [x[0]]) + Strip(true, x[1..])
  {}

  lemma StripNothing(rmNulls: bool, x: seq<byte>)
    requires x == []
    ensures Strip(rmNulls, x) == []
  {}
}
