/** How exp_get_next_event picks a channel among those with news (exp_event.c). */
module RoundRobin {
  import opened Chars

  /** readable is whether the notification was for data, not for an exception. */
  datatype Chan = Chan(key: int, forceRead: bool, size: nat, notified: bool, readable: bool)

  /** The channel is passed on with data, but not with an end of file. */
  datatype News = DataOld(i: nat) | DataNew(i: nat) | Eof | Nothing

  /** The channel has something to report. */
  predicate Ready(ch: Chan, key: int) {
    ch.key != key || (!ch.forceRead && ch.size != 0) || ch.notified
  }

  function ReadySet(chans: seq<Chan>, key: int): (r: seq<bool>)
    ensures |r| == |chans| && forall k :: 0 <= k < |r| ==> r[k] == Ready(chans[k], key)
  {
    seq(|chans|, k requires 0 <= k < |chans| => Ready(chans[k], key))
  }

  /** One step of the round: rr may be left over from a larger number of channels. */
  function Step(rr: nat, n: nat): (r: nat)
    requires n > 0
    ensures r < n
  {
    if rr + 1 >= n then 0 else rr + 1
  }

  /** The i-th index visited from rr on. */
  function Visit(rr: nat, n: nat, i: nat): (r: nat)
    requires n > 0
    ensures r < n
  {
    if i == 0 then Step(rr, n) else Step(Visit(rr, n, i - 1), n)
  }

  lemma {:induction false} VisitIs(rr: nat, n: nat, i: nat)
    requires n > 0 && i < n
    ensures Visit(rr, n, i) == if Step(rr, n) + i < n then Step(rr, n) + i else Step(rr, n) + i - n
    decreases i
  {
    if i > 0 {
      VisitIs(rr, n, i - 1);
    }
  }

  /** When channel c comes in a round. */
  function TurnOf(rr: nat, n: nat, c: nat): (i: nat)
    requires c < n
    ensures i < n
  {
    var s := Step(rr, n);
    if c >= s then c - s else c - s + n
  }

  /** A round visits every channel exactly once, from wherever it starts. */
  lemma EveryoneOnce(rr: nat, n: nat, c: nat, i: nat)
    requires c < n && i < n
    ensures Visit(rr, n, i) == c <==> i == TurnOf(rr, n, c)
  {
    VisitIs(rr, n, i);
  }

  /** The first ready channel from step i of the round on. */
  function Pick(ready: seq<bool>, rr: nat, i: nat): (r: Option<nat>)
    requires |ready| > 0 && i <= |ready|
    ensures r.Some? ==> r.value < |ready| && ready[r.value]
    decreases |ready| - i
  {
    if i == |ready| then None
    else if ready[Visit(rr, |ready|, i)] then Some(Visit(rr, |ready|, i))
    else Pick(ready, rr, i + 1)
  }

  /** The first channel that is ready in the order of the round is picked; none only if none is. */
  lemma {:induction false} PickIsFirst(ready: seq<bool>, rr: nat, i: nat, c: nat)
    requires |ready| > 0 && i <= |ready| && c < |ready| && ready[c] && i <= TurnOf(rr, |ready|, c)
    ensures var r := Pick(ready, rr, i); r.Some? && TurnOf(rr, |ready|, r.value) <= TurnOf(rr, |ready|, c)
    decreases |ready| - i
  {
    var n := |ready|;
    EveryoneOnce(rr, n, c, i);
    EveryoneOnce(rr, n, Visit(rr, n, i), i);
    if !ready[Visit(rr, n, i)] {
      PickIsFirst(ready, rr, i + 1, c);
    }
  }

  /** Another channel picked brings the turn of c nearer. */
  lemma TurnComesNearer(rr: nat, n: nat, c: nat, d: nat)
    requires c < n && d < n && d != c && TurnOf(rr, n, d) <= TurnOf(rr, n, c)
    ensures TurnOf(d, n, c) < TurnOf(rr, n, c)
  {
    EveryoneOnce(rr, n, c, TurnOf(rr, n, d));
    EveryoneOnce(rr, n, d, TurnOf(rr, n, d));
  }

  // ----- calls of the scan -----

  /** What is reported of a ready channel, and what becomes of it. */
  function NewsOf(ch: Chan, key: int, i: nat): News {
    if ch.key != key || (!ch.forceRead && ch.size != 0) then DataOld(i) else if ch.readable then DataNew(i) else Eof
  }

  function Reported(ch: Chan, key: int): Chan {
    if ch.key != key then ch.(key := key, forceRead := false)
    else if !ch.forceRead && ch.size != 0 then ch
    else if ch.readable then ch.(notified := false)
    else ch
  }

  /** The channel has data to report. */
  predicate HasData(ch: Chan, key: int) {
    ch.key != key || (!ch.forceRead && ch.size != 0) || (ch.notified && ch.readable)
  }

  /** The channels of a call; anything may happen to them between calls. */
  datatype Call = Call(chans: seq<Chan>, key: int)

  /** What a call reports, and where it leaves the round robin index. */
  function NewsIn(call: Call, rr: nat): News {
    if call.chans == [] then Nothing
    else
      match Pick(ReadySet(call.chans, call.key), rr, 0)
      case None => Nothing
      case Some(i) => NewsOf(call.chans[i], call.key, i)
  }

  function IndexAfter(call: Call, rr: nat): nat {
    var n := |call.chans|;
    if n == 0 then rr
    else
      match Pick(ReadySet(call.chans, call.key), rr, 0)
      case None => Visit(rr, n, n - 1)
      case Some(i) => i
  }

  /** What consecutive calls report. */
  function Reports(calls: seq<Call>, rr: nat): seq<News> {
    if calls == [] then [] else [NewsIn(calls[0], rr)] + Reports(calls[1..], IndexAfter(calls[0], rr))
  }

  lemma {:induction false} ReportedInTurn(calls: seq<Call>, rr: nat, n: nat, c: nat)
    requires c < n && forall k :: 0 <= k < |calls| ==> |calls[k].chans| == n && HasData(calls[k].chans[c], calls[k].key)
    requires |calls| > TurnOf(rr, n, c)
    ensures DataOld(c) in Reports(calls, rr) || DataNew(c) in Reports(calls, rr)
    decreases |calls|
  {
    hide Pick, TurnOf, Visit;
    var ready := ReadySet(calls[0].chans, calls[0].key);
    PickIsFirst(ready, rr, 0, c);
    var d := Pick(ready, rr, 0).value;
    var rest := Reports(calls[1..], d);
    assert Reports(calls, rr) == [NewsIn(calls[0], rr)] + rest;
    if d == c {
      assert Reports(calls, rr)[0] == NewsIn(calls[0], rr);
    } else {
      TurnComesNearer(rr, n, c, d);
      ReportedInTurn(calls[1..], d, n, c);
    }
  }

  /** With n channels, one that has data in n consecutive calls is reported by one of them,
      whatever the others have and whatever happens in between. */
  lemma Fair(calls: seq<Call>, rr: nat, n: nat, c: nat)
    requires c < n == |calls|
    requires forall k :: 0 <= k < |calls| ==> |calls[k].chans| == n && HasData(calls[k].chans[c], calls[k].key)
    ensures DataOld(c) in Reports(calls, rr) || DataNew(c) in Reports(calls, rr)
  {
    ReportedInTurn(calls, rr, n, c);
  }

  /** The channels as a call leaves them. */
  function ChansAfter(call: Call, rr: nat): (r: seq<Chan>)
    ensures |r| == |call.chans|
  {
    var i := IndexAfter(call, rr);
    if NewsIn(call, rr).Nothing? then call.chans
    else call.chans[i := Reported(call.chans[i], call.key)]
  }

  /** The channel c is the one reported. */
  predicate Tells(news: News, c: nat) {
    news == DataOld(c) || news == DataNew(c)
  }

  /** When nothing happens between two calls for the same command, news is not told twice: a
      channel reported by its notification is quiet; one reported because the command is new
      is reported again only for what it has buffered or was notified of; the others still
      have all their news. */
  lemma ToldOnce(call: Call, rr: nat, c: nat)
    requires c < |call.chans|
    ensures var news, i := NewsIn(call, rr), IndexAfter(call, rr);
            var chans := ChansAfter(call, rr);
            var again := NewsIn(Call(chans, call.key), i);
            && (news == DataNew(c) ==> !Ready(chans[c], call.key) && !Tells(again, c))
            && (news == DataOld(c) ==>
                  (Tells(again, c) ==> chans[c].size != 0 || chans[c].notified)
                  && chans[c].size == call.chans[c].size && chans[c].notified == call.chans[c].notified
                  && chans[c].key == call.key && !chans[c].forceRead)
            && (news.Nothing? ==> again.Nothing?)
            && (c != i || news.Nothing? || news.Eof? ==> chans[c] == call.chans[c])
  {
    hide Visit;
    var n := |call.chans|;
    var ready := ReadySet(call.chans, call.key);
    var r := Pick(ready, rr, 0);
    var chans := ChansAfter(call, rr);
    var r' := Pick(ReadySet(chans, call.key), IndexAfter(call, rr), 0);
    if r.None? && r'.Some? {
      AllQuiet(ready, rr, r'.value);
    }
  }

  lemma AllQuiet(ready: seq<bool>, rr: nat, c: nat)
    requires c < |ready| && Pick(ready, rr, 0).None?
    ensures !ready[c]
  {
    hide Pick, TurnOf;
    if ready[c] {
      PickIsFirst(ready, rr, 0, c);
    }
  }

  class Events {
    /** The round robin index, kept from call to call. */
    var rr: nat

    constructor ()
      ensures rr == 0
    {
      rr := 0;
    }

    /** One scan of exp_get_next_event over the channels. */
    method Scan(chans: array<Chan>, key: int) returns (news: News)
      modifies this, chans
      ensures var call := Call(old(chans[..]), key);
              && news == NewsIn(call, old(rr)) && rr == IndexAfter(call, old(rr))
              && chans[..] == ChansAfter(call, old(rr))
    {
      news := Nothing;
      var n := chans.Length;
      ghost var ready := ReadySet(chans[..], key);
      for i := 0 to n
        invariant chans[..] == old(chans[..]) && (i > 0 ==> rr == Visit(old(rr), n, i - 1))
                  && (i == 0 ==> rr == old(rr))
        invariant n > 0 ==> Pick(ready, old(rr), 0) == Pick(ready, old(rr), i)
      {
        rr := rr + 1;
        if rr >= n {
          rr := 0;
        }
        var ch := chans[rr];
        if ch.key != key {
          chans[rr] := ch.(key := key, forceRead := false);
          return DataOld(rr);
        } else if !ch.forceRead && ch.size != 0 {
          assert old(chans[..])[rr := ch] == chans[..];
          return DataOld(rr);
        } else if ch.notified {
          if ch.readable {
            chans[rr] := ch.(notified := false);
            return DataNew(rr);
          }
          assert old(chans[..])[rr := ch] == chans[..];
          return Eof;
        }
      }
    }
  }
}
