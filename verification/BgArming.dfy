/** Background patterns: which channels have their handler installed (expect.c, exp_event.c).

    The background command keeps a list of spawn id groups and a list of cases that refer
    to them.  Every channel counts its occurrences in the groups; its handler is armed with
    the first and disarmed with the last, and put off while the handler itself runs.  Only
    groups that name their spawn ids directly are modelled. */
module BgArming {

  datatype Status = Unarmed | Armed | Blocked | DisarmWhileBlocked

  // ----- one channel -----

  /** installed is whether the event loop calls the background handler for the channel. */
  datatype Channel = Channel(count: int, status: Status, installed: bool)

  function ArmForced(ch: Channel): Channel {
    ch.(status := Armed, installed := true)
  }

  function Arm(ch: Channel): Channel {
    match ch.status
    case Unarmed => ArmForced(ch)
    case DisarmWhileBlocked => ch.(status := Blocked)
    case _ => ch
  }

  function Disarm(ch: Channel): Channel {
    match ch.status
    case Blocked => ch.(status := DisarmWhileBlocked)
    case Armed => ch.(status := Unarmed, installed := false)
    case _ => ch
  }

  function DisarmForced(ch: Channel): Channel {
    if ch.status.Unarmed? then ch else ch.(status := Unarmed, installed := false)
  }

  /** At the end of the handler. */
  function Unblock(ch: Channel): Channel {
    match ch.status
    case Blocked => ArmForced(ch)
    case DisarmWhileBlocked => DisarmForced(ch)
    case _ => ch
  }

  /** At the beginning of the handler. */
  function Block(ch: Channel): Channel {
    ch.(status := Blocked, installed := false)
  }

  /** The handler is installed exactly when armed; and the channel is armed, or will be once
      its handler ends, exactly when it occurs in some group. */
  predicate ChannelOk(ch: Channel) {
    ch.count >= 0 && (ch.installed <==> ch.status.Armed?)
    && (ch.count > 0 <==> ch.status.Armed? || ch.status.Blocked?)
  }

  datatype Request = WantArm | WantDisarm

  function Ask(ch: Channel, rs: seq<Request>): Channel
    decreases |rs|
  {
    if rs == [] then ch
    else
      var front := Ask(ch, rs[..|rs| - 1]);
      if rs[|rs| - 1].WantArm? then Arm(front) else Disarm(front)
  }

  /** While the handler runs nothing is installed, and what was asked for last takes effect
      when it ends; without any request it is armed again. */
  lemma {:induction false} LastRequestWins(ch: Channel, rs: seq<Request>)
    requires ch.status.Armed?
    ensures var r := Ask(Block(ch), rs);
            && !r.installed && (r.status.Blocked? || r.status.DisarmWhileBlocked?)
            && Unblock(r).installed == (rs == [] || rs[|rs| - 1].WantArm?)
            && Unblock(r).status == if rs == [] || rs[|rs| - 1].WantArm? then Armed else Unarmed
    decreases |rs|
  {
    if rs != [] {
      LastRequestWins(ch, rs[..|rs| - 1]);
    }
  }

  // ----- groups and cases -----

  datatype Id = Any | Spawn(c: nat)

  /** A group of spawn ids; ecount is how many cases refer to it. */
  datatype Group = Group(id: nat, states: seq<Id>, ecount: nat)

  /** A case: the group it is for, and its pattern with what to do. */
  datatype Case = Case(group: nat, pattern: nat)

  function Without(states: seq<Id>, x: Id): (r: seq<Id>)
    ensures x !in r
  {
    if states == [] then []
    else if states[0] == x then Without(states[1..], x)
    else [states[0]] + Without(states[1..], x)
  }

  function Count(states: seq<Id>, x: Id): nat {
    if states == [] then 0 else (if states[0] == x then 1 else 0) + Count(states[1..], x)
  }

  /** Occurrences in all groups. */
  function Occurrences(groups: seq<Group>, x: Id): nat {
    if groups == [] then 0 else Count(groups[0].states, x) + Occurrences(groups[1..], x)
  }

  function CasesFor(cases: seq<Case>, g: nat): nat {
    if cases == [] then 0 else (if cases[0].group == g then 1 else 0) + CasesFor(cases[1..], g)
  }

  predicate Listed(groups: seq<Group>, g: nat) {
    exists k :: 0 <= k < |groups| && groups[k].id == g
  }

  predicate Distinct(groups: seq<Group>) {
    forall i, j :: 0 <= i < j < |groups| ==> groups[i].id != groups[j].id
  }

  /** Groups are distinct, every case is for a listed one, and every group counts its cases. */
  predicate ListsOk(groups: seq<Group>, cases: seq<Case>) {
    && Distinct(groups)
    && (forall k :: 0 <= k < |cases| ==> Listed(groups, cases[k].group))
    && (forall k :: 0 <= k < |groups| ==> groups[k].ecount == CasesFor(cases, groups[k].id))
  }

  /** The cases that are not for group g. */
  function CasesWithout(cases: seq<Case>, g: nat): (r: seq<Case>)
    ensures |r| <= |cases| && forall k :: 0 <= k < |r| ==> r[k].group != g && r[k] in cases
  {
    if cases == [] then []
    else if cases[0].group == g then CasesWithout(cases[1..], g)
    else [cases[0]] + CasesWithout(cases[1..], g)
  }

  function Ids(groups: seq<Group>): set<nat> {
    set g | g in groups :: g.id
  }

  /** The cases for these groups, in their order. */
  function CasesStill(cases: seq<Case>, ids: set<nat>): seq<Case> {
    if cases == [] then []
    else (if cases[0].group in ids then [cases[0]] else []) + CasesStill(cases[1..], ids)
  }

  lemma {:induction false} StillAll(groups: seq<Group>, cases: seq<Case>)
    requires forall k :: 0 <= k < |cases| ==> Listed(groups, cases[k].group)
    ensures CasesStill(cases, Ids(groups)) == cases
    decreases |cases|
  {
    hide Ids;
    if cases != [] {
      ListedIds(groups, cases[0].group);
      StillAll(groups, cases[1..]);
      assert cases == [cases[0]] + cases[1..];
    }
  }

  lemma ListedIds(groups: seq<Group>, g: nat)
    ensures Listed(groups, g) <==> g in Ids(groups)
  {
    if Listed(groups, g) {
      var k :| 0 <= k < |groups| && groups[k].id == g;
      assert groups[k] in groups;
    }
  }

  lemma {:induction false} StillStill(cases: seq<Case>, ids: set<nat>, ids': set<nat>)
    requires ids' <= ids
    ensures CasesStill(CasesStill(cases, ids), ids') == CasesStill(cases, ids')
    decreases |cases|
  {
    if cases != [] {
      var rest := CasesStill(cases[1..], ids);
      StillStill(cases[1..], ids, ids');
      assert ([cases[0]] + rest)[1..] == rest && [] + rest == rest;
    }
  }

  /** Removing the cases of a group leaves those of the others. */
  lemma {:induction false} StillWithout(cases: seq<Case>, ids: set<nat>, g: nat)
    requires forall k :: 0 <= k < |cases| ==> cases[k].group in ids
    ensures CasesWithout(cases, g) == CasesStill(cases, ids - {g})
    decreases |cases|
  {
    if cases != [] {
      StillWithout(cases[1..], ids, g);
      assert [] + CasesStill(cases[1..], ids - {g}) == CasesStill(cases[1..], ids - {g});
    }
  }

  lemma AllStill(groups: seq<Group>, cases: seq<Case>)
    requires ListsOk(groups, cases)
    ensures CasesStill(cases, Ids(groups)) == cases
  {
    hide Ids;
    StillAll(groups, cases);
  }

  lemma RemovedIds(before: seq<Group>, g: Group, after: seq<Group>, cases: seq<Case>)
    requires ListsOk(before + [g] + after, cases)
    ensures Ids(before + after) == Ids(before + [g] + after) - {g.id}
    ensures CasesWithout(cases, g.id) == CasesStill(cases, Ids(before + after))
  {
    var all := before + [g] + after;
    assert all[|before|] == g;
    forall x | x in before + after ensures x in all && x.id != g.id {
      var k :| 0 <= k < |before + after| && (before + after)[k] == x;
      assert all[if k < |before| then k else k + 1] == x;
    }
    forall x | x in all && x.id != g.id ensures x in before + after {
      var k :| 0 <= k < |all| && all[k] == x;
      assert (before + after)[if k < |before| then k else k - 1] == x;
    }
    forall k | 0 <= k < |cases| ensures cases[k].group in Ids(all) { ListedIds(all, cases[k].group); }
    StillWithout(cases, Ids(all), g.id);
  }

  lemma KeptIds(before: seq<Group>, g: Group, after: seq<Group>, states: seq<Id>)
    ensures Ids(before + [g.(states := states)] + after) == Ids(before + [g] + after)
  {
    var x, y := before + [g] + after, before + [g.(states := states)] + after;
    forall n ensures n in Ids(x) <==> n in Ids(y) {
      ListedIds(x, n);
      ListedIds(y, n);
      assert forall k :: 0 <= k < |x| ==> x[k].id == y[k].id;
    }
  }

  lemma CasesFirst(done: seq<Case>, cases: seq<Case>, g: nat)
    requires cases != []
    ensures done + CasesWithout(cases, g) ==
            (if cases[0].group == g then done else done + [cases[0]]) + CasesWithout(cases[1..], g)
  {}

  lemma CasesNone(g: nat)
    ensures CasesWithout([], g) == []
  {}

  /** What remains of a group without x: nothing if that leaves it empty. */
  function Remaining(g: Group, x: Id): (r: seq<Group>)
    ensures |r| <= 1
  {
    var states := Without(g.states, x);
    if states == [] then [] else [g.(states := states)]
  }

  /** x is taken out of the groups; groups left empty go. */
  function GroupsWithout(groups: seq<Group>, x: Id): seq<Group> {
    if groups == [] then []
    else
      Remaining(groups[0], x) + GroupsWithout(groups[1..], x)
  }

  lemma GroupsFirst(done: seq<Group>, groups: seq<Group>, x: Id)
    requires groups != []
    ensures done + GroupsWithout(groups, x) == (done + Remaining(groups[0], x)) + GroupsWithout(groups[1..], x)
  {}

  lemma GroupsNone(x: Id)
    ensures GroupsWithout([], x) == []
  {}

  // ----- counting -----

  lemma {:induction false} CountJoin(a: seq<Id>, b: seq<Id>, x: Id)
    ensures Count(a + b, x) == Count(a, x) + Count(b, x)
    decreases |a|
  {
    if a == [] {
      assert a + b == b;
    } else {
      assert (a + b)[1..] == a[1..] + b;
      CountJoin(a[1..], b, x);
    }
  }

  lemma {:induction false} WithoutCounts(states: seq<Id>, x: Id, y: Id)
    ensures Count(Without(states, x), y) == if x == y then 0 else Count(states, y)
    decreases |states|
  {
    if states != [] {
      WithoutCounts(states[1..], x, y);
      if states[0] != x {
        assert ([states[0]] + Without(states[1..], x))[1..] == Without(states[1..], x);
      }
    }
  }

  /** A group keeps its other spawn ids in their order. */
  lemma {:induction false} WithoutParts(a: seq<Id>, y: Id, b: seq<Id>, x: Id)
    ensures Without(a + [y] + b, x) == Without(a, x) + (if y == x then [] else [y]) + Without(b, x)
    decreases |a|
  {
    var all := a + [y] + b;
    if a == [] {
      assert all[0] == y && all[1..] == b;
    } else {
      assert all[0] == a[0] && all[1..] == a[1..] + [y] + b;
      WithoutParts(a[1..], y, b, x);
    }
  }

  /** The groups keep their order, each losing x, and those left empty go. */
  lemma {:induction false} GroupsWithoutParts(a: seq<Group>, g: Group, b: seq<Group>, x: Id)
    ensures var states := Without(g.states, x);
            GroupsWithout(a + [g] + b, x)
            == GroupsWithout(a, x) + (if states == [] then [] else [g.(states := states)]) + GroupsWithout(b, x)
    decreases |a|
  {
    hide Without;
    var all := a + [g] + b;
    if a == [] {
      assert all[0] == g && all[1..] == b;
    } else {
      assert all[0] == a[0] && all[1..] == a[1..] + [g] + b;
      GroupsWithoutParts(a[1..], g, b, x);
    }
  }

  lemma {:induction false} OccurrencesJoin(a: seq<Group>, b: seq<Group>, x: Id)
    ensures Occurrences(a + b, x) == Occurrences(a, x) + Occurrences(b, x)
    decreases |a|
  {
    if a == [] {
      assert a + b == b;
    } else {
      assert (a + b)[1..] == a[1..] + b;
      OccurrencesJoin(a[1..], b, x);
    }
  }

  /** Taking a spawn id out removes its occurrences and no others. */
  lemma {:induction false} GroupsWithoutCounts(groups: seq<Group>, x: Id, y: Id)
    ensures Occurrences(GroupsWithout(groups, x), y) == if x == y then 0 else Occurrences(groups, y)
    decreases |groups|
  {
    if groups != [] {
      var states := Without(groups[0].states, x);
      var rest := GroupsWithout(groups[1..], x);
      WithoutCounts(groups[0].states, x, y);
      GroupsWithoutCounts(groups[1..], x, y);
      if states != [] {
        assert ([groups[0].(states := states)] + rest)[1..] == rest;
      } else {
        assert [] + rest == rest;
      }
    }
  }

  lemma {:induction false} CasesJoin(a: seq<Case>, b: seq<Case>, g: nat)
    ensures CasesFor(a + b, g) == CasesFor(a, g) + CasesFor(b, g)
    decreases |a|
  {
    if a == [] {
      assert a + b == b;
    } else {
      assert (a + b)[1..] == a[1..] + b;
      CasesJoin(a[1..], b, g);
    }
  }

  lemma {:induction false} CasesWithoutCounts(cases: seq<Case>, g: nat, h: nat)
    ensures CasesFor(CasesWithout(cases, g), h) == if g == h then 0 else CasesFor(cases, h)
    decreases |cases|
  {
    if cases != [] {
      CasesWithoutCounts(cases[1..], g, h);
      if cases[0].group != g {
        assert ([cases[0]] + CasesWithout(cases[1..], g))[1..] == CasesWithout(cases[1..], g);
      }
    }
  }

  lemma {:induction false} NoCases(cases: seq<Case>, g: nat)
    requires forall k :: 0 <= k < |cases| ==> cases[k].group != g
    ensures CasesFor(cases, g) == 0
    decreases |cases|
  {
    if cases != [] {
      NoCases(cases[1..], g);
    }
  }

  // ----- removing one group, or one state of a group -----

  /** A group is removed with its cases. */
  lemma RemoveKeepsLists(before: seq<Group>, g: Group, after: seq<Group>, cases: seq<Case>)
    requires ListsOk(before + [g] + after, cases)
    ensures ListsOk(before + after, CasesWithout(cases, g.id))
  {
    var all, rest := before + [g] + after, before + after;
    var left := CasesWithout(cases, g.id);
    forall k | 0 <= k < |rest| ensures exists n :: 0 <= n < |all| && n != |before| && all[n] == rest[k] {
      var n := if k < |before| then k else k + 1;
      assert all[n] == rest[k];
    }
    assert all[|before|] == g;
    forall i, j | 0 <= i < j < |rest| ensures rest[i].id != rest[j].id {
      assert rest[i] == all[if i < |before| then i else i + 1];
      assert rest[j] == all[if j < |before| then j else j + 1];
    }
    forall k | 0 <= k < |rest| ensures rest[k].ecount == CasesFor(left, rest[k].id) {
      var n :| 0 <= n < |all| && n != |before| && all[n] == rest[k];
      CasesWithoutCounts(cases, g.id, rest[k].id);
    }
    forall k | 0 <= k < |left| ensures Listed(rest, left[k].group) {
      assert Listed(all, left[k].group);
      var n :| 0 <= n < |all| && all[n].id == left[k].group;
      assert rest[if n < |before| then n else n - 1] == all[n];
    }
  }

  lemma StatesKeepLists(before: seq<Group>, g: Group, after: seq<Group>, states: seq<Id>, cases: seq<Case>)
    requires ListsOk(before + [g] + after, cases)
    ensures ListsOk(before + [g.(states := states)] + after, cases)
  {
    var x, y := before + [g] + after, before + [g.(states := states)] + after;
    assert forall k :: 0 <= k < |x| ==> y[k].id == x[k].id && y[k].ecount == x[k].ecount;
    forall k | 0 <= k < |cases| ensures Listed(y, cases[k].group) {
      assert Listed(x, cases[k].group);
      var n :| 0 <= n < |x| && x[n].id == cases[k].group;
      assert y[n].id == cases[k].group;
    }
  }

  /** New groups and cases are appended. */
  lemma AppendKeepsLists(groups: seq<Group>, cases: seq<Case>, groups': seq<Group>, cases': seq<Case>)
    requires ListsOk(groups, cases) && ListsOk(groups', cases')
    requires forall i, j :: 0 <= i < |groups| && 0 <= j < |groups'| ==> groups[i].id != groups'[j].id
    ensures ListsOk(groups + groups', cases + cases')
  {
    var gs, cs := groups + groups', cases + cases';
    forall k | 0 <= k < |cs| ensures Listed(gs, cs[k].group) {
      if k < |cases| {
        assert Listed(groups, cases[k].group);
        var n :| 0 <= n < |groups| && groups[n].id == cases[k].group;
        assert gs[n] == groups[n];
      } else {
        assert Listed(groups', cases'[k - |cases|].group);
        var n :| 0 <= n < |groups'| && groups'[n].id == cases'[k - |cases|].group;
        assert gs[|groups| + n] == groups'[n];
      }
    }
    forall k | 0 <= k < |gs| ensures gs[k].ecount == CasesFor(cs, gs[k].id) {
      CasesJoin(cases, cases', gs[k].id);
      if k < |groups| {
        forall n | 0 <= n < |cases'| ensures cases'[n].group != gs[k].id { assert Listed(groups', cases'[n].group); }
        NoCases(cases', gs[k].id);
      } else {
        forall n | 0 <= n < |cases| ensures cases[n].group != gs[k].id { assert Listed(groups, cases[n].group); }
        NoCases(cases, gs[k].id);
      }
    }
  }

  // ----- the background command -----

  class Background {
    var groups: seq<Group>
    var cases: seq<Case>
    const chans: array<Channel>

    /** Spawn ids are channels. */
    predicate InRange(states: seq<Id>) {
      forall k :: 0 <= k < |states| && states[k].Spawn? ==> states[k].c < chans.Length
    }

    predicate AllInRange(gs: seq<Group>) {
      forall k :: 0 <= k < |gs| ==> InRange(gs[k].states)
    }

    /** Every channel counts its occurrences. */
    ghost predicate Counted(gs: seq<Group>)
      reads chans
    {
      forall c: nat :: c < chans.Length ==> chans[c].count == Occurrences(gs, Spawn(c)) && ChannelOk(chans[c])
    }

    ghost predicate Valid()
      reads this, chans
    {
      ListsOk(groups, cases) && AllInRange(groups) && Counted(groups)
    }

    constructor (n: nat)
      ensures Valid() && groups == [] && cases == [] && chans.Length == n && fresh(chans)
    {
      groups, cases := [], [];
      chans := new Channel[n](i => Channel(0, Unarmed, false));
    }

    /** exp_arm_background_channelhandler */
    method ArmHandler(c: nat)
      requires c < chans.Length
      modifies chans
      ensures chans[c] == Arm(old(chans[c]))
      ensures forall d :: 0 <= d < chans.Length && d != c ==> chans[d] == old(chans[d])
    {
      match chans[c].status
      case Unarmed => chans[c] := chans[c].(status := Armed, installed := true);
      case DisarmWhileBlocked => chans[c] := chans[c].(status := Blocked);
      case _ =>
    }

    /** exp_disarm_background_channelhandler */
    method DisarmHandler(c: nat)
      requires c < chans.Length
      modifies chans
      ensures chans[c] == Disarm(old(chans[c]))
      ensures forall d :: 0 <= d < chans.Length && d != c ==> chans[d] == old(chans[d])
    {
      match chans[c].status
      case Blocked => chans[c] := chans[c].(status := DisarmWhileBlocked);
      case Armed => chans[c] := chans[c].(status := Unarmed, installed := false);
      case _ =>
    }

    /** The handler of c begins: it is called because it is installed. */
    method HandlerBegins(c: nat)
      requires Valid() && c < chans.Length && chans[c].installed
      modifies chans
      ensures Valid() && chans[c] == Block(old(chans[c]))
      ensures forall d :: 0 <= d < chans.Length && d != c ==> chans[d] == old(chans[d])
    {
      chans[c] := chans[c].(status := Blocked, installed := false);
    }

    method HandlerEnds(c: nat)
      requires Valid() && c < chans.Length
      modifies chans
      ensures Valid() && chans[c] == Unblock(old(chans[c]))
      ensures forall d :: 0 <= d < chans.Length && d != c ==> chans[d] == old(chans[d])
    {
      match chans[c].status
      case Blocked => chans[c] := chans[c].(status := Armed, installed := true);
      case DisarmWhileBlocked => chans[c] := chans[c].(status := Unarmed, installed := false);
      case _ =>
    }

    /** ecases_remove_by_expi */
    method RemoveCases(g: nat)
      modifies this`cases
      ensures cases == CasesWithout(old(cases), g)
    {
      hide CasesWithout;
      var i := 0;
      assert cases[..0] == [] && cases[0..] == cases;
      while i < |cases|
        invariant 0 <= i <= |cases|
        invariant CasesWithout(old(cases), g) == cases[..i] + CasesWithout(cases[i..], g)
        decreases |cases| - i
      {
        assert cases[i..][1..] == cases[i + 1..];
        CasesFirst(cases[..i], cases[i..], g);
        if cases[i].group == g {
          ghost var before := cases;
          cases := cases[..i] + cases[i + 1..];
          assert cases[..i] == before[..i] && cases[i..] == before[i + 1..];
        } else {
          assert cases[..i + 1] == cases[..i] + [cases[i]];
          i := i + 1;
        }
      }
      assert cases[..i] == cases && cases[i..] == [];
      CasesNone(g);
    }

    /** One occurrence of a channel less: the last one disarms it. */
    method Discount(c: nat, ghost left: nat)
      requires c < chans.Length && chans[c].count == left + 1 && ChannelOk(chans[c])
      modifies chans
      ensures chans[c].count == left && ChannelOk(chans[c])
      ensures chans[c] == (if left == 0 then Disarm(old(chans[c]).(count := 0)) else old(chans[c]).(count := left))
      ensures forall d :: 0 <= d < chans.Length && d != c ==> chans[d] == old(chans[d])
    {
      chans[c] := chans[c].(count := chans[c].count - 1);
      if chans[c].count == 0 {
        DisarmHandler(c);
      }
    }

    /** What became of channel x once only `left` of its occurrences are there. */
    ghost predicate Reduced(x: Id, left: nat, was: seq<Channel>)
      reads chans
    {
      |was| == chans.Length
      && (forall d :: 0 <= d < chans.Length && x != Spawn(d) ==> chans[d] == was[d])
      && (x.Spawn? && x.c < chans.Length ==>
            left <= was[x.c].count && chans[x.c].count == left && ChannelOk(chans[x.c])
            && chans[x.c]
            == if left == 0 && was[x.c].count > 0 then Disarm(was[x.c].(count := 0)) else was[x.c].(count := left))
    }

    /** One occurrence of x less. */
    method RemoveOne(x: Id, ghost left: nat, ghost was: seq<Channel>)
      requires (x.Spawn? ==> x.c < chans.Length) && Reduced(x, left + 1, was)
      modifies chans
      ensures Reduced(x, left, was)
    {
      if x.Spawn? {
        Discount(x.c, left);
      }
    }

    /** x is taken out of one group; more of its occurrences are in later groups. */
    method RemoveFromGroup(states: seq<Id>, x: Id, ghost later: nat, ghost was: seq<Channel>) returns (left: seq<Id>)
      requires InRange(states) && InRange([x]) && Reduced(x, Count(states, x) + later, was)
      modifies chans
      ensures left == Without(states, x) && Reduced(x, later, was)
    {
      hide Without, Count, Reduced;
      left := states;
      var i := 0;
      assert InRange([x]) && [x][0] == x;
      assert left[0..] == states && left[..0] == [];
      while i < |left|
        invariant 0 <= i <= |left|
        invariant Without(states, x) == left[..i] + Without(left[i..], x)
        invariant Reduced(x, Count(left[i..], x) + later, was)
        decreases |left| - i
      {
        assert left[i..][1..] == left[i + 1..];
        StatesFirst(left[..i], left[i..], x);
        if left[i] == x {
          ghost var before := left;
          left := left[..i] + left[i + 1..];
          assert left[..i] == before[..i] && left[i..] == before[i + 1..];
          RemoveOne(x, Count(left[i..], x) + later, was);
        } else {
          assert left[..i + 1] == left[..i] + [left[i]];
          i := i + 1;
        }
      }
      assert left[..i] == left && left[i..] == [];
      StatesNone(x);
    }

    /** x is taken out of the group at i, which goes if nothing is left of it. */
    method RemoveFromOne(i: nat, x: Id, ghost was: seq<Channel>) returns (gone: bool)
      requires i < |groups| && ListsOk(groups, cases) && AllInRange(groups) && InRange([x])
      requires Reduced(x, Occurrences(groups[i..], x), was)
      modifies this`groups, this`cases, chans
      ensures ListsOk(groups, cases) && AllInRange(groups)
      ensures groups == old(groups[..i]) + Remaining(old(groups[i]), x) + old(groups[i + 1..])
      ensures gone == (Remaining(old(groups[i]), x) == []) && Reduced(x, Occurrences(old(groups[i + 1..]), x), was)
      ensures cases == CasesStill(old(cases), Ids(groups)) && Ids(groups) <= Ids(old(groups))
    {
      hide ListsOk, ChannelOk, Reduced, Without, Ids, CasesStill;
      var g, before, after := groups[i], groups[..i], groups[i + 1..];
      assert groups[i..][1..] == after && groups == before + [g] + after;
      var states := RemoveFromGroup(g.states, x, Occurrences(after, x), was);
      WithoutInRange(g.states, x);
      gone := states == [];
      if gone {
        RemoveKeepsLists(before, g, after, cases);
        RemovedIds(before, g, after, cases);
        RemoveCases(g.id);
        groups := before + after;
      } else {
        StatesKeepLists(before, g, after, states, cases);
        KeptIds(before, g, after, states);
        AllStill(groups, cases);
        groups := before + [g.(states := states)] + after;
      }
    }

    /** ecmd_remove_state: a spawn id is taken out of all groups; groups left with none go, and
        their cases with them. */
    method RemoveState(x: Id)
      requires Valid() && InRange([x])
      modifies this`groups, this`cases, chans
      ensures Valid() && groups == GroupsWithout(old(groups), x)
      ensures cases == CasesStill(old(cases), Ids(groups)) && Ids(groups) <= Ids(old(groups))
      ensures Reduced(x, 0, old(chans[..]))
    {
      hide ListsOk, ChannelOk, Reduced, GroupsWithout, Remaining, AllInRange, InRange, Ids, CasesStill;
      ghost var was := chans[..];
      AllStill(groups, cases);
      var i := 0;
      StartReduced(x, was);
      assert groups[0..] == groups && groups[..0] == [];
      while i < |groups|
        invariant 0 <= i <= |groups| && ListsOk(groups, cases) && AllInRange(groups)
        invariant GroupsWithout(old(groups), x) == groups[..i] + GroupsWithout(groups[i..], x)
        invariant Reduced(x, Occurrences(groups[i..], x), was)
        invariant cases == CasesStill(old(cases), Ids(groups)) && Ids(groups) <= Ids(old(groups))
        decreases |groups| - i
      {
        ghost var ids := Ids(groups);
        ghost var before, left, after := groups[..i], Remaining(groups[i], x), groups[i + 1..];
        assert groups[i..][1..] == after;
        GroupsFirst(before, groups[i..], x);
        var gone := RemoveFromOne(i, x, was);
        StillStill(old(cases), ids, Ids(groups));
        assert groups[..i + |left|] == before + left && groups[i + |left|..] == after;
        if !gone {
          i := i + 1;
        }
      }
      GroupsNone(x);
      assert groups[..i] == groups && groups[i..] == [];
      EndCounted(x, was, old(groups));
    }

    lemma WithoutInRange(states: seq<Id>, x: Id)
      requires InRange(states)
      ensures InRange(Without(states, x))
      decreases |states|
    {
      if states != [] {
        assert InRange(states[1..]);
        WithoutInRange(states[1..], x);
      }
    }

    lemma StartReduced(x: Id, was: seq<Channel>)
      requires Counted(groups) && was == chans[..]
      ensures Reduced(x, Occurrences(groups, x), was)
    {}

    lemma EndCounted(x: Id, was: seq<Channel>, before: seq<Group>)
      requires Reduced(x, 0, was) && groups == GroupsWithout(before, x)
      requires forall c: nat :: c < |was| ==> was[c].count == Occurrences(before, Spawn(c)) && ChannelOk(was[c])
      ensures Counted(groups)
    {
      forall c: nat | c < chans.Length ensures chans[c].count == Occurrences(groups, Spawn(c)) {
        GroupsWithoutCounts(before, x, Spawn(c));
      }
    }

    /** state_list_arm: every channel of a group counts one more for each occurrence. */
    method ArmStates(states: seq<Id>, ghost gs: seq<Group>, ghost g: Group)
      requires InRange(states) && Counted(gs) && g.states == states
      modifies chans
      ensures Counted(gs + [g])
      ensures forall c :: 0 <= c < chans.Length ==> chans[c] == Rearmed(old(chans[c]), Count(states, Spawn(c)))
    {
      hide ChannelOk, Arm, Rearmed, Count, OneMore;
      var k := 0;
      NoneCounted(gs);
      assert states[..0] == [];
      NothingMore(chans[..]);
      while k < |states|
        invariant 0 <= k <= |states| && CountedWith(gs, states[..k])
        invariant forall c :: 0 <= c < chans.Length ==>
                    chans[c] == Rearmed(old(chans[c]), Count(states[..k], Spawn(c)))
      {
        assert states[..k + 1] == states[..k] + [states[k]];
        ghost var was := chans[..];
        if states[k].Spawn? {
          var c := states[k].c;
          ArmCounts(chans[c]);
          if chans[c].count == 0 {
            ArmHandler(c);
          }
          chans[c] := chans[c].(count := chans[c].count + 1);
          OneMoreIs(was[c], chans[c]);
        }
        OneMoreCounted(gs, states[..k], states[k], was);
        forall c | 0 <= c < chans.Length
          ensures chans[c] == Rearmed(old(chans[c]), Count(states[..k + 1], Spawn(c)))
        {
          CountMore(states[..k], states[k], c, old(chans[c]));
        }
        k := k + 1;
      }
      assert states[..k] == states;
      AllCounted(gs, g);
    }

    /** The occurrences in the groups and in some states more. */
    ghost predicate CountedWith(gs: seq<Group>, states: seq<Id>)
      reads chans
    {
      forall c: nat :: c < chans.Length ==>
        chans[c].count == Occurrences(gs, Spawn(c)) + Count(states, Spawn(c)) && ChannelOk(chans[c])
    }

    lemma NoneCounted(gs: seq<Group>)
      requires Counted(gs)
      ensures CountedWith(gs, [])
    {}

    lemma OneMoreCounted(gs: seq<Group>, states: seq<Id>, x: Id, was: seq<Channel>)
      requires |was| == chans.Length && InRange([x])
      requires forall c: nat :: c < |was| ==>
                 was[c].count == Occurrences(gs, Spawn(c)) + Count(states, Spawn(c)) && ChannelOk(was[c])
      requires forall c: nat :: c < |was| ==> chans[c] == if x == Spawn(c) then OneMore(was[c]) else was[c]
      ensures CountedWith(gs, states + [x])
    {
      hide ChannelOk, Arm;
      forall c: nat | c < chans.Length
        ensures chans[c].count == Occurrences(gs, Spawn(c)) + Count(states + [x], Spawn(c)) && ChannelOk(chans[c])
      {
        CountJoin(states, [x], Spawn(c));
        assert [x][1..] == [] && [x][0] == x;
        if x == Spawn(c) { ArmCounts(was[c]); }
      }
    }

    lemma AllCounted(gs: seq<Group>, g: Group)
      requires CountedWith(gs, g.states)
      ensures Counted(gs + [g])
    {
      hide ChannelOk;
      forall c: nat | c < chans.Length
        ensures Occurrences(gs + [g], Spawn(c)) == Occurrences(gs, Spawn(c)) + Count(g.states, Spawn(c))
      {
        OccurrencesJoin(gs, [g], Spawn(c));
        assert [g][1..] == [] && [g][0] == g;
      }
    }

    /** All spawn ids are valid. */
    predicate AllValid(states: seq<Id>, valid: set<nat>) {
      forall k :: 0 <= k < |states| && states[k].Spawn? ==> states[k].c in valid
    }

    /** Spawn ids leave their groups, up to the first that is not valid. */
    method RemoveStates(states: seq<Id>, valid: set<nat>, ghost start: seq<Group>, ghost done: seq<Id>)
      returns (ok: bool)
      requires Valid() && InRange(states) && groups == GroupsWithoutAll(start, done)
      modifies this`groups, this`cases, chans
      ensures Valid() && ok == AllValid(states, valid)
      ensures ok ==> groups == GroupsWithoutAll(start, done + states)
      ensures cases == CasesStill(old(cases), Ids(groups)) && Ids(groups) <= Ids(old(groups))
      ensures forall k :: 0 <= k < |groups| ==> Listed(old(groups), groups[k].id)
      ensures ok ==> EmptiedBy(states, old(chans[..]), chans[..])
      ensures EmptiedAtMost(states, old(chans[..]), chans[..])
    {
      hide Valid, Reduced, GroupsWithout, GroupsWithoutAll, Ids, CasesStill, Emptied, EmptiedBy, EmptiedAtMost, Listed;
      var n := 0;
      ValidStill();
      NothingEmptied(states, chans[..]);
      assert done + states[..0] == done;
      ListedSelf(groups);
      while n < |states|
        invariant 0 <= n <= |states| && Valid() && groups == GroupsWithoutAll(start, done + states[..n])
        invariant AllValid(states[..n], valid)
        invariant cases == CasesStill(old(cases), Ids(groups)) && Ids(groups) <= Ids(old(groups))
        invariant forall k :: 0 <= k < |groups| ==> Listed(old(groups), groups[k].id)
        invariant EmptiedBy(states[..n], old(chans[..]), chans[..]) && EmptiedAtMost(states, old(chans[..]), chans[..])
      {
        var x := states[n];
        assert done + states[..n] + [x] == done + states[..n + 1];
        if x.Spawn? && x.c !in valid {
          return false;
        }
        ghost var was, before := chans[..], groups;
        OneInRange(states, n);
        RemoveState(x);
        StillStill(old(cases), Ids(before), Ids(groups));
        OneEmptied(x, was);
        assert states[..n + 1] == states[..n] + [x];
        EmptiedJoin(states[..n], [x], old(chans[..]), was, chans[..]);
        StillAtMost(states, [x], old(chans[..]), was, chans[..]);
        WithoutAllMore(start, done + states[..n], x);
        GroupsWithoutIds(before, x);
        ListedTrans(old(groups), before, groups);
        n := n + 1;
      }
      assert states[..n] == states;
      ok := true;
    }

    /** The groups are armed, one after another. */
    method ArmGroups(kept: seq<Group>)
      requires Counted(groups) && AllInRange(kept)
      modifies chans
      ensures Counted(groups + kept)
      ensures forall c :: 0 <= c < chans.Length ==> chans[c] == Rearmed(old(chans[c]), Occurrences(kept, Spawn(c)))
    {
      hide Counted, Rearmed, Occurrences, Count;
      var k := 0;
      assert groups + kept[..0] == groups && kept[..0] == [];
      NothingMore(chans[..]);
      while k < |kept|
        invariant 0 <= k <= |kept| && Counted(groups + kept[..k])
        invariant forall c :: 0 <= c < chans.Length ==>
                    chans[c] == Rearmed(old(chans[c]), Occurrences(kept[..k], Spawn(c)))
      {
        ghost var was := chans[..];
        ArmStates(kept[k].states, groups + kept[..k], kept[k]);
        assert groups + kept[..k] + [kept[k]] == groups + kept[..k + 1];
        forall c | 0 <= c < chans.Length
          ensures chans[c] == Rearmed(old(chans[c]), Occurrences(kept[..k + 1], Spawn(c)))
        {
          assert kept[..k + 1] == kept[..k] + [kept[k]];
          OneGroupMore(kept[..k], kept[k], c, old(chans[c]));
          assert chans[c] == Rearmed(was[c], Count(kept[k].states, Spawn(c)));
        }
        k := k + 1;
      }
      assert kept[..k] == kept;
    }

    lemma ValidStill()
      requires Valid()
      ensures CasesStill(cases, Ids(groups)) == cases
    {
      AllStill(groups, cases);
    }

    /** The spawn ids of the new groups leave their old ones. */
    method RemoveOld(newGroups: seq<Group>, valid: set<nat>) returns (ok: bool)
      requires Valid() && AllInRange(newGroups)
      modifies this`groups, this`cases, chans
      ensures Valid() && ok == AllValid(StatesOf(newGroups), valid)
      ensures ok ==> groups == GroupsWithoutAll(old(groups), StatesOf(newGroups))
      ensures cases == CasesStill(old(cases), Ids(groups))
      ensures forall k :: 0 <= k < |groups| ==> Listed(old(groups), groups[k].id)
      ensures ok ==> EmptiedBy(StatesOf(newGroups), old(chans[..]), chans[..])
      ensures EmptiedAtMost(StatesOf(newGroups), old(chans[..]), chans[..])
    {
      hide Emptied, Valid, GroupsWithout, GroupsWithoutAll, Listed, Ids, CasesStill;
      ghost var ids := StatesOf(newGroups);
      ValidStill();
      var i := 0;
      StatesBegin(newGroups);
      WithoutNone(groups);
      ListedSelf(groups);
      while i < |newGroups|
        invariant 0 <= i <= |newGroups| && Valid()
        invariant groups == GroupsWithoutAll(old(groups), StatesOf(newGroups[..i]))
                  && AllValid(StatesOf(newGroups[..i]), valid)
        invariant cases == CasesStill(old(cases), Ids(groups))
        invariant forall k :: 0 <= k < |groups| ==> Listed(old(groups), groups[k].id)
        invariant EmptiedBy(StatesOf(newGroups[..i]), old(chans[..]), chans[..])
        invariant EmptiedAtMost(ids, old(chans[..]), chans[..])
      {
        ghost var was := chans[..];
        var states := newGroups[i].states;
        StatesMore(newGroups, i);
        forall n | 0 <= n < |states| ensures states[n] in ids { StatesIn(newGroups, i, n); }
        ghost var before := groups;
        var good := RemoveStates(states, valid, old(groups), StatesOf(newGroups[..i]));
        ListedTrans(old(groups), before, groups);
        StillStill(old(cases), Ids(before), Ids(groups));
        AtMostMore(ids, states, old(chans[..]), was, chans[..]);
        if good { EmptiedJoin(StatesOf(newGroups[..i]), states, old(chans[..]), was, chans[..]); }
        if !good {
          NotAllValid(newGroups, i, valid);
          return false;
        }
        BothValid(StatesOf(newGroups[..i]), states, valid);
        i := i + 1;
      }
      assert newGroups[..i] == newGroups;
      ok := true;
    }

    lemma BothValid(a: seq<Id>, b: seq<Id>, valid: set<nat>)
      requires AllValid(a, valid) && AllValid(b, valid)
      ensures AllValid(a + b, valid)
    {}

    lemma NotAllValid(gs: seq<Group>, i: nat, valid: set<nat>)
      requires i < |gs| && !AllValid(gs[i].states, valid)
      ensures !AllValid(StatesOf(gs), valid)
    {
      var n :| 0 <= n < |gs[i].states| && gs[i].states[n].Spawn? && gs[i].states[n].c !in valid;
      StatesIn(gs, i, n);
    }

    /** Exp_ExpectGlobalObjCmd for the background: the spawn ids of the new groups leave their
        old ones; new groups with cases are armed and appended, those without only delete.
        An invalid spawn id stops the command. */
    method ExpectBackground(newGroups: seq<Group>, newCases: seq<Case>, valid: set<nat>) returns (ok: bool)
      requires Valid() && ListsOk(newGroups, newCases) && AllInRange(newGroups)
      requires forall i, j :: 0 <= i < |groups| && 0 <= j < |newGroups| ==> groups[i].id != newGroups[j].id
      modifies this`groups, this`cases, chans
      ensures Valid()
      ensures ok == AllValid(StatesOf(newGroups), valid)
      ensures ok ==>
                var left := GroupsWithoutAll(old(groups), StatesOf(newGroups));
                groups == left + WithCases(newGroups) && cases == CasesStill(old(cases), Ids(left)) + newCases
      ensures !ok ==> cases == CasesStill(old(cases), Ids(groups))
                      && EmptiedAtMost(StatesOf(newGroups), old(chans[..]), chans[..])
      ensures ok ==>
                forall c :: 0 <= c < chans.Length ==>
                  var emptied := if Spawn(c) in StatesOf(newGroups) then Emptied(old(chans[c])) else old(chans[c]);
                  chans[c] == Rearmed(emptied, Occurrences(WithCases(newGroups), Spawn(c)))
    {
      hide ListsOk, Counted, WithCases, GroupsWithoutAll, AllValid, Emptied, Rearmed, Occurrences;
      ok := RemoveOld(newGroups, valid);
      if !ok {
        return;
      }
      var kept := KeepWithCases(newGroups);
      WithCasesKeep(newGroups, newCases);
      KeptStates(newGroups);
      ArmGroups(kept);
      forall i, j | 0 <= i < |groups| && 0 <= j < |kept| ensures groups[i].id != kept[j].id {
        FreshId(old(groups), newGroups, groups[i].id, kept[j]);
      }
      AppendKeepsLists(groups, cases, kept, newCases);
      cases := cases + newCases;
      groups := groups + kept;
    }

    /** New groups with no cases are discarded. */
    method KeepWithCases(gs: seq<Group>) returns (kept: seq<Group>)
      ensures kept == WithCases(gs)
    {
      hide WithCases;
      kept := [];
      var i := 0;
      assert gs[0..] == gs;
      while i < |gs|
        invariant 0 <= i <= |gs| && WithCases(gs) == kept + WithCases(gs[i..])
      {
        assert gs[i..][1..] == gs[i + 1..];
        WithCasesFirst(kept, gs[i..]);
        if gs[i].ecount != 0 {
          kept := kept + [gs[i]];
        }
        i := i + 1;
      }
      assert gs[i..] == [];
      WithCasesNone();
    }

    lemma OneInRange(states: seq<Id>, n: nat)
      requires InRange(states) && n < |states|
      ensures InRange([states[n]])
    {}

    /** What RemoveState did to the channels. */
    lemma OneEmptied(x: Id, was: seq<Channel>)
      requires Reduced(x, 0, was) && InRange([x])
      ensures EmptiedBy([x], was, chans[..])
    {
      assert [x][0] == x;
      forall c | 0 <= c < |was| ensures Spawn(c) in [x] <==> x == Spawn(c) {}
    }

    /** exp_close for the background: the channel leaves all groups and is disarmed for good. */
    method CloseChannel(c: nat)
      requires Valid() && c < chans.Length
      modifies this`groups, this`cases, chans
      ensures Valid() && groups == GroupsWithout(old(groups), Spawn(c))
      ensures cases == CasesStill(old(cases), Ids(groups))
      ensures chans[c] == Channel(0, Unarmed, false)
      ensures forall d :: 0 <= d < chans.Length && d != c ==> chans[d] == old(chans[d])
    {
      RemoveState(Spawn(c));
      if !chans[c].status.Unarmed? {
        chans[c] := chans[c].(status := Unarmed, installed := false);
      }
    }
  }

  /** A channel with an occurrence more. */
  function OneMore(ch: Channel): Channel {
    var armed := if ch.count == 0 then Arm(ch) else ch;
    armed.(count := armed.count + 1)
  }

  /** A channel with n occurrences more. */
  function Rearmed(ch: Channel, n: nat): Channel {
    if n == 0 then ch else OneMore(Rearmed(ch, n - 1))
  }

  lemma OneMoreIs(ch: Channel, r: Channel)
    requires r == (if ch.count == 0 then Arm(ch) else ch).(count := ch.count + 1)
    ensures r == OneMore(ch)
  {}

  lemma CountMore(states: seq<Id>, x: Id, c: nat, ch: Channel)
    ensures Rearmed(ch, Count(states + [x], Spawn(c)))
            == var r := Rearmed(ch, Count(states, Spawn(c))); if x == Spawn(c) then OneMore(r) else r
  {
    hide OneMore;
    CountJoin(states, [x], Spawn(c));
    assert [x][1..] == [];
  }

  lemma OneGroupMore(gs: seq<Group>, g: Group, c: nat, ch: Channel)
    ensures Rearmed(ch, Occurrences(gs + [g], Spawn(c)))
            == Rearmed(Rearmed(ch, Occurrences(gs, Spawn(c))), Count(g.states, Spawn(c)))
  {
    hide Rearmed, Count;
    OccurrencesJoin(gs, [g], Spawn(c));
    assert [g][1..] == [];
    RearmedMore(ch, Occurrences(gs, Spawn(c)), Count(g.states, Spawn(c)));
  }

  lemma NothingMore(was: seq<Channel>)
    ensures forall c :: 0 <= c < |was| ==> Rearmed(was[c], Count([], Spawn(c))) == was[c]
    ensures forall c :: 0 <= c < |was| ==> Rearmed(was[c], Occurrences([], Spawn(c))) == was[c]
  {}

  /** A channel without its occurrences. */
  function Emptied(ch: Channel): Channel {
    if ch.count > 0 then Disarm(ch.(count := 0)) else ch.(count := 0)
  }

  lemma {:induction false} RearmedMore(ch: Channel, m: nat, n: nat)
    ensures Rearmed(Rearmed(ch, m), n) == Rearmed(ch, m + n)
    decreases n
  {
    hide OneMore;
    if n > 0 {
      RearmedMore(ch, m, n - 1);
    }
  }

  lemma EmptiedTwice(ch: Channel)
    ensures Emptied(Emptied(ch)) == Emptied(ch) && Emptied(ch).count == 0
  {}

  /** Exactly the channels of these spawn ids lost their occurrences. */
  ghost predicate EmptiedBy(states: seq<Id>, was: seq<Channel>, now: seq<Channel>) {
    |was| == |now|
    && forall c :: 0 <= c < |now| ==> now[c] == if Spawn(c) in states then Emptied(was[c]) else was[c]
  }

  /** At most these did. */
  ghost predicate EmptiedAtMost(states: seq<Id>, was: seq<Channel>, now: seq<Channel>) {
    |was| == |now|
    && forall c :: 0 <= c < |now| ==> now[c] == was[c] || (Spawn(c) in states && now[c] == Emptied(was[c]))
  }

  lemma NothingEmptied(states: seq<Id>, was: seq<Channel>)
    ensures EmptiedBy([], was, was) && EmptiedAtMost(states, was, was)
  {}

  lemma EmptiedJoin(a: seq<Id>, b: seq<Id>, was: seq<Channel>, mid: seq<Channel>, now: seq<Channel>)
    requires EmptiedBy(a, was, mid) && EmptiedBy(b, mid, now)
    ensures EmptiedBy(a + b, was, now)
  {
    hide Emptied;
    forall c | 0 <= c < |now| ensures now[c] == if Spawn(c) in a + b then Emptied(was[c]) else was[c] {
      EmptiedTwice(was[c]);
    }
  }

  lemma AtMostMore(a: seq<Id>, b: seq<Id>, was: seq<Channel>, mid: seq<Channel>, now: seq<Channel>)
    requires EmptiedAtMost(a, was, mid) && EmptiedAtMost(b, mid, now) && forall x :: x in b ==> x in a
    ensures EmptiedAtMost(a, was, now)
  {
    hide Emptied;
    forall c | 0 <= c < |now| ensures now[c] == was[c] || (Spawn(c) in a && now[c] == Emptied(was[c])) {
      EmptiedTwice(was[c]);
    }
  }

  lemma StillAtMost(a: seq<Id>, b: seq<Id>, was: seq<Channel>, mid: seq<Channel>, now: seq<Channel>)
    requires EmptiedAtMost(a, was, mid) && EmptiedBy(b, mid, now) && forall x :: x in b ==> x in a
    ensures EmptiedAtMost(a, was, now)
  {
    hide Emptied;
    assert EmptiedAtMost(b, mid, now);
    AtMostMore(a, b, was, mid, now);
  }

  /** All occurrences of a channel removed and n put in: its handler stays installed or is
      installed only if it is not running, and while it runs it is noted whether it is to be
      installed afterwards. */
  lemma {:induction false} RearmedStatus(ch: Channel, n: nat)
    requires ChannelOk(ch)
    ensures var r := Rearmed(Emptied(ch), n);
            && r.count == n
            && r.status == (if ch.status.Armed? || ch.status.Unarmed? then if n > 0 then Armed else Unarmed
                            else if n > 0 then Blocked else DisarmWhileBlocked)
            && (r.installed <==> r.status.Armed?)
  {
    if n > 0 {
      RearmedStatus(ch, n - 1);
    }
  }

  lemma ArmCounts(ch: Channel)
    requires ChannelOk(ch)
    ensures ChannelOk(OneMore(ch)) && OneMore(ch).count == ch.count + 1 && Arm(ch).count == ch.count
  {}

  /** The spawn ids of the groups, in order. */
  function StatesOf(gs: seq<Group>): seq<Id> {
    if gs == [] then [] else gs[0].states + StatesOf(gs[1..])
  }

  function GroupsWithoutAll(groups: seq<Group>, xs: seq<Id>): seq<Group>
    decreases |xs|
  {
    if xs == [] then groups else GroupsWithout(GroupsWithoutAll(groups, xs[..|xs| - 1]), xs[|xs| - 1])
  }

  function WithCases(gs: seq<Group>): (r: seq<Group>)
    ensures forall k :: 0 <= k < |r| ==> r[k] in gs && r[k].ecount > 0
  {
    if gs == [] then [] else (if gs[0].ecount == 0 then [] else [gs[0]]) + WithCases(gs[1..])
  }

  lemma WithoutAllMore(groups: seq<Group>, xs: seq<Id>, x: Id)
    ensures GroupsWithoutAll(groups, xs + [x]) == GroupsWithout(GroupsWithoutAll(groups, xs), x)
  {
    assert (xs + [x])[..|xs|] == xs;
  }

  lemma {:induction false} StatesJoin(a: seq<Group>, b: seq<Group>)
    ensures StatesOf(a + b) == StatesOf(a) + StatesOf(b)
    decreases |a|
  {
    if a == [] {
      assert a + b == b;
    } else {
      assert (a + b)[1..] == a[1..] + b;
      StatesJoin(a[1..], b);
      assert a[0].states + (StatesOf(a[1..]) + StatesOf(b)) == a[0].states + StatesOf(a[1..]) + StatesOf(b);
    }
  }

  lemma StatesBegin(gs: seq<Group>)
    ensures StatesOf(gs[..0]) == []
  {}

  lemma StatesMore(gs: seq<Group>, i: nat)
    requires i < |gs|
    ensures StatesOf(gs[..i + 1]) == StatesOf(gs[..i]) + gs[i].states
  {
    assert gs[..i + 1] == gs[..i] + [gs[i]];
    StatesJoin(gs[..i], [gs[i]]);
    assert [gs[i]][1..] == [] && StatesOf([gs[i]]) == gs[i].states + [];
  }

  lemma StatesIn(gs: seq<Group>, i: nat, n: nat)
    requires i < |gs| && n < |gs[i].states|
    ensures gs[i].states[n] in StatesOf(gs)
  {
    assert gs == gs[..i] + gs[i..];
    StatesJoin(gs[..i], gs[i..]);
    assert gs[i..][0] == gs[i];
  }

  lemma {:induction false} GroupsWithoutIds(groups: seq<Group>, x: Id)
    ensures forall k :: 0 <= k < |GroupsWithout(groups, x)| ==> Listed(groups, GroupsWithout(groups, x)[k].id)
    decreases |groups|
  {
    if groups != [] {
      var rest := groups[1..];
      GroupsWithoutIds(rest, x);
      var r := GroupsWithout(groups, x);
      forall k | 0 <= k < |r| ensures Listed(groups, r[k].id) {
        if r[k].id != groups[0].id {
          var n := k - (|r| - |GroupsWithout(rest, x)|);
          assert r[k] == GroupsWithout(rest, x)[n];
          var m :| 0 <= m < |rest| && rest[m].id == r[k].id;
          assert groups[m + 1] == rest[m];
        }
      }
    }
  }

  lemma ListedSelf(groups: seq<Group>)
    ensures forall k :: 0 <= k < |groups| ==> Listed(groups, groups[k].id)
  {}

  lemma ListedTrans(a: seq<Group>, b: seq<Group>, c: seq<Group>)
    requires forall k :: 0 <= k < |b| ==> Listed(a, b[k].id)
    requires forall k :: 0 <= k < |c| ==> Listed(b, c[k].id)
    ensures forall k :: 0 <= k < |c| ==> Listed(a, c[k].id)
  {}

  lemma WithoutNone(groups: seq<Group>)
    ensures GroupsWithoutAll(groups, []) == groups
  {}

  lemma FreshId(groups: seq<Group>, gs: seq<Group>, id: nat, g: Group)
    requires forall i, j :: 0 <= i < |groups| && 0 <= j < |gs| ==> groups[i].id != gs[j].id
    requires Listed(groups, id) && g in gs
    ensures id != g.id
  {}

  lemma {:induction false} WithCasesHas(gs: seq<Group>, k: nat)
    requires k < |gs| && gs[k].ecount > 0
    ensures Listed(WithCases(gs), gs[k].id)
    decreases |gs|
  {
    var r, rest := WithCases(gs), WithCases(gs[1..]);
    if k == 0 {
      assert r[0] == gs[0];
    } else {
      WithCasesHas(gs[1..], k - 1);
      var n :| 0 <= n < |rest| && rest[n].id == gs[k].id;
      assert r[n + (|r| - |rest|)] == rest[n];
    }
  }

  lemma {:induction false} WithCasesDistinct(gs: seq<Group>)
    requires Distinct(gs)
    ensures Distinct(WithCases(gs))
    decreases |gs|
  {
    if gs != [] {
      var g, rest := gs[0], WithCases(gs[1..]);
      WithCasesDistinct(gs[1..]);
      forall k | 0 <= k < |rest| ensures rest[k].id != g.id {
        assert rest[k] in gs[1..];
        var n :| 0 <= n < |gs[1..]| && gs[1..][n] == rest[k];
        assert gs[n + 1] == rest[k];
      }
      WithCasesFirst([], gs);
      NothingInFront(WithCases(gs));
      NothingInFront(rest);
      DistinctCons(g, rest);
    }
  }

  lemma StatesFirst(done: seq<Id>, states: seq<Id>, x: Id)
    requires states != []
    ensures done + Without(states, x) == (if states[0] == x then done else done + [states[0]]) + Without(states[1..], x)
    ensures Count(states, x) == (if states[0] == x then 1 else 0) + Count(states[1..], x)
  {}

  lemma StatesNone(x: Id)
    ensures Without([], x) == [] && Count([], x) == 0
  {}

  lemma DistinctCons(g: Group, rest: seq<Group>)
    requires Distinct(rest) && forall k :: 0 <= k < |rest| ==> rest[k].id != g.id
    ensures Distinct([g] + rest)
  {
    var r := [g] + rest;
    forall i, j | 0 <= i < j < |r| ensures r[i].id != r[j].id {
      assert r[j] == rest[j - 1];
      if i > 0 { assert r[i] == rest[i - 1]; }
    }
  }

  lemma NothingInFront(gs: seq<Group>)
    ensures [] + gs == gs
  {}

  lemma WithCasesFirst(done: seq<Group>, gs: seq<Group>)
    requires gs != []
    ensures done + WithCases(gs) == (if gs[0].ecount == 0 then done else done + [gs[0]]) + WithCases(gs[1..])
  {
    var rest := WithCases(gs[1..]);
    assert [] + rest == rest && done + ([gs[0]] + rest) == done + [gs[0]] + rest;
  }

  lemma WithCasesNone()
    ensures WithCases([]) == []
  {}

  /** Groups without cases can be left out. */
  lemma WithCasesKeep(gs: seq<Group>, cases: seq<Case>)
    requires ListsOk(gs, cases)
    ensures ListsOk(WithCases(gs), cases)
  {
    var r := WithCases(gs);
    WithCasesDistinct(gs);
    forall k | 0 <= k < |cases| ensures Listed(r, cases[k].group) {
      assert Listed(gs, cases[k].group);
      var n :| 0 <= n < |gs| && gs[n].id == cases[k].group;
      HasCase(cases, k);
      WithCasesHas(gs, n);
    }
  }

  lemma {:induction false} HasCase(cases: seq<Case>, k: nat)
    requires k < |cases|
    ensures CasesFor(cases, cases[k].group) > 0
    decreases |cases|
  {
    if k > 0 {
      HasCase(cases[1..], k - 1);
    }
  }

  /** The groups kept are new ones, and so are their spawn ids. */
  lemma {:induction false} KeptStates(gs: seq<Group>)
    ensures forall g :: g in WithCases(gs) ==> g in gs
    ensures forall x :: x in StatesOf(WithCases(gs)) ==> x in StatesOf(gs)
    decreases |gs|
  {
    if gs != [] {
      var r, rest := WithCases(gs), WithCases(gs[1..]);
      KeptStates(gs[1..]);
      if gs[0].ecount == 0 {
        assert r == rest;
      } else {
        assert r == [gs[0]] + rest && r[1..] == rest;
      }
    }
  }
}
