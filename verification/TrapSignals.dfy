/** Signals trapped by exp_trap.c: the signal handler (bottom half) only leaves marks, the
    asynchronous handler (top half) runs the actions.

    The bottom half, the entry of the top half and its closing scan are taken as atomic.
    While an action runs, signals may arrive and the top half may be entered again. */
module TrapSignals {

  const NSIG: nat := 65
  const SIGCHLD: nat := 17
  const NO_SIG: int := 0

  type Signal = i: int | 0 < i < NSIG witness 1

  /** What happened to signals, in order. */
  datatype Entry = Got(sig: Signal) | Began(sig: Signal)

  /** marks[i] tells that signal i occurred, ready that the top half is to be called, depth how
      many calls of it are in the middle of their actions. */
  datatype State = State(marks: seq<bool>, gotSig: int, sigchldCount: int, ready: bool, depth: nat, log: seq<Entry>)

  predicate Shape(s: State) {
    |s.marks| == NSIG
  }

  // ----- the steps -----

  /** bottomhalf(sig) */
  function Arrive(s: State, sig: Signal): (r: State)
    requires Shape(s)
    ensures Shape(r)
  {
    State(s.marks[sig := true], sig, if sig == SIGCHLD then s.sigchldCount + 1 else s.sigchldCount, true, s.depth,
          s.log + [Got(sig)])
  }

  /** The beginning of tophalf, up to the action. */
  function Enter(s: State): (r: State)
    requires Shape(s) && 0 < s.gotSig < NSIG
    ensures Shape(r)
  {
    var sig := s.gotSig;
    State(s.marks[sig := false], sig, if sig == SIGCHLD then s.sigchldCount - 1 else s.sigchldCount, false, s.depth + 1,
          s.log + [Began(sig)])
  }

  /** The first marked signal from i on, or -1. */
  function FirstMarked(marks: seq<bool>, i: nat): (r: int)
    requires |marks| == NSIG && i <= NSIG
    ensures r == -1 || (i <= r < NSIG && marks[r])
    ensures forall k :: i <= k < (if r == -1 then NSIG else r) ==> !marks[k]
    decreases NSIG - i
  {
    if i == NSIG then -1 else if marks[i] then i else FirstMarked(marks, i + 1)
  }

  /** The end of tophalf: the scan for more signals. */
  function Scan(s: State): (r: State)
    requires Shape(s) && s.depth > 0
    ensures Shape(r)
  {
    if s.sigchldCount != 0 then
      s.(gotSig := SIGCHLD, marks := s.marks[SIGCHLD := true], ready := true, depth := s.depth - 1)
    else
      var i := FirstMarked(s.marks, 1);
      s.(gotSig := i, ready := s.ready || i != -1, depth := s.depth - 1)
  }

  // ----- what every step keeps -----

  function CountOf(log: seq<Entry>, e: Entry): nat {
    if log == [] then 0 else CountOf(log[..|log| - 1], e) + if log[|log| - 1] == e then 1 else 0
  }

  /** The signal occurred, and no action for it began since. */
  predicate Owed(log: seq<Entry>, sig: Signal) {
    log != [] &&
    var last := log[|log| - 1];
    if last == Got(sig) then true else if last == Began(sig) then false else Owed(log[..|log| - 1], sig)
  }

  predicate Inv(s: State) {
    && Shape(s) && !s.marks[0]
    && (s.ready ==> 0 < s.gotSig < NSIG && s.marks[s.gotSig])
    && s.sigchldCount == CountOf(s.log, Got(SIGCHLD)) - CountOf(s.log, Began(SIGCHLD))
    && s.sigchldCount >= 0 && (s.marks[SIGCHLD] ==> s.sigchldCount > 0)
    && (forall i: Signal :: i != SIGCHLD ==> s.marks[i] == Owed(s.log, i))
    && (s.depth == 0 && !s.ready ==> s.sigchldCount == 0 && forall i: Signal :: !s.marks[i])
  }

  lemma CountLast(log: seq<Entry>, x: Entry, e: Entry)
    ensures CountOf(log + [x], e) == CountOf(log, e) + if x == e then 1 else 0
  {
    assert (log + [x])[..|log|] == log;
  }

  lemma OwedLast(log: seq<Entry>, x: Entry, sig: Signal)
    ensures Owed(log + [x], sig) == if x == Got(sig) then true else if x == Began(sig) then false else Owed(log, sig)
  {
    assert (log + [x])[..|log|] == log;
  }

  lemma ArriveKeeps(s: State, sig: Signal)
    requires Inv(s)
    ensures Inv(Arrive(s, sig))
  {
    hide CountOf, Owed;
    CountLast(s.log, Got(sig), Got(SIGCHLD));
    CountLast(s.log, Got(sig), Began(SIGCHLD));
    forall i: Signal ensures Owed(s.log + [Got(sig)], i) == (i == sig || Owed(s.log, i)) {
      OwedLast(s.log, Got(sig), i);
    }
  }

  /** The top half is called only when it was asked for; it then finds a signal to work on. */
  lemma EnterKeeps(s: State)
    requires Inv(s) && s.ready
    ensures Inv(Enter(s))
  {
    hide CountOf, Owed;
    var sig: Signal := s.gotSig;
    CountLast(s.log, Began(sig), Got(SIGCHLD));
    CountLast(s.log, Began(sig), Began(SIGCHLD));
    forall i: Signal ensures Owed(s.log + [Began(sig)], i) == (i != sig && Owed(s.log, i)) {
      OwedLast(s.log, Began(sig), i);
    }
  }

  lemma ScanKeeps(s: State)
    requires Inv(s) && s.depth > 0
    ensures Inv(Scan(s))
  {
    hide CountOf, Owed;
  }

  // ----- whole runs -----

  datatype Event = Signalled(sig: Signal) | Called | Finished

  /** Events that cannot happen in a state change nothing. */
  function After(s: State, e: Event): (r: State)
    requires Inv(s)
    ensures Inv(r)
  {
    match e
    case Signalled(sig) => ArriveKeeps(s, sig); Arrive(s, sig)
    case Called => if s.ready then EnterKeeps(s); Enter(s) else s
    case Finished => if s.depth > 0 then ScanKeeps(s); Scan(s) else s
  }

  function Start(): (s: State)
    ensures Inv(s)
  {
    State(seq(NSIG, i => false), -1, 0, false, 0, [])
  }

  function Run(events: seq<Event>): (s: State)
    ensures Inv(s)
  {
    if events == [] then Start() else After(Run(events[..|events| - 1]), events[|events| - 1])
  }

  /** Over every run: when the top half is to be called, the signal it will work on is one that
      occurred and is not yet worked on; child signals are counted exactly; and when nothing
      is going on, every signal had its action begin after it last occurred, child signals
      as often as they occurred. */
  lemma NoSignalIsLost(events: seq<Event>)
    ensures var s := Run(events);
            && (s.ready ==> 0 < s.gotSig < NSIG && s.marks[s.gotSig]
                            && (s.gotSig == SIGCHLD || Owed(s.log, s.gotSig)))
            && s.sigchldCount == CountOf(s.log, Got(SIGCHLD)) - CountOf(s.log, Began(SIGCHLD)) >= 0
            && (s.depth == 0 && !s.ready ==>
                  && CountOf(s.log, Got(SIGCHLD)) == CountOf(s.log, Began(SIGCHLD))
                  && forall i: Signal :: !Owed(s.log, i))
  {
    hide CountOf, Owed, Run;
    var s := Run(events);
    BegunNeverAhead(events);
    if s.depth == 0 && !s.ready {
      RestIsEven(events);
    }
  }

  /** Of no signal more actions began than it occurred: here for child signals. */
  lemma BegunNeverAhead(events: seq<Event>)
    ensures var s := Run(events); CountOf(s.log, Began(SIGCHLD)) <= CountOf(s.log, Got(SIGCHLD))
  {
    hide CountOf, Owed, Run;
    assert Inv(Run(events));
  }

  /** What was logged up to a place was logged by an earlier state. */
  lemma {:induction false} LogPrefix(events: seq<Event>, n: nat) returns (m: nat)
    requires n <= |Run(events).log|
    ensures m <= |events| && Run(events[..m]).log == Run(events).log[..n]
    decreases |events|
  {
    hide CountOf, Owed, Inv;
    var s := Run(events);
    m := |events|;
    assert events[..m] == events;
    if events != [] {
      var front := events[..|events| - 1];
      var t := Run(front);
      LogGrows(t, events[|events| - 1]);
      if n <= |t.log| {
        m := LogPrefix(front, n);
        assert front[..m] == events[..m];
        assert s.log[..n] == t.log[..n];
      } else {
        assert s.log[..n] == s.log;
      }
    } else {
      assert s.log[..n] == s.log;
    }
  }

  lemma LogGrows(s: State, e: Event)
    requires Inv(s)
    ensures var r := After(s, e); |s.log| <= |r.log| <= |s.log| + 1 && r.log[..|s.log|] == s.log
  {
    hide CountOf, Owed;
  }

  /** At rest the last thing that happened to child signals is that an action began. */
  lemma RestIsEven(events: seq<Event>)
    requires Run(events).sigchldCount == 0
    ensures !Owed(Run(events).log, SIGCHLD)
  {
    hide Run;
    var log := Run(events).log;
    if Owed(log, SIGCHLD) {
      var n := LastGot(log);
      var m := LogPrefix(events, n);
      BegunNeverAhead(events[..m]);
      assert false;
    }
  }

  /** If a child signal is owed, then before it occurred last, one more action had begun than
      is begun against what occurred now. */
  lemma {:induction false} LastGot(log: seq<Entry>) returns (n: nat)
    requires Owed(log, SIGCHLD)
    ensures n < |log|
    ensures CountOf(log[..n], Got(SIGCHLD)) == CountOf(log, Got(SIGCHLD)) - 1
    ensures CountOf(log[..n], Began(SIGCHLD)) == CountOf(log, Began(SIGCHLD))
    decreases |log|
  {
    n := |log| - 1;
    var front := log[..n];
    if log[n] != Got(SIGCHLD) {
      n := LastGot(front);
      assert front[..n] == log[..n];
    }
  }

  // ----- the handlers -----

  class Traps {
    const marks: array<bool>
    var gotSig: int
    var currentSig: int
    var sigchldCount: int
    var asyncReady: bool
    ghost var depth: nat
    ghost var log: seq<Entry>

    ghost function St(): State
      reads this, marks
    {
      State(marks[..], gotSig, sigchldCount, asyncReady, depth, log)
    }

    ghost predicate Valid()
      reads this, marks
    {
      marks.Length == NSIG && Inv(St())
    }

    constructor ()
      ensures Valid() && St() == Start() && fresh(marks) && currentSig == NO_SIG
    {
      marks := new bool[NSIG](i => false);
      gotSig, currentSig, sigchldCount, asyncReady := -1, NO_SIG, 0, false;
      depth, log := 0, [];
      new;
      assert Inv(Run([]));
      assert marks[..] == Start().marks;
    }

    /** The signal handler. */
    method BottomHalf(sig: Signal)
      requires Valid()
      modifies this`gotSig, this`sigchldCount, this`asyncReady, this`log, marks
      ensures Valid() && St() == Arrive(old(St()), sig)
    {
      hide Inv;
      ArriveKeeps(St(), sig);
      marks[sig] := true;
      gotSig := sig;
      asyncReady := true;
      if sig == SIGCHLD {
        sigchldCount := sigchldCount + 1;
      }
      log := log + [Got(sig)];
    }

    /** The top half up to the action: which signal the action is for. */
    method TopHalfBegins() returns (sig: Signal)
      requires Valid() && asyncReady
      modifies this`currentSig, this`sigchldCount, this`asyncReady, this`depth, this`log, marks
      ensures Valid() && sig == old(gotSig) && St() == Enter(old(St()))
      ensures sig == SIGCHLD || Owed(old(log), sig)
      ensures currentSig == sig
    {
      hide CountOf, Owed;
      EnterKeeps(St());
      asyncReady := false;
      currentSig := gotSig;
      sig := gotSig;
      marks[currentSig] := false;
      if currentSig == SIGCHLD {
        sigchldCount := sigchldCount - 1;
      }
      depth, log := depth + 1, log + [Began(sig)];
    }

    /** The top half after the action. */
    method TopHalfEnds()
      requires Valid() && depth > 0
      modifies this`currentSig, this`gotSig, this`asyncReady, this`depth, marks
      ensures Valid() && St() == Scan(old(St())) && currentSig == NO_SIG
    {
      hide Inv, CountOf, Owed;
      ScanKeeps(St());
      currentSig := NO_SIG;
      depth := depth - 1;
      if sigchldCount != 0 {
        gotSig := SIGCHLD;
        marks[SIGCHLD] := true;
        asyncReady := true;
      } else {
        gotSig := -1;
        var i := 1;
        while i < NSIG
          invariant 1 <= i <= NSIG && FirstMarked(marks[..], 1) == FirstMarked(marks[..], i)
          invariant gotSig == -1 && asyncReady == old(asyncReady)
        {
          if marks[i] {
            gotSig := i;
            asyncReady := true;
            break;
          }
          i := i + 1;
        }
      }
    }
  }
}
