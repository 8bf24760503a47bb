/** One slot of the address-keyed wait table: its mutex, its waiter list, the words whose
    addresses hash to it, and the threads inside a wait on one of them. A step is what one
    thread does between two points where another thread can interfere: the load of the word is
    a step of its own, because stores do not take the slot mutex. */
module SlotProtocol {
  import opened WaitQueue

  /** Where a thread inside a wait is. A thread outside any wait has no phase. */
  datatype Phase =
    | Locked(addr: nat, expected: nat)   // holds the slot mutex, has yet to read the word
    | Checked(addr: nat, expected: nat)  // holds the slot mutex, has read `expected`
    | Parked(addr: nat, expected: nat, woken: bool, notified: bool)

  datatype Event =
    | WaitReturned(tid: nat, addr: nat, handoff: bool, rc: int)
    | WakeReturned(addr: nat, n: nat)

  datatype State = State(
    word: map<nat, nat>,
    queue: seq<Entry>,
    holder: set<nat>,          // the thread that holds the mutex, if any
    phase: map<nat, Phase>,
    stamp: map<nat, nat>,      // thread -> time of its latest link
    links: nat,
    log: seq<Event>)

  datatype Action =
    | Store(addr: nat, value: nat)
    | Enter(tid: nat, addr: nat, expected: nat)
    | Check(tid: nat)
    | Park(tid: nat)
    | Resume(tid: nat, rc: int)
    | Wake(addr: nat, all: bool)

  function Word(s: State, addr: nat): nat {
    if addr in s.word then s.word[addr] else 0
  }

  ghost predicate Initial(s: State) {
    s == State(s.word, [], {}, map[], map[], 0, [])
  }

  ghost predicate Enabled(s: State, a: Action) {
    match a
    case Store(_, _) => true
    case Enter(t, _, _) => t !in s.phase && s.holder == {}
    case Check(t) => t in s.phase && s.phase[t].Locked?
    case Park(t) => t in s.phase && s.phase[t].Checked?
    case Resume(t, _) => t in s.phase && s.phase[t].Parked? && s.holder == {}
    case Wake(_, _) => s.holder == {}
  }

  function Returned(s: State, t: nat, handoff: bool, rc: int): State
    requires t in s.phase
  {
    s.(phase := s.phase - {t}, log := s.log + [WaitReturned(t, s.phase[t].addr, handoff, rc)])
  }

  /** What a wake does to the parked threads: those whose records it took are marked, and the
      broadcast, sent only if it took any, reaches all of them. */
  function Rouse(phase: map<nat, Phase>, marked: set<nat>): map<nat, Phase> {
    map t | t in phase ::
      if phase[t].Parked? && marked != {}
      then phase[t].(notified := true, woken := phase[t].woken || t in marked)
      else phase[t]
  }

  ghost function Step(s: State, a: Action): State
    requires Enabled(s, a)
  {
    match a
    case Store(addr, v) => s.(word := s.word[addr := v])
    case Enter(t, addr, e) => s.(phase := s.phase[t := Locked(addr, e)], holder := {t})
    case Check(t) =>
      var p := s.phase[t];
      if Word(s, p.addr) != p.expected then Returned(s, t, false, 0).(holder := {})
      else s.(phase := s.phase[t := Checked(p.addr, p.expected)])
    case Park(t) =>
      var p := s.phase[t];
      s.(queue := s.queue + [Entry(t, p.addr)],
         phase := s.phase[t := Parked(p.addr, p.expected, false, false)],
         holder := {},
         stamp := s.stamp[t := s.links],
         links := s.links + 1)
    case Resume(t, rc) =>
      var p := s.phase[t];
      if p.woken then Returned(s, t, true, 0)
      else
        var s' := s.(queue := Remove(s.queue, t));
        if rc != 0 then Returned(s', t, false, rc)
        else s'.(phase := s.phase[t := Locked(p.addr, p.expected)], holder := {t})
    case Wake(addr, all) =>
      var marked := Marked(s.queue, addr, all);
      s.(queue := Kept(s.queue, addr, all),
         phase := Rouse(s.phase, Ids(marked)),
         log := s.log + [WakeReturned(addr, |marked|)])
  }

  // ---- the invariant ----

  ghost predicate Waiting(s: State, t: nat) {
    t in s.phase && s.phase[t].Parked? && !s.phase[t].woken
  }

  /** The list holds exactly the parked, unmarked records, in link order. */
  ghost predicate QueueAgrees(s: State) {
    && (forall e | e in s.queue :: Waiting(s, e.id) && s.phase[e.id].addr == e.addr)
    && (forall t | Waiting(s, t) :: Entry(t, s.phase[t].addr) in s.queue)
    && Ascending(s.queue, s.stamp)
    && (forall t | t in s.stamp :: s.stamp[t] < s.links)
  }

  ghost predicate MutexAgrees(s: State) {
    && (forall t :: t in s.holder <==> t in s.phase && !s.phase[t].Parked?)
    && (forall t, u | t in s.holder && u in s.holder :: t == u)
  }

  ghost predicate MarksAgree(s: State) {
    && (forall t | t in s.phase && s.phase[t].Parked? && s.phase[t].woken :: s.phase[t].notified)
    && (forall i | 0 <= i < |s.log| && s.log[i].WaitReturned? && s.log[i].handoff :: s.log[i].rc == 0)
  }

  function WakeSum(log: seq<Event>, addr: nat): nat {
    if log == [] then 0
    else
      var e := log[|log| - 1];
      WakeSum(log[..|log| - 1], addr) + if e.WakeReturned? && e.addr == addr then e.n else 0
  }

  function Handoffs(log: seq<Event>, addr: nat): nat {
    if log == [] then 0
    else
      var e := log[|log| - 1];
      Handoffs(log[..|log| - 1], addr) + if e.WaitReturned? && e.addr == addr && e.handoff then 1 else 0
  }

  /** Threads marked on `addr` that have not resumed yet. */
  ghost function MarkedOn(s: State, addr: nat): set<nat> {
    ParkedOn(s.phase, addr, true)
  }

  ghost function ParkedOn(phase: map<nat, Phase>, addr: nat, woken: bool): set<nat> {
    set t | t in phase && phase[t].Parked? && phase[t].addr == addr && phase[t].woken == woken
  }

  ghost predicate Balanced(s: State, addr: nat) {
    WakeSum(s.log, addr) == Handoffs(s.log, addr) + |MarkedOn(s, addr)|
  }

  ghost predicate Inv(s: State) {
    QueueAgrees(s) && MutexAgrees(s) && MarksAgree(s) && forall addr :: Balanced(s, addr)
  }

  lemma InitialInv(s: State)
    requires Initial(s)
    ensures Inv(s)
  {
    forall addr ensures Balanced(s, addr) {
      assert MarkedOn(s, addr) == {};
    }
  }

  // ---- every step keeps the list, the mutex and the marks in agreement ----

  lemma ParkKeepsQueue(s: State, t: nat)
    requires QueueAgrees(s) && Enabled(s, Park(t))
    ensures QueueAgrees(Step(s, Park(t)))
  {
    var s' := Step(s, Park(t));
    assert forall x :: Waiting(s', x) <==> Waiting(s, x) || x == t;
    assert s'.queue[|s.queue|] == Entry(t, s.phase[t].addr);
    assert forall i | 0 <= i < |s.queue| :: s.queue[i] in s.queue && s.queue[i].id != t;
  }

  lemma ResumeKeepsQueue(s: State, t: nat, rc: int)
    requires QueueAgrees(s) && Enabled(s, Resume(t, rc))
    ensures QueueAgrees(Step(s, Resume(t, rc)))
  {
    var s' := Step(s, Resume(t, rc));
    if s.phase[t].woken {
      assert forall x :: Waiting(s', x) <==> Waiting(s, x);
    } else {
      AscendingIsDistinct(s.queue, s.stamp);
      RemoveIsExact(s.queue, t);
      RemoveAscending(s.queue, t, s.stamp);
      assert forall x :: Waiting(s', x) <==> Waiting(s, x) && x != t;
    }
  }

  /** The threads whose records a wake takes are parked, unmarked and on its address. */
  lemma MarkedAreWaiting(s: State, addr: nat, all: bool)
    requires QueueAgrees(s)
    ensures var m := Marked(s.queue, addr, all);
      && (forall t | t in Ids(m) :: Waiting(s, t) && s.phase[t].addr == addr && Entry(t, addr) in m)
      && |Ids(m)| == |m|
  {
    var q, m := s.queue, Marked(s.queue, addr, all);
    WakePartitions(q, addr, all);
    AscendingIsDistinct(q, s.stamp);
    WakeKeepsDistinct(q, addr, all);
    IdsCount(m);
    forall t | t in Ids(m) ensures Waiting(s, t) && s.phase[t].addr == addr && Entry(t, addr) in m {
      var e :| e in m && e.id == t;
      assert e in q;
    }
  }

  /** A wake leaves waiting exactly the threads it does not take. */
  lemma WakeTakesMarked(s: State, addr: nat, all: bool, t: nat)
    requires QueueAgrees(s) && Enabled(s, Wake(addr, all))
    ensures Waiting(Step(s, Wake(addr, all)), t) <==> Waiting(s, t) && t !in Ids(Marked(s.queue, addr, all))
  {
  }

  lemma WakeKeepsQueue(s: State, addr: nat, all: bool)
    requires QueueAgrees(s) && Enabled(s, Wake(addr, all))
    ensures QueueAgrees(Step(s, Wake(addr, all)))
  {
    var s' := Step(s, Wake(addr, all));
    var q, m := s.queue, Marked(s.queue, addr, all);
    WakePartitions(q, addr, all);
    AscendingIsDistinct(q, s.stamp);
    WakeKeepsDistinct(q, addr, all);
    KeptAscending(q, addr, all, s.stamp);
    forall e | e in s'.queue ensures Waiting(s', e.id) && s'.phase[e.id].addr == e.addr {
      assert e in q;
      WakeTakesMarked(s, addr, all, e.id);
    }
    forall t | Waiting(s', t) ensures Entry(t, s'.phase[t].addr) in s'.queue {
      WakeTakesMarked(s, addr, all, t);
      assert Entry(t, s.phase[t].addr) in q;
      assert t !in Ids(m) ==> Entry(t, s.phase[t].addr) !in m;
    }
  }

  lemma StepKeepsQueue(s: State, a: Action)
    requires QueueAgrees(s) && Enabled(s, a)
    ensures QueueAgrees(Step(s, a))
  {
    match a {
      case Park(t) => ParkKeepsQueue(s, t);
      case Resume(t, rc) => ResumeKeepsQueue(s, t, rc);
      case Wake(addr, all) => WakeKeepsQueue(s, addr, all);
      case _ =>
        assert forall x :: Waiting(Step(s, a), x) <==> Waiting(s, x);
    }
  }

  lemma StepKeepsMutex(s: State, a: Action)
    requires MutexAgrees(s) && Enabled(s, a)
    ensures MutexAgrees(Step(s, a))
  {
    var s' := Step(s, a);
    if a.Check? || a.Park? {
      assert a.tid in s.holder;
      assert forall t :: t in s'.holder <==> t in s'.phase && !s'.phase[t].Parked?;
    }
  }

  // ---- every step keeps the accounts balanced ----

  lemma LogGrows(log: seq<Event>, e: Event, addr: nat)
    ensures WakeSum(log + [e], addr) == WakeSum(log, addr) + if e.WakeReturned? && e.addr == addr then e.n else 0
    ensures Handoffs(log + [e], addr) == Handoffs(log, addr) + if e.WaitReturned? && e.addr == addr && e.handoff then 1 else 0
  {
    assert (log + [e])[..|log|] == log;
  }

  lemma RouseMoves(phase: map<nat, Phase>, m: set<nat>, addr: nat, b: nat)
    requires forall t | t in m :: t in phase && phase[t].Parked? && !phase[t].woken && phase[t].addr == addr
    ensures var after, m' := Rouse(phase, m), if b == addr then m else {};
      && m' <= ParkedOn(phase, b, false)
      && ParkedOn(after, b, true) == ParkedOn(phase, b, true) + m'
      && ParkedOn(after, b, false) == ParkedOn(phase, b, false) - m'
  {
  }

  lemma WakeMoves(s: State, addr: nat, all: bool, b: nat)
    requires QueueAgrees(s) && Enabled(s, Wake(addr, all))
    ensures var s' := Step(s, Wake(addr, all));
      var m := if b == addr then Ids(Marked(s.queue, addr, all)) else {};
      && m <= WaitingOn(s, b)
      && MarkedOn(s', b) == MarkedOn(s, b) + m && MarkedOn(s, b) !! m
      && WaitingOn(s', b) == WaitingOn(s, b) - m
  {
    MarkedAreWaiting(s, addr, all);
    RouseMoves(s.phase, Ids(Marked(s.queue, addr, all)), addr, b);
  }

  lemma WakeBalances(s: State, addr: nat, all: bool, b: nat)
    requires QueueAgrees(s) && Enabled(s, Wake(addr, all)) && Balanced(s, b)
    ensures Balanced(Step(s, Wake(addr, all)), b)
  {
    MarkedAreWaiting(s, addr, all);
    WakeMoves(s, addr, all, b);
    LogGrows(s.log, WakeReturned(addr, |Marked(s.queue, addr, all)|), b);
  }

  lemma MarkedAfterOther(s: State, a: Action, b: nat)
    requires Enabled(s, a) && !a.Wake?
    ensures MarkedOn(Step(s, a), b) == MarkedOn(s, b) - (if a.Resume? && s.phase[a.tid].woken then {a.tid} else {})
  {
  }

  lemma StepBalances(s: State, a: Action, b: nat)
    requires QueueAgrees(s) && Enabled(s, a) && Balanced(s, b)
    ensures Balanced(Step(s, a), b)
  {
    if a.Wake? {
      WakeBalances(s, a.addr, a.all, b);
    } else {
      MarkedAfterOther(s, a, b);
      var s' := Step(s, a);
      if s'.log != s.log {
        LogGrows(s.log, s'.log[|s.log|], b);
      }
    }
  }

  lemma StepKeepsMarks(s: State, a: Action)
    requires MarksAgree(s) && Enabled(s, a)
    ensures MarksAgree(Step(s, a))
  {
  }

  lemma StepKeeps(s: State, a: Action)
    requires Inv(s) && Enabled(s, a)
    ensures Inv(Step(s, a))
  {
    StepKeepsMarks(s, a);
    StepKeepsQueue(s, a);
    StepKeepsMutex(s, a);
    forall b ensures Balanced(Step(s, a), b) {
      assert Balanced(s, b);
      StepBalances(s, a, b);
    }
  }

  // ---- lost-wakeup freedom, one step at a time ----

  ghost predicate Sleeping(s: State, t: nat, addr: nat, e: nat) {
    Waiting(s, t) && s.phase[t].addr == addr && s.phase[t].expected == e
  }

  /** No thread sleeps on `addr` for the value `e`, nor is about to. */
  ghost predicate Quiet(s: State, addr: nat, e: nat) {
    && (forall t :: !Sleeping(s, t, addr, e))
    && (forall t | t in s.phase :: s.phase[t] != Checked(addr, e))
  }

  lemma WakeAllQuiets(s: State, addr: nat, e: nat)
    requires Inv(s) && Enabled(s, Wake(addr, true))
    ensures Quiet(Step(s, Wake(addr, true)), addr, e)
  {
    var s' := Step(s, Wake(addr, true));
    WakeKeepsQueue(s, addr, true);
    WakeSplitsQueue(s.queue, addr, true);
    OnlyMembers(s'.queue, addr);
    forall t ensures !Sleeping(s', t, addr, e) {
      assert Entry(t, addr) !in s'.queue;
    }
    forall t | t in s'.phase ensures s'.phase[t] != Checked(addr, e) {
      assert t !in s.holder;
    }
  }

  lemma QuietPersists(s: State, a: Action, addr: nat, e: nat)
    requires Inv(s) && Enabled(s, a) && Quiet(s, addr, e) && Word(s, addr) != e
    ensures Quiet(Step(s, a), addr, e)
  {
    var s' := Step(s, a);
    forall t ensures !Sleeping(s', t, addr, e) {
      assert !Sleeping(s, t, addr, e);
      if t in s.phase { assert s.phase[t] != Checked(addr, e); }
    }
  }

  // ---- what a wake takes ----

  /** The threads parked, unmarked, on `addr`. */
  ghost function WaitingOn(s: State, addr: nat): set<nat> {
    ParkedOn(s.phase, addr, false)
  }

  /** A wake returns exactly the number of parked threads it takes: all those of its address
      for wake_all, otherwise one if there is any. */
  lemma WakeIsExact(s: State, addr: nat, all: bool)
    requires Inv(s) && Enabled(s, Wake(addr, all))
    ensures var s' := Step(s, Wake(addr, all));
      var taken := WaitingOn(s, addr) - WaitingOn(s', addr);
      && s'.log == s.log + [WakeReturned(addr, |taken|)]
      && MarkedOn(s', addr) == MarkedOn(s, addr) + taken
      && (if all then WaitingOn(s', addr) == {} else |taken| == if WaitingOn(s, addr) == {} then 0 else 1)
  {
    TakenAreMarked(s, addr, all);
    WakeMoves(s, addr, all, addr);
    if all {
      WakeAllTakesEveryone(s, addr);
    } else {
      WakeOneTakesOne(s, addr);
    }
  }

  /** The thread a wake_one takes is, of those parked on its address, the one whose latest
      link is oldest. */
  lemma WakeOneIsFifo(s: State, addr: nat, t: nat, u: nat)
    requires Inv(s) && Enabled(s, Wake(addr, false))
    requires t in WaitingOn(s, addr) && t !in WaitingOn(Step(s, Wake(addr, false)), addr)
    requires u in WaitingOn(s, addr)
    ensures t in s.stamp && u in s.stamp && s.stamp[t] <= s.stamp[u]
  {
    TakenAreMarked(s, addr, false);
    WakeOneTakesOldest(s.queue, addr, s.stamp);
    assert Entry(t, addr) in Marked(s.queue, addr, false) && Entry(u, addr) in s.queue;
  }

  lemma TakenAreMarked(s: State, addr: nat, all: bool)
    requires Inv(s) && Enabled(s, Wake(addr, all))
    ensures var s', m := Step(s, Wake(addr, all)), Marked(s.queue, addr, all);
      && WaitingOn(s', addr) <= WaitingOn(s, addr)
      && WaitingOn(s, addr) - WaitingOn(s', addr) == Ids(m) && |Ids(m)| == |m|
      && (forall t | t in Ids(m) :: Entry(t, addr) in m)
      && (forall u | u in WaitingOn(s, addr) :: Entry(u, addr) in s.queue)
  {
    MarkedAreWaiting(s, addr, all);
    WakeMoves(s, addr, all, addr);
    assert forall u | u in WaitingOn(s, addr) :: Waiting(s, u);
  }

  lemma WakeOneTakesOne(s: State, addr: nat)
    requires Inv(s)
    ensures |Marked(s.queue, addr, false)| == if WaitingOn(s, addr) == {} then 0 else 1
  {
    WakeSplitsQueue(s.queue, addr, false);
    OnlyMembers(s.queue, addr);
    if Only(s.queue, addr) != [] {
      var e := Only(s.queue, addr)[0];
      assert e in Only(s.queue, addr);
      assert e.id in WaitingOn(s, addr);
    } else {
      forall u ensures u !in WaitingOn(s, addr) {
        assert Entry(u, addr) !in Only(s.queue, addr);
      }
    }
  }

  lemma WakeAllTakesEveryone(s: State, addr: nat)
    requires Inv(s) && Enabled(s, Wake(addr, true))
    ensures WaitingOn(Step(s, Wake(addr, true)), addr) == {}
  {
    var s' := Step(s, Wake(addr, true));
    forall t | t in WaitingOn(s', addr) ensures false {
      WakeAllQuiets(s, addr, s'.phase[t].expected);
      assert Sleeping(s', t, addr, s'.phase[t].expected);
    }
  }

  /** A wake on one address never takes, marks or reorders a record of another address. */
  lemma NoStealing(s: State, addr: nat, all: bool, other: nat)
    requires Inv(s) && Enabled(s, Wake(addr, all)) && other != addr
    ensures var s' := Step(s, Wake(addr, all));
      && WaitingOn(s', other) == WaitingOn(s, other)
      && MarkedOn(s', other) == MarkedOn(s, other)
      && Only(s'.queue, other) == Only(s.queue, other)
  {
    WakeMoves(s, addr, all, other);
    WakeSplitsQueue(s.queue, addr, all);
  }
}
