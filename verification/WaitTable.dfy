/** The whole address-keyed wait table over whole runs: 256 slots chosen by hash, any number
    of threads storing, waiting, waking, timing out and waking spuriously in any order. */
module WaitTable {
  import opened WaitQueue
  import opened SlotProtocol

  const SLOTS := 256

  /** The slot of an address: golden-ratio spread of the word index, upper half, low byte. */
  function SlotOf(addr: nat): (k: nat)
    ensures k < SLOTS
  {
    (addr / 4 * 0x9E37_79B9_7F4A_7C15) % 0x1_0000_0000_0000_0000 / 0x1_0000_0000 % SLOTS
  }

  type Table = seq<State>

  /** A step of some thread on the slot `k`. */
  datatype TableStep = On(k: nat, act: Action)

  ghost predicate CanStep(tab: Table, st: TableStep) {
    && |tab| == SLOTS && st.k < SLOTS && Enabled(tab[st.k], st.act)
    && (st.act.Store? || st.act.Enter? || st.act.Wake? ==> st.k == SlotOf(st.act.addr))
    && (st.act.Enter? ==> forall k | 0 <= k < SLOTS :: st.act.tid !in tab[k].phase)
  }

  ghost predicate IsRun(ts: seq<Table>, tr: seq<TableStep>) {
    && |ts| == |tr| + 1
    && |ts[0]| == SLOTS && (forall k | 0 <= k < SLOTS :: Initial(ts[0][k]))
    && forall i | 0 <= i < |tr| ::
         CanStep(ts[i], tr[i]) && ts[i + 1] == ts[i][tr[i].k := Step(ts[i][tr[i].k], tr[i].act)]
  }

  /** A thread is inside at most one wait, and that wait's record belongs to the slot of its
      address. */
  ghost predicate Placed(tab: Table)
    requires |tab| == SLOTS
  {
    && (forall k, t | 0 <= k < SLOTS && t in tab[k].phase :: SlotOf(tab[k].phase[t].addr) == k)
    && (forall j, k, t | 0 <= j < SLOTS && 0 <= k < SLOTS && t in tab[j].phase && t in tab[k].phase :: j == k)
  }

  lemma {:induction false} RunKeeps(ts: seq<Table>, tr: seq<TableStep>, i: nat)
    requires IsRun(ts, tr) && i < |ts|
    ensures |ts[i]| == SLOTS && Placed(ts[i])
    ensures forall k | 0 <= k < SLOTS :: Inv(ts[i][k])
  {
    if i == 0 {
      forall k | 0 <= k < SLOTS ensures Inv(ts[0][k]) && ts[0][k].phase == map[] {
        InitialInv(ts[0][k]);
      }
    } else {
      RunKeeps(ts, tr, i - 1);
      var tab, st := ts[i - 1], tr[i - 1];
      StepKeeps(tab[st.k], st.act);
      PlacedKeeps(tab, st);
    }
  }

  lemma PhaseOrigin(s: State, a: Action, t: nat)
    requires Enabled(s, a) && t in Step(s, a).phase
    ensures t in s.phase || (a.Enter? && a.tid == t)
    ensures Step(s, a).phase[t].addr == if t in s.phase then s.phase[t].addr else a.addr
  {
  }

  lemma PlacedKeeps(tab: Table, st: TableStep)
    requires CanStep(tab, st) && Placed(tab)
    ensures Placed(tab[st.k := Step(tab[st.k], st.act)])
  {
    var tab' := tab[st.k := Step(tab[st.k], st.act)];
    forall k, t | 0 <= k < SLOTS && t in tab'[k].phase
      ensures SlotOf(tab'[k].phase[t].addr) == k
      ensures t in tab[k].phase || (k == st.k && st.act.Enter? && st.act.tid == t)
    {
      if k == st.k { PhaseOrigin(tab[k], st.act, t); }
    }
  }

  lemma QuietStep(ts: seq<Table>, tr: seq<TableStep>, j: nat, addr: nat, e: nat)
    requires IsRun(ts, tr) && j < |tr| && |ts[j]| == SLOTS
    requires Word(ts[j][SlotOf(addr)], addr) != e && Quiet(ts[j][SlotOf(addr)], addr, e)
    ensures |ts[j + 1]| == SLOTS && Quiet(ts[j + 1][SlotOf(addr)], addr, e)
  {
    RunKeeps(ts, tr, j);
    if tr[j].k == SlotOf(addr) {
      QuietPersists(ts[j][SlotOf(addr)], tr[j].act, addr, e);
    }
  }

  /** Lost-wakeup freedom over every run. Once a wake_all on `addr` has completed, then for as
      long as the word differs from `e`, no waiter expecting `e` is parked on `addr` without
      having been handed a wake, nor is one about to park. */
  lemma {:induction false} LostWakeupFreedom(ts: seq<Table>, tr: seq<TableStep>, i: nat, j: nat, addr: nat, e: nat)
    requires IsRun(ts, tr) && i < j <= |tr| && tr[i].act == Wake(addr, true)
    requires forall h | i < h < j :: |ts[h]| == SLOTS && Word(ts[h][SlotOf(addr)], addr) != e
    ensures |ts[j]| == SLOTS && Quiet(ts[j][SlotOf(addr)], addr, e)
  {
    if j == i + 1 {
      RunKeeps(ts, tr, i);
      WakeAllQuiets(ts[i][SlotOf(addr)], addr, e);
    } else {
      LostWakeupFreedom(ts, tr, i, j - 1, addr, e);
      QuietStep(ts, tr, j - 1, addr, e);
    }
  }

  /** At every point of every run and for every address: the sum of all wake counts returned
      equals the waits that returned by handoff plus the marked threads still to resume; every
      such thread has been sent a broadcast; every wait that returned by handoff returned 0. */
  lemma HandoffAccounting(ts: seq<Table>, tr: seq<TableStep>, i: nat, addr: nat)
    requires IsRun(ts, tr) && i < |ts|
    ensures |ts[i]| == SLOTS
    ensures var s := ts[i][SlotOf(addr)];
      && WakeSum(s.log, addr) == Handoffs(s.log, addr) + |MarkedOn(s, addr)|
      && (forall t | t in MarkedOn(s, addr) :: s.phase[t].notified)
      && (forall h | 0 <= h < |s.log| && s.log[h].WaitReturned? && s.log[h].handoff :: s.log[h].rc == 0)
  {
    RunKeeps(ts, tr, i);
    assert Inv(ts[i][SlotOf(addr)]);
    assert Balanced(ts[i][SlotOf(addr)], addr);
  }

  /** Wake beats timeout: a marked thread returns 0 whatever its condition wait reports, an
      expiry included, and no other thread's mark is touched. */
  lemma WakeBeatsTimeout(ts: seq<Table>, tr: seq<TableStep>, i: nat, t: nat, addr: nat, rc: int)
    requires IsRun(ts, tr) && i < |tr| && tr[i] == On(SlotOf(addr), Resume(t, rc))
    requires t in MarkedOn(ts[i][SlotOf(addr)], addr)
    ensures var s, s' := ts[i][SlotOf(addr)], ts[i + 1][SlotOf(addr)];
      && s'.log == s.log + [WaitReturned(t, addr, true, 0)]
      && MarkedOn(s', addr) == MarkedOn(s, addr) - {t}
      && s'.queue == s.queue
  {
    MarkedAfterOther(ts[i][SlotOf(addr)], tr[i].act, addr);
  }

  lemma MarkStays(s: State, a: Action, t: nat, addr: nat)
    requires Inv(s) && Enabled(s, a) && t in MarkedOn(s, addr) && !(a.Resume? && a.tid == t)
    ensures t in MarkedOn(Step(s, a), addr)
  {
    if a.Wake? {
      WakeMoves(s, a.addr, a.all, addr);
    } else {
      MarkedAfterOther(s, a, addr);
    }
  }

  /** A mark is never lost: over every run a thread that has been marked stays marked, whatever
      stores, wakes, timeouts and other waits happen in between, until its own condition wait
      returns, and that wait returns 0 whatever status it then reports. */
  lemma {:induction false} MarksAreKept(ts: seq<Table>, tr: seq<TableStep>, i: nat, j: nat, t: nat, addr: nat)
    requires IsRun(ts, tr) && i <= j < |ts| && |ts[i]| == SLOTS && t in MarkedOn(ts[i][SlotOf(addr)], addr)
    requires forall h | i <= h < j :: !(tr[h].k == SlotOf(addr) && tr[h].act.Resume? && tr[h].act.tid == t)
    ensures |ts[j]| == SLOTS && t in MarkedOn(ts[j][SlotOf(addr)], addr)
    ensures j < |tr| && tr[j].k == SlotOf(addr) && tr[j].act.Resume? && tr[j].act.tid == t ==>
      |ts[j + 1]| == SLOTS &&
      ts[j + 1][SlotOf(addr)].log == ts[j][SlotOf(addr)].log + [WaitReturned(t, addr, true, 0)]
  {
    hide Inv, SlotOf;
    RunKeeps(ts, tr, j);
    if i < j {
      MarksAreKept(ts, tr, i, j - 1, t, addr);
      RunKeeps(ts, tr, j - 1);
      if tr[j - 1].k == SlotOf(addr) {
        MarkStays(ts[j - 1][SlotOf(addr)], tr[j - 1].act, t, addr);
      }
    }
    if j < |tr| && tr[j].k == SlotOf(addr) && tr[j].act.Resume? && tr[j].act.tid == t {
      WakeBeatsTimeout(ts, tr, j, t, addr, tr[j].act.rc);
    }
  }

  /** Over every run a wake returns exactly the number of threads it takes: all those of its
      address, or the one with the oldest latest link. */
  lemma WakesAreExact(ts: seq<Table>, tr: seq<TableStep>, i: nat, addr: nat, all: bool)
    requires IsRun(ts, tr) && i < |tr| && tr[i].act == Wake(addr, all)
    ensures |ts[i]| == SLOTS == |ts[i + 1]|
    ensures var s, s' := ts[i][SlotOf(addr)], ts[i + 1][SlotOf(addr)];
      var taken := WaitingOn(s, addr) - WaitingOn(s', addr);
      && s'.log == s.log + [WakeReturned(addr, |taken|)]
      && (if all then WaitingOn(s', addr) == {} else |taken| == if WaitingOn(s, addr) == {} then 0 else 1)
      && (all || forall t, u | t in taken && u in WaitingOn(s, addr) :: t in s.stamp && u in s.stamp && s.stamp[t] <= s.stamp[u])
  {
    RunKeeps(ts, tr, i);
    var s := ts[i][SlotOf(addr)];
    WakeIsExact(s, addr, all);
    if !all {
      forall t, u | t in WaitingOn(s, addr) - WaitingOn(ts[i + 1][SlotOf(addr)], addr) && u in WaitingOn(s, addr)
        ensures t in s.stamp && u in s.stamp && s.stamp[t] <= s.stamp[u]
      {
        WakeOneIsFifo(s, addr, t, u);
      }
    }
  }

  /** Over every run a wake leaves the threads, the marks and the list order of every other
      address as they were, in every slot, its own included. */
  lemma WakesNeverSteal(ts: seq<Table>, tr: seq<TableStep>, i: nat, addr: nat, all: bool, k: nat, other: nat)
    requires IsRun(ts, tr) && i < |tr| && tr[i].act == Wake(addr, all) && k < SLOTS && other != addr
    ensures |ts[i]| == SLOTS == |ts[i + 1]|
    ensures WaitingOn(ts[i + 1][k], other) == WaitingOn(ts[i][k], other)
    ensures MarkedOn(ts[i + 1][k], other) == MarkedOn(ts[i][k], other)
    ensures Only(ts[i + 1][k].queue, other) == Only(ts[i][k].queue, other)
  {
    RunKeeps(ts, tr, i);
    if k == SlotOf(addr) {
      NoStealing(ts[i][k], addr, all, other);
    }
  }

  /** A record is linked exactly while its own wait is parked unmarked, and then in the slot of
      its address: once a wait has returned, no list refers to its stack frame. */
  lemma NoDanglingRecord(ts: seq<Table>, tr: seq<TableStep>, i: nat, k: nat, e: Entry)
    requires IsRun(ts, tr) && i < |ts| && k < SLOTS
    ensures |ts[i]| == SLOTS
    ensures e in ts[i][k].queue <==> Waiting(ts[i][k], e.id) && ts[i][k].phase[e.id].addr == e.addr
    ensures e in ts[i][k].queue ==> k == SlotOf(e.addr) && forall j | 0 <= j < SLOTS && j != k :: e.id !in ts[i][j].phase
  {
    RunKeeps(ts, tr, i);
    assert Inv(ts[i][k]);
    if Waiting(ts[i][k], e.id) && ts[i][k].phase[e.id].addr == e.addr {
      assert Entry(e.id, e.addr) == e;
    }
  }
}
