/** What a wait on the wait table answers, told from the stores and calls of the run: when it
    returns, with what, and when it sleeps on. */
module WaitReturns {
  import opened WaitQueue
  import opened SlotProtocol
  import opened WaitTable
  import opened Wrappers

  /** The address and the value expected by a call of wait. */
  datatype Call = Call(addr: nat, expected: nat)

  /** The latest call of wait by `t` in the first `i` steps. */
  ghost function LatestCall(tr: seq<TableStep>, i: nat, t: nat): Option<Call>
    requires i <= |tr|
  {
    if i == 0 then None
    else if tr[i - 1].act.Enter? && tr[i - 1].act.tid == t then Some(Call(tr[i - 1].act.addr, tr[i - 1].act.expected))
    else LatestCall(tr, i - 1, t)
  }

  /** The value last stored at `addr` in the first `i` steps. */
  ghost function LatestStore(tr: seq<TableStep>, i: nat, addr: nat, initial: nat): nat
    requires i <= |tr|
  {
    if i == 0 then initial
    else if tr[i - 1].act.Store? && tr[i - 1].act.addr == addr then tr[i - 1].act.value
    else LatestStore(tr, i - 1, addr, initial)
  }

  /** The call a thread inside a wait is making. */
  function CallOf(p: Phase): Call {
    Call(p.addr, p.expected)
  }

  lemma WordStep(s: State, a: Action, addr: nat)
    requires Enabled(s, a)
    ensures Word(Step(s, a), addr) == if a.Store? && a.addr == addr then a.value else Word(s, addr)
  {
  }

  /** The word holds what was last stored to it, and nothing but a store changes it. */
  lemma {:induction false} WordIsLatestStore(ts: seq<Table>, tr: seq<TableStep>, i: nat, addr: nat)
    requires IsRun(ts, tr) && i < |ts|
    ensures |ts[0]| == SLOTS == |ts[i]|
    ensures Word(ts[i][SlotOf(addr)], addr) == LatestStore(tr, i, addr, Word(ts[0][SlotOf(addr)], addr))
  {
    hide SlotOf, Step, Enabled, Word;
    RunKeeps(ts, tr, i);
    if i > 0 {
      WordIsLatestStore(ts, tr, i - 1, addr);
      RunKeeps(ts, tr, i - 1);
      var k := SlotOf(addr);
      assert CanStep(ts[i - 1], tr[i - 1]);
      if tr[i - 1].k == k {
        WordStep(ts[i - 1][k], tr[i - 1].act, addr);
      }
    }
  }

  lemma CallStep(s: State, a: Action, t: nat)
    requires Enabled(s, a) && t in Step(s, a).phase
    ensures a.Enter? && a.tid == t ==> CallOf(Step(s, a).phase[t]) == Call(a.addr, a.expected)
    ensures !(a.Enter? && a.tid == t) ==> t in s.phase && CallOf(Step(s, a).phase[t]) == CallOf(s.phase[t])
  {
  }

  /** A thread inside a wait is inside its latest call. */
  lemma {:induction false} PhaseIsLatestCall(ts: seq<Table>, tr: seq<TableStep>, i: nat, k: nat, t: nat)
    requires IsRun(ts, tr) && i < |ts| && k < SLOTS && |ts[i]| == SLOTS && t in ts[i][k].phase
    ensures LatestCall(tr, i, t) == Some(CallOf(ts[i][k].phase[t]))
  {
    hide SlotOf, Step, Enabled;
    if i == 0 {
      NobodyWaits(ts, tr, k);
    } else {
      RunKeeps(ts, tr, i - 1);
      var tab, st := ts[i - 1], tr[i - 1];
      assert CanStep(tab, st) && ts[i] == tab[st.k := Step(tab[st.k], st.act)];
      if st.k == k {
        CallStep(tab[k], st.act, t);
      }
      if !(st.act.Enter? && st.act.tid == t) {
        PhaseIsLatestCall(ts, tr, i - 1, k, t);
      } else {
        EnterElsewhere(tab, st, k);
      }
    }
  }

  lemma NobodyWaits(ts: seq<Table>, tr: seq<TableStep>, k: nat)
    requires IsRun(ts, tr) && k < SLOTS
    ensures ts[0][k].phase == map[]
  {
  }

  lemma EnterElsewhere(tab: Table, st: TableStep, k: nat)
    requires CanStep(tab, st) && st.act.Enter? && k < SLOTS
    ensures st.act.tid !in tab[k].phase
  {
  }

  // ---- one step of a wait ----

  /** Every way a step can make a wait return, and what each step of a wait does otherwise. */
  lemma ReturnsOnly(s: State, a: Action, t: nat, addr: nat, handoff: bool, rc: int)
    requires Enabled(s, a) && Step(s, a).log == s.log + [WaitReturned(t, addr, handoff, rc)]
    ensures t in s.phase && s.phase[t].addr == addr && t !in Step(s, a).phase
    ensures !handoff ==>
      || (a == Check(t) && rc == 0 && Word(s, addr) != s.phase[t].expected)
      || (a == Resume(t, rc) && rc != 0 && t !in MarkedOn(s, addr))
    ensures handoff ==> a.Resume? && a.tid == t && rc == 0 && t in MarkedOn(s, addr)
  {
    var last := (s.log + [WaitReturned(t, addr, handoff, rc)])[|s.log|];
    assert last == WaitReturned(t, addr, handoff, rc);
    assert Step(s, a).log[|s.log|] == last;
  }

  /** The check reads the word: an equal word keeps the wait going towards its sleep, and any
      other ends it. */
  lemma CheckDecides(s: State, t: nat)
    requires Enabled(s, Check(t))
    ensures var s', p := Step(s, Check(t)), s.phase[t];
      if Word(s, p.addr) == p.expected then Enabled(s', Park(t)) && s'.log == s.log && s'.holder == s.holder && s'.queue == s.queue
      else s'.log == s.log + [WaitReturned(t, p.addr, false, 0)] && t !in s'.phase && s'.holder == {} && s'.queue == s.queue
  {
  }

  /** Sleeping links the record last, unmarked, and lets the mutex go. */
  lemma ParkLinksLast(s: State, t: nat)
    requires Enabled(s, Park(t))
    ensures var s', p := Step(s, Park(t)), s.phase[t];
      && Waiting(s', t) && CallOf(s'.phase[t]) == CallOf(p) && s'.queue == s.queue + [Entry(t, p.addr)]
      && s'.holder == {} && s'.log == s.log
  {
  }

  /** A return of the condition wait that brings no mark unlinks the record; without an error it
      returns nothing and goes back to the check with the mutex held, otherwise the wait returns
      the error. A mark ends the wait with 0, whatever the condition wait says. */
  lemma ResumeDecides(s: State, t: nat, rc: int)
    requires Enabled(s, Resume(t, rc))
    ensures var s', p := Step(s, Resume(t, rc)), s.phase[t];
      if p.woken then s'.log == s.log + [WaitReturned(t, p.addr, true, 0)] && t !in s'.phase && s'.holder == {} && s'.queue == s.queue
      else if rc != 0 then s'.log == s.log + [WaitReturned(t, p.addr, false, rc)] && t !in s'.phase && s'.holder == {} && s'.queue == Remove(s.queue, t)
      else s'.log == s.log && Enabled(s', Check(t)) && CallOf(s'.phase[t]) == CallOf(p) && s'.holder == {t} && s'.queue == Remove(s.queue, t)
  {
  }

  // ---- theorems over runs ----

  /** A wait returns without a handoff in two ways only: with 0 when its check finds the word,
      as last stored, different from the value its caller expected; or with the error its
      condition wait reports while no wake has marked it. A handoff returns 0 to a marked thread. */
  lemma WaitReturnsOnlyWhen(ts: seq<Table>, tr: seq<TableStep>, i: nat, t: nat, addr: nat, handoff: bool, rc: int)
    requires IsRun(ts, tr) && i < |tr| && |ts[i]| == SLOTS == |ts[i + 1]| && tr[i].k < SLOTS
    requires ts[i + 1][tr[i].k].log == ts[i][tr[i].k].log + [WaitReturned(t, addr, handoff, rc)]
    ensures tr[i].k == SlotOf(addr) && LatestCall(tr, i, t).Some? && LatestCall(tr, i, t).value.addr == addr
    ensures |ts[0]| == SLOTS
    ensures !handoff ==>
      || (tr[i].act == Check(t) && rc == 0 &&
          LatestStore(tr, i, addr, Word(ts[0][SlotOf(addr)], addr)) != LatestCall(tr, i, t).value.expected)
      || (tr[i].act == Resume(t, rc) && rc != 0 && t !in MarkedOn(ts[i][SlotOf(addr)], addr))
    ensures handoff ==> tr[i].act.Resume? && tr[i].act.tid == t && rc == 0 && t in MarkedOn(ts[i][SlotOf(addr)], addr)
  {
    hide SlotOf, Step, Enabled, Word, Inv;
    RunKeeps(ts, tr, i);
    var k := tr[i].k;
    assert CanStep(ts[i], tr[i]) && ts[i + 1] == ts[i][k := Step(ts[i][k], tr[i].act)];
    ReturnsOnly(ts[i][k], tr[i].act, t, addr, handoff, rc);
    PhaseIsLatestCall(ts, tr, i, k, t);
    WordIsLatestStore(ts, tr, i, addr);
  }

  /** And in these cases it does: the next step of a thread that holds the mutex with its call
      unchecked returns 0 if the word differs from what it expects, and otherwise makes it ready
      to sleep; the sleep links its record last; a spurious return of the condition wait makes it
      check again; a failing one makes the wait return that failure. */
  lemma WaitGoesOn(ts: seq<Table>, tr: seq<TableStep>, i: nat, t: nat)
    requires IsRun(ts, tr) && i < |tr|
    requires tr[i].act == Check(t) || tr[i].act == Park(t) || (tr[i].act.Resume? && tr[i].act.tid == t)
    ensures |ts[0]| == SLOTS == |ts[i]| == |ts[i + 1]| && LatestCall(tr, i, t).Some?
    ensures var c := LatestCall(tr, i, t).value;
      var s, s' := ts[i][SlotOf(c.addr)], ts[i + 1][SlotOf(c.addr)];
      && tr[i].k == SlotOf(c.addr)
      && (tr[i].act == Check(t) ==>
            if LatestStore(tr, i, c.addr, Word(ts[0][SlotOf(c.addr)], c.addr)) == c.expected
            then s'.log == s.log && Enabled(s', Park(t))
            else s'.log == s.log + [WaitReturned(t, c.addr, false, 0)] && t !in s'.phase)
      && (tr[i].act == Park(t) ==>
            Waiting(s', t) && s'.queue == s.queue + [Entry(t, c.addr)] && s'.holder == {} && s'.log == s.log)
      && (tr[i].act.Resume? && t !in MarkedOn(s, c.addr) ==>
            && s'.queue == Remove(s.queue, t)
            && (if tr[i].act.rc == 0 then s'.log == s.log && Enabled(s', Check(t))
                else s'.log == s.log + [WaitReturned(t, c.addr, false, tr[i].act.rc)] && t !in s'.phase))
  {
    hide SlotOf, Step, Word, Inv;
    RunKeeps(ts, tr, i);
    var k, a := tr[i].k, tr[i].act;
    assert CanStep(ts[i], tr[i]) && ts[i + 1] == ts[i][k := Step(ts[i][k], a)];
    PhaseIsLatestCall(ts, tr, i, k, t);
    var s := ts[i][k];
    WordIsLatestStore(ts, tr, i, s.phase[t].addr);
    if a.Check? {
      CheckDecides(s, t);
    } else if a.Park? {
      ParkLinksLast(s, t);
    } else {
      ResumeDecides(s, t, a.rc);
    }
  }

  /** Entering takes the mutex and returns nothing yet. */
  lemma EnterLocks(s: State, t: nat, addr: nat, e: nat)
    requires Enabled(s, Enter(t, addr, e))
    ensures var s' := Step(s, Enter(t, addr, e));
      Enabled(s', Check(t)) && CallOf(s'.phase[t]) == Call(addr, e) && s'.holder == {t} && s'.log == s.log && s'.queue == s.queue
  {
  }

  // ---- a wait that sleeps and is woken ----

  lemma Extend(ts: seq<Table>, tr: seq<TableStep>, st: TableStep) returns (ts': seq<Table>, tr': seq<TableStep>)
    requires IsRun(ts, tr) && CanStep(ts[|tr|], st)
    ensures IsRun(ts', tr') && tr' == tr + [st]
    ensures |ts'| == |tr'| + 1 && ts'[|tr'|] == ts[|tr|][st.k := Step(ts[|tr|][st.k], st.act)]
  {
    hide SlotOf, Initial, Enabled;
    ts', tr' := ts + [ts[|tr|][st.k := Step(ts[|tr|][st.k], st.act)]], tr + [st];
  }

  /** Thread 1 waits for the word at 8 to stop being 5, sleeps, is woken by a wake_one that
      counts it, and returns 0 by handoff. */
  lemma SleepsAndIsWoken() returns (ts: seq<Table>, tr: seq<TableStep>)
    ensures var k := SlotOf(8);
      IsRun(ts, tr) && tr == [On(k, Enter(1, 8, 5)), On(k, Check(1)), On(k, Park(1)), On(k, Wake(8, false)), On(k, Resume(1, 0))]
    ensures |ts[5]| == SLOTS && ts[5][SlotOf(8)].log == [WakeReturned(8, 1), WaitReturned(1, 8, true, 0)]
  {
    hide SlotOf, IsRun, Placed, Inv;
    var k := SlotOf(8);
    var s0 := State(map[8 := 5], [], {}, map[], map[], 0, []);
    var s1 := Step(s0, Enter(1, 8, 5));
    var s2 := Step(s1, Check(1));
    var s3 := Step(s2, Park(1));
    assert s3.queue == [Entry(1, 8)];
    var s4 := Step(s3, Wake(8, false));
    assert Marked(s3.queue, 8, false) == [Entry(1, 8)];
    assert Ids([Entry(1, 8)]) == {1};
    var s5 := Step(s4, Resume(1, 0));
    var t0 := seq(SLOTS, _ => s0);
    ts, tr := [t0], [];
    assert IsRun(ts, tr) by { FreshRun(s0); }
    ts, tr := Extend(ts, tr, On(k, Enter(1, 8, 5)));
    ts, tr := Extend(ts, tr, On(k, Check(1)));
    ts, tr := Extend(ts, tr, On(k, Park(1)));
    ts, tr := Extend(ts, tr, On(k, Wake(8, false)));
    ts, tr := Extend(ts, tr, On(k, Resume(1, 0)));
  }

  lemma FreshRun(s: State)
    requires Initial(s)
    ensures IsRun([seq(SLOTS, _ => s)], [])
  {
  }
}
