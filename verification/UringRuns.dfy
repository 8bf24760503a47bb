/** What every run of the io_uring backend keeps. */
module UringRuns {
  import opened PollTypes
  import opened Uring

  /** Submissions in `q` that carry `ud`. */
  ghost function Count(q: seq<Sqe>, ud: nat): nat {
    if q == [] then 0 else Count(q[..|q| - 1], ud) + if UserData(q[|q| - 1]) == ud then 1 else 0
  }

  /** Completions in `q` that carry `ud`. */
  ghost function CountDone(q: seq<Cqe>, ud: nat): nat {
    if q == [] then 0 else (if q[0].ud == ud then 1 else 0) + CountDone(q[1..], ud)
  }

  /** Requests under `ud` that are staged, in the kernel, or completed and not yet drained. */
  ghost function Out(s: State, ud: nat): nat {
    Count(s.sq, ud) + Count(s.kernel, ud) + CountDone(s.cq, ud)
  }

  ghost predicate Armed(r: Reg) {
    r.fd >= 0 && r.ud != 0
  }

  /** `ud` is the sequence number of some live, armed row. */
  ghost predicate LiveUd(s: State, ud: nat) {
    exists i :: 0 <= i < |s.table| && Armed(s.table[i]) && s.table[i].ud == ud
  }

  // ---- the invariant ----

  ghost predicate NumbersOk(s: State) {
    && FIRST_SEQ <= s.nextSeq <= TIMEOUT
    && (forall ud :: ud in s.issued <==> FIRST_SEQ <= ud < s.nextSeq)
    && (forall ud | ud in s.issued :: s.issued[ud].ud == ud && s.issued[ud].fd >= 0)
  }

  ghost predicate OutstandingOk(s: State) {
    && (forall ud {:trigger Out(s, ud)} | Out(s, ud) > 0 :: ud == 0 || ud == WAKE || ud == TIMEOUT || ud in s.issued)
    && (forall ud | ud in s.issued :: Out(s, ud) <= 1)
    && Out(s, WAKE) == if s.wakeArmed then 1 else 0
  }

  /** Every live row with a nonzero sequence number has exactly one outstanding poll, issued
      for exactly this row, and shares the number with no other row. */
  ghost predicate RowsOk(s: State) {
    && (forall i | 0 <= i < |s.table| && Armed(s.table[i]) ::
          s.table[i].ud in s.issued && s.issued[s.table[i].ud] == s.table[i] && Out(s, s.table[i].ud) == 1)
    && (forall i, j | 0 <= i < j < |s.table| && Armed(s.table[i]) && Armed(s.table[j]) :: s.table[i].ud != s.table[j].ud)
  }

  /** Every event delivered under a nonzero number carries the descriptor and token that number
      was issued for, and that number is spent. */
  ghost predicate DeliveriesOk(s: State) {
    && (forall k | 0 <= k < |s.delivered| && s.delivered[k].ud != 0 ::
          var d := s.delivered[k];
          && d.ud in s.issued && d.event.fd == s.issued[d.ud].fd && d.event.token == s.issued[d.ud].token
          && Out(s, d.ud) == 0)
    && (forall k, l | 0 <= k < l < |s.delivered| && s.delivered[k].ud != 0 :: s.delivered[k].ud != s.delivered[l].ud)
  }

  /** Every caller's poll, staged or in the kernel, watches the descriptor and the interests its
      number was issued for. */
  ghost predicate PollsOk(s: State) {
    forall e | (e in s.sq || e in s.kernel) && e.PollAdd? && e != WAKE_POLL ::
      e.ud in s.issued && e == AddFor(s.issued[e.ud])
  }

  ghost predicate WakeOk(s: State) {
    CountDone(s.cq, WAKE) > 0 ==> s.counter > 0
  }

  ghost function LiveRows(table: seq<Reg>): set<nat> {
    set i | 0 <= i < |table| && table[i].fd >= 0
  }

  ghost predicate TableOk(s: State) {
    && s.table != [] && s.count == |LiveRows(s.table)|
    && (forall i | 0 <= i < |s.table| :: s.table[i].fd >= -1)
  }

  ghost predicate Inv(s: State) {
    && NumbersOk(s) && OutstandingOk(s) && RowsOk(s) && DeliveriesOk(s) && PollsOk(s) && WakeOk(s) && TableOk(s)
  }

  // ---- what the queue moves do to the outstanding requests ----

  lemma CountAppend(q: seq<Sqe>, e: Sqe, ud: nat)
    ensures Count(q + [e], ud) == Count(q, ud) + if UserData(e) == ud then 1 else 0
  {
    assert (q + [e])[..|q|] == q;
  }

  lemma {:induction false} CountConcat(p: seq<Sqe>, q: seq<Sqe>, ud: nat)
    ensures Count(p + q, ud) == Count(p, ud) + Count(q, ud)
  {
    if q == [] {
      assert p + q == p;
    } else {
      var q0 := q[..|q| - 1];
      CountConcat(p, q0, ud);
      assert (p + q)[..|p + q| - 1] == p + q0;
    }
  }

  lemma {:induction false} CountDoneAppend(q: seq<Cqe>, c: Cqe, ud: nat)
    ensures CountDone(q + [c], ud) == CountDone(q, ud) + if c.ud == ud then 1 else 0
  {
    if q != [] {
      CountDoneAppend(q[1..], c, ud);
      assert (q + [c])[1..] == q[1..] + [c];
    }
  }

  /** A move that neither loses nor invents a request and leaves table and history alone. */
  ghost predicate Shuffled(s: State, s': State) {
    && s' == s.(sq := s'.sq, kernel := s'.kernel, cq := s'.cq)
    && (forall ud :: Out(s', ud) == Out(s, ud))
    && (forall e | e in s'.sq || e in s'.kernel :: e in s.sq || e in s.kernel)
    && (CountDone(s'.cq, WAKE) > 0 ==> CountDone(s.cq, WAKE) > 0 || s.counter > 0)
  }

  lemma ShuffleKeeps(s: State, s': State)
    requires Inv(s) && Shuffled(s, s')
    ensures Inv(s')
  {
  }

  lemma SubmitShuffles(s: State, minComplete: nat, e: Enter)
    ensures Shuffled(s, Submit(s, minComplete, e).0)
  {
    var s' := Submit(s, minComplete, e).0;
    if s' != s {
      var k := if e.take <= |s.sq| then e.take else |s.sq|;
      assert s.sq == s.sq[..k] + s.sq[k..];
      forall ud ensures Out(s', ud) == Out(s, ud) {
        CountConcat(s.sq[..k], s.sq[k..], ud);
        CountConcat(s.kernel, s.sq[..k], ud);
      }
    }
  }

  lemma CompleteShuffles(s: State, i: nat, res: Res)
    requires Enabled(s, Complete(i, res))
    ensures Shuffled(s, Step(s, Complete(i, res)))
  {
    var s' := Step(s, Complete(i, res));
    var e := s.kernel[i];
    assert s.kernel == (s.kernel[..i] + [e]) + s.kernel[i + 1..];
    forall ud ensures Out(s', ud) == Out(s, ud) {
      CountDoneAppend(s.cq, Cqe(UserData(e), res), ud);
      CountConcat(s.kernel[..i] + [e], s.kernel[i + 1..], ud);
      CountAppend(s.kernel[..i], e, ud);
      CountConcat(s.kernel[..i], s.kernel[i + 1..], ud);
    }
    CountDoneAppend(s.cq, Cqe(UserData(e), res), WAKE);
  }

  // ---- fresh sequence numbers ----

  /** `r` has been issued and its poll has not been staged. */
  ghost predicate Unused(s: State, r: Reg) {
    && r.ud in s.issued && s.issued[r.ud] == r && Out(s, r.ud) == 0
    && (forall k | 0 <= k < |s.delivered| :: s.delivered[k].ud != r.ud)
    && !LiveUd(s, r.ud)
  }

  /** `r` has been issued, its one poll is outstanding, and no row holds it yet. */
  ghost predicate InFlight(s: State, r: Reg) {
    && r.ud in s.issued && s.issued[r.ud] == r && Out(s, r.ud) == 1
    && !LiveUd(s, r.ud)
  }

  lemma StageCounts(s: State, e: Sqe)
    ensures forall ud :: Out(Stage(s, e), ud) == Out(s, ud) + if UserData(e) == ud then 1 else 0
  {
    forall ud ensures Out(Stage(s, e), ud) == Out(s, ud) + if UserData(e) == ud then 1 else 0 {
      CountAppend(s.sq, e, ud);
    }
  }

  lemma IssueKeeps(s: State, r: Reg)
    requires Inv(s) && r.ud == s.nextSeq < TIMEOUT && r.fd >= 0
    ensures Inv(Issue(s, r)) && Unused(Issue(s, r), r)
  {
    var s' := Issue(s, r);
    assert forall ud :: Out(s', ud) == Out(s, ud);
    assert r.ud !in s.issued && Out(s, r.ud) == 0;
  }

  lemma StageInternalKeeps(s: State, e: Sqe)
    requires Inv(s) && !e.PollAdd?
    ensures Inv(Stage(s, e))
  {
    StageCounts(s, e);
    var s' := Stage(s, e);
    assert UserData(e) == 0 || UserData(e) == TIMEOUT;
    assert Out(s', WAKE) == Out(s, WAKE);
    assert forall ud | ud in s.issued :: Out(s', ud) == Out(s, ud);
    assert PollsOk(s');
  }

  lemma StageInternalKeepsUnused(s: State, e: Sqe, r: Reg)
    requires Inv(s) && !e.PollAdd? && Unused(s, r)
    ensures Unused(Stage(s, e), r)
  {
    StageCounts(s, e);
    assert !LiveUd(s, r.ud);
  }

  lemma StageWakeKeeps(s: State)
    requires Inv(s) && !s.wakeArmed
    ensures Inv(Stage(s, WAKE_POLL).(wakeArmed := true))
  {
    StageCounts(s, WAKE_POLL);
    var s' := Stage(s, WAKE_POLL).(wakeArmed := true);
    assert forall ud :: Out(s', ud) == Out(Stage(s, WAKE_POLL), ud);
    assert forall ud | ud in s.issued :: Out(s', ud) == Out(s, ud);
    assert PollsOk(s');
  }

  lemma NotLive(s: State, ud: nat)
    requires !LiveUd(s, ud)
    ensures forall i | 0 <= i < |s.table| && Armed(s.table[i]) :: s.table[i].ud != ud
  {
  }

  lemma StageFreshKeeps(s: State, r: Reg)
    requires Inv(s) && Unused(s, r)
    ensures Inv(Stage(s, AddFor(r))) && InFlight(Stage(s, AddFor(r)), r)
  {
    StageCounts(s, AddFor(r));
    NotLive(s, r.ud);
  }

  // ---- row changes ----

  lemma SetRowKeeps(s: State, slot: nat, r: Reg)
    requires Inv(s) && InFlight(s, r) && slot < |s.table|
    ensures Inv(s.(table := s.table[slot := r], count := |LiveRows(s.table[slot := r])|))
  {
    var s' := s.(table := s.table[slot := r], count := |LiveRows(s.table[slot := r])|);
    assert forall ud :: Out(s', ud) == Out(s, ud);
    NotLive(s, r.ud);
  }

  lemma LiveRowsUpdate(table: seq<Reg>, i: nat, r: Reg)
    requires i < |table|
    ensures var n := |LiveRows(table)| - (if table[i].fd >= 0 then 1 else 0) + (if r.fd >= 0 then 1 else 0);
      |LiveRows(table[i := r])| == n
    ensures table[i].fd >= 0 ==> |LiveRows(table)| > 0
  {
    var others := LiveRows(table) - {i};
    assert LiveRows(table) == others + if table[i].fd >= 0 then {i} else {};
    assert LiveRows(table[i := r]) == others + if r.fd >= 0 then {i} else {};
  }

  lemma RetireKeeps(s: State, i: nat)
    requires Inv(s) && i < |s.table| && s.table[i].fd >= 0
    ensures Inv(Retire(s, i))
  {
    LiveRowsUpdate(s.table, i, s.table[i].(fd := -1));
    assert forall ud :: Out(Retire(s, i), ud) == Out(s, ud);
  }

  // ---- draining one completion ----

  lemma PopCounts(s: State, s': State)
    requires s.cq != [] && s'.sq == s.sq && s'.kernel == s.kernel && s'.cq == s.cq[1..]
    ensures forall ud :: Out(s, ud) == Out(s', ud) + if s.cq[0].ud == ud then 1 else 0
    ensures CountDone(s'.cq, WAKE) <= CountDone(s.cq, WAKE)
  {
  }

  lemma DrainTimeoutKeeps(s: State, cap: nat)
    requires Inv(s) && s.cq != [] && s.cq[0].ud == TIMEOUT
    ensures Inv(DrainOne(s, cap))
  {
    var s' := DrainOne(s, cap);
    PopCounts(s, s');
    assert Out(s', WAKE) == Out(s, WAKE);
    assert forall ud | ud in s.issued :: Out(s', ud) == Out(s, ud);
  }

  lemma DrainWakeKeeps(s: State, cap: nat)
    requires Inv(s) && s.cq != [] && s.cq[0].ud == WAKE
    ensures Inv(DrainOne(s, cap))
    ensures s.counter > 0 && s.wakeArmed
  {
    var s' := DrainOne(s, cap);
    PopCounts(s, s');
    assert Out(s, WAKE) == 1 == Out(s', WAKE) + 1;
    assert forall ud | ud in s.issued :: Out(s', ud) == Out(s, ud);
  }

  lemma DrainIgnoredKeeps(s: State, cap: nat)
    requires Inv(s) && s.cq != [] && s.cq[0].ud != WAKE && s.cq[0].ud != TIMEOUT
    requires FindFrom(s.table, s.cq[0].ud, 0) == |s.table|
    ensures Inv(DrainOne(s, cap))
  {
    var s' := DrainOne(s, cap);
    PopCounts(s, s');
    assert Out(s', WAKE) == Out(s, WAKE);
    forall i | 0 <= i < |s.table| && Armed(s.table[i]) ensures Out(s', s.table[i].ud) == Out(s, s.table[i].ud) {
      assert s.table[i].ud != s.cq[0].ud;
    }
  }

  /** Taking the completion of row `i` and leaving that row without a poll. */
  ghost predicate Spent(s: State, s': State, i: nat) {
    && s.cq != [] && i < |s.table| && s.table[i].fd >= 0 && s.table[i].ud == s.cq[0].ud
    && s' == s.(cq := s.cq[1..], table := s'.table, count := s'.count)
    && |s'.table| == |s.table| && !Armed(s'.table[i]) && s'.table[i].fd >= -1
    && (forall j | 0 <= j < |s.table| && j != i :: s'.table[j] == s.table[j])
    && s'.count == |LiveRows(s'.table)|
  }

  lemma SpentKeeps(s: State, s': State, i: nat)
    requires Inv(s) && Spent(s, s', i) && s.cq[0].ud != WAKE && s.cq[0].ud != TIMEOUT
    ensures Inv(s')
    ensures s.cq[0].ud != 0 ==> Out(s', s.cq[0].ud) == 0
  {
    PopCounts(s, s');
    assert Out(s', WAKE) == Out(s, WAKE);
    assert s.cq[0].ud != 0 ==> Armed(s.table[i]);
    forall j | 0 <= j < |s.table| && Armed(s'.table[j]) ensures Out(s', s.table[j].ud) == Out(s, s.table[j].ud) {
      assert j != i && s'.table[j] == s.table[j];
    }
  }

  lemma DrainFailedKeeps(s: State, cap: nat)
    requires Inv(s) && s.cq != [] && s.cq[0].ud != WAKE && s.cq[0].ud != TIMEOUT && s.cq[0].res.Failed?
    requires FindFrom(s.table, s.cq[0].ud, 0) < |s.table|
    ensures Inv(DrainOne(s, cap))
  {
    var i := FindFrom(s.table, s.cq[0].ud, 0);
    LiveRowsUpdate(s.table, i, s.table[i].(fd := -1));
    SpentKeeps(s, DrainOne(s, cap), i);
  }

  lemma DrainReadyKeeps(s: State, cap: nat)
    requires Inv(s) && s.cq != [] && s.cq[0].ud != WAKE && s.cq[0].ud != TIMEOUT && s.cq[0].res.Ready?
    requires FindFrom(s.table, s.cq[0].ud, 0) < |s.table|
    ensures Inv(DrainOne(s, cap))
  {
    var i := FindFrom(s.table, s.cq[0].ud, 0);
    var s1 := s.(cq := s.cq[1..], table := s.table[i := s.table[i].(ud := 0)]);
    LiveRowsUpdate(s.table, i, s.table[i].(ud := 0));
    SpentKeeps(s, s1, i);
    if |s.out| < cap {
      DeliveryKeeps(s, s1, DrainOne(s, cap), i);
    }
  }

  /** The buffer and the delivery history play no part in the rest of the invariant. */
  lemma LoggedKeeps(s1: State, s': State)
    requires Inv(s1) && s' == s1.(out := s'.out, delivered := s'.delivered) && DeliveriesOk(s')
    ensures Inv(s')
  {
    assert forall ud :: Out(s', ud) == Out(s1, ud);
  }

  /** A number with an outstanding poll has not been delivered. */
  lemma NotYetDelivered(s: State, ud: nat)
    requires DeliveriesOk(s) && ud != 0 && Out(s, ud) > 0
    ensures forall k | 0 <= k < |s.delivered| :: s.delivered[k].ud != ud
  {
  }

  lemma DeliveryKeeps(s: State, s1: State, s': State, i: nat)
    requires Inv(s) && Inv(s1) && Spent(s, s1, i)
    requires s.cq[0].ud != 0 ==> Out(s1, s.cq[0].ud) == 0
    requires |s'.delivered| == |s.delivered| + 1 && s'.delivered[..|s.delivered|] == s.delivered
    requires var d := s'.delivered[|s.delivered|];
      d.ud == s.cq[0].ud && d.event.fd == s.table[i].fd && d.event.token == s.table[i].token
    requires s' == s1.(out := s'.out, delivered := s'.delivered)
    ensures Inv(s')
  {
    hide PollsOk, WakeOk, TableOk, OutstandingOk, NumbersOk;
    var n := |s.delivered|;
    var ud := s.cq[0].ud;
    assert forall k | 0 <= k < n :: s'.delivered[k] == s.delivered[k] == s1.delivered[k];
    if ud != 0 {
      assert Armed(s.table[i]);
      NotYetDelivered(s, ud);
    }
    assert DeliveriesOk(s') by {
      assert forall x :: Out(s', x) == Out(s1, x);
    }
    LoggedKeeps(s1, s');
  }

  lemma DrainOneKeeps(s: State, cap: nat)
    requires Inv(s) && s.cq != []
    ensures Inv(DrainOne(s, cap))
  {
    hide Inv, Unused, InFlight;
    if s.cq[0].ud == TIMEOUT {
      DrainTimeoutKeeps(s, cap);
    } else if s.cq[0].ud == WAKE {
      DrainWakeKeeps(s, cap);
    } else if FindFrom(s.table, s.cq[0].ud, 0) == |s.table| {
      DrainIgnoredKeeps(s, cap);
    } else {
      if s.cq[0].res.Failed? { DrainFailedKeeps(s, cap); } else { DrainReadyKeeps(s, cap); }
    }
  }

  lemma {:induction false} DrainAllKeeps(s: State, cap: nat)
    requires Inv(s)
    ensures Inv(DrainAll(s, cap))
    decreases |s.cq|
  {
    hide Inv, Unused, InFlight;
    if s.cq != [] {
      DrainOneKeeps(s, cap);
      DrainAllKeeps(DrainOne(s, cap), cap);
    }
  }

  // ---- the entry points ----

  lemma {:induction false} ProbeReaches(table: seq<Reg>, fd: int, h: nat, n: nat, j: nat)
    requires h < |table| && j < |table| && table[j].fd == -1
    requires (if j >= h then j - h else j + |table| - h) <= n
    ensures var slot := ProbeFrom(table, fd, h, n); table[slot].fd == -1 || table[slot].fd == fd
    decreases n
  {
    if n > 0 && table[h].fd != -1 && table[h].fd != fd {
      ProbeReaches(table, fd, if h + 1 == |table| then 0 else h + 1, n - 1, j);
    }
  }

  lemma SomeRowEmpty(table: seq<Reg>) returns (j: nat)
    requires |LiveRows(table)| < |table| && forall i | 0 <= i < |table| :: table[i].fd >= -1
    ensures j < |table| && table[j].fd == -1
  {
    AllLiveSize(table);
    j :| 0 <= j < |table| && table[j].fd < 0;
  }

  lemma {:induction false} AllLiveSize(table: seq<Reg>)
    ensures (forall i | 0 <= i < |table| :: table[i].fd >= 0) ==> |LiveRows(table)| == |table|
  {
    if table != [] && forall i | 0 <= i < |table| :: table[i].fd >= 0 {
      var t := table[..|table| - 1];
      AllLiveSize(t);
      assert LiveRows(table) == LiveRows(t) + {|table| - 1};
    }
  }

  lemma ProbeFinds(s: State, fd: int)
    requires TableOk(s) && s.count < |s.table| && fd >= 0
    ensures var r := s.table[Probe(s.table, fd)]; r.fd == -1 || r.fd == fd
  {
    var j := SomeRowEmpty(s.table);
    ProbeReaches(s.table, fd, Hash(fd, |s.table|), |s.table|, j);
  }

  lemma InFlightShuffles(s: State, s': State, r: Reg)
    requires InFlight(s, r) && Shuffled(s, s')
    ensures InFlight(s', r)
  {
    NotLive(s, r.ud);
  }

  lemma UnusedShuffles(s: State, s': State, r: Reg)
    requires Unused(s, r) && Shuffled(s, s')
    ensures Unused(s', r)
  {
    NotLive(s, r.ud);
  }

  /** Stage the poll of a fresh registration and submit: the poll is in flight. */
  lemma StageAndSubmit(s: State, r: Reg, e: Enter)
    requires Inv(s) && Unused(s, r)
    ensures var s' := Submit(Stage(s, AddFor(r)), 0, e).0;
      Inv(s') && InFlight(s', r) && s'.table == s.table && s'.count == s.count && s'.nextSeq == s.nextSeq
  {
    hide Inv, Unused, InFlight;
    StageFreshKeeps(s, r);
    var s1 := Stage(s, AddFor(r));
    SubmitShuffles(s1, 0, e);
    ShuffleKeeps(s1, Submit(s1, 0, e).0);
    InFlightShuffles(s1, Submit(s1, 0, e).0, r);
  }

  lemma SetLiveRowKeeps(s: State, slot: nat, r: Reg)
    requires Inv(s) && InFlight(s, r) && slot < |s.table|
    ensures Inv(s.(table := s.table[slot := r], count := if s.table[slot].fd >= 0 then s.count else s.count + 1))
  {
    LiveRowsUpdate(s.table, slot, r);
    SetRowKeeps(s, slot, r);
  }

  lemma OverwriteRowKeeps(s: State, slot: nat, r: Reg)
    requires Inv(s) && InFlight(s, r) && slot < |s.table| && s.table[slot].fd >= 0
    ensures Inv(s.(table := s.table[slot := r]))
  {
    SetLiveRowKeeps(s, slot, r);
    assert s.(table := s.table[slot := r], count := s.count) == s.(table := s.table[slot := r]);
  }

  lemma StageRemoveKeeps(s: State, target: nat, r: Reg)
    requires Inv(s) && Unused(s, r)
    ensures Inv(Stage(s, PollRemove(target))) && Unused(Stage(s, PollRemove(target)), r)
  {
    hide Inv, Unused, InFlight;
    StageInternalKeeps(s, PollRemove(target));
    StageInternalKeepsUnused(s, PollRemove(target), r);
  }

  lemma ReplaceKeeps(s: State, slot: nat, r: Reg, e: Enter)
    requires Inv(s) && Unused(s, r) && slot < |s.table| && s.table[slot].fd == r.fd >= 0
    ensures Inv(Replace(s, slot, r, e).0)
  {
    hide Inv, Unused, InFlight;
    var s1 := Stage(s, PollRemove(s.table[slot].ud));
    StageRemoveKeeps(s, s.table[slot].ud, r);
    StageAndSubmit(s1, r, e);
    OverwriteRowKeeps(Submit(Stage(s1, AddFor(r)), 0, e).0, slot, r);
  }

  lemma FlushKeeps(s: State, r: Reg, flush: Enter)
    requires Inv(s) && Unused(s, r)
    ensures var s1 := Submit(s, 0, flush).0;
      Inv(s1) && Unused(s1, r) && s1.table == s.table && s1.count == s.count && s1.nextSeq == s.nextSeq
  {
    hide Inv, Unused, InFlight;
    SubmitShuffles(s, 0, flush);
    ShuffleKeeps(s, Submit(s, 0, flush).0);
    UnusedShuffles(s, Submit(s, 0, flush).0, r);
  }

  lemma SubmitPollAddKeeps(s: State, r: Reg, flush: Enter, e: Enter)
    requires Inv(s) && Unused(s, r)
    ensures var (s', rc) := SubmitPollAdd(s, r, flush, e);
      && Inv(s') && s'.table == s.table && s'.count == s.count && s'.nextSeq == s.nextSeq
      && (rc >= 0 ==> InFlight(s', r))
  {
    hide Inv, Unused, InFlight;
    StageAndSubmit(s, r, e);
    FlushKeeps(s, r, flush);
    StageAndSubmit(Submit(s, 0, flush).0, r, e);
  }

  lemma InstallKeeps(s: State, slot: nat, r: Reg, flush: Enter, e: Enter)
    requires Inv(s) && Unused(s, r) && slot < |s.table| && s.table[slot].fd == -1
    ensures Inv(Install(s, slot, r, flush, e).0)
  {
    hide Inv, Unused, InFlight;
    SubmitPollAddKeeps(s, r, flush, e);
    var (s1, rc) := SubmitPollAdd(s, r, flush, e);
    if rc >= 0 {
      SetLiveRowKeeps(s1, slot, r);
    }
  }

  lemma RegisterKeeps(s: State, fd: int, interests: set<Flag>, token: nat, flush: Enter, e: Enter)
    requires Inv(s) && s.nextSeq < TIMEOUT
    ensures Inv(Register(s, fd, interests, token, flush, e).0)
  {
    if ValidInterests(interests) && fd >= 0 && s.count < |s.table| {
      var slot := Probe(s.table, fd);
      var r := Reg(fd, s.nextSeq, token, interests);
      ProbeFinds(s, fd);
      IssueKeeps(s, r);
      if s.table[slot].fd == fd {
        ReplaceKeeps(Issue(s, r), slot, r, e);
      } else {
        InstallKeeps(Issue(s, r), slot, r, flush, e);
      }
    }
  }

  lemma StageRemoveAndSubmit(s: State, target: nat, e: Enter)
    requires Inv(s)
    ensures var s1 := Submit(Stage(s, PollRemove(target)), 0, e).0; Inv(s1) && s1.table == s.table
  {
    StageInternalKeeps(s, PollRemove(target));
    var s0 := Stage(s, PollRemove(target));
    SubmitShuffles(s0, 0, e);
    ShuffleKeeps(s0, Submit(s0, 0, e).0);
  }

  lemma UnregisterKeeps(s: State, fd: int, e: Enter)
    requires Inv(s)
    ensures Inv(Unregister(s, fd, e).0)
  {
    if fd >= 0 {
      var slot := Probe(s.table, fd);
      StageRemoveAndSubmit(s, s.table[slot].ud, e);
      if s.table[slot].fd == fd {
        RetireKeeps(Submit(Stage(s, PollRemove(s.table[slot].ud)), 0, e).0, slot);
      }
    }
  }

  lemma {:induction false} RearmGrows(s: State, i: nat)
    requires i <= |s.table|
    ensures Rearm(s, i).0.nextSeq >= s.nextSeq
    decreases |s.table| - i
  {
    if i < |s.table| {
      if s.table[i].fd < 0 || s.table[i].ud != 0 {
        RearmGrows(s, i + 1);
      } else {
        var r := s.table[i].(ud := s.nextSeq);
        var s1 := Issue(s, r);
        if !Full(s1) { RearmGrows(Stage(s1, AddFor(r)).(table := s1.table[i := r]), i + 1); }
      }
    }
  }

  lemma RearmRowKeeps(s: State, i: nat)
    requires Inv(s) && i < |s.table| && s.table[i].fd >= 0 && s.table[i].ud == 0 && s.nextSeq < TIMEOUT
    ensures var r := s.table[i].(ud := s.nextSeq);
      r.ud != 0 && Inv(Issue(s, r)) && Inv(Stage(Issue(s, r), AddFor(r)).(table := s.table[i := r]))
  {
    var r := s.table[i].(ud := s.nextSeq);
    IssueKeeps(s, r);
    StageFreshKeeps(Issue(s, r), r);
    OverwriteRowKeeps(Stage(Issue(s, r), AddFor(r)), i, r);
  }

  ghost predicate ArmedBelow(s: State, i: nat) {
    forall j | 0 <= j < i && j < |s.table| && s.table[j].fd >= 0 :: s.table[j].ud != 0
  }

  /** Re-arming keeps the invariant and, when it gets to the end, leaves no live row unarmed. */
  lemma {:induction false} RearmKeeps(s: State, i: nat)
    requires Inv(s) && i <= |s.table| && Rearm(s, i).0.nextSeq <= TIMEOUT && ArmedBelow(s, i)
    ensures Inv(Rearm(s, i).0)
    ensures Rearm(s, i).1 ==> ArmedBelow(Rearm(s, i).0, |Rearm(s, i).0.table|)
    decreases |s.table| - i
  {
    hide Inv, Unused, InFlight;
    if i < |s.table| {
      if s.table[i].fd < 0 || s.table[i].ud != 0 {
        RearmKeeps(s, i + 1);
      } else {
        var r := s.table[i].(ud := s.nextSeq);
        var s3 := Stage(Issue(s, r), AddFor(r)).(table := s.table[i := r]);
        RearmGrows(s3, i + 1);
        RearmRowKeeps(s, i);
        if !Full(Issue(s, r)) {
          RearmKeeps(s3, i + 1);
        }
      }
    }
  }

  ghost predicate AllArmed(s: State) {
    s.wakeArmed && ArmedBelow(s, |s.table|)
  }

  lemma TimeoutFlagKeeps(s: State, armed: bool)
    requires Inv(s)
    ensures Inv(s.(timeoutArmed := armed))
  {
    assert forall ud :: Out(s.(timeoutArmed := armed), ud) == Out(s, ud);
  }

  lemma ArmTimeoutKeeps(s: State)
    requires Inv(s)
    ensures Inv(ArmTimeout(s).0)
  {
    hide Inv;
    var s0 := Stage(s, TimeoutRemove);
    StageInternalKeeps(s, TimeoutRemove);
    TimeoutFlagKeeps(s0, false);
    var s1 := if s.timeoutArmed && !Full(s) then s0.(timeoutArmed := false) else s;
    StageInternalKeeps(s1, TimeoutAdd);
    TimeoutFlagKeeps(Stage(s1, TimeoutAdd), true);
  }

  lemma ArmKeeps(s: State, timed: bool)
    requires Inv(s) && Arm(s, timed).0.nextSeq <= TIMEOUT
    ensures Inv(Arm(s, timed).0)
    ensures Arm(s, timed).1 ==> AllArmed(Arm(s, timed).0)
  {
    hide Inv, Unused, InFlight;
    RearmKeeps(s, 0);
    var (s1, ok1) := Rearm(s, 0);
    if ok1 {
      if !s1.wakeArmed && !Full(s1) { StageWakeKeeps(s1); }
      var (s2, ok2) := RearmWake(s1);
      if ok2 && timed { ArmTimeoutKeeps(s2); }
    }
  }

  lemma DrainResetKeeps(s: State)
    requires Inv(s)
    ensures Inv(s.(out := []))
  {
    assert forall ud :: Out(s.(out := []), ud) == Out(s, ud);
  }

  lemma WakeKeeps(s: State)
    requires Inv(s)
    ensures Inv(Step(s, DoWake))
  {
    assert forall ud :: Out(Step(s, DoWake), ud) == Out(s, ud);
  }

  lemma StepKeeps(s: State, a: Action)
    requires Inv(s) && Enabled(s, a) && Step(s, a).nextSeq <= TIMEOUT && s.nextSeq < TIMEOUT
    ensures Inv(Step(s, a))
  {
    hide Inv;
    match a {
      case DoRegister(fd, interests, token, flush, e) => RegisterKeeps(s, fd, interests, token, flush, e);
      case DoUnregister(fd, e) => UnregisterKeeps(s, fd, e);
      case DoArm(timed, e) =>
        ArmKeeps(s, timed);
        var (s1, ok) := Arm(s, timed);
        SubmitShuffles(s1, 1, e);
        if ok { ShuffleKeeps(s1, Submit(s1, 1, e).0); }
      case DoDrain(cap) =>
        DrainResetKeeps(s);
        DrainAllKeeps(s.(out := []), cap);
      case DoWake => WakeKeeps(s);
      case Complete(i, res) =>
        CompleteShuffles(s, i, res);
        ShuffleKeeps(s, Step(s, a));
    }
  }
}
