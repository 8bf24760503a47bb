/** The io_uring backend: what holds at every point of every run. The 64-bit sequence counter
    is taken below its wrap: fewer than 2^64 - 0x1003 numbers issued so far. */
module UringTheorems {
  import opened PollTypes
  import opened Uring
  import opened UringRuns

  // ---- how a step may change the live numbers and the deliveries ----

  /** Between `s` and `s'` only fresh numbers become live, and whatever is delivered was fresh
      or live. */
  ghost predicate Evolves(s: State, s': State) {
    && s.nextSeq <= s'.nextSeq
    && (forall ud: nat | LiveUd(s', ud) :: ud >= s.nextSeq || LiveUd(s, ud))
    && |s.delivered| <= |s'.delivered| && s'.delivered[..|s.delivered|] == s.delivered
    && (forall k | |s.delivered| <= k < |s'.delivered| && s'.delivered[k].ud != 0 ::
          s'.delivered[k].ud >= s.nextSeq || LiveUd(s, s'.delivered[k].ud))
  }

  lemma EvolvesTrans(a: State, b: State, c: State)
    requires Evolves(a, b) && Evolves(b, c)
    ensures Evolves(a, c)
  {
    assert c.delivered[..|a.delivered|] == c.delivered[..|b.delivered|][..|a.delivered|];
    forall k | |a.delivered| <= k < |c.delivered| && c.delivered[k].ud != 0
      ensures c.delivered[k].ud >= a.nextSeq || LiveUd(a, c.delivered[k].ud)
    {
      if k < |b.delivered| {
        assert c.delivered[k] == c.delivered[..|b.delivered|][k] == b.delivered[k];
      } else {
        assert c.delivered[k].ud >= b.nextSeq || LiveUd(b, c.delivered[k].ud);
      }
    }
  }

  /** Nothing delivered, and every armed row either was there before or carries a fresh number. */
  lemma RowsEvolve(s: State, s': State)
    requires s.nextSeq <= s'.nextSeq && s'.delivered == s.delivered && |s'.table| == |s.table|
    requires forall i | 0 <= i < |s'.table| && Armed(s'.table[i]) :: s'.table[i].ud >= s.nextSeq || (Armed(s.table[i]) && s'.table[i].ud == s.table[i].ud)
    ensures Evolves(s, s')
  {
    forall ud: nat | LiveUd(s', ud) ensures ud >= s.nextSeq || LiveUd(s, ud) {
      var i :| 0 <= i < |s'.table| && Armed(s'.table[i]) && s'.table[i].ud == ud;
    }
  }

  lemma ReplaceEvolves(s: State, slot: nat, r: Reg, e: Enter)
    requires slot < |s.table| && r.ud == s.nextSeq
    ensures Evolves(s, Replace(Issue(s, r), slot, r, e).0)
  {
    RowsEvolve(s, Replace(Issue(s, r), slot, r, e).0);
  }

  lemma InstallEvolves(s: State, slot: nat, r: Reg, flush: Enter, e: Enter)
    requires slot < |s.table| && r.ud == s.nextSeq
    ensures Evolves(s, Install(Issue(s, r), slot, r, flush, e).0)
  {
    RowsEvolve(s, Install(Issue(s, r), slot, r, flush, e).0);
  }

  lemma RegisterEvolves(s: State, fd: int, interests: set<Flag>, token: nat, flush: Enter, e: Enter)
    requires s.table != []
    ensures Evolves(s, Register(s, fd, interests, token, flush, e).0)
  {
    hide Evolves, Replace, Install;
    RowsEvolve(s, s);
    if fd >= 0 {
      var r := Reg(fd, s.nextSeq, token, interests);
      ReplaceEvolves(s, Probe(s.table, fd), r, e);
      InstallEvolves(s, Probe(s.table, fd), r, flush, e);
    }
  }

  lemma UnregisterEvolves(s: State, fd: int, e: Enter)
    requires s.table != []
    ensures Evolves(s, Unregister(s, fd, e).0)
  {
    RowsEvolve(s, Unregister(s, fd, e).0);
  }

  lemma {:induction false} RearmEvolves(s: State, i: nat)
    requires i <= |s.table|
    ensures Evolves(s, Rearm(s, i).0)
    decreases |s.table| - i
  {
    hide Evolves;
    RowsEvolve(s, s);
    if i < |s.table| {
      if s.table[i].fd < 0 || s.table[i].ud != 0 {
        RearmEvolves(s, i + 1);
      } else {
        var r := s.table[i].(ud := s.nextSeq);
        RowsEvolve(s, Issue(s, r));
        var s3 := Stage(Issue(s, r), AddFor(r)).(table := s.table[i := r]);
        RowsEvolve(s, s3);
        if !Full(Issue(s, r)) {
          RearmEvolves(s3, i + 1);
          EvolvesTrans(s, s3, Rearm(s3, i + 1).0);
        }
      }
    }
  }

  lemma DrainQuietEvolves(s: State, cap: nat)
    requires s.cq != []
    requires s.cq[0].ud == TIMEOUT || s.cq[0].ud == WAKE || FindFrom(s.table, s.cq[0].ud, 0) == |s.table| || s.cq[0].res.Failed?
    ensures Evolves(s, DrainOne(s, cap))
  {
    RowsEvolve(s, DrainOne(s, cap));
  }

  lemma DrainReadyEvolves(s: State, cap: nat, i: nat)
    requires s.cq != [] && s.cq[0].ud != TIMEOUT && s.cq[0].ud != WAKE && s.cq[0].res.Ready?
    requires i == FindFrom(s.table, s.cq[0].ud, 0) < |s.table|
    ensures Evolves(s, DrainOne(s, cap))
  {
    var s' := DrainOne(s, cap);
    var s1 := s'.(delivered := s.delivered);
    RowsEvolve(s, s1);
    assert forall ud: nat :: LiveUd(s', ud) <==> LiveUd(s1, ud);
    var n := |s.delivered|;
    if |s'.delivered| > n {
      assert s'.delivered[n].ud == s.table[i].ud;
    }
  }

  lemma DrainOneEvolves(s: State, cap: nat)
    requires s.cq != []
    ensures Evolves(s, DrainOne(s, cap))
  {
    hide Evolves, DrainOne;
    var i := FindFrom(s.table, s.cq[0].ud, 0);
    if s.cq[0].ud == TIMEOUT || s.cq[0].ud == WAKE || i == |s.table| || s.cq[0].res.Failed? {
      DrainQuietEvolves(s, cap);
    } else {
      DrainReadyEvolves(s, cap, i);
    }
  }

  lemma {:induction false} DrainAllEvolves(s: State, cap: nat)
    ensures Evolves(s, DrainAll(s, cap))
    decreases |s.cq|
  {
    hide Evolves, DrainOne;
    RowsEvolve(s, s);
    if s.cq != [] {
      DrainOneEvolves(s, cap);
      DrainShrinks(s, cap);
      DrainAllEvolves(DrainOne(s, cap), cap);
      EvolvesTrans(s, DrainOne(s, cap), DrainAll(s, cap));
    }
  }

  lemma DrainShrinks(s: State, cap: nat)
    requires s.cq != []
    ensures |DrainOne(s, cap).cq| < |s.cq|
  {
  }

  lemma ArmEvolves(s: State, timed: bool, e: Enter)
    ensures Evolves(s, Arm(s, timed).0) && Evolves(s, Submit(Arm(s, timed).0, 1, e).0)
  {
    RearmEvolves(s, 0);
    var s1 := Rearm(s, 0).0;
    var s2 := Arm(s, timed).0;
    RowsEvolve(s1, s2);
    EvolvesTrans(s, s1, s2);
    var s3 := Submit(s2, 1, e).0;
    RowsEvolve(s2, s3);
    EvolvesTrans(s, s2, s3);
  }

  lemma StepEvolves(s: State, a: Action)
    requires Enabled(s, a)
    ensures Evolves(s, Step(s, a))
  {
    hide Evolves;
    match a {
      case DoRegister(fd, interests, token, flush, e) => RegisterEvolves(s, fd, interests, token, flush, e);
      case DoUnregister(fd, e) => UnregisterEvolves(s, fd, e);
      case DoArm(timed, e) => ArmEvolves(s, timed, e);
      case DoDrain(cap) =>
        RowsEvolve(s, s.(out := []));
        DrainAllEvolves(s.(out := []), cap);
        EvolvesTrans(s, s.(out := []), Step(s, a));
      case DoWake => RowsEvolve(s, Step(s, a));
      case Complete(_, _) => RowsEvolve(s, Step(s, a));
    }
  }

  lemma {:induction false} RunEvolves(ss: seq<State>, tr: seq<Action>, i: nat, j: nat)
    requires IsRun(ss, tr) && i <= j < |ss|
    ensures Evolves(ss[i], ss[j])
  {
    hide Evolves;
    if i == j {
      RowsEvolve(ss[i], ss[i]);
    } else {
      RunEvolves(ss, tr, i, j - 1);
      StepEvolves(ss[j - 1], tr[j - 1]);
      EvolvesTrans(ss[i], ss[j - 1], ss[j]);
    }
  }

  lemma InitialInv(s: State)
    requires Initial(s)
    ensures Inv(s)
  {
    forall ud ensures Out(s, ud) == if ud == WAKE then 1 else 0 {
      CountAppend([], WAKE_POLL, ud);
    }
    assert LiveRows(s.table) == {};
  }

  lemma {:induction false} RunKeeps(ss: seq<State>, tr: seq<Action>, i: nat)
    requires IsRun(ss, tr) && i < |ss| && ss[i].nextSeq < TIMEOUT
    ensures Inv(ss[i])
  {
    hide Inv, Step;
    if i == 0 {
      InitialInv(ss[0]);
    } else {
      RunEvolves(ss, tr, i - 1, i);
      RunKeeps(ss, tr, i - 1);
      StepKeeps(ss[i - 1], tr[i - 1]);
    }
  }

  // ---- the theorems ----

  /** Every live row with a nonzero number has exactly one outstanding poll under it: staged, in
      the kernel, or completed and not drained. Live numbers are pairwise distinct, never zero's
      or a sentinel's, and the poll watches what the row asks for. */
  lemma OnePollPerRegistration(ss: seq<State>, tr: seq<Action>, i: nat, row: nat)
    requires IsRun(ss, tr) && i < |ss| && ss[i].nextSeq < TIMEOUT
    requires row < |ss[i].table| && Armed(ss[i].table[row])
    ensures var s, r := ss[i], ss[i].table[row];
      && Count(s.sq, r.ud) + Count(s.kernel, r.ud) + CountDone(s.cq, r.ud) == 1
      && FIRST_SEQ <= r.ud < s.nextSeq && r.ud != WAKE && r.ud != TIMEOUT
      && (forall other | 0 <= other < |s.table| && other != row && Armed(s.table[other]) :: s.table[other].ud != r.ud)
      && (forall e | (e in s.sq || e in s.kernel) && e.PollAdd? && e.ud == r.ud :: e == AddFor(r))
  {
    RunKeeps(ss, tr, i);
    var s, r := ss[i], ss[i].table[row];
    assert Out(s, r.ud) == 1;
  }

  /** When a wait reaches its blocking submit, every live registration has its poll outstanding
      and so has the wake. */
  lemma WaitBlocksFullyArmed(ss: seq<State>, tr: seq<Action>, i: nat, timed: bool, e: Enter)
    requires IsRun(ss, tr) && i < |tr| && tr[i] == DoArm(timed, e) && ss[i + 1].nextSeq < TIMEOUT
    requires Arm(ss[i], timed).1
    ensures var s' := ss[i + 1];
      && (forall row | 0 <= row < |s'.table| && s'.table[row].fd >= 0 :: s'.table[row].ud != 0 && Out(s', s'.table[row].ud) == 1)
      && s'.wakeArmed && Out(s', WAKE) == 1
  {
    RunKeeps(ss, tr, i + 1);
    RunEvolves(ss, tr, i, i + 1);
    RunKeeps(ss, tr, i);
    var s1, s' := Arm(ss[i], timed).0, ss[i + 1];
    assert s' == Submit(s1, 1, e).0;
    ArmKeeps(ss[i], timed);
    assert AllArmed(s');
    forall row | 0 <= row < |s'.table| && s'.table[row].fd >= 0 ensures s'.table[row].ud != 0 && Out(s', s'.table[row].ud) == 1 {
      assert Armed(s'.table[row]);
    }
  }

  /** Every event ever delivered under a nonzero number carries exactly the descriptor and the
      token that number was issued for, and no number delivers twice. */
  lemma DeliveriesAreFaithful(ss: seq<State>, tr: seq<Action>, i: nat, k: nat)
    requires IsRun(ss, tr) && i < |ss| && ss[i].nextSeq < TIMEOUT && k < |ss[i].delivered| && ss[i].delivered[k].ud != 0
    ensures var s, d := ss[i], ss[i].delivered[k];
      && d.ud in s.issued && d.event.fd == s.issued[d.ud].fd && d.event.token == s.issued[d.ud].token
      && (forall l | 0 <= l < |s.delivered| && l != k :: s.delivered[l].ud != d.ud)
  {
    RunKeeps(ss, tr, i);
    var s, d := ss[i], ss[i].delivered[k];
    forall l | 0 <= l < |s.delivered| && l != k ensures s.delivered[l].ud != d.ud {
      if l < k { assert s.delivered[l].ud != 0 ==> s.delivered[l].ud != s.delivered[k].ud; }
    }
  }

  /** A number whose row was re-armed, replaced or dropped never comes alive again and never
      delivers another event, whatever completions still arrive for it. */
  lemma SupersededPollsStaySilent(ss: seq<State>, tr: seq<Action>, i: nat, j: nat, ud: nat)
    requires IsRun(ss, tr) && i <= j < |ss| && 0 < ud < ss[i].nextSeq && !LiveUd(ss[i], ud)
    ensures !LiveUd(ss[j], ud)
    ensures |ss[i].delivered| <= |ss[j].delivered| && ss[j].delivered[..|ss[i].delivered|] == ss[i].delivered
    ensures forall k | |ss[i].delivered| <= k < |ss[j].delivered| :: ss[j].delivered[k].ud != ud
  {
    RunEvolves(ss, tr, i, j);
  }

  /** Between `s` and `s'` exactly `q` was sent: staged, and possibly taken by the kernel. */
  ghost predicate Sent(s: State, s': State, q: seq<Sqe>) {
    s'.kernel + s'.sq == s.kernel + s.sq + q
  }

  /** The row of `r`, its own or an empty one, taken by `r`: in its own row the poll it had is
      cancelled, and either way the new poll is sent. */
  ghost predicate RowTaken(s: State, s': State, row: int, r: Reg) {
    && 0 <= row < |s.table| && (s.table[row].fd == r.fd || s.table[row].fd == -1)
    && s'.table == s.table[row := r]
    && Sent(s, s', if s.table[row].fd == r.fd then [PollRemove(s.table[row].ud), AddFor(r)] else [AddFor(r)])
  }

  ghost predicate RowEmptied(s: State, s': State, row: int, fd: int) {
    && 0 <= row < |s.table| && s.table[row].fd == fd >= 0
    && s'.table == s.table[row := s.table[row].(fd := -1)]
    && Sent(s, s', [PollRemove(s.table[row].ud)])
  }

  /** A register that returns 0 has given the descriptor a row under a number never used before,
      with the caller's token and interests, in its own row or an empty one, has sent the new
      poll and, in its own row, the removal of the poll that row had; every other row is as it
      was. One that fails has left the whole table as it was. */
  lemma RegisterTakesEffect(ss: seq<State>, tr: seq<Action>, i: nat, fd: int, interests: set<Flag>, token: nat, flush: Enter, e: Enter)
    requires IsRun(ss, tr) && i < |tr| && tr[i] == DoRegister(fd, interests, token, flush, e) && ss[i].nextSeq < TIMEOUT
    ensures var s, s', rc := ss[i], ss[i + 1], Uring.Register(ss[i], fd, interests, token, flush, e).1;
      && rc <= 0 && (rc < 0 ==> s'.table == s.table && s'.count == s.count)
      && (rc == 0 ==> fd >= 0 && ValidInterests(interests) && RowTaken(s, s', Probe(s.table, fd), Reg(fd, s.nextSeq, token, interests)))
  {
    hide Inv, Probe, Replace, Install, ValidInterests;
    RunKeeps(ss, tr, i);
    var s := ss[i];
    assert ss[i + 1] == Step(s, tr[i]);
    if fd >= 0 && ValidInterests(interests) && s.count < |s.table| {
      RowChosen(s, fd);
      var r := Reg(fd, s.nextSeq, token, interests);
      ReplaceEffect(Issue(s, r), Probe(s.table, fd), r, e);
      InstallEffect(Issue(s, r), Probe(s.table, fd), r, flush, e);
    }
  }

  lemma RowChosen(s: State, fd: int)
    requires Inv(s) && fd >= 0 && s.count < |s.table|
    ensures s.table[Probe(s.table, fd)].fd == fd || s.table[Probe(s.table, fd)].fd == -1
  {
    ProbeFinds(s, fd);
  }

  lemma ReplaceEffect(s: State, slot: nat, r: Reg, e: Enter)
    requires slot < |s.table|
    ensures var (s', rc) := Replace(s, slot, r, e);
      && rc <= 0 && s'.count == s.count && s'.table == (if rc == 0 then s.table[slot := r] else s.table)
      && (rc == 0 ==> Sent(s, s', [PollRemove(s.table[slot].ud), AddFor(r)]))
  {
    hide Submit;
    var s1 := Stage(s, PollRemove(s.table[slot].ud));
    SubmitMoves(Stage(s1, AddFor(r)), 0, e);
    assert s.sq + [PollRemove(s.table[slot].ud)] + [AddFor(r)] == s.sq + [PollRemove(s.table[slot].ud), AddFor(r)];
  }

  lemma InstallEffect(s: State, slot: nat, r: Reg, flush: Enter, e: Enter)
    requires slot < |s.table|
    ensures var (s', rc) := Install(s, slot, r, flush, e);
      && rc <= 0 && (if rc == 0 then s'.table == s.table[slot := r] else s'.table == s.table && s'.count == s.count)
      && (rc == 0 ==> Sent(s, s', [AddFor(r)]))
  {
    hide Submit;
    SubmitMoves(Stage(s, AddFor(r)), 0, e);
    SubmitMoves(s, 0, flush);
    SubmitMoves(Stage(Submit(s, 0, flush).0, AddFor(r)), 0, e);
  }

  /** An unregister that returns 0 has, if the probe met the descriptor, emptied that row and
      staged or submitted exactly its poll's removal; otherwise it has done nothing. One that
      fails has left the table as it was. */
  lemma UnregisterTakesEffect(ss: seq<State>, tr: seq<Action>, i: nat, fd: int, e: Enter)
    requires IsRun(ss, tr) && i < |tr| && tr[i] == DoUnregister(fd, e)
    ensures var s, s', rc := ss[i], ss[i + 1], Uring.Unregister(ss[i], fd, e).1;
      && rc <= 0 && (rc < 0 ==> s'.table == s.table && s'.count == s.count)
      && (rc == 0 ==> fd >= 0)
      && (rc == 0 && s.table[Probe(s.table, fd)].fd == fd ==> RowEmptied(s, s', Probe(s.table, fd), fd))
      && (rc == 0 && s.table[Probe(s.table, fd)].fd != fd ==> s' == s)
  {
    var s := ss[i];
    assert ss[i + 1] == Step(s, tr[i]);
    if fd >= 0 {
      SubmitMoves(Stage(s, PollRemove(s.table[Probe(s.table, fd)].ud)), 0, e);
    }
  }

  lemma SubmitMoves(s: State, minComplete: nat, e: Enter)
    ensures var s' := Submit(s, minComplete, e).0; s'.kernel + s'.sq == s.kernel + s.sq && s'.table == s.table && s'.count == s.count
  {
    var k := if e.take <= |s.sq| then e.take else |s.sq|;
    assert s.sq == s.sq[..k] + s.sq[k..];
  }

  /** `wake_armed` holds exactly when one wake poll is outstanding, and a wake completion waits
      to be drained only while the eventfd is readable. */
  lemma OneWakePoll(ss: seq<State>, tr: seq<Action>, i: nat)
    requires IsRun(ss, tr) && i < |ss| && ss[i].nextSeq < TIMEOUT
    ensures Out(ss[i], WAKE) == if ss[i].wakeArmed then 1 else 0
    ensures CountDone(ss[i].cq, WAKE) > 0 ==> ss[i].counter > 0
  {
    RunKeeps(ss, tr, i);
  }
}
