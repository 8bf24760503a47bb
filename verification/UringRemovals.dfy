/** Every poll that a register or unregister drops is cancelled: the removals sent over a run,
    counted per sequence number. */
module UringRemovals {
  import opened Errno
  import opened PollTypes
  import opened Uring
  import opened UringRuns
  import opened UringTheorems
  import opened UringAnswers
  import opened UringZero

  function Removals(q: seq<Sqe>, ud: nat): nat {
    if q == [] then 0 else Removals(q[..|q| - 1], ud) + if q[|q| - 1] == PollRemove(ud) then 1 else 0
  }

  lemma {:induction false} RemovalsConcat(p: seq<Sqe>, q: seq<Sqe>, ud: nat)
    ensures Removals(p + q, ud) == Removals(p, ud) + Removals(q, ud)
  {
    if q == [] {
      assert p + q == p;
    } else {
      RemovalsConcat(p, q[..|q| - 1], ud);
      assert (p + q)[..|p + q| - 1] == p + q[..|q| - 1];
    }
  }

  /** What a call sends is what is new in the ring and the kernel; completions send nothing. */
  ghost function SentBy(s: State, a: Action): seq<Sqe>
    requires Enabled(s, a)
  {
    var before, after := s.kernel + s.sq, Step(s, a).kernel + Step(s, a).sq;
    if a.Complete? || |after| < |before| then [] else after[|before|..]
  }

  /** Removals of the poll `ud` sent in the first `n` steps. */
  ghost function RemovalsSent(ss: seq<State>, tr: seq<Action>, n: nat, ud: nat): nat
    requires IsRun(ss, tr) && n <= |tr|
  {
    if n == 0 then 0 else RemovalsSent(ss, tr, n - 1, ud) + Removals(SentBy(ss[n - 1], tr[n - 1]), ud)
  }

  /** A register or unregister takes the number out of the table. */
  ghost predicate Drops(s: State, a: Action, ud: nat)
    requires Enabled(s, a)
  {
    (a.DoRegister? || a.DoUnregister?) && LiveUd(s, ud) && !LiveUd(Step(s, a), ud)
  }

  /** A register or unregister that met the row of `ud` and failed after it had sent the removal. */
  ghost predicate FailsHalfway(s: State, a: Action, ud: nat)
    requires Enabled(s, a)
  {
    && (a.DoRegister? || a.DoUnregister?) && a.fd >= 0 && ResultOf(s, a) < 0
    && s.table[Probe(s.table, a.fd)].fd == a.fd && s.table[Probe(s.table, a.fd)].ud == ud
    && |s.sq| < s.room
    && (a.DoRegister? ==> ValidInterests(a.interests) && s.count < |s.table|)
  }

  lemma SentIs(s: State, a: Action, q: seq<Sqe>)
    requires Enabled(s, a) && !a.Complete? && Sent(s, Step(s, a), q)
    ensures SentBy(s, a) == q
  {
  }

  lemma RemovalsOfOne(e: Sqe, ud: nat)
    ensures Removals([e], ud) == if e == PollRemove(ud) then 1 else 0
  {
    assert [e][..0] == [];
  }

  lemma RemovalsOfTwo(e: Sqe, f: Sqe, ud: nat)
    ensures Removals([e, f], ud) == Removals([e], ud) + Removals([f], ud)
  {
    assert [e, f] == [e] + [f];
    RemovalsConcat([e], [f], ud);
  }

  lemma {:induction false} NoneRemoves(q: seq<Sqe>, ud: nat)
    requires forall e | e in q :: !e.PollRemove?
    ensures Removals(q, ud) == 0
  {
    if q != [] {
      NoneRemoves(q[..|q| - 1], ud);
    }
  }

  // ---- what each step sends ----

  /** What an upsert has sent when it returns, whatever it answers. */
  function ReplaceSent(s: State, was: nat, r: Reg): seq<Sqe> {
    if |s.sq| >= s.room then []
    else if |s.sq| + 1 >= s.room then [PollRemove(was)]
    else [PollRemove(was), AddFor(r)]
  }

  lemma ReplaceSends(s: State, slot: nat, r: Reg, e: Enter)
    requires slot < |s.table|
    ensures Sent(s, Replace(s, slot, r, e).0, ReplaceSent(s, s.table[slot].ud, r))
  {
    hide Submit;
    var p := PollRemove(s.table[slot].ud);
    SubmitMoves(Stage(Stage(s, p), AddFor(r)), 0, e);
    assert s.sq + [p] + [AddFor(r)] == s.sq + [p, AddFor(r)];
  }

  lemma InstallSends(s: State, slot: nat, r: Reg, flush: Enter, e: Enter)
    requires slot < |s.table|
    ensures var s' := Install(s, slot, r, flush, e).0; Sent(s, s', []) || Sent(s, s', [AddFor(r)])
  {
    hide Submit;
    SubmitMoves(Stage(s, AddFor(r)), 0, e);
    SubmitMoves(s, 0, flush);
    SubmitMoves(Stage(Submit(s, 0, flush).0, AddFor(r)), 0, e);
  }

  lemma UpsertSends(s: State, a: Action, slot: nat, ud: nat)
    requires Enabled(s, a) && a.DoRegister? && a.fd >= 0 && ValidInterests(a.interests) && s.count < |s.table|
    requires slot == Probe(s.table, a.fd) && s.table[slot].fd == a.fd
    ensures Removals(SentBy(s, a), ud) == if |s.sq| < s.room && s.table[slot].ud == ud then 1 else 0
  {
    hide Replace, Probe, ValidInterests;
    var r := Reg(a.fd, s.nextSeq, a.token, a.interests);
    ReplaceSends(Issue(s, r), slot, r, a.e);
    var q := ReplaceSent(s, s.table[slot].ud, r);
    SentIs(s, a, q);
    RemovalsOfOne(PollRemove(s.table[slot].ud), ud);
    RemovalsOfOne(AddFor(r), ud);
    RemovalsOfTwo(PollRemove(s.table[slot].ud), AddFor(r), ud);
  }

  lemma InsertSends(s: State, a: Action, ud: nat)
    requires Enabled(s, a) && a.DoRegister?
    requires a.fd >= 0 && ValidInterests(a.interests) && s.count < |s.table| ==> s.table[Probe(s.table, a.fd)].fd != a.fd
    ensures Removals(SentBy(s, a), ud) == 0
  {
    hide Install, Probe, ValidInterests;
    if a.fd >= 0 && ValidInterests(a.interests) && s.count < |s.table| {
      var r := Reg(a.fd, s.nextSeq, a.token, a.interests);
      InstallSends(Issue(s, r), Probe(s.table, a.fd), r, a.flush, a.e);
      if Sent(s, Step(s, a), []) { SentIs(s, a, []); } else { SentIs(s, a, [AddFor(r)]); }
      RemovalsOfOne(AddFor(r), ud);
    } else {
      SentIs(s, a, []);
    }
  }

  lemma UnregisterSends(s: State, a: Action, ud: nat)
    requires Enabled(s, a) && a.DoUnregister?
    ensures Removals(SentBy(s, a), ud) ==
      if a.fd >= 0 && s.table[Probe(s.table, a.fd)].fd == a.fd && |s.sq| < s.room && s.table[Probe(s.table, a.fd)].ud == ud then 1 else 0
  {
    hide Probe, Submit;
    if a.fd >= 0 && s.table[Probe(s.table, a.fd)].fd == a.fd && |s.sq| < s.room {
      var p := PollRemove(s.table[Probe(s.table, a.fd)].ud);
      SubmitMoves(Stage(s, p), 0, a.e);
      SentIs(s, a, [p]);
      RemovalsOfOne(p, ud);
    } else {
      SentIs(s, a, []);
    }
  }

  lemma {:induction false} RearmsRemoveNothing(table: seq<Reg>, i: nat, next: nat)
    requires i <= |table|
    ensures forall e | e in Rearms(table, i, next) :: !e.PollRemove?
    decreases |table| - i
  {
    if i < |table| {
      RearmsRemoveNothing(table, i + 1, next);
      RearmsRemoveNothing(table, i + 1, next + 1);
    }
  }

  lemma NeededRemovesNothing(s: State, timed: bool)
    ensures forall e | e in Needed(s, timed) :: !e.PollRemove?
  {
    RearmsRemoveNothing(s.table, 0, s.nextSeq);
  }

  lemma WaitRemovesNothing(s: State, a: Action, ud: nat)
    requires Enabled(s, a) && a.DoArm?
    ensures Removals(SentBy(s, a), ud) == 0
  {
    hide Arm, Needed, SameRows, SentBy, Removals, Submit;
    ArmStages(s, a.timed);
    SubmitMoves(Arm(s, a.timed).0, 1, a.e);
    var q := Needed(s, a.timed);
    var sent := if |q| <= Free(s) then q else q[..Free(s)];
    SentIs(s, a, sent);
    NeededRemovesNothing(s, a.timed);
    NoneRemoves(sent, ud);
  }

  lemma {:induction false} DrainSendsNothing(s: State, cap: nat)
    ensures DrainAll(s, cap).sq == s.sq && DrainAll(s, cap).kernel == s.kernel
    decreases |s.cq|
  {
    if s.cq != [] {
      DrainSendsNothing(DrainOne(s, cap), cap);
    }
  }

  lemma OthersSendNothing(s: State, a: Action, ud: nat)
    requires Enabled(s, a) && !a.DoRegister? && !a.DoUnregister?
    ensures Removals(SentBy(s, a), ud) == 0
  {
    hide DrainAll, Arm;
    match a {
      case DoArm(_, _) => WaitRemovesNothing(s, a, ud);
      case DoDrain(cap) => DrainSendsNothing(s.(out := []), cap); SentIs(s, a, []);
      case DoWake => SentIs(s, a, []);
      case Complete(_, _) =>
    }
  }

  // ---- which numbers leave the table ----

  /** Overwriting or emptying the row of an armed number takes out that number and no other. */
  lemma OnlyThatNumberLeaves(s: State, s': State, slot: nat, r: Reg, ud: nat)
    requires Inv(s) && slot < |s.table| && s'.table == s.table[slot := r] && ud != 0
    requires s.table[slot].fd >= 0 && (r.fd < 0 || r.ud >= s.nextSeq)
    ensures LiveUd(s, ud) && !LiveUd(s', ud) <==> s.table[slot].ud == ud
  {
    if LiveUd(s, ud) {
      var i :| 0 <= i < |s.table| && Armed(s.table[i]) && s.table[i].ud == ud;
      if i != slot {
        assert s'.table[i] == s.table[i];
      }
    }
    if s.table[slot].ud == ud {
      assert Armed(s.table[slot]);
      forall i | 0 <= i < |s'.table| && Armed(s'.table[i]) ensures s'.table[i].ud != ud {
        assert i != slot ==> s'.table[i] == s.table[i];
      }
    }
  }

  lemma EmptyRowDropsNothing(s: State, s': State, slot: nat, r: Reg, ud: nat)
    requires slot < |s.table| && s'.table == s.table[slot := r] && s.table[slot].fd < 0 && LiveUd(s, ud)
    ensures LiveUd(s', ud)
  {
    var i :| 0 <= i < |s.table| && Armed(s.table[i]) && s.table[i].ud == ud;
    assert s'.table[i] == s.table[i];
  }

  lemma RegisterCounts(s: State, a: Action, ud: nat)
    requires Inv(s) && Enabled(s, a) && a.DoRegister? && ud != 0
    ensures Removals(SentBy(s, a), ud) == (if Drops(s, a, ud) then 1 else 0) + (if FailsHalfway(s, a, ud) then 1 else 0)
  {
    hide Inv, Probe, Replace, Install, ValidInterests, LiveUd, Removals, SentBy;
    if a.fd >= 0 && ValidInterests(a.interests) && s.count < |s.table| {
      var slot, r := Probe(s.table, a.fd), Reg(a.fd, s.nextSeq, a.token, a.interests);
      RowChosen(s, a.fd);
      ReplaceEffect(Issue(s, r), slot, r, a.e);
      InstallEffect(Issue(s, r), slot, r, a.flush, a.e);
      if s.table[slot].fd == a.fd {
        UpsertSends(s, a, slot, ud);
        ReplaceAnswers(Issue(s, r), slot, r, a.e);
        if ResultOf(s, a) == 0 {
          OnlyThatNumberLeaves(s, Step(s, a), slot, r, ud);
        } else {
          SameTableDropsNothing(s, Step(s, a), ud);
        }
      } else {
        InsertSends(s, a, ud);
        InsertDropsNothing(s, a, slot, r, ud);
      }
    } else {
      InsertSends(s, a, ud);
    }
  }

  lemma InsertDropsNothing(s: State, a: Action, slot: nat, r: Reg, ud: nat)
    requires Enabled(s, a) && slot < |s.table| && s.table[slot].fd < 0
    requires Step(s, a).table == s.table[slot := r] || Step(s, a).table == s.table
    ensures !Drops(s, a, ud)
  {
    if LiveUd(s, ud) {
      if Step(s, a).table == s.table { SameTableDropsNothing(s, Step(s, a), ud); } else { EmptyRowDropsNothing(s, Step(s, a), slot, r, ud); }
    }
  }

  lemma SameTableDropsNothing(s: State, s': State, ud: nat)
    requires s'.table == s.table
    ensures LiveUd(s', ud) <==> LiveUd(s, ud)
  {
  }

  lemma UnregisterCounts(s: State, a: Action, ud: nat)
    requires Inv(s) && Enabled(s, a) && a.DoUnregister? && ud != 0
    ensures Removals(SentBy(s, a), ud) == (if Drops(s, a, ud) then 1 else 0) + (if FailsHalfway(s, a, ud) then 1 else 0)
  {
    hide Inv, Probe, LiveUd, Removals, SentBy, Submit;
    UnregisterSends(s, a, ud);
    if a.fd >= 0 && s.table[Probe(s.table, a.fd)].fd == a.fd {
      var slot := Probe(s.table, a.fd);
      var s1 := Stage(s, PollRemove(s.table[slot].ud));
      SubmitMoves(s1, 0, a.e);
      if |s.sq| < s.room && ResultOf(s, a) >= 0 {
        OnlyThatNumberLeaves(s, Step(s, a), slot, s.table[slot].(fd := -1), ud);
      } else {
        SameTableDropsNothing(s, Step(s, a), ud);
      }
    }
  }

  // ---- over a run ----

  /** The calls in the first `n` steps that sent the removal of `ud` and then failed. */
  ghost function HalfwayFailures(ss: seq<State>, tr: seq<Action>, n: nat, ud: nat): nat
    requires IsRun(ss, tr) && n <= |tr|
  {
    if n == 0 then 0 else HalfwayFailures(ss, tr, n - 1, ud) + if FailsHalfway(ss[n - 1], tr[n - 1], ud) then 1 else 0
  }

  ghost predicate Dropped(ss: seq<State>, tr: seq<Action>, n: nat, ud: nat)
    requires IsRun(ss, tr) && n <= |tr|
  {
    exists h :: 0 <= h < n && Drops(ss[h], tr[h], ud)
  }

  lemma DroppedStep(ss: seq<State>, tr: seq<Action>, n: nat, ud: nat)
    requires IsRun(ss, tr) && 0 < n <= |tr|
    ensures Dropped(ss, tr, n, ud) <==> Dropped(ss, tr, n - 1, ud) || Drops(ss[n - 1], tr[n - 1], ud)
  {
    hide Drops;
  }

  /** A number is dropped once at most. */
  lemma DroppedOnce(ss: seq<State>, tr: seq<Action>, n: nat, ud: nat)
    requires IsRun(ss, tr) && 0 < n <= |tr| && Dropped(ss, tr, n - 1, ud) && ud != 0 && ss[n].nextSeq < TIMEOUT
    ensures !Drops(ss[n - 1], tr[n - 1], ud)
  {
    hide Step, Enabled, Inv, LiveUd;
    var h :| 0 <= h < n - 1 && Drops(ss[h], tr[h], ud);
    assert ss[h + 1] == Step(ss[h], tr[h]);
    RunEvolves(ss, tr, h, n);
    RunEvolves(ss, tr, h + 1, n);
    RunKeeps(ss, tr, h);
    LiveIsIssued(ss[h], ud);
    RunEvolves(ss, tr, h, h + 1);
    SupersededPollsStaySilent(ss, tr, h + 1, n - 1, ud);
  }

  lemma LiveIsIssued(s: State, ud: nat)
    requires Inv(s) && LiveUd(s, ud)
    ensures ud < s.nextSeq
  {
  }

  /** Over every run the removals sent for a number are those of the calls that sent one and
      failed, and exactly one more if a register or unregister has taken the number out of the
      table. So a dropped poll is cancelled, exactly once when no call failed halfway. */
  lemma {:induction false} OneRemovalPerDroppedPoll(ss: seq<State>, tr: seq<Action>, n: nat, ud: nat)
    requires IsRun(ss, tr) && n <= |tr| && ud != 0 && ss[n].nextSeq < TIMEOUT
    ensures RemovalsSent(ss, tr, n, ud) == HalfwayFailures(ss, tr, n, ud) + if Dropped(ss, tr, n, ud) then 1 else 0
  {
    hide Step, Enabled, Inv, Drops, FailsHalfway, SentBy, Removals, Dropped, Evolves;
    if n == 0 {
      assert !Dropped(ss, tr, 0, ud) by { NoneDropped(ss, tr, ud); }
    } else {
      NumbersGrow(ss, tr, n);
      OneRemovalPerDroppedPoll(ss, tr, n - 1, ud);
      RunKeeps(ss, tr, n - 1);
      DroppedStep(ss, tr, n, ud);
      if Dropped(ss, tr, n - 1, ud) { DroppedOnce(ss, tr, n, ud); }
      StepCounts(ss[n - 1], tr[n - 1], ud);
    }
  }

  lemma NoneDropped(ss: seq<State>, tr: seq<Action>, ud: nat)
    requires IsRun(ss, tr)
    ensures !Dropped(ss, tr, 0, ud)
  {
  }

  lemma NumbersGrow(ss: seq<State>, tr: seq<Action>, n: nat)
    requires IsRun(ss, tr) && 0 < n <= |tr|
    ensures ss[n - 1].nextSeq <= ss[n].nextSeq
  {
    RunEvolves(ss, tr, n - 1, n);
  }

  lemma StepCounts(s: State, a: Action, ud: nat)
    requires Inv(s) && Enabled(s, a) && ud != 0
    ensures Removals(SentBy(s, a), ud) == (if Drops(s, a, ud) then 1 else 0) + (if FailsHalfway(s, a, ud) then 1 else 0)
  {
    hide Inv, Removals, SentBy, LiveUd, Step;
    if a.DoRegister? {
      RegisterCounts(s, a, ud);
    } else if a.DoUnregister? {
      UnregisterCounts(s, a, ud);
    } else {
      OthersSendNothing(s, a, ud);
    }
  }

  // ---- a removal sent twice ----

  /** The exception is real: an unregister whose enter is interrupted has staged the removal and
      leaves the row in place, and trying again sends it a second time. */
  lemma RetryRemovesTwice() returns (ss: seq<State>, tr: seq<Action>)
    ensures IsRun(ss, tr) && |tr| == 3 && tr[1] == DoUnregister(5, Enter(0, -EAGAIN)) && tr[2] == DoUnregister(5, Enter(2, 2))
    ensures ResultOf(ss[1], tr[1]) == -EAGAIN && ResultOf(ss[2], tr[2]) == 0
    ensures ss[3].kernel == [WAKE_POLL, AddFor(WATCHED), PollRemove(FIRST_SEQ), PollRemove(FIRST_SEQ)]
  {
    hide Hash;
    assert Hash(5, 16) == 5 by { HomeRows(); }
    var s0 := NewHandle();
    var a0 := DoRegister(5, {Readable}, 77, Enter(1, 1), Enter(1, 1));
    RegisterHome(s0, WATCHED);
    var s1 := Step(s0, a0);
    assert s1.table[5] == WATCHED && Probe(s1.table, 5) == 5;
    var a1 := DoUnregister(5, Enter(0, -EAGAIN));
    var s2 := Step(s1, a1);
    assert s2.table == s1.table && s2.sq == [PollRemove(FIRST_SEQ)];
    var a2 := DoUnregister(5, Enter(2, 2));
    var s3 := Step(s2, a2);
    assert s3.kernel == [WAKE_POLL, AddFor(WATCHED), PollRemove(FIRST_SEQ), PollRemove(FIRST_SEQ)];
    ss, tr := [s0, s1, s2, s3], [a0, a1, a2];
  }
}
