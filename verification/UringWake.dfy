/** The io_uring wake over whole runs, told by the wakes called and the drains made. */
module UringWake {
  import opened PollTypes
  import opened Uring
  import opened UringRuns
  import opened UringTheorems

  /** A wait whose drain meets the wake's completion. */
  ghost predicate Releases(s: State, a: Action) {
    a.DoDrain? && CountDone(s.cq, WAKE) > 0
  }

  /** Some wake has been called in the first `i` steps and no drain has met one since. */
  ghost predicate WakePending(ss: seq<State>, tr: seq<Action>, i: nat)
    requires i <= |tr| && i <= |ss|
  {
    exists h :: 0 <= h < i && tr[h].DoWake? && forall g | h < g < i :: !Releases(ss[g], tr[g])
  }

  lemma WakePendingStep(ss: seq<State>, tr: seq<Action>, i: nat)
    requires 0 < i <= |tr| && i <= |ss|
    ensures WakePending(ss, tr, i) <==>
      tr[i - 1].DoWake? || (WakePending(ss, tr, i - 1) && !Releases(ss[i - 1], tr[i - 1]))
  {
    hide Releases;
    if WakePending(ss, tr, i - 1) && !Releases(ss[i - 1], tr[i - 1]) {
      var h :| 0 <= h < i - 1 && tr[h].DoWake? && forall g | h < g < i - 1 :: !Releases(ss[g], tr[g]);
      assert forall g | h < g < i :: !Releases(ss[g], tr[g]);
    }
    if WakePending(ss, tr, i) && !tr[i - 1].DoWake? {
      var h :| 0 <= h < i && tr[h].DoWake? && forall g | h < g < i :: !Releases(ss[g], tr[g]);
      assert h < i - 1;
    }
  }

  lemma NothingPending(ss: seq<State>, tr: seq<Action>)
    ensures !WakePending(ss, tr, 0)
  {
  }

  // ---- what each step does to the eventfd ----

  lemma DrainOneCounter(s: State, cap: nat)
    requires s.cq != []
    ensures DrainOne(s, cap).cq == s.cq[1..]
    ensures DrainOne(s, cap).counter == if s.cq[0].ud == WAKE then 0 else s.counter
  {
  }

  lemma {:induction false} DrainAllCounter(s: State, cap: nat)
    ensures DrainAll(s, cap).counter == if CountDone(s.cq, WAKE) > 0 then 0 else s.counter
    decreases |s.cq|
  {
    hide DrainOne;
    if s.cq != [] {
      DrainOneCounter(s, cap);
      DrainAllCounter(DrainOne(s, cap), cap);
    }
  }

  lemma {:induction false} RearmCounter(s: State, i: nat)
    requires i <= |s.table|
    ensures Rearm(s, i).0.counter == s.counter
    decreases |s.table| - i
  {
    if i < |s.table| {
      if s.table[i].fd < 0 || s.table[i].ud != 0 {
        RearmCounter(s, i + 1);
      } else {
        var r := s.table[i].(ud := s.nextSeq);
        RearmCounter(Stage(Issue(s, r), AddFor(r)).(table := s.table[i := r]), i + 1);
      }
    }
  }

  lemma RegisterCounter(s: State, a: Action)
    requires s.table != [] && a.DoRegister?
    ensures Register(s, a.fd, a.interests, a.token, a.flush, a.e).0.counter == s.counter
  {
    hide Probe;
  }

  lemma CounterStep(s: State, a: Action)
    requires Enabled(s, a)
    ensures Step(s, a).counter > 0 <==> a.DoWake? || (s.counter > 0 && !Releases(s, a))
    ensures Step(s, a).counter ==
      if a.DoWake? then (if s.counter < EVENTFD_MAX then s.counter + 1 else s.counter) else if Releases(s, a) then 0 else s.counter
  {
    hide Probe, Register, Rearm, DrainAll;
    match a {
      case DoRegister(_, _, _, _, _) => RegisterCounter(s, a);
      case DoArm(_, _) => RearmCounter(s, 0);
      case DoDrain(cap) => DrainAllCounter(s.(out := []), cap);
      case _ =>
    }
  }

  // ---- the theorems ----

  /** The eventfd is nonzero exactly when a wake was called and no drain has met it since. */
  lemma {:induction false} CounterSaysWakePending(ss: seq<State>, tr: seq<Action>, i: nat)
    requires IsRun(ss, tr) && i < |ss|
    ensures ss[i].counter > 0 <==> WakePending(ss, tr, i)
  {
    hide Step, Enabled, Releases, WakePending;
    if i > 0 {
      CounterSaysWakePending(ss, tr, i - 1);
      CounterStep(ss[i - 1], tr[i - 1]);
      WakePendingStep(ss, tr, i);
    } else {
      assert !WakePending(ss, tr, 0) by { NothingPending(ss, tr); }
    }
  }

  /** The wakes of the first `n` steps since the last drain has met one. */
  ghost function WakesSince(ss: seq<State>, tr: seq<Action>, n: nat): nat
    requires n <= |tr| && n <= |ss|
  {
    if n == 0 then 0
    else if tr[n - 1].DoWake? then WakesSince(ss, tr, n - 1) + 1
    else if Releases(ss[n - 1], tr[n - 1]) then 0
    else WakesSince(ss, tr, n - 1)
  }

  /** The eventfd counts them, up to where it stops counting. */
  lemma {:induction false} CounterCountsWakes(ss: seq<State>, tr: seq<Action>, i: nat)
    requires IsRun(ss, tr) && i < |ss|
    ensures ss[i].counter == if WakesSince(ss, tr, i) < EVENTFD_MAX then WakesSince(ss, tr, i) else EVENTFD_MAX
  {
    hide Step, Enabled, Releases;
    if i > 0 {
      CounterCountsWakes(ss, tr, i - 1);
      CounterStep(ss[i - 1], tr[i - 1]);
    }
  }

  lemma AtMostOneWakeDone(s: State)
    requires Inv(s)
    ensures CountDone(s.cq, WAKE) <= 1
    ensures CountDone(s.cq, WAKE) > 0 ==> s.counter > 0 && s.wakeArmed
  {
    assert Out(s, WAKE) == if s.wakeArmed then 1 else 0;
  }

  /** The wake is sticky and coalesces. The eventfd is nonzero exactly when a wake was called and
      no drain has met it since; a drain meets a wake, one, and clears it, only then, so between
      two drains that do there is always another wake, and any number of wakes releases one
      wait. */
  lemma WakesAreSticky(ss: seq<State>, tr: seq<Action>, i: nat)
    requires IsRun(ss, tr) && i < |ss| && ss[i].nextSeq < TIMEOUT
    ensures ss[i].counter > 0 <==> WakePending(ss, tr, i)
    ensures i < |tr| && Releases(ss[i], tr[i]) ==>
      CountDone(ss[i].cq, WAKE) == 1 && WakePending(ss, tr, i) && !WakePending(ss, tr, i + 1)
    ensures forall h, k | 0 <= h < k < i && Releases(ss[h], tr[h]) && Releases(ss[k], tr[k]) ::
              exists g :: h < g < k && tr[g].DoWake?
  {
    hide Step, Inv, Enabled, CountDone, WakePending, Releases;
    CounterSaysWakePending(ss, tr, i);
    if i < |tr| && Releases(ss[i], tr[i]) {
      ReleaseNeedsWake(ss, tr, i);
      WakePendingStep(ss, tr, i + 1);
    }
    forall h, k | 0 <= h < k < i && Releases(ss[h], tr[h]) && Releases(ss[k], tr[k]) ensures exists g :: h < g < k && tr[g].DoWake? {
      RunEvolves(ss, tr, k, i);
      ReleaseNeedsWake(ss, tr, k);
      WakeBetween(ss, tr, h, k);
    }
  }

  lemma ReleaseNeedsWake(ss: seq<State>, tr: seq<Action>, i: nat)
    requires IsRun(ss, tr) && i < |tr| && ss[i].nextSeq < TIMEOUT && Releases(ss[i], tr[i])
    ensures WakePending(ss, tr, i) && !tr[i].DoWake? && CountDone(ss[i].cq, WAKE) == 1
  {
    hide Step, Inv, Enabled, CountDone, WakePending;
    CounterSaysWakePending(ss, tr, i);
    RunKeeps(ss, tr, i);
    AtMostOneWakeDone(ss[i]);
  }

  lemma WakeBetween(ss: seq<State>, tr: seq<Action>, h: nat, k: nat)
    requires h < k <= |tr| && k <= |ss| && WakePending(ss, tr, k) && Releases(ss[h], tr[h])
    ensures exists g :: h < g < k && tr[g].DoWake?
  {
    var g :| 0 <= g < k && tr[g].DoWake? && forall x | g < x < k :: !Releases(ss[x], tr[x]);
    assert g > h;
  }

  /** A wake that no drain has met is in front of every wait that blocks: its completion is
      already posted, or its one poll is staged or in the kernel, where it may complete. */
  lemma PendingWakeMeetsWait(ss: seq<State>, tr: seq<Action>, i: nat, timed: bool, e: Enter)
    requires IsRun(ss, tr) && i < |tr| && tr[i] == DoArm(timed, e) && ss[i + 1].nextSeq < TIMEOUT
    requires Arm(ss[i], timed).1 && WakePending(ss, tr, i + 1)
    ensures var s := ss[i + 1];
      && CountDone(s.cq, WAKE) + Count(s.kernel, WAKE) + Count(s.sq, WAKE) == 1
      && forall k: nat, res | k < |s.kernel| && UserData(s.kernel[k]) == WAKE :: Enabled(s, Complete(k, res))
  {
    hide Step, Inv, Arm, Count, CountDone;
    WaitBlocksFullyArmed(ss, tr, i, timed, e);
    CounterSaysWakePending(ss, tr, i + 1);
    RunKeeps(ss, tr, i + 1);
    TableThere(ss[i + 1]);
  }

  lemma TableThere(s: State)
    requires Inv(s)
    ensures s.table != []
  {
  }
}
