/** The epoll backend: what holds at every point of every run. */
module EpollTheorems {
  import opened Errno
  import opened PollTypes
  import opened EpollTable
  import opened Epoll

  // ---- the table is a map ----

  /** What a call returns to its caller. */
  ghost function ResultOf(s: State, a: Action): int
    requires Enabled(s, a)
  {
    match a
    case DoRegister(fd, interests, token, f) => Set(s, fd, interests, token, true, f).1
    case DoModify(fd, interests, token, f) => Set(s, fd, interests, token, false, f).1
    case DoUnregister(fd) => Unregister(s, fd).1
    case _ => 0
  }

  /** The plain map a caller would keep: the last accepted register or modify of each descriptor
      that has not been unregistered since. */
  ghost function CallerMap(ss: seq<State>, tr: seq<Action>, i: nat): map<int, nat>
    requires IsRun(ss, tr) && i < |ss|
  {
    if i == 0 then map[]
    else
      var m, a := CallerMap(ss, tr, i - 1), tr[i - 1];
      if (a.DoRegister? || a.DoModify?) && ResultOf(ss[i - 1], a) == 0 then m[a.fd := a.token]
      else if a.DoUnregister? then m - {a.fd}
      else m
  }

  lemma LatestStep(s: State, a: Action)
    requires Inv(s) && Enabled(s, a)
    ensures Step(s, a).latest ==
      if (a.DoRegister? || a.DoModify?) && ResultOf(s, a) == 0 then s.latest[a.fd := a.token]
      else if a.DoUnregister? then s.latest - {a.fd}
      else s.latest
  {
    hide Represents, Probe, Collect;
    if a.DoUnregister? && a.fd >= 0 {
      UnregisterDrops(s, a.fd);
    } else if a.DoUnregister? {
      NegativeAbsent(s, a.fd);
      assert s.latest - {a.fd} == s.latest;
    }
  }

  lemma NegativeAbsent(s: State, fd: int)
    requires Inv(s) && fd < 0
    ensures fd !in s.latest
  {
  }

  lemma UnregisterDrops(s: State, fd: int)
    requires Inv(s) && fd >= 0 && Probe(s.fds, fd) < CAP
    ensures Unregister(s, fd).0.latest == s.latest - {fd}
  {
    LookupAgrees(s.fds, s.toks, s.latest, fd);
    if fd !in s.latest { assert s.latest - {fd} == s.latest; }
  }

  lemma {:induction false} LatestIsCallerMap(ss: seq<State>, tr: seq<Action>, i: nat)
    requires IsRun(ss, tr) && i < |ss|
    ensures ss[i].latest == CallerMap(ss, tr, i)
  {
    if i > 0 {
      LatestIsCallerMap(ss, tr, i - 1);
      RunKeeps(ss, tr, i - 1);
      LatestStep(ss[i - 1], tr[i - 1]);
    }
  }

  /** Under any run the table refines the caller's map: looking a descriptor up finds it exactly
      when the map has it, with the map's token; no descriptor occurs twice; no empty cell lies
      between a live descriptor's hash and its cell. */
  lemma TableRefinesMap(ss: seq<State>, tr: seq<Action>, i: nat, fd: int)
    requires IsRun(ss, tr) && i < |ss| && fd >= 0
    ensures Sound(ss[i].fds) && |ss[i].toks| == CAP
    ensures var m, slot := CallerMap(ss, tr, i), Probe(ss[i].fds, fd);
      && (fd in m <==> slot < CAP && ss[i].fds[slot] == fd)
      && (fd in m ==> ss[i].toks[slot] == m[fd])
      && (slot < CAP <==> fd in m || HasEmpty(ss[i].fds))
  {
    RunKeeps(ss, tr, i);
    LatestIsCallerMap(ss, tr, i);
    LookupAgrees(ss[i].fds, ss[i].toks, ss[i].latest, fd);
    ProbeDecides(ss[i].fds, fd);
  }

  /** An otherwise valid register or modify is refused with ENOSPC before the kernel is asked,
      whatever the kernel would say, exactly when the descriptor is absent and no empty cell is
      left. */
  lemma FullExactlyWhenNoGap(ss: seq<State>, tr: seq<Action>, i: nat, fd: int, interests: set<Flag>, token: nat, isAdd: bool)
    requires IsRun(ss, tr) && i < |ss| && fd >= 0 && ValidInterests(interests)
    ensures |ss[i].fds| == |ss[i].toks| == CAP
    ensures (forall f :: Set(ss[i], fd, interests, token, isAdd, f) == (ss[i], -ENOSPC)) <==>
            fd !in CallerMap(ss, tr, i) && !HasEmpty(ss[i].fds)
  {
    hide HasEmpty, CallerMap, Probe;
    TableRefinesMap(ss, tr, i, fd);
    if Probe(ss[i].fds, fd) < CAP {
      assert Set(ss[i], fd, interests, token, isAdd, Faults(0, 0)).1 != -ENOSPC;
    }
  }

  /** Register and modify are all or nothing: 0 means the kernel watches exactly what was asked
      for under that descriptor's file and the table has the token; anything else means nothing
      has changed, in the kernel or in the table. Other registrations are never touched. */
  lemma SetIsAllOrNothing(ss: seq<State>, tr: seq<Action>, i: nat)
    requires IsRun(ss, tr) && i < |tr| && (tr[i].DoRegister? || tr[i].DoModify?)
    ensures var s, s', a := ss[i], ss[i + 1], tr[i];
      if ResultOf(s, a) != 0 then s' == s
      else
        && a.fd in s.open
        && s'.regs == s.regs[Reg(a.fd, s.open[a.fd]) := WatchedBits(a.interests, {PollRdHup})]
        && s'.latest == s.latest[a.fd := a.token]
  {
    hide Represents, Probe;
    assert ss[i + 1] == Step(ss[i], tr[i]);
  }

  /** Modify never creates a registration: without one in the kernel it fails and changes
      nothing. */
  lemma ModifyDoesNotUpsert(s: State, fd: int, interests: set<Flag>, token: nat, f: Faults)
    requires |s.fds| == |s.toks| == CAP && (fd in s.open ==> Reg(fd, s.open[fd]) !in s.regs)
    ensures Set(s, fd, interests, token, false, f).0 == s && Set(s, fd, interests, token, false, f).1 < 0
  {
  }

  // ---- tokens ----

  /** What a caller is owed for a batch: one event, with the latest token, for each entry of a
      descriptor it has registered, in order, and nothing else. */
  ghost function Owed(m: map<int, nat>, wfd: int, batch: seq<Ready>): seq<PollEvent> {
    if batch == [] then []
    else
      var b := batch[|batch| - 1];
      Owed(m, wfd, batch[..|batch| - 1]) +
        if b.fd != wfd && b.fd in m then [PollEvent(m[b.fd], b.fd, FlagsOf(b.bits))] else []
  }

  lemma {:induction false} CollectIsOwed(fds: seq<int>, toks: seq<nat>, m: map<int, nat>, wfd: int, batch: seq<Ready>, cap: nat)
    requires Represents(fds, toks, m) && |batch| <= cap && forall k | 0 <= k < |batch| :: batch[k].fd >= 0
    ensures Collect(fds, toks, wfd, batch, cap) == Owed(m, wfd, batch)
    ensures |Owed(m, wfd, batch)| <= |batch|
  {
    if batch != [] {
      CollectIsOwed(fds, toks, m, wfd, batch[..|batch| - 1], cap);
      LookupAgrees(fds, toks, m, batch[|batch| - 1].fd);
    }
  }

  /** Every wait of every run, with descriptors closed, duplicated and reused at any time,
      delivers exactly what the caller is owed: each event carries the token of the latest
      accepted register or modify of its descriptor, and the wake descriptor never appears. */
  lemma WaitDeliversLatestTokens(ss: seq<State>, tr: seq<Action>, i: nat, batch: seq<Ready>, cap: nat)
    requires IsRun(ss, tr) && i < |tr| && tr[i] == DoWait(batch, cap)
    ensures ss[i + 1].out == Owed(CallerMap(ss, tr, i), ss[i].wfd, batch)
    ensures forall e | e in ss[i + 1].out :: e.fd != ss[i].wfd && e.fd in CallerMap(ss, tr, i) && e.token == CallerMap(ss, tr, i)[e.fd]
  {
    RunKeeps(ss, tr, i);
    LatestIsCallerMap(ss, tr, i);
    CollectIsOwed(ss[i].fds, ss[i].toks, ss[i].latest, ss[i].wfd, batch, cap);
    OwedIsFaithful(ss[i].latest, ss[i].wfd, batch);
  }

  lemma {:induction false} OwedIsFaithful(m: map<int, nat>, wfd: int, batch: seq<Ready>)
    ensures forall e | e in Owed(m, wfd, batch) :: e.fd != wfd && e.fd in m && e.token == m[e.fd]
  {
    if batch != [] { OwedIsFaithful(m, wfd, batch[..|batch| - 1]); }
  }

  // ---- the kernel's interest list ----

  /** A registered descriptor is not closed while a duplicate keeps its file open. */
  ghost predicate CleanStep(s: State, a: Action) {
    a.Close? && a.fd in s.open && Reg(a.fd, s.open[a.fd]) in s.regs ==>
      forall other | other in s.open && other != a.fd :: s.open[other] != s.open[a.fd]
  }

  /** Every kernel registration belongs to an open descriptor that the table knows. */
  ghost predicate Current(s: State) {
    forall r | r in s.regs :: r.fd in s.open && s.open[r.fd] == r.file && r.fd in s.latest
  }

  lemma CurrentStep(s: State, a: Action)
    requires Inv(s) && Current(s) && Enabled(s, a) && CleanStep(s, a)
    ensures Current(Step(s, a))
  {
    hide Represents, Probe, Collect;
    if a.DoUnregister? && a.fd >= 0 { UnregisterDrops(s, a.fd); }
  }

  lemma {:induction false} RunStaysCurrent(ss: seq<State>, tr: seq<Action>, i: nat)
    requires IsRun(ss, tr) && i < |ss| && forall h | 0 <= h < i :: CleanStep(ss[h], tr[h])
    ensures Current(ss[i])
  {
    if i > 0 {
      RunStaysCurrent(ss, tr, i - 1);
      RunKeeps(ss, tr, i - 1);
      CurrentStep(ss[i - 1], tr[i - 1]);
    }
  }

  /** In a run that never closes a registered descriptor while a duplicate keeps its file open,
      the kernel's registrations stay inside the table, so a wait drops no reported event. */
  lemma KernelStaysInsideTable(ss: seq<State>, tr: seq<Action>, i: nat)
    requires IsRun(ss, tr) && i < |ss| && forall h | 0 <= h < i :: CleanStep(ss[h], tr[h])
    ensures forall r | r in ss[i].regs :: r.fd in CallerMap(ss, tr, i)
    ensures i < |tr| && tr[i].DoWait? ==>
      |ss[i + 1].out| == |tr[i].batch| - if SawWake(ss[i], tr[i].batch) then 1 else 0
  {
    RunStaysCurrent(ss, tr, i);
    LatestIsCallerMap(ss, tr, i);
    RunKeeps(ss, tr, i);
    if i < |tr| && tr[i].DoWait? {
      var s, batch := ss[i], tr[i].batch;
      WaitDeliversLatestTokens(ss, tr, i, batch, tr[i].cap);
      OwedCount(s.latest, s.wfd, batch);
    }
  }

  lemma {:induction false} OwedCount(m: map<int, nat>, wfd: int, batch: seq<Ready>)
    requires forall k | 0 <= k < |batch| :: batch[k].fd == wfd || batch[k].fd in m
    requires forall k, l | 0 <= k < l < |batch| && batch[k].fd == wfd :: batch[l].fd != wfd
    ensures |Owed(m, wfd, batch)| == |batch| - if exists k :: 0 <= k < |batch| && batch[k].fd == wfd then 1 else 0
  {
    if batch != [] {
      var n := |batch| - 1;
      var t := batch[..n];
      OwedCount(m, wfd, t);
      if batch[n].fd == wfd {
        assert forall k | 0 <= k < n :: t[k] == batch[k] && t[k].fd != wfd;
      } else if k :| 0 <= k < |batch| && batch[k].fd == wfd {
        assert t[k] == batch[k];
      } else {
        assert forall k | 0 <= k < n :: t[k] == batch[k];
      }
    }
  }

  /** Unregister leaves no kernel registration under its descriptor number exactly when every one
      there was belonged to the file the descriptor now refers to. */
  lemma UnregisterIsCompleteIff(s: State, fd: int)
    requires Inv(s) && fd >= 0 && Probe(s.fds, fd) < CAP
    ensures (forall file :: Reg(fd, file) !in Unregister(s, fd).0.regs) <==>
            forall file | Reg(fd, file) in s.regs :: fd in s.open && s.open[fd] == file
  {
    hide Represents, Probe;
    Sizes(s);
    var s' := Unregister(s, fd).0;
    forall file ensures Reg(fd, file) in s'.regs <==> Reg(fd, file) in s.regs && !(fd in s.open && s.open[fd] == file) {
    }
  }

  ghost predicate Inside(s: State) {
    forall r | r in s.regs :: r.fd in s.latest
  }

  /** An unregister is made while its descriptor refers to the file of every registration the
      kernel holds under that number. */
  ghost predicate CompleteStep(s: State, a: Action) {
    a.DoUnregister? && a.fd >= 0 ==> forall file | Reg(a.fd, file) in s.regs :: a.fd in s.open && s.open[a.fd] == file
  }

  lemma StaysInsideIff(s: State, a: Action)
    requires Inv(s) && Enabled(s, a) && Inside(s)
    ensures Inside(Step(s, a)) <==> CompleteStep(s, a)
  {
    hide Represents, Probe, Collect;
    if a.DoUnregister? && a.fd >= 0 {
      UnregisterDrops(s, a.fd);
      UnregisterIsCompleteIff(s, a.fd);
      var s' := Step(s, a);
      assert forall r | r in s'.regs :: r in s.regs;
      assert CompleteStep(s, a) <==> forall file :: Reg(a.fd, file) !in s'.regs;
      assert Inside(s') ==> forall file :: Reg(a.fd, file) in s'.regs ==> Reg(a.fd, file).fd in s'.latest;
    }
  }

  /** The kernel's registrations have stayed inside the table, with any closing, duplicating and
      reuse of descriptors, exactly when every unregister so far was made before its descriptor
      came to mean another file. */
  lemma {:induction false} KernelInsideTableIff(ss: seq<State>, tr: seq<Action>, i: nat)
    requires IsRun(ss, tr) && i < |ss|
    ensures (forall j | 0 <= j <= i :: Inside(ss[j])) <==> forall h | 0 <= h < i :: CompleteStep(ss[h], tr[h])
  {
    hide Inside, CompleteStep, Step, Enabled;
    if i == 0 {
      assert Inside(ss[0]) by { StartsInside(ss[0]); }
    } else {
      KernelInsideTableIff(ss, tr, i - 1);
      RunKeeps(ss, tr, i - 1);
      if Inside(ss[i - 1]) {
        StaysInsideIff(ss[i - 1], tr[i - 1]);
      }
      assert ss[i] == Step(ss[i - 1], tr[i - 1]);
      assert (forall j | 0 <= j <= i :: Inside(ss[j])) <==> (forall j | 0 <= j <= i - 1 :: Inside(ss[j])) && Inside(ss[i]);
      assert (forall h | 0 <= h < i :: CompleteStep(ss[h], tr[h])) <==>
        (forall h | 0 <= h < i - 1 :: CompleteStep(ss[h], tr[h])) && CompleteStep(ss[i - 1], tr[i - 1]);
    }
  }

  lemma StartsInside(s: State)
    requires Initial(s)
    ensures Inside(s)
  {
  }

  /** No wait the kernel could answer at this point drops a reported event exactly when the
      kernel's registrations are inside the table. */
  lemma NothingDroppedIff(ss: seq<State>, tr: seq<Action>, i: nat)
    requires IsRun(ss, tr) && i < |ss|
    ensures Inside(ss[i]) <==> forall batch, cap | Enabled(ss[i], DoWait(batch, cap)) ::
      |Step(ss[i], DoWait(batch, cap)).out| == |batch| - if SawWake(ss[i], batch) then 1 else 0
  {
    hide Represents, Probe, Step;
    RunKeeps(ss, tr, i);
    var s := ss[i];
    Sizes(s);
    if Inside(s) {
      forall batch, cap | Enabled(s, DoWait(batch, cap))
        ensures |Step(s, DoWait(batch, cap)).out| == |batch| - if SawWake(s, batch) then 1 else 0
      {
        WaitOwes(s, batch, cap);
        OwedCount(s.latest, s.wfd, batch);
      }
    } else {
      var r :| r in s.regs && r.fd !in s.latest;
      var batch := [Ready(r.fd, r.file, {PollIn})];
      assert Enabled(s, DoWait(batch, 1));
      WaitOwes(s, batch, 1);
      assert batch[..0] == [] && Owed(s.latest, s.wfd, batch) == [];
      assert !SawWake(s, batch);
    }
  }

  lemma WaitOwes(s: State, batch: seq<Ready>, cap: nat)
    requires Inv(s) && Enabled(s, DoWait(batch, cap))
    ensures Step(s, DoWait(batch, cap)).out == Owed(s.latest, s.wfd, batch)
  {
    CollectIsOwed(s.fds, s.toks, s.latest, s.wfd, batch, cap);
  }

  /** The condition is needed: close a registered descriptor whose file a duplicate keeps open,
      then unregister it, and the kernel still holds the registration the table has dropped. */
  lemma DuplicateOutlivesUnregister(s: State, fd: int, dup: int)
    requires Inv(s) && fd in s.open && dup in s.open && dup != fd && s.open[dup] == s.open[fd]
    requires Reg(fd, s.open[fd]) in s.regs && Probe(s.fds, fd) < CAP
    ensures Enabled(s, Close(fd)) && !CleanStep(s, Close(fd))
    ensures var s1 := Step(s, Close(fd));
      Enabled(s1, DoUnregister(fd)) &&
      var s2 := Step(s1, DoUnregister(fd));
      fd !in s2.latest && Reg(fd, s.open[fd]) in s2.regs && ResultOf(s1, DoUnregister(fd)) == -EBADF
  {
    hide Represents, Probe;
    Sizes(s);
    assert s.wfd != fd;
    var s1 := Step(s, Close(fd));
    assert dup in s1.open && (s.open - {fd})[dup] == s.open[fd];
    StepKeeps(s, Close(fd));
    UnregisterDrops(s1, fd);
  }

  /** Unregister's use of the probed cell is in range exactly when the descriptor is present or
      an empty cell is left; a table of 256 live descriptors is one where it is not. */
  lemma UnregisterInRangeIff(fds: seq<int>, fd: int)
    requires Sound(fds) && fd >= 0
    ensures Probe(fds, fd) < CAP <==> fd in fds || HasEmpty(fds)
    ensures Sound(seq(CAP, j => j)) && Probe(seq(CAP, j => j), 300) == CAP
  {
    ProbeDecides(fds, fd);
    var full := seq(CAP, j => j);
    assert forall j | 0 <= j < CAP :: full[j] == j;
    ProbeDecides(full, 300);
  }

  /** A wait that sees the wake and drains it. */
  ghost predicate Releases(s: State, a: Action) {
    a.DoWait? && SawWake(s, a.batch)
  }

  /** Some wake has been called in the first `i` steps and no wait has seen one since. */
  ghost predicate WakePending(ss: seq<State>, tr: seq<Action>, i: nat)
    requires i <= |tr| && i <= |ss|
  {
    exists h :: 0 <= h < i && tr[h].DoWake? && forall g | h < g < i :: !Releases(ss[g], tr[g])
  }

  lemma CounterStep(s: State, a: Action)
    requires Enabled(s, a)
    ensures Step(s, a).counter > 0 <==> a.DoWake? || (s.counter > 0 && !Releases(s, a))
    ensures Step(s, a).counter ==
      if a.DoWake? then (if s.counter < EVENTFD_MAX then s.counter + 1 else s.counter) else if Releases(s, a) then 0 else s.counter
  {
    hide Probe, Collect;
  }

  lemma WakePendingStep(ss: seq<State>, tr: seq<Action>, i: nat)
    requires 0 < i <= |tr| && i <= |ss|
    ensures WakePending(ss, tr, i) <==>
      tr[i - 1].DoWake? || (WakePending(ss, tr, i - 1) && !Releases(ss[i - 1], tr[i - 1]))
  {
    hide Releases;
    if WakePending(ss, tr, i - 1) && !Releases(ss[i - 1], tr[i - 1]) {
      var h :| 0 <= h < i - 1 && tr[h].DoWake? && forall g | h < g < i - 1 :: !Releases(ss[g], tr[g]);
      assert forall g | h < g < i :: !Releases(ss[g], tr[g]);
    }
    if WakePending(ss, tr, i) && !tr[i - 1].DoWake? {
      var h :| 0 <= h < i && tr[h].DoWake? && forall g | h < g < i :: !Releases(ss[g], tr[g]);
      assert h < i - 1;
    }
  }

  /** The eventfd is nonzero exactly when a wake was called and no wait has seen it since. */
  lemma {:induction false} CounterSaysWakePending(ss: seq<State>, tr: seq<Action>, i: nat)
    requires IsRun(ss, tr) && i < |ss|
    ensures ss[i].counter > 0 <==> WakePending(ss, tr, i)
  {
    hide Step, Enabled, Releases, WakePending;
    if i > 0 {
      CounterSaysWakePending(ss, tr, i - 1);
      CounterStep(ss[i - 1], tr[i - 1]);
      WakePendingStep(ss, tr, i);
    } else {
      assert !WakePending(ss, tr, 0) by { NothingPending(ss, tr); }
    }
  }

  lemma NothingPending(ss: seq<State>, tr: seq<Action>)
    ensures !WakePending(ss, tr, 0)
  {
  }

  /** The wakes of the first `n` steps since the last wait has seen one. */
  ghost function WakesSince(ss: seq<State>, tr: seq<Action>, n: nat): nat
    requires n <= |tr| && n <= |ss|
  {
    if n == 0 then 0
    else if tr[n - 1].DoWake? then WakesSince(ss, tr, n - 1) + 1
    else if Releases(ss[n - 1], tr[n - 1]) then 0
    else WakesSince(ss, tr, n - 1)
  }

  /** The eventfd counts them, up to where it stops counting. */
  lemma {:induction false} CounterCountsWakes(ss: seq<State>, tr: seq<Action>, i: nat)
    requires IsRun(ss, tr) && i < |ss|
    ensures ss[i].counter == if WakesSince(ss, tr, i) < EVENTFD_MAX then WakesSince(ss, tr, i) else EVENTFD_MAX
  {
    hide Step, Enabled, Releases;
    if i > 0 {
      CounterCountsWakes(ss, tr, i - 1);
      CounterStep(ss[i - 1], tr[i - 1]);
    }
  }

  /** The wake is sticky and coalesces. The eventfd is nonzero exactly when a wake was called and
      no wait has seen it since; a wait sees a wake, and clears it, only then, so between two
      waits that do there is always another wake, and any number of wakes releases one wait; and
      a wake no wait has seen can be reported to the next one. */
  lemma WakesAreSticky(ss: seq<State>, tr: seq<Action>, i: nat)
    requires IsRun(ss, tr) && i < |ss|
    ensures ss[i].counter > 0 <==> WakePending(ss, tr, i)
    ensures i < |tr| && Releases(ss[i], tr[i]) ==> WakePending(ss, tr, i) && !WakePending(ss, tr, i + 1)
    ensures forall h, k | 0 <= h < k < i && Releases(ss[h], tr[h]) && Releases(ss[k], tr[k]) ::
              exists g :: h < g < k && tr[g].DoWake?
    ensures |ss[i].fds| == |ss[i].toks| == CAP
    ensures WakePending(ss, tr, i) ==> Enabled(ss[i], DoWait([Ready(ss[i].wfd, 0, {PollIn})], 1))
  {
    hide Step, Probe, WakePending, Releases;
    CounterSaysWakePending(ss, tr, i);
    RunKeeps(ss, tr, i);
    Sizes(ss[i]);
    WakeReportable(ss[i]);
    if i < |tr| && Releases(ss[i], tr[i]) {
      ReleaseNeedsWake(ss, tr, i);
      WakePendingStep(ss, tr, i + 1);
    }
    forall h, k | 0 <= h < k < i && Releases(ss[h], tr[h]) && Releases(ss[k], tr[k]) ensures exists g :: h < g < k && tr[g].DoWake? {
      ReleaseNeedsWake(ss, tr, k);
      WakeBetween(ss, tr, h, k);
    }
  }

  lemma WakeReportable(s: State)
    requires Inv(s) && |s.fds| == |s.toks| == CAP
    ensures s.counter > 0 ==> Enabled(s, DoWait([Ready(s.wfd, 0, {PollIn})], 1))
  {
  }

  lemma ReleaseNeedsWake(ss: seq<State>, tr: seq<Action>, i: nat)
    requires IsRun(ss, tr) && i < |tr| && Releases(ss[i], tr[i])
    ensures WakePending(ss, tr, i) && !tr[i].DoWake?
  {
    hide Step, WakePending;
    CounterSaysWakePending(ss, tr, i);
    assert Enabled(ss[i], tr[i]);
  }

  lemma WakeBetween(ss: seq<State>, tr: seq<Action>, h: nat, k: nat)
    requires h < k <= |tr| && k <= |ss| && WakePending(ss, tr, k) && Releases(ss[h], tr[h])
    ensures exists g :: h < g < k && tr[g].DoWake?
  {
    var g :| 0 <= g < k && tr[g].DoWake? && forall x | g < x < k :: !Releases(ss[x], tr[x]);
    assert g > h;
  }

  // ---- the delivery loop in place ----

  /** The loop that fills the caller's buffer from the kernel's batch. */
  method CollectReady(t: Table, wfd: int, batch: seq<Ready>, cap: nat, ghost m: map<int, nat>) returns (out: seq<PollEvent>, sawWake: bool)
    requires t.Valid(m) && |batch| <= cap && forall k | 0 <= k < |batch| :: batch[k].fd >= 0
    ensures out == Owed(m, wfd, batch)
    ensures sawWake <==> exists k :: 0 <= k < |batch| && batch[k].fd == wfd
  {
    out, sawWake := [], false;
    for i := 0 to |batch|
      invariant out == Owed(m, wfd, batch[..i]) && |out| <= i
      invariant sawWake <==> exists k :: 0 <= k < i && batch[k].fd == wfd
    {
      assert batch[..i + 1][..i] == batch[..i] && batch[..i + 1][i] == batch[i];
      if batch[i].fd == wfd {
        sawWake := true;
        continue;
      }
      if |out| >= cap {
        continue;
      }
      var found, tok := t.Lookup(batch[i].fd, m);
      if found {
        out := out + [PollEvent(tok, batch[i].fd, FlagsOf(batch[i].bits))];
      }
    }
    assert batch[..|batch|] == batch;
  }
}
