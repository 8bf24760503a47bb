/** What each call of the epoll backend answers and what its events say, told from the caller's
    map, the process's descriptors and the kernel's registrations. */
module EpollAnswers {
  import opened Errno
  import opened PollTypes
  import opened EpollTable
  import opened Epoll
  import opened EpollTheorems

  /** The kernel holds a registration of the file the descriptor now means. */
  ghost predicate Registered(s: State, fd: int) {
    fd in s.open && Reg(fd, s.open[fd]) in s.regs
  }

  /** The checks register and modify make before they ask the kernel, in their order. */
  ghost function Refused(s: State, m: map<int, nat>, fd: int, interests: set<Flag>): int {
    if !(interests == {Readable} || interests == {Writable} || interests == {Readable, Writable}) then -EINVAL
    else if fd < 0 then -EBADF
    else if fd !in m && !HasEmpty(s.fds) then -ENOSPC
    else 0
  }

  lemma PassesProbe(s: State, fd: int, interests: set<Flag>)
    requires Inv(s) && |s.fds| == |s.toks| == CAP
    ensures Refused(s, s.latest, fd, interests) == 0 <==>
      ValidInterests(interests) && fd >= 0 && Probe(s.fds, fd) < CAP
    ensures !ValidInterests(interests) <==> Refused(s, s.latest, fd, interests) == -EINVAL
    ensures ValidInterests(interests) && fd >= 0 && Probe(s.fds, fd) >= CAP ==> Refused(s, s.latest, fd, interests) == -ENOSPC
  {
    hide Represents, ProbeFrom, Probe, HasEmpty, ValidInterests;
    InterestsAre(interests);
    if fd >= 0 {
      Looked(s, fd);
    }
  }

  lemma Looked(s: State, fd: int)
    requires Inv(s) && |s.fds| == |s.toks| == CAP && fd >= 0
    ensures Probe(s.fds, fd) < CAP <==> fd in s.latest || HasEmpty(s.fds)
  {
    LookupAgrees(s.fds, s.toks, s.latest, fd);
    ProbeDecides(s.fds, fd);
  }

  /** Register answers 0 for an open descriptor with valid interests and room in the table,
      whether the kernel already has it, and then takes the new interests, or not; unless the
      kernel refuses the change, or the addition, that it then needs. Every other answer is the
      first of EINVAL, EBADF, ENOSPC, EBADF from the kernel, and that refusal. */
  lemma RegisterAnswers(ss: seq<State>, tr: seq<Action>, i: nat, fd: int, interests: set<Flag>, token: nat, f: Faults)
    requires IsRun(ss, tr) && i < |tr| && tr[i] == DoRegister(fd, interests, token, f)
    ensures var s, refused := ss[i], Refused(ss[i], CallerMap(ss, tr, i), fd, interests);
      ResultOf(s, tr[i]) ==
        if refused != 0 then refused
        else if fd !in s.open then -EBADF
        else if Registered(s, fd) then (if f.mod < 0 then f.mod else 0)
        else if f.add < 0 then f.add else 0
  {
    hide Represents, Probe, Refused, ValidInterests;
    RunKeeps(ss, tr, i);
    LatestIsCallerMap(ss, tr, i);
    Sizes(ss[i]);
    assert Enabled(ss[i], tr[i]);
    RefusedIs(ss[i], fd, interests);
    PassesProbe(ss[i], fd, interests);
  }

  lemma RefusedIs(s: State, fd: int, interests: set<Flag>)
    ensures var r := Refused(s, s.latest, fd, interests);
      r == -EINVAL || (r != 0 && fd < 0 && r == -EBADF) || (r == -ENOSPC && fd >= 0) || (r == 0 && fd >= 0)
  {
  }

  /** Modify answers 0 only for a descriptor the kernel has under its present file; without one
      the answer is ENOENT. */
  lemma ModifyAnswers(ss: seq<State>, tr: seq<Action>, i: nat, fd: int, interests: set<Flag>, token: nat, f: Faults)
    requires IsRun(ss, tr) && i < |tr| && tr[i] == DoModify(fd, interests, token, f)
    ensures var s, refused := ss[i], Refused(ss[i], CallerMap(ss, tr, i), fd, interests);
      ResultOf(s, tr[i]) ==
        if refused != 0 then refused
        else if fd !in s.open then -EBADF
        else if !Registered(s, fd) then -ENOENT
        else if f.mod < 0 then f.mod else 0
  {
    hide Represents, Probe, Refused, ValidInterests;
    RunKeeps(ss, tr, i);
    LatestIsCallerMap(ss, tr, i);
    Sizes(ss[i]);
    RefusedIs(ss[i], fd, interests);
    PassesProbe(ss[i], fd, interests);
  }

  /** Unregister answers EBADF for a descriptor that is not open and 0 otherwise, whether or not
      it was registered, and takes away no registration but the descriptor's own. */
  lemma UnregisterAnswers(ss: seq<State>, tr: seq<Action>, i: nat, fd: int)
    requires IsRun(ss, tr) && i < |tr| && tr[i] == DoUnregister(fd)
    ensures ResultOf(ss[i], tr[i]) == if fd !in ss[i].open then -EBADF else 0
    ensures forall r :: r in ss[i + 1].regs <==> r in ss[i].regs && !(r.fd == fd && Registered(ss[i], fd) && r.file == ss[i].open[fd])
    ensures forall r | r in ss[i + 1].regs :: ss[i + 1].regs[r] == ss[i].regs[r]
  {
    hide Represents, Probe;
    RunKeeps(ss, tr, i);
    assert Enabled(ss[i], tr[i]) && ss[i + 1] == Step(ss[i], tr[i]);
  }

  // ---- what is watched and what is reported ----

  /** After an accepted register or modify the kernel watches the descriptor's file for exactly
      what was asked, and for the peer's hangup; no other registration changes. */
  lemma WatchesAsAsked(ss: seq<State>, tr: seq<Action>, i: nat)
    requires IsRun(ss, tr) && i < |tr| && (tr[i].DoRegister? || tr[i].DoModify?) && ResultOf(ss[i], tr[i]) == 0
    ensures var a, s, s' := tr[i], ss[i], ss[i + 1];
      && a.fd in s.open && Reg(a.fd, s.open[a.fd]) in s'.regs
      && Asks(s'.regs[Reg(a.fd, s.open[a.fd])], a.interests, {PollRdHup})
      && (forall r | r != Reg(a.fd, s.open[a.fd]) :: (r in s'.regs <==> r in s.regs) && (r in s.regs ==> s'.regs[r] == s.regs[r]))
  {
    hide ResultOf, Step, Asks;
    SetIsAllOrNothing(ss, tr, i);
    WatchedAsk(tr[i].interests, {PollRdHup});
  }

  /** The entries of a batch that become events: the known descriptors, without the wake. */
  ghost function Known(m: map<int, nat>, wfd: int, batch: seq<Ready>): (r: seq<Ready>) {
    if batch == [] then []
    else
      var b := batch[|batch| - 1];
      Known(m, wfd, batch[..|batch| - 1]) + if b.fd != wfd && b.fd in m then [b] else []
  }

  ghost predicate Tells(ev: PollEvent, b: Ready, m: map<int, nat>) {
    && b.fd in m && ev.fd == b.fd && ev.token == m[b.fd]
    && Says(ev.flags, b.bits, {PollHup, PollRdHup})
  }

  lemma {:induction false} OwedTells(m: map<int, nat>, wfd: int, batch: seq<Ready>)
    ensures var out, known := Owed(m, wfd, batch), Known(m, wfd, batch);
      |out| == |known| && forall j | 0 <= j < |out| :: Tells(out[j], known[j], m)
  {
    hide Says;
    if batch != [] {
      OwedTells(m, wfd, batch[..|batch| - 1]);
      FlagsSay(batch[|batch| - 1].bits);
    }
  }

  /** A wait delivers one event for each known descriptor of the kernel's batch, in order: with
      the descriptor, its latest token, and flags that say readable, writable, end of file and
      error exactly as the kernel found them. */
  lemma EventsSayWhatIsReady(ss: seq<State>, tr: seq<Action>, i: nat, batch: seq<Ready>, cap: nat)
    requires IsRun(ss, tr) && i < |tr| && tr[i] == DoWait(batch, cap)
    ensures var m, out := CallerMap(ss, tr, i), ss[i + 1].out;
      var known := Known(m, ss[i].wfd, batch);
      && |out| == |known| <= cap
      && forall j | 0 <= j < |out| :: Tells(out[j], known[j], m)
  {
    hide Tells, Step;
    WaitDeliversLatestTokens(ss, tr, i, batch, cap);
    OwedTells(CallerMap(ss, tr, i), ss[i].wfd, batch);
    KnownFits(CallerMap(ss, tr, i), ss[i].wfd, batch);
    assert Enabled(ss[i], tr[i]);
  }

  lemma {:induction false} KnownFits(m: map<int, nat>, wfd: int, batch: seq<Ready>)
    ensures |Known(m, wfd, batch)| <= |batch|
  {
    if batch != [] {
      KnownFits(m, wfd, batch[..|batch| - 1]);
    }
  }
}
