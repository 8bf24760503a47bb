/** Runs of the epoll backend, from a new handle, that reach the states its promises exclude. */
module EpollWitnesses {
  import opened Errno
  import opened PollTypes
  import opened EpollTable
  import opened Epoll
  import opened EpollTheorems
  import opened EpollFiles

  /** A new handle in a process with the given open descriptors. */
  function NewHandle(open: map<int, nat>): (s: State)
    requires forall fd | fd in open :: 0 <= fd < 1000
    ensures Initial(s) && s.open == open && s.wfd == 1000
  {
    State(seq(CAP, _ => EMPTY), seq(CAP, _ => 0), open, map[], 1000, 0, [], map[])
  }

  function Registering(fd: int, token: nat): Action {
    DoRegister(fd, {Readable}, token, Faults(0, 0))
  }

  lemma Extend(ss: seq<State>, tr: seq<Action>, a: Action) returns (ss': seq<State>, tr': seq<Action>)
    requires IsRun(ss, tr) && Enabled(ss[|tr|], a)
    ensures IsRun(ss', tr') && tr' == tr + [a]
    ensures |ss'| == |tr'| + 1 && ss' == ss + [Step(ss[|tr|], a)]
  {
    hide Initial, Enabled, Step;
    ss', tr' := ss + [Step(ss[|tr|], a)], tr + [a];
  }

  /** The kernel adds an open descriptor it does not have, and the table takes it where the probe
      says. */
  lemma Accepted(s: State, fd: int, token: nat)
    requires |s.fds| == |s.toks| == CAP && fd >= 0 && fd != s.wfd && fd in s.open
    requires Reg(fd, s.open[fd]) !in s.regs && Probe(s.fds, fd) < CAP
    ensures Enabled(s, Registering(fd, token)) && ResultOf(s, Registering(fd, token)) == 0
    ensures var s' := Step(s, Registering(fd, token));
      && s'.fds == s.fds[Probe(s.fds, fd) := fd] && s'.open == s.open && s'.wfd == s.wfd
      && s'.regs.Keys == s.regs.Keys + {Reg(fd, s.open[fd])} && s'.latest == s.latest[fd := token]
  {
    hide Probe;
  }

  // ---- a full table ----

  ghost function Taken(fds: seq<int>): set<int> {
    set j | 0 <= j < |fds| && fds[j] != EMPTY
  }

  /** After `n` registrations of the descriptors below `n` and nothing else. */
  ghost predicate Filled(s: State, n: nat) {
    && Inv(s) && (forall fd | 0 <= fd < 301 :: fd in s.open && s.open[fd] == fd)
    && s.wfd == 1000 && |Taken(s.fds)| == n && TOMB !in s.fds
    && (forall r | r in s.regs :: r.fd < n) && (forall fd | fd in s.latest :: fd < n)
  }

  lemma {:induction false} Below(n: nat) returns (all: set<int>)
    ensures |all| == n && forall j :: j in all <==> 0 <= j < n
  {
    all := {};
    if n > 0 {
      all := Below(n - 1);
      all := all + {n - 1};
    }
  }

  lemma {:induction false} Descriptors(n: nat) returns (open: map<int, nat>)
    ensures forall fd :: fd in open <==> 0 <= fd < n
    ensures forall fd | 0 <= fd < n :: open[fd] == fd
  {
    open := map[];
    if n > 0 {
      open := Descriptors(n - 1);
      open := open[n - 1 := n - 1];
    }
  }

  lemma FullIffTaken(fds: seq<int>)
    requires |fds| == CAP
    ensures HasEmpty(fds) <==> |Taken(fds)| < CAP
  {
    var all := Below(CAP);
    assert Taken(fds) <= all;
    assert |all| == |Taken(fds)| + |all - Taken(fds)| by { assert all == Taken(fds) + (all - Taken(fds)); }
    if HasEmpty(fds) {
      var j :| 0 <= j < CAP && fds[j] == EMPTY;
      assert j in all - Taken(fds);
    } else {
      assert all == Taken(fds);
    }
  }

  lemma FillOne(s: State, n: nat)
    requires Filled(s, n) && n < CAP
    ensures var a := Registering(n, n); Enabled(s, a) && ResultOf(s, a) == 0 && Filled(Step(s, a), n + 1)
  {
    hide Represents, Probe, ResultOf, Step;
    Sizes(s);
    FullIffTaken(s.fds);
    LookupAgrees(s.fds, s.toks, s.latest, n);
    FreeCell(s, n);
    Accepted(s, n, n);
    StepKeeps(s, Registering(n, n));
    var at := Probe(s.fds, n);
    assert Taken(s.fds[at := n]) == Taken(s.fds) + {at as int};
  }

  lemma FreeCell(s: State, fd: nat)
    requires Inv(s) && |s.fds| == CAP && HasEmpty(s.fds) && fd !in s.latest && TOMB !in s.fds
    ensures Probe(s.fds, fd) < CAP && s.fds[Probe(s.fds, fd)] == EMPTY
  {
    ProbeDecides(s.fds, fd);
  }

  lemma {:induction false} Fill(n: nat) returns (ss: seq<State>, tr: seq<Action>)
    requires n <= CAP
    ensures IsRun(ss, tr) && |tr| == n && Filled(ss[n], n)
    ensures forall h | 0 <= h < n :: tr[h] == Registering(h, h) && ResultOf(ss[h], tr[h]) == 0
  {
    hide Filled, Step, ResultOf, Enabled;
    if n == 0 {
      ss, tr := Fresh();
    } else {
      ss, tr := Fill(n - 1);
      FillOne(ss[n - 1], n - 1);
      ss, tr := Extend(ss, tr, Registering(n - 1, n - 1));
    }
  }

  lemma Fresh() returns (ss: seq<State>, tr: seq<Action>)
    ensures IsRun(ss, tr) && tr == [] && Filled(ss[0], 0)
  {
    var open := Descriptors(301);
    var s := NewHandle(open);
    InitialInv(s);
    assert Taken(s.fds) == {};
    ss, tr := [s], [];
  }

  /** 256 registrations, all accepted, leave a table in which the probe for an open descriptor
      that was never registered answers the sentinel: unregistering it would read past the end. */
  lemma FullTableIsReached() returns (ss: seq<State>, tr: seq<Action>)
    ensures IsRun(ss, tr) && |tr| == CAP
    ensures forall h | 0 <= h < CAP :: tr[h].DoRegister? && ResultOf(ss[h], tr[h]) == 0
    ensures |ss[CAP].fds| == CAP && 300 in ss[CAP].open && 300 !in CallerMap(ss, tr, CAP) && Probe(ss[CAP].fds, 300) == CAP
  {
    hide Step, ResultOf, Probe, Enabled;
    ss, tr := Fill(CAP);
    FullIffTaken(ss[CAP].fds);
    LatestIsCallerMap(ss, tr, CAP);
    TableRefinesMap(ss, tr, CAP, 300);
  }

  // ---- duplicates ----

  /** A descriptor registered and closed while a duplicate keeps its file open. */
  ghost predicate Orphaned(s: State) {
    && Inv(s) && s.open == map[6 := 1] && s.wfd == 1000 && s.regs.Keys == {Reg(5, 1)} && s.latest == map[5 := 7]
    && HasEmpty(s.fds)
  }

  /** Two descriptors of one file, nothing registered. */
  ghost predicate Doubled(s: State) {
    && Inv(s) && s.open == map[5 := 1, 6 := 1] && s.wfd == 1000 && s.regs == map[] && s.latest == map[]
    && |s.fds| == |s.toks| == CAP && forall j | 0 <= j < CAP :: s.fds[j] == EMPTY
  }

  lemma Double() returns (ss: seq<State>, tr: seq<Action>)
    ensures IsRun(ss, tr) && tr == [Open(5, 1), Open(6, 1)] && Doubled(ss[2])
  {
    var s0 := NewHandle(map[]);
    InitialInv(s0);
    var s1 := Step(s0, Open(5, 1));
    StepKeeps(s0, Open(5, 1));
    StepKeeps(s1, Open(6, 1));
    ss, tr := [s0, s1, Step(s1, Open(6, 1))], [Open(5, 1), Open(6, 1)];
  }

  lemma OrphanOne(s: State)
    requires Doubled(s)
    ensures Enabled(s, Registering(5, 7))
    ensures var s1 := Step(s, Registering(5, 7)); Enabled(s1, Close(5)) && Orphaned(Step(s1, Close(5)))
  {
    hide Represents, Probe, Step;
    assert s.fds[0] == EMPTY && HasEmpty(s.fds);
    FreeCell(s, 5);
    Accepted(s, 5, 7);
    StepKeeps(s, Registering(5, 7));
    Sizes(Step(s, Registering(5, 7)));
    assert Step(s, Registering(5, 7)).regs.Keys == {Reg(5, 1)};
    ClosesOne(Step(s, Registering(5, 7)), Probe(s.fds, 5));
  }

  lemma ClosesOne(s: State, at: nat)
    requires Inv(s) && s.open == map[5 := 1, 6 := 1] && s.wfd == 1000 && s.regs.Keys == {Reg(5, 1)} && s.latest == map[5 := 7]
    requires |s.fds| == |s.toks| == CAP && at < CAP && forall j | 0 <= j < CAP && j != at :: s.fds[j] == EMPTY
    ensures Enabled(s, Close(5)) && Orphaned(Step(s, Close(5)))
  {
    hide Represents;
    StepKeeps(s, Close(5));
    var open := s.open - {5};
    assert 6 in open && open[6] == 1 && open == map[6 := 1];
    var empty := if at == 0 then 1 else 0;
    assert s.fds[empty] == EMPTY;
  }

  lemma Orphan() returns (ss: seq<State>, tr: seq<Action>)
    ensures IsRun(ss, tr) && tr == [Open(5, 1), Open(6, 1), Registering(5, 7), Close(5)] && Orphaned(ss[4])
  {
    hide Step, Doubled, Orphaned, Enabled;
    ss, tr := Double();
    OrphanOne(ss[2]);
    ss, tr := Extend(ss, tr, Registering(5, 7));
    ss, tr := Extend(ss, tr, Close(5));
  }

  lemma ProbesInRange(s: State, fd: int)
    requires Inv(s) && fd >= 0 && HasEmpty(s.fds)
    ensures |s.fds| == |s.toks| == CAP && Probe(s.fds, fd) < CAP
  {
    ProbeDecides(s.fds, fd);
  }

  /** Open, duplicate, register, close, unregister: the unregister fails with EBADF, the caller's
      map forgets the descriptor, and the kernel keeps its registration. */
  lemma RegistrationOutlivesUnregister() returns (ss: seq<State>, tr: seq<Action>)
    ensures IsRun(ss, tr) && tr == [Open(5, 1), Open(6, 1), Registering(5, 7), Close(5), DoUnregister(5)]
    ensures ResultOf(ss[4], tr[4]) == -EBADF && 5 !in CallerMap(ss, tr, 5) && Reg(5, 1) in ss[5].regs
    ensures !CompleteStep(ss[4], tr[4])
  {
    hide Step, Probe, Represents, HasEmpty;
    ss, tr := Orphan();
    ProbesInRange(ss[4], 5);
    UnregisterFails(ss[4]);
    ss, tr := Extend(ss, tr, DoUnregister(5));
    LatestIsCallerMap(ss, tr, 5);
  }

  lemma UnregisterFails(s: State)
    requires Orphaned(s) && |s.fds| == CAP && |s.toks| == CAP && Probe(s.fds, 5) < CAP
    ensures Enabled(s, DoUnregister(5)) && ResultOf(s, DoUnregister(5)) == -EBADF && !CompleteStep(s, DoUnregister(5))
    ensures 5 !in Step(s, DoUnregister(5)).latest && Reg(5, 1) in Step(s, DoUnregister(5)).regs
  {
    hide Probe, Represents, HasEmpty;
    UnregisterDrops(s, 5);
    assert Reg(5, 1) in s.regs;
  }

  /** When instead the number is reused for another file and registered, a wait can report the
      old file's readiness under the new token. */
  lemma StaleReadinessUnderNewToken() returns (ss: seq<State>, tr: seq<Action>)
    ensures IsRun(ss, tr)
    ensures tr == [Open(5, 1), Open(6, 1), Registering(5, 7), Close(5), Open(5, 2), Registering(5, 8),
                   DoWait([Ready(5, 1, {PollIn})], 1)]
    ensures ss[7].out == [PollEvent(8, 5, {Readable})] && !FreshStep(ss[5], tr[5])
  {
    hide Step, Probe, Represents, HasEmpty, Owed, FreshStep;
    ss, tr := Orphan();
    ProbesInRange(ss[4], 5);
    Reuses(ss[4]);
    ss, tr := Extend(ss, tr, Open(5, 2));
    ss, tr := Extend(ss, tr, Registering(5, 8));
    ss, tr := Extend(ss, tr, DoWait([Ready(5, 1, {PollIn})], 1));
    WaitDeliversLatestTokens(ss, tr, 6, [Ready(5, 1, {PollIn})], 1);
    LatestIsCallerMap(ss, tr, 6);
    OwedOne(ss[6].latest, 1000, Ready(5, 1, {PollIn}));
  }

  lemma OwedOne(m: map<int, nat>, wfd: int, b: Ready)
    requires b.fd != wfd && b.fd in m
    ensures Owed(m, wfd, [b]) == [PollEvent(m[b.fd], b.fd, FlagsOf(b.bits))]
  {
    assert [b][..0] == [] && Owed(m, wfd, []) == [];
  }

  lemma Reuses(s: State)
    requires Orphaned(s) && |s.fds| == |s.toks| == CAP && Probe(s.fds, 5) < CAP
    ensures Enabled(s, Open(5, 2))
    ensures var s1 := Step(s, Open(5, 2));
      Enabled(s1, Registering(5, 8)) && !FreshStep(s1, Registering(5, 8)) &&
      var s2 := Step(s1, Registering(5, 8));
      Enabled(s2, DoWait([Ready(5, 1, {PollIn})], 1)) && s2.latest == map[5 := 8] && s2.wfd == 1000
  {
    hide Probe, Represents, HasEmpty;
    var s1 := Step(s, Open(5, 2));
    Accepted(s1, 5, 8);
    assert Reg(5, 1) in s1.regs;
    var s2 := Step(s1, Registering(5, 8));
    assert Reg(5, 1) in s2.regs.Keys;
  }
}
