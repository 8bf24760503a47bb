/** The epoll readiness backend over whole runs: the token table, the kernel's registrations,
    and a process that opens, duplicates, closes and reuses descriptors at any time. */
module Epoll {
  import opened Errno
  import opened PollTypes
  import opened EpollTable

  /** The kernel keys a registration by descriptor number and open file. */
  datatype Reg = Reg(fd: int, file: nat)

  datatype State = State(
    fds: seq<int>,
    toks: seq<nat>,
    open: map<int, nat>,         // the process's descriptors -> open file
    regs: map<Reg, set<Bit>>,    // the kernel's interest list
    wfd: int,
    counter: nat,                // the wake eventfd
    out: seq<PollEvent>,         // what the last wait delivered
    latest: map<int, nat>)       // history: token of the latest accepted register or modify

  /** A batch entry: a registration the kernel finds ready. */
  datatype Ready = Ready(fd: int, file: nat, bits: set<Bit>)

  // ---- epoll_ctl, with `fault` the error the kernel may add of its own ----

  function CtlAdd(s: State, fd: int, interests: set<Flag>, fault: int): (State, int) {
    if fd !in s.open then (s, -EBADF)
    else if Reg(fd, s.open[fd]) in s.regs then (s, -EEXIST)
    else if fault < 0 then (s, fault)
    else (s.(regs := s.regs[Reg(fd, s.open[fd]) := WatchedBits(interests, {PollRdHup})]), 0)
  }

  function CtlMod(s: State, fd: int, interests: set<Flag>, fault: int): (State, int) {
    if fd !in s.open then (s, -EBADF)
    else if Reg(fd, s.open[fd]) !in s.regs then (s, -ENOENT)
    else if fault < 0 then (s, fault)
    else (s.(regs := s.regs[Reg(fd, s.open[fd]) := WatchedBits(interests, {PollRdHup})]), 0)
  }

  /** A delete tolerates a registration that is not there. */
  function CtlDel(s: State, fd: int): (State, int) {
    if fd !in s.open then (s, -EBADF)
    else (s.(regs := s.regs - {Reg(fd, s.open[fd])}), 0)
  }

  // ---- the entry points ----

  datatype Faults = Faults(add: int, mod: int)

  /** The kernel's part of register and modify: add, or modify, or modify after add met an
      existing entry. */
  function Ctl(s: State, fd: int, interests: set<Flag>, isAdd: bool, f: Faults): (State, int) {
    var (s1, rc) := if isAdd then CtlAdd(s, fd, interests, f.add) else CtlMod(s, fd, interests, f.mod);
    if isAdd && rc == -EEXIST then CtlMod(s1, fd, interests, f.mod) else (s1, rc)
  }

  function Set(s: State, fd: int, interests: set<Flag>, token: nat, isAdd: bool, f: Faults): (State, int)
    requires |s.fds| == |s.toks| == CAP
  {
    if !ValidInterests(interests) then (s, -EINVAL)
    else if fd < 0 then (s, -EBADF)
    else
      var slot := Probe(s.fds, fd);
      if slot >= CAP then (s, -ENOSPC)
      else
        var (s1, rc) := Ctl(s, fd, interests, isAdd, f);
        if rc != 0 then (s1, rc)
        else (s1.(fds := s.fds[slot := fd], toks := s.toks[slot := token], latest := s.latest[fd := token]), 0)
  }

  function Unregister(s: State, fd: int): (State, int)
    requires |s.fds| == CAP && (fd >= 0 ==> Probe(s.fds, fd) < CAP)
  {
    if fd < 0 then (s, -EBADF)
    else
      var (s1, rc) := CtlDel(s, fd);
      var slot := Probe(s.fds, fd);
      if s.fds[slot] == fd then (s1.(fds := s.fds[slot := TOMB], latest := s.latest - {fd}), rc)
      else (s1, rc)
  }

  /** The delivery loop of a wait over the kernel's batch. */
  function Collect(fds: seq<int>, toks: seq<nat>, wfd: int, batch: seq<Ready>, cap: nat): seq<PollEvent>
    requires |fds| == |toks| == CAP && forall k | 0 <= k < |batch| :: batch[k].fd >= 0
  {
    if batch == [] then []
    else
      var out := Collect(fds, toks, wfd, batch[..|batch| - 1], cap);
      var b := batch[|batch| - 1];
      if b.fd == wfd || |out| >= cap then out
      else
        var slot := Probe(fds, b.fd);
        if slot >= CAP || fds[slot] != b.fd then out
        else out + [PollEvent(toks[slot], b.fd, FlagsOf(b.bits))]
  }

  ghost predicate SawWake(s: State, batch: seq<Ready>) {
    exists k :: 0 <= k < |batch| && batch[k].fd == s.wfd
  }

  // ---- runs ----

  datatype Action =
    | DoRegister(fd: int, interests: set<Flag>, token: nat, f: Faults)
    | DoModify(fd: int, interests: set<Flag>, token: nat, f: Faults)
    | DoUnregister(fd: int)
    | DoWait(batch: seq<Ready>, cap: nat)
    | DoWake
    | Open(fd: int, file: nat)   // open, or duplicate when the file is already open
    | Close(fd: int)

  ghost predicate Initial(s: State) {
    && |s.fds| == |s.toks| == CAP && (forall j | 0 <= j < CAP :: s.fds[j] == EMPTY)
    && s.wfd >= 0 && s.wfd !in s.open && (forall fd | fd in s.open :: fd >= 0) && s.regs == map[] && s.counter == 0 && s.out == []
    && s.latest == map[]
  }

  /** The kernel reports registered descriptors, and the wake eventfd at most once and only while
      its counter is nonzero; at most 256 entries and never more than the caller has room for. */
  ghost predicate Reportable(s: State, batch: seq<Ready>, cap: nat) {
    && 0 < cap && |batch| <= cap && |batch| <= 256
    && (forall k | 0 <= k < |batch| ::
          if batch[k].fd == s.wfd then s.counter > 0 else Reg(batch[k].fd, batch[k].file) in s.regs)
    && (forall k, l | 0 <= k < l < |batch| && batch[k].fd == s.wfd :: batch[l].fd != s.wfd)
  }

  ghost predicate Enabled(s: State, a: Action) {
    && |s.fds| == |s.toks| == CAP
    && match a
       case DoRegister(fd, _, _, f) => fd != s.wfd && f.add != -EEXIST
       case DoModify(fd, _, _, _) => fd != s.wfd
       case DoUnregister(fd) => fd != s.wfd && (fd >= 0 ==> Probe(s.fds, fd) < CAP)
       case DoWait(batch, cap) => Reportable(s, batch, cap) && forall k | 0 <= k < |batch| :: batch[k].fd >= 0
       case DoWake => true
       case Open(fd, _) => fd >= 0 && fd != s.wfd && fd !in s.open
       case Close(fd) => fd in s.open
  }

  /** Closing a descriptor retires the registrations of its file only if no other descriptor
      still refers to that file. */
  ghost function CloseFd(s: State, fd: int): State
    requires fd in s.open
  {
    var file := s.open[fd];
    var open := s.open - {fd};
    if exists other :: other in open && open[other] == file then s.(open := open)
    else s.(open := open, regs := map r | r in s.regs && r.file != file :: s.regs[r])
  }

  ghost function Step(s: State, a: Action): State
    requires Enabled(s, a)
  {
    match a
    case DoRegister(fd, interests, token, f) => Set(s, fd, interests, token, true, f).0
    case DoModify(fd, interests, token, f) => Set(s, fd, interests, token, false, f).0
    case DoUnregister(fd) => Unregister(s, fd).0
    case DoWait(batch, cap) =>
      var s1 := s.(out := Collect(s.fds, s.toks, s.wfd, batch, cap));
      if SawWake(s, batch) then s1.(counter := 0) else s1
    case DoWake =>
      s.(counter := if s.counter < EVENTFD_MAX then s.counter + 1 else s.counter)
    case Open(fd, file) => s.(open := s.open[fd := file])
    case Close(fd) => CloseFd(s, fd)
  }

  ghost predicate IsRun(ss: seq<State>, tr: seq<Action>) {
    && |ss| == |tr| + 1 && Initial(ss[0])
    && forall i | 0 <= i < |tr| :: Enabled(ss[i], tr[i]) && ss[i + 1] == Step(ss[i], tr[i])
  }

  // ---- the invariant of every run ----

  ghost predicate Inv(s: State) {
    && Represents(s.fds, s.toks, s.latest)
    && s.wfd >= 0 && s.wfd !in s.latest && s.wfd !in s.open
    && (forall r | r in s.regs :: r.fd >= 0 && r.fd != s.wfd)
    && (forall fd | fd in s.open :: fd >= 0)
  }

  lemma SetKeeps(s: State, fd: int, interests: set<Flag>, token: nat, isAdd: bool, f: Faults)
    requires Inv(s) && fd != s.wfd
    ensures Inv(Set(s, fd, interests, token, isAdd, f).0)
  {
    hide Represents, Probe;
    if fd >= 0 {
      assert |s.fds| == |s.toks| == CAP by { Sizes(s); }
      if Probe(s.fds, fd) < CAP {
        InsertUpdatesMap(s.fds, s.toks, s.latest, fd, token);
      }
    }
  }

  lemma Sizes(s: State)
    requires Inv(s)
    ensures |s.fds| == |s.toks| == CAP
  {
  }

  lemma UnregisterKeeps(s: State, fd: int)
    requires Inv(s) && (fd >= 0 ==> Probe(s.fds, fd) < CAP)
    ensures Inv(Unregister(s, fd).0)
  {
    if fd >= 0 {
      var slot := Probe(s.fds, fd);
      if s.fds[slot] == fd {
        DeleteRemovesKey(s.fds, s.toks, s.latest, slot);
      }
    }
  }

  lemma StepKeeps(s: State, a: Action)
    requires Inv(s) && Enabled(s, a)
    ensures Inv(Step(s, a))
  {
    hide Represents, Probe, Collect;
    match a {
      case DoRegister(fd, interests, token, f) => SetKeeps(s, fd, interests, token, true, f);
      case DoModify(fd, interests, token, f) => SetKeeps(s, fd, interests, token, false, f);
      case DoUnregister(fd) => UnregisterKeeps(s, fd);
      case _ =>
    }
  }

  lemma {:induction false} RunKeeps(ss: seq<State>, tr: seq<Action>, i: nat)
    requires IsRun(ss, tr) && i < |ss|
    ensures Inv(ss[i])
  {
    if i > 0 {
      RunKeeps(ss, tr, i - 1);
      StepKeeps(ss[i - 1], tr[i - 1]);
    } else {
      InitialInv(ss[0]);
    }
  }

  lemma InitialInv(s: State)
    requires Initial(s)
    ensures Inv(s)
  {
  }
}
