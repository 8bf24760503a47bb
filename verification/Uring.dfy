/** The io_uring readiness backend over whole runs: one-shot polls re-armed under fresh
    sequence numbers, a registration table, and a kernel that consumes submissions and posts
    completions whenever it likes. */
module Uring {
  import opened Errno
  import opened PollTypes

  const WAKE: nat := 0xFFFF_FFFF_FFFF_FFFE
  const TIMEOUT: nat := 0xFFFF_FFFF_FFFF_FFFD
  const FIRST_SEQ: nat := 0x1000

  /** One row of the registration table; `fd` is -1 in an empty row and `ud`, the user_data of
      the live poll, is 0 in a row that waits to be re-armed. */
  datatype Reg = Reg(fd: int, ud: nat, token: nat, interests: set<Flag>)

  datatype Sqe =
    | PollAdd(fd: int, mask: set<Bit>, ud: nat)
    | PollRemove(target: nat)
    | TimeoutAdd
    | TimeoutRemove

  datatype Res = Ready(bits: set<Bit>) | Failed(errno: nat)
  datatype Cqe = Cqe(ud: nat, res: Res)
  datatype Delivery = Delivery(ud: nat, event: PollEvent)

  /** How the kernel treats one enter: how many submissions it takes, and the error it returns if
      `rc` is negative; it returns how many it took otherwise. */
  datatype Enter = Enter(take: nat, rc: int)

  datatype State = State(
    table: seq<Reg>,
    count: nat,
    nextSeq: nat,
    wakeArmed: bool,
    timeoutArmed: bool,
    room: nat,                // submission ring capacity
    sq: seq<Sqe>,             // staged, not yet taken by the kernel
    kernel: seq<Sqe>,         // taken by the kernel, not yet completed
    cq: seq<Cqe>,             // completions posted and not yet drained
    counter: nat,             // the wake eventfd
    out: seq<PollEvent>,      // the caller's buffer for the current wait
    issued: map<nat, Reg>,    // history: what each sequence number was issued for
    delivered: seq<Delivery>) // history: every event delivered, with its sequence number

  function UserData(e: Sqe): nat {
    match e
    case PollAdd(_, _, ud) => ud
    case TimeoutAdd => TIMEOUT
    case _ => 0
  }

  /** The poll on the internal eventfd, which no caller ever registers. */
  const WAKE_POLL: Sqe := PollAdd(-1, {PollIn}, WAKE)

  function AddFor(r: Reg): Sqe {
    PollAdd(r.fd, WatchedBits(r.interests, {PollHup, PollErr}), r.ud)
  }

  // ---- the submission side ----

  predicate Full(s: State) {
    |s.sq| >= s.room
  }

  function Stage(s: State, e: Sqe): State {
    s.(sq := s.sq + [e])
  }

  /** An enter: the kernel takes a prefix of what is staged and returns a count or an error. */
  function Submit(s: State, minComplete: nat, e: Enter): (State, int) {
    if s.sq == [] && minComplete == 0 then (s, 0)
    else
      var k := if e.take <= |s.sq| then e.take else |s.sq|;
      (s.(sq := s.sq[k..], kernel := s.kernel + s.sq[..k]), if e.rc < 0 then e.rc else k)
  }

  /** Take the next sequence number for `r`. */
  function Issue(s: State, r: Reg): State {
    s.(nextSeq := s.nextSeq + 1, issued := s.issued[r.ud := r])
  }

  // ---- the table ----

  function Hash(fd: int, cap: nat): (h: nat)
    requires fd >= 0 && cap > 0
    ensures h < cap
  {
    (fd * 2654435761) % cap
  }

  /** Linear probe, at most `n` steps from `h`, for `fd` or an empty row. */
  function ProbeFrom(table: seq<Reg>, fd: int, h: nat, n: nat): (slot: nat)
    requires h < |table|
    ensures slot < |table|
    decreases n
  {
    if n == 0 || table[h].fd == -1 || table[h].fd == fd then h
    else ProbeFrom(table, fd, if h + 1 == |table| then 0 else h + 1, n - 1)
  }

  function Probe(table: seq<Reg>, fd: int): (slot: nat)
    requires table != [] && fd >= 0
    ensures slot < |table|
  {
    ProbeFrom(table, fd, Hash(fd, |table|), |table|)
  }

  /** The first live row whose poll carries `ud`, or the table length. */
  function FindFrom(table: seq<Reg>, ud: nat, i: nat): (j: nat)
    requires i <= |table|
    ensures i <= j <= |table|
    ensures j < |table| ==> table[j].fd >= 0 && table[j].ud == ud
    ensures forall k | i <= k < j :: !(table[k].fd >= 0 && table[k].ud == ud)
    decreases |table| - i
  {
    if i == |table| || (table[i].fd >= 0 && table[i].ud == ud) then i else FindFrom(table, ud, i + 1)
  }

  // ---- the entry points ----

  function Replace(s: State, slot: nat, r: Reg, e: Enter): (State, int)
    requires slot < |s.table|
  {
    if Full(s) then (s, -EAGAIN)
    else
      var s1 := Stage(s, PollRemove(s.table[slot].ud));
      if Full(s1) then (s1, -EAGAIN)
      else
        var (s2, rc) := Submit(Stage(s1, AddFor(r)), 0, e);
        if rc < 0 then (s2, rc) else (s2.(table := s2.table[slot := r]), 0)
  }

  /** Stage a poll, flushing a full ring once, and submit. */
  function SubmitPollAdd(s: State, r: Reg, flush: Enter, e: Enter): (State, int) {
    if !Full(s) then Submit(Stage(s, AddFor(r)), 0, e)
    else
      var (s1, rc) := Submit(s, 0, flush);
      if rc < 0 then (s1, rc)
      else if Full(s1) then (s1, -EAGAIN)
      else Submit(Stage(s1, AddFor(r)), 0, e)
  }

  function Install(s: State, slot: nat, r: Reg, flush: Enter, e: Enter): (State, int)
    requires slot < |s.table|
  {
    var (s1, rc) := SubmitPollAdd(s, r, flush, e);
    if rc < 0 then (s1, rc)
    else (s1.(table := s1.table[slot := r], count := s1.count + 1), 0)
  }

  function Register(s: State, fd: int, interests: set<Flag>, token: nat, flush: Enter, e: Enter): (State, int)
    requires s.table != []
  {
    if !ValidInterests(interests) then (s, -EINVAL)
    else if fd < 0 then (s, -EBADF)
    else if s.count >= |s.table| then (s, -ENOSPC)
    else
      var slot := Probe(s.table, fd);
      var r := Reg(fd, s.nextSeq, token, interests);
      if s.table[slot].fd == fd then Replace(Issue(s, r), slot, r, e)
      else Install(Issue(s, r), slot, r, flush, e)
  }

  function Unregister(s: State, fd: int, e: Enter): (State, int)
    requires s.table != []
  {
    if fd < 0 then (s, -EBADF)
    else
      var slot := Probe(s.table, fd);
      if s.table[slot].fd != fd then (s, 0)
      else if Full(s) then (s, -EAGAIN)
      else
        var (s1, rc) := Submit(Stage(s, PollRemove(s.table[slot].ud)), 0, e);
        if rc < 0 then (s1, rc) else (Retire(s1, slot), 0)
  }

  function Retire(s: State, i: nat): State
    requires i < |s.table|
  {
    s.(table := s.table[i := s.table[i].(fd := -1)], count := if s.count > 0 then s.count - 1 else 0)
  }

  /** Re-arm the rows from `i` on whose one-shot poll has fired; stops at a full ring. */
  function Rearm(s: State, i: nat): (State, bool)
    requires i <= |s.table|
    decreases |s.table| - i
  {
    if i == |s.table| then (s, true)
    else if s.table[i].fd < 0 || s.table[i].ud != 0 then Rearm(s, i + 1)
    else
      var r := s.table[i].(ud := s.nextSeq);
      var s1 := Issue(s, r);
      if Full(s1) then (s1, false)
      else Rearm(Stage(s1, AddFor(r)).(table := s1.table[i := r]), i + 1)
  }

  function RearmWake(s: State): (State, bool) {
    if s.wakeArmed then (s, true)
    else if Full(s) then (s, false)
    else (Stage(s, WAKE_POLL).(wakeArmed := true), true)
  }

  function ArmTimeout(s: State): (State, bool) {
    var s1 := if s.timeoutArmed && !Full(s) then Stage(s, TimeoutRemove).(timeoutArmed := false) else s;
    if Full(s1) then (s1, false) else (Stage(s1, TimeoutAdd).(timeoutArmed := true), true)
  }

  /** A wait up to its blocking submit; the flag says whether it got that far. */
  function Arm(s: State, timed: bool): (State, bool) {
    var (s1, ok1) := Rearm(s, 0);
    if !ok1 then (s1, false)
    else
      var (s2, ok2) := RearmWake(s1);
      if !ok2 || !timed then (s2, ok2) else ArmTimeout(s2)
  }

  /** Consume the oldest completion. */
  function DrainOne(s: State, cap: nat): State
    requires s.cq != []
  {
    var c := s.cq[0];
    var s0 := s.(cq := s.cq[1..]);
    if c.ud == TIMEOUT then s0.(timeoutArmed := false)
    else if c.ud == WAKE then s0.(wakeArmed := false, counter := 0)
    else
      var i := FindFrom(s.table, c.ud, 0);
      if i == |s.table| then s0
      else if c.res.Failed? then Retire(s0, i)
      else Fire(s0, i, c, cap)
  }

  /** Report a one-shot poll that fired, if there is room, and leave its row to be re-armed. */
  function Fire(s: State, i: nat, c: Cqe, cap: nat): State
    requires i < |s.table| && c.res.Ready?
  {
    var r := s.table[i];
    var s1 := s.(table := s.table[i := r.(ud := 0)]);
    if |s.out| >= cap then s1
    else
      var ev := PollEvent(r.token, r.fd, FlagsOf(c.res.bits - {PollRdHup}));
      s1.(out := s.out + [ev], delivered := s.delivered + [Delivery(c.ud, ev)])
  }

  function DrainAll(s: State, cap: nat): State
    decreases |s.cq|
  {
    if s.cq == [] then s else DrainAll(DrainOne(s, cap), cap)
  }

  // ---- runs ----

  datatype Action =
    | DoRegister(fd: int, interests: set<Flag>, token: nat, flush: Enter, e: Enter)
    | DoUnregister(fd: int, e: Enter)
    | DoArm(timed: bool, e: Enter)
    | DoDrain(cap: nat)
    | DoWake
    | Complete(i: nat, res: Res)

  ghost predicate Initial(s: State) {
    && s.table != [] && (forall i | 0 <= i < |s.table| :: s.table[i].fd == -1)
    && s.count == 0 && s.nextSeq == FIRST_SEQ && s.wakeArmed && !s.timeoutArmed
    && s.cq == []
    && (if s.sq == [] then s.kernel == [WAKE_POLL] else s.sq == [WAKE_POLL] && s.kernel == [])
    && s.counter == 0 && s.issued == map[] && s.delivered == []
  }

  /** The kernel may complete anything it has taken, once, with any result; the poll on the
      internal eventfd completes only when that eventfd is readable. A wait with no room for events is refused
      before it does anything. */
  ghost predicate Enabled(s: State, a: Action) {
    && s.table != []
    && (a.DoDrain? ==> a.cap > 0)
    && (a.Complete? ==> a.i < |s.kernel| && (UserData(s.kernel[a.i]) == WAKE ==> s.counter > 0))
  }

  ghost function Step(s: State, a: Action): State
    requires Enabled(s, a)
  {
    match a
    case DoRegister(fd, interests, token, flush, e) => Register(s, fd, interests, token, flush, e).0
    case DoUnregister(fd, e) => Unregister(s, fd, e).0
    case DoArm(timed, e) =>
      var (s1, ok) := Arm(s, timed);
      if ok then Submit(s1, 1, e).0 else s1
    case DoDrain(cap) => DrainAll(s.(out := []), cap)
    case DoWake =>
      s.(counter := if s.counter < EVENTFD_MAX then s.counter + 1 else s.counter)
    case Complete(i, res) =>
      s.(kernel := s.kernel[..i] + s.kernel[i + 1..], cq := s.cq + [Cqe(UserData(s.kernel[i]), res)])
  }

  ghost predicate IsRun(ss: seq<State>, tr: seq<Action>) {
    && |ss| == |tr| + 1 && Initial(ss[0])
    && forall i | 0 <= i < |tr| :: Enabled(ss[i], tr[i]) && ss[i + 1] == Step(ss[i], tr[i])
  }
}
