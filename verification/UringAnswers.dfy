/** What the io_uring entry points answer and what they send to the kernel. */
module UringAnswers {
  import opened Errno
  import opened PollTypes
  import opened Uring
  import opened UringRuns
  import opened UringTheorems

  // ---- answers ----

  /** What an enter answers when something is staged: its error, or success. */
  function Entered(e: Enter): int {
    if e.rc < 0 then e.rc else 0
  }

  /** How many staged requests an enter leaves in the ring. */
  function Left(s: State, e: Enter): nat {
    if e.take <= |s.sq| then |s.sq| - e.take else 0
  }

  /** The answer of an accepted request to replace a row's poll: the ring must have room for the
      removal and the new poll; nothing is flushed for them. */
  function ReplaceAnswer(s: State, e: Enter): int {
    if |s.sq| + 2 > s.room then -EAGAIN else Entered(e)
  }

  /** The answer for a new row: a full ring is flushed once. */
  function InstallAnswer(s: State, flush: Enter, e: Enter): int {
    if |s.sq| < s.room then Entered(e)
    else if |s.sq| > 0 && flush.rc < 0 then flush.rc
    else if (if |s.sq| > 0 then Left(s, flush) else 0) >= s.room then -EAGAIN
    else Entered(e)
  }

  lemma ReplaceAnswers(s: State, slot: nat, r: Reg, e: Enter)
    requires slot < |s.table|
    ensures Replace(s, slot, r, e).1 == ReplaceAnswer(s, e)
  {
  }

  lemma InstallAnswers(s: State, slot: nat, r: Reg, flush: Enter, e: Enter)
    requires slot < |s.table|
    ensures Install(s, slot, r, flush, e).1 == InstallAnswer(s, flush, e)
  {
  }

  /** Every answer of register. The table is full when every row is live, even for a descriptor
      that has one; a row of its own is replaced, and otherwise an empty one is taken. */
  lemma RegisterAnswers(ss: seq<State>, tr: seq<Action>, i: nat, fd: int, interests: set<Flag>, token: nat, flush: Enter, e: Enter)
    requires IsRun(ss, tr) && i < |tr| && tr[i] == DoRegister(fd, interests, token, flush, e) && ss[i].nextSeq < TIMEOUT
    ensures ss[i].table != []
    ensures var s := ss[i];
      Uring.Register(s, fd, interests, token, flush, e).1 ==
        if !(interests == {Readable} || interests == {Writable} || interests == {Readable, Writable}) then -EINVAL
        else if fd < 0 then -EBADF
        else if forall row | 0 <= row < |s.table| :: s.table[row].fd >= 0 then -ENOSPC
        else if s.table[Probe(s.table, fd)].fd == fd then ReplaceAnswer(s, e)
        else InstallAnswer(s, flush, e)
  {
    hide Inv, Probe, Replace, Install, ReplaceAnswer, InstallAnswer, ValidInterests;
    InterestsAre(interests);
    RunKeeps(ss, tr, i);
    var s := ss[i];
    assert Enabled(s, tr[i]);
    FullIff(s);
    if fd >= 0 {
      var r := Reg(fd, s.nextSeq, token, interests);
      ReplaceAnswers(Issue(s, r), Probe(s.table, fd), r, e);
      InstallAnswers(Issue(s, r), Probe(s.table, fd), r, flush, e);
      IssueApart(s, r, flush, e);
    }
  }

  lemma IssueApart(s: State, r: Reg, flush: Enter, e: Enter)
    ensures ReplaceAnswer(Issue(s, r), e) == ReplaceAnswer(s, e) && InstallAnswer(Issue(s, r), flush, e) == InstallAnswer(s, flush, e)
  {
  }

  lemma FullIff(s: State)
    requires Inv(s)
    ensures s.count >= |s.table| <==> forall row | 0 <= row < |s.table| :: s.table[row].fd >= 0
  {
    LiveRowsFill(s.table);
  }

  lemma {:induction false} LiveRowsFill(table: seq<Reg>)
    ensures |LiveRows(table)| <= |table|
    ensures |LiveRows(table)| == |table| <==> forall row | 0 <= row < |table| :: table[row].fd >= 0
  {
    if table != [] {
      var n := |table| - 1;
      LiveRowsFill(table[..n]);
      assert LiveRows(table) == LiveRows(table[..n]) + if table[n].fd >= 0 then {n} else {};
    }
  }

  /** Every answer of unregister. */
  lemma UnregisterAnswers(ss: seq<State>, tr: seq<Action>, i: nat, fd: int, e: Enter)
    requires IsRun(ss, tr) && i < |tr| && tr[i] == DoUnregister(fd, e)
    ensures ss[i].table != []
    ensures var s := ss[i];
      Uring.Unregister(s, fd, e).1 ==
        if fd < 0 then -EBADF
        else if s.table[Probe(s.table, fd)].fd != fd then 0
        else if |s.sq| >= s.room then -EAGAIN
        else Entered(e)
  {
    hide Probe;
    assert Enabled(ss[i], tr[i]);
  }

  /** What a call returns to its caller. */
  ghost function ResultOf(s: State, a: Action): int
    requires Enabled(s, a)
  {
    match a
    case DoRegister(fd, interests, token, flush, e) => Register(s, fd, interests, token, flush, e).1
    case DoUnregister(fd, e) => Unregister(s, fd, e).1
    case _ => 0
  }

  // ---- what is watched ----

  /** Every poll in the ring or in the kernel watches, besides hangup and error, exactly what was
      asked when its number was issued, on that descriptor; the wake's watches its eventfd. */
  lemma PollsAsk(ss: seq<State>, tr: seq<Action>, i: nat, p: Sqe)
    requires IsRun(ss, tr) && i < |ss| && ss[i].nextSeq < TIMEOUT
    requires (p in ss[i].sq || p in ss[i].kernel) && p.PollAdd?
    ensures p.ud == WAKE ==> p.fd == -1 && p.mask == {PollIn}
    ensures p.ud != WAKE ==> p.ud in ss[i].issued && p.fd == ss[i].issued[p.ud].fd && Asks(p.mask, ss[i].issued[p.ud].interests, {PollHup, PollErr})
  {
    hide Asks;
    RunKeeps(ss, tr, i);
    if p != WAKE_POLL {
      WatchedAsk(ss[i].issued[p.ud].interests, {PollHup, PollErr});
    }
  }

  // ---- what a wait sends ----

  /** A fresh poll for every live row from `i` on that waits to be re-armed, in row order, under
      consecutive numbers from `next`. */
  function Rearms(table: seq<Reg>, i: nat, next: nat): (q: seq<Sqe>)
    requires i <= |table|
    decreases |table| - i
  {
    if i == |table| then []
    else if table[i].fd >= 0 && table[i].ud == 0 then [AddFor(table[i].(ud := next))] + Rearms(table, i + 1, next + 1)
    else Rearms(table, i + 1, next)
  }

  /** Everything a wait has to send before it can block. */
  function Needed(s: State, timed: bool): seq<Sqe> {
    Rearms(s.table, 0, s.nextSeq)
    + (if s.wakeArmed then [] else [WAKE_POLL])
    + (if !timed then [] else if s.timeoutArmed then [TimeoutRemove, TimeoutAdd] else [TimeoutAdd])
  }

  function Free(s: State): nat {
    if |s.sq| < s.room then s.room - |s.sq| else 0
  }

  /** Only numbers change, and only of rows that waited to be re-armed. */
  ghost predicate SameRows(t: seq<Reg>, t': seq<Reg>) {
    && |t'| == |t|
    && forall i | 0 <= i < |t| :: t'[i] == t[i] || (t[i].fd >= 0 && t[i].ud == 0 && t'[i] == t[i].(ud := t'[i].ud))
  }

  /** `s'` is `s` with as much of `q` staged as fits; `ok` says whether all of it did. */
  ghost predicate Staged(s: State, s': State, q: seq<Sqe>, ok: bool) {
    && s'.kernel == s.kernel && s'.room == s.room && SameRows(s.table, s'.table)
    && (ok <==> |q| <= Free(s))
    && s'.sq == s.sq + if |q| <= Free(s) then q else q[..Free(s)]
  }

  lemma StagedThen(s: State, s1: State, s2: State, p: seq<Sqe>, q: seq<Sqe>, ok: bool)
    requires Staged(s, s1, p, true) && Staged(s1, s2, q, ok) && s2.table == s1.table
    ensures Staged(s, s2, p + q, ok)
  {
    if !ok {
      assert (p + q)[..Free(s)] == p + q[..Free(s1)];
    }
  }

  lemma StagedCut(s: State, s': State, p: seq<Sqe>, q: seq<Sqe>)
    requires Staged(s, s', p, false)
    ensures Staged(s, s', p + q, false)
  {
    assert (p + q)[..Free(s)] == p[..Free(s)];
  }

  lemma StageOne(s: State, s': State, e: Sqe)
    requires !Full(s) && s'.sq == s.sq + [e] && s'.kernel == s.kernel && s'.room == s.room && SameRows(s.table, s'.table)
    ensures Staged(s, s', [e], true)
  {
  }

  lemma {:induction false} RearmStages(s: State, i: nat)
    requires i <= |s.table|
    ensures Staged(s, Rearm(s, i).0, Rearms(s.table, i, s.nextSeq), Rearm(s, i).1)
    ensures forall k | 0 <= k < i :: Rearm(s, i).0.table[k] == s.table[k]
    ensures Rearm(s, i).0.wakeArmed == s.wakeArmed && Rearm(s, i).0.timeoutArmed == s.timeoutArmed
    decreases |s.table| - i
  {
    if i < |s.table| {
      if s.table[i].fd < 0 || s.table[i].ud != 0 {
        RearmStages(s, i + 1);
      } else {
        var r := s.table[i].(ud := s.nextSeq);
        var s3 := Stage(Issue(s, r), AddFor(r)).(table := s.table[i := r]);
        if !Full(s) {
          RearmStages(s3, i + 1);
          RearmsTail(s.table, i, r, s.nextSeq + 1);
          RearmJoins(s, s3, i);
        }
      }
    }
  }

  lemma {:induction false} RearmsTail(table: seq<Reg>, i: nat, r: Reg, next: nat)
    requires i < |table|
    ensures Rearms(table[i := r], i + 1, next) == Rearms(table, i + 1, next)
  {
    RearmsSame(table, table[i := r], i + 1, next);
  }

  lemma {:induction false} RearmsSame(t: seq<Reg>, t': seq<Reg>, i: nat, next: nat)
    requires |t'| == |t| && i <= |t| && forall k | i <= k < |t| :: t'[k] == t[k]
    ensures Rearms(t', i, next) == Rearms(t, i, next)
    decreases |t| - i
  {
    if i < |t| {
      RearmsSame(t, t', i + 1, next);
      RearmsSame(t, t', i + 1, next + 1);
    }
  }

  lemma RearmJoins(s: State, s3: State, i: nat)
    requires i < |s.table| && s.table[i].fd >= 0 && s.table[i].ud == 0 && !Full(s)
    requires var r := s.table[i].(ud := s.nextSeq); s3 == Stage(Issue(s, r), AddFor(r)).(table := s.table[i := r])
    requires var (s', ok) := Rearm(s3, i + 1);
      Staged(s3, s', Rearms(s.table, i + 1, s.nextSeq + 1), ok) && forall k | 0 <= k <= i :: s'.table[k] == s3.table[k]
    ensures var (s', ok) := Rearm(s3, i + 1); Staged(s, s', Rearms(s.table, i, s.nextSeq), ok)
  {
    hide Rearm;
    var r := s.table[i].(ud := s.nextSeq);
    var rest := Rearms(s.table, i + 1, s.nextSeq + 1);
    var (s', ok) := Rearm(s3, i + 1);
    assert Rearms(s.table, i, s.nextSeq) == [AddFor(r)] + rest;
    if !ok {
      assert ([AddFor(r)] + rest)[..Free(s)] == [AddFor(r)] + rest[..Free(s3)];
    }
    assert SameRows(s.table, s'.table) by {
      forall k | 0 <= k < |s.table| ensures s'.table[k] == s.table[k] || (s.table[k].fd >= 0 && s.table[k].ud == 0 && s'.table[k] == s.table[k].(ud := s'.table[k].ud)) {
        assert k != i ==> s3.table[k] == s.table[k];
      }
    }
  }

  lemma RearmWakeStages(s: State)
    ensures Staged(s, RearmWake(s).0, if s.wakeArmed then [] else [WAKE_POLL], RearmWake(s).1)
    ensures RearmWake(s).0.table == s.table && RearmWake(s).0.timeoutArmed == s.timeoutArmed
  {
  }

  lemma ArmTimeoutStages(s: State)
    ensures Staged(s, ArmTimeout(s).0, if s.timeoutArmed then [TimeoutRemove, TimeoutAdd] else [TimeoutAdd], ArmTimeout(s).1)
    ensures ArmTimeout(s).0.table == s.table
  {
  }

  lemma ArmStages(s: State, timed: bool)
    ensures Staged(s, Arm(s, timed).0, Needed(s, timed), Arm(s, timed).1)
  {
    hide Rearm, RearmWake, ArmTimeout, Staged;
    var polls := Rearms(s.table, 0, s.nextSeq);
    var wake := if s.wakeArmed then [] else [WAKE_POLL];
    var time := if !timed then [] else if s.timeoutArmed then [TimeoutRemove, TimeoutAdd] else [TimeoutAdd];
    RearmStages(s, 0);
    var (s1, ok1) := Rearm(s, 0);
    if !ok1 {
      StagedCut(s, s1, polls, wake);
      StagedCut(s, s1, polls + wake, time);
    } else {
      RearmWakeStages(s1);
      var (s2, ok2) := RearmWake(s1);
      StagedThen(s, s1, s2, polls, wake, ok2);
      if !ok2 {
        StagedCut(s, s2, polls + wake, time);
      } else if timed {
        ArmTimeoutStages(s2);
        StagedThen(s, s2, ArmTimeout(s2).0, polls + wake, time, ArmTimeout(s2).1);
      } else {
        assert polls + wake + time == polls + wake;
      }
    }
  }

  /** A wait gets to its blocking submit exactly when the ring has room for everything it must
      send first: a fresh poll for each live row that fired, the wake's if that fired, and for a
      timed wait one fresh timeout, after the removal of a stale one. That is what it sends, in
      this order; a full ring cuts it short. No row changes but for the numbers of re-armed
      ones. */
  lemma WaitSends(ss: seq<State>, tr: seq<Action>, i: nat, timed: bool, e: Enter)
    requires IsRun(ss, tr) && i < |tr| && tr[i] == DoArm(timed, e)
    ensures var s, s', q := ss[i], ss[i + 1], Needed(ss[i], timed);
      && (Arm(s, timed).1 <==> |q| <= Free(s))
      && Sent(s, s', if |q| <= Free(s) then q else q[..Free(s)])
      && SameRows(s.table, s'.table)
  {
    hide Arm, Needed, SameRows;
    var s := ss[i];
    assert ss[i + 1] == Step(s, tr[i]);
    ArmStages(s, timed);
    SubmitMoves(Arm(s, timed).0, 1, e);
  }
}
