/** The io_uring poller handle as the program keeps it: the submission ring's shared memory, and a
    fixed table updated in place by the probe, re-arm and drain loops. Each entry point computes
    what the run model says it does. */
module UringPoller {
  import opened Errno
  import opened PollTypes
  import opened Uring
  import opened SubmissionRing

  class Poller {
    const regs: array<Reg>
    const ring: Ring<Sqe>
    var count: nat
    var nextSeq: nat
    var wakeArmed: bool
    var timeoutArmed: bool
    ghost var kernel: seq<Sqe>
    var cq: seq<Cqe>
    var counter: nat
    var out: seq<PollEvent>
    ghost var issued: map<nat, Reg>
    ghost var delivered: seq<Delivery>

    ghost predicate Valid()
      reads this, ring, ring.sqes, ring.sqArray
    {
      ring.Valid() && regs as object != ring.sqes && regs as object != ring.sqArray
    }

    /** What is staged is what the ring's memory holds for the kernel. */
    ghost function Abs(): State
      reads this, regs, ring, ring.sqes, ring.sqArray
      requires Valid()
    {
      State(regs[..], count, nextSeq, wakeArmed, timeoutArmed, ring.entries, ring.InRing(), kernel, cq, counter, out,
            issued, delivered)
    }

    /** A handle as create leaves it, its wake poll submitted and taken. */
    constructor (entries: nat, ghost copies: nat)
      requires 0 < entries < U32 && U32 == entries * copies
      ensures Valid() && Initial(Abs()) && regs.Length == if entries < 16 then 16 else entries
      ensures fresh(regs) && fresh(ring) && fresh(ring.sqes) && fresh(ring.sqArray)
    {
      PowerOfTwoRingsAreMaskable(entries, copies);
      var cap := if entries < 16 then 16 else entries;
      var shared := new Ring<Sqe>(entries, WAKE_POLL);
      var staged := shared.Stage(WAKE_POLL);
      var taken := shared.Submit(0, 1, 0);
      regs := new Reg[cap](_ => Reg(-1, 0, 0, {}));
      ring := shared;
      count, nextSeq, wakeArmed, timeoutArmed := 0, FIRST_SEQ, true, false;
      kernel, cq, counter, out := [WAKE_POLL], [], 0, [];
      issued, delivered := map[], [];
    }

    /** Hash and linear probe, bounded by the table length. */
    method Slot(fd: int) returns (h: nat)
      requires regs.Length > 0 && fd >= 0
      ensures h == Probe(regs[..], fd)
    {
      h := Hash(fd, regs.Length);
      var i := 0;
      while i < regs.Length
        invariant i <= regs.Length && h < regs.Length
        invariant ProbeFrom(regs[..], fd, h, regs.Length - i) == Probe(regs[..], fd)
      {
        if regs[h].fd == -1 || regs[h].fd == fd {
          return;
        }
        h := if h + 1 == regs.Length then 0 else h + 1;
        i := i + 1;
      }
    }

    /** The next cell of the ring, filled, unless the ring is full. */
    method StageSqe(e: Sqe) returns (ok: bool)
      requires Valid()
      modifies ring, ring.sqes, ring.sqArray
      ensures Valid()
      ensures ok == !Full(old(Abs()))
      ensures Abs() == if ok then Stage(old(Abs()), e) else old(Abs())
    {
      ok := ring.Stage(e);
    }

    /** Publish the tail and enter the kernel, which takes a prefix of what the ring holds. */
    method SubmitStaged(minComplete: nat, e: Enter) returns (rc: int)
      requires Valid()
      modifies this`kernel, ring, ring.sqes, ring.sqArray
      ensures Valid()
      ensures (Abs(), rc) == Submit(old(Abs()), minComplete, e)
    {
      var pending := ring.Pending();
      var k := if e.take <= pending then e.take else pending;
      ghost var held := ring.InRing();
      rc := ring.Submit(minComplete, k, if e.rc < 0 then e.rc else 0);
      if pending == 0 && minComplete == 0 {
        return;
      }
      kernel := kernel + held[..k];
    }

    method StageAndSubmitPoll(r: Reg, flush: Enter, e: Enter) returns (rc: int)
      requires Valid()
      modifies this`kernel, ring, ring.sqes, ring.sqArray
      ensures Valid()
      ensures (Abs(), rc) == SubmitPollAdd(old(Abs()), r, flush, e)
    {
      var ok := StageSqe(AddFor(r));
      if !ok {
        rc := SubmitStaged(0, flush);
        if rc < 0 {
          return;
        }
        ok := StageSqe(AddFor(r));
        if !ok {
          return -EAGAIN;
        }
      }
      rc := SubmitStaged(0, e);
    }

    method TakeSeq(fd: int, token: nat, interests: set<Flag>) returns (r: Reg)
      requires Valid()
      modifies this`nextSeq, this`issued
      ensures Valid()
      ensures r == Reg(fd, old(nextSeq), token, interests) && Abs() == Issue(old(Abs()), r)
    {
      r := Reg(fd, nextSeq, token, interests);
      nextSeq := nextSeq + 1;
      issued := issued[r.ud := r];
    }

    /** Upsert: cancel the live poll of a registered descriptor, or take an empty row. */
    method Register(fd: int, interests: set<Flag>, token: nat, flush: Enter, e: Enter) returns (rc: int)
      requires Valid() && regs.Length > 0
      modifies this, regs, ring, ring.sqes, ring.sqArray
      ensures Valid()
      ensures (Abs(), rc) == Uring.Register(old(Abs()), fd, interests, token, flush, e)
    {
      if !ValidInterests(interests) {
        return -EINVAL;
      }
      if fd < 0 {
        return -EBADF;
      }
      if count >= regs.Length {
        return -ENOSPC;
      }
      var slot := Slot(fd);
      var r := TakeSeq(fd, token, interests);
      if regs[slot].fd == fd {
        rc := ReplaceAt(slot, r, e);
      } else {
        rc := InstallAt(slot, r, flush, e);
      }
    }

    method ReplaceAt(slot: nat, r: Reg, e: Enter) returns (rc: int)
      requires Valid() && slot < regs.Length
      modifies this`kernel, regs, ring, ring.sqes, ring.sqArray
      ensures Valid()
      ensures (Abs(), rc) == Replace(old(Abs()), slot, r, e)
    {
      var ok := StageSqe(PollRemove(regs[slot].ud));
      if !ok {
        return -EAGAIN;
      }
      ok := StageSqe(AddFor(r));
      if !ok {
        return -EAGAIN;
      }
      rc := SubmitStaged(0, e);
      if rc < 0 {
        return;
      }
      regs[slot] := r;
      rc := 0;
    }

    method InstallAt(slot: nat, r: Reg, flush: Enter, e: Enter) returns (rc: int)
      requires Valid() && slot < regs.Length
      modifies this`kernel, this`count, regs, ring, ring.sqes, ring.sqArray
      ensures Valid()
      ensures (Abs(), rc) == Install(old(Abs()), slot, r, flush, e)
    {
      rc := StageAndSubmitPoll(r, flush, e);
      if rc < 0 {
        return;
      }
      regs[slot] := r;
      count := count + 1;
      rc := 0;
    }

    method Unregister(fd: int, e: Enter) returns (rc: int)
      requires Valid() && regs.Length > 0
      modifies this`kernel, this`count, regs, ring, ring.sqes, ring.sqArray
      ensures Valid()
      ensures (Abs(), rc) == Uring.Unregister(old(Abs()), fd, e)
    {
      if fd < 0 {
        return -EBADF;
      }
      var slot := Slot(fd);
      if regs[slot].fd != fd {
        return 0;
      }
      var ok := StageSqe(PollRemove(regs[slot].ud));
      if !ok {
        return -EAGAIN;
      }
      rc := SubmitStaged(0, e);
      if rc < 0 {
        return;
      }
      RetireAt(slot);
      rc := 0;
    }

    method RetireAt(i: nat)
      requires Valid() && i < regs.Length
      modifies this`count, regs
      ensures Valid()
      ensures Abs() == Retire(old(Abs()), i)
    {
      regs[i] := regs[i].(fd := -1);
      count := if count > 0 then count - 1 else 0;
    }

    /** The re-arm loop at the head of a wait. */
    method RearmAll() returns (ok: bool)
      requires Valid()
      modifies this`nextSeq, this`issued, regs, ring, ring.sqes, ring.sqArray
      ensures Valid()
      ensures (Abs(), ok) == Rearm(old(Abs()), 0)
    {
      var i := 0;
      while i < regs.Length
        invariant i <= regs.Length && Valid()
        invariant Rearm(Abs(), i) == Rearm(old(Abs()), 0)
      {
        if regs[i].fd >= 0 && regs[i].ud == 0 {
          ok := RearmRow(i);
          if !ok {
            return;
          }
        }
        i := i + 1;
      }
      ok := true;
    }

    method RearmRow(i: nat) returns (ok: bool)
      requires Valid() && i < regs.Length && regs[i].fd >= 0 && regs[i].ud == 0
      modifies this`nextSeq, this`issued, regs, ring, ring.sqes, ring.sqArray
      ensures Valid()
      ensures ok ==> Rearm(Abs(), i + 1) == Rearm(old(Abs()), i)
      ensures !ok ==> Rearm(old(Abs()), i) == (Abs(), false)
    {
      var r := TakeSeq(regs[i].fd, regs[i].token, regs[i].interests);
      ok := StageSqe(AddFor(r));
      if ok {
        regs[i] := r;
      }
    }

    method RearmWakePoll() returns (ok: bool)
      requires Valid()
      modifies this`wakeArmed, ring, ring.sqes, ring.sqArray
      ensures Valid()
      ensures (Abs(), ok) == RearmWake(old(Abs()))
    {
      ok := true;
      if !wakeArmed {
        ok := StageSqe(WAKE_POLL);
        if ok {
          wakeArmed := true;
        }
      }
    }

    /** A stale timeout is removed before a fresh one is staged. */
    method ArmFreshTimeout() returns (ok: bool)
      requires Valid()
      modifies this`timeoutArmed, ring, ring.sqes, ring.sqArray
      ensures Valid()
      ensures (Abs(), ok) == ArmTimeout(old(Abs()))
    {
      if timeoutArmed {
        ok := StageSqe(TimeoutRemove);
        if !ok {
          return;
        }
        timeoutArmed := false;
      }
      ok := StageSqe(TimeoutAdd);
      if ok {
        timeoutArmed := true;
      }
    }

    /** A wait up to its blocking submit. */
    method ArmForWait(timed: bool) returns (ok: bool)
      requires Valid()
      modifies this`nextSeq, this`issued, this`wakeArmed, this`timeoutArmed, regs, ring, ring.sqes, ring.sqArray
      ensures Valid()
      ensures (Abs(), ok) == Arm(old(Abs()), timed)
    {
      hide Rearm, RearmWake, ArmTimeout;
      ok := RearmAll();
      if !ok {
        return;
      }
      ok := RearmWakePoll();
      if !ok || !timed {
        return;
      }
      ok := ArmFreshTimeout();
    }

    /** The scan of the table for the row a completion belongs to. */
    method RowOf(ud: nat) returns (i: nat)
      ensures i == FindFrom(regs[..], ud, 0)
    {
      i := 0;
      while i < regs.Length && !(regs[i].fd >= 0 && regs[i].ud == ud)
        invariant i <= regs.Length
        invariant FindFrom(regs[..], ud, i) == FindFrom(regs[..], ud, 0)
      {
        i := i + 1;
      }
    }

    /** Consume every completion posted so far. */
    method DrainCq(cap: nat)
      requires Valid()
      modifies this, regs
      ensures Valid()
      ensures Abs() == DrainAll(old(Abs()), cap)
    {
      while cq != []
        invariant Valid() && DrainAll(Abs(), cap) == DrainAll(old(Abs()), cap)
        decreases |cq|
      {
        DrainHead(cap);
      }
    }

    method DrainHead(cap: nat)
      requires Valid() && cq != []
      modifies this, regs
      ensures Valid()
      ensures Abs() == DrainOne(old(Abs()), cap)
      ensures |cq| < old(|cq|)
    {
      hide Fire, Retire;
      var c := cq[0];
      cq := cq[1..];
      if c.ud == TIMEOUT {
        timeoutArmed := false;
        return;
      }
      if c.ud == WAKE {
        wakeArmed := false;
        counter := 0;
        return;
      }
      var i := RowOf(c.ud);
      if i == regs.Length {
        return;
      }
      if c.res.Failed? {
        RetireAt(i);
        return;
      }
      FireRow(i, c, cap);
    }

    /** One-shot: the row's event goes to the caller while there is room. */
    method FireRow(i: nat, c: Cqe, cap: nat)
      requires Valid() && i < regs.Length && c.res.Ready?
      modifies this`out, this`delivered, regs
      ensures Valid() && Abs() == Fire(old(Abs()), i, c, cap)
    {
      if |out| < cap {
        var ev := PollEvent(regs[i].token, regs[i].fd, FlagsOf(c.res.bits - {PollRdHup}));
        out := out + [ev];
        delivered := delivered + [Delivery(c.ud, ev)];
      }
      regs[i] := regs[i].(ud := 0);
    }

    method Wake()
      requires Valid() && regs.Length > 0
      modifies this`counter
      ensures Valid()
      ensures Abs() == Step(old(Abs()), DoWake)
    {
      if counter < EVENTFD_MAX {
        counter := counter + 1;
      }
    }
  }
}
