/** The reference-counted thread handle: a trampoline that runs the entry and drops its reference,
    against one owner that joins or detaches. Every atomic access is a step of its own, and a
    fetch_sub and the free it leads to are separate steps. */
module ThreadHandle {
  import opened Errno
  import opened Wrappers

  datatype Mode = Joinable | Detached | Joined

  datatype Trampoline = Running | Wrote | TDropped(last: bool) | Exited

  datatype Owner =
    | Idle
    | Reaping                          // won the exchange, about to reap
    | RollingBack(rc: int)
    | Reaped
    | Detaching
    | Consumed(ret: Return)            // the caller's pointer is NULL, the reference not yet dropped
    | ODropped(last: bool, ret: Return)

  /** A call that returned to the owner: its status, and the result a join published. */
  datatype Return = Return(rc: int, out: Option<int>)

  datatype State = State(
    mode: Mode, refs: int, status: int,
    held: bool,                        // the caller's pointer is not NULL
    frees: nat,
    tramp: Trampoline, owner: Owner,
    entry: Option<int>,                // what the entry returned
    replies: seq<Return>)

  datatype Action =
    | EntryReturns(value: int)
    | TrampolineDrops
    | TrampolineEnds
    | JoinStarts
    | JoinReaps(rc: int)
    | JoinRollsBack
    | JoinPublishes
    | DetachStarts
    | DetachHands(rc: int)
    | OwnerDrops
    | OwnerEnds

  const SPAWNED := State(Joinable, 2, 0, true, 0, Running, Idle, None, [])

  /** The host's join succeeds only on a thread that has ended; it may fail at any time. */
  ghost predicate Enabled(s: State, a: Action) {
    match a
    case EntryReturns(_) => s.tramp.Running?
    case TrampolineDrops => s.tramp.Wrote?
    case TrampolineEnds => s.tramp.TDropped?
    case JoinStarts => s.owner.Idle?
    case JoinReaps(rc) => s.owner.Reaping? && rc >= 0 && (rc == 0 ==> s.tramp.Exited?)
    case JoinRollsBack => s.owner.RollingBack?
    case JoinPublishes => s.owner.Reaped?
    case DetachStarts => s.owner.Idle?
    case DetachHands(rc) => s.owner.Detaching? && rc >= 0
    case OwnerDrops => s.owner.Consumed?
    case OwnerEnds => s.owner.ODropped?
  }

  function Reply(s: State, r: Return): State {
    s.(owner := Idle, replies := s.replies + [r])
  }

  function Step(s: State, a: Action): State {
    match a
    case EntryReturns(v) => s.(status := v, entry := Some(v), tramp := Wrote)
    case TrampolineDrops => s.(refs := s.refs - 1, tramp := TDropped(s.refs == 1))
    case TrampolineEnds =>
      s.(frees := if s.tramp.TDropped? && s.tramp.last then s.frees + 1 else s.frees, tramp := Exited)
    case JoinStarts =>
      if s.held && s.mode.Joinable? then s.(mode := Joined, owner := Reaping)
      else Reply(s, Return(-EINVAL, None))
    case JoinReaps(rc) => s.(owner := if rc == 0 then Reaped else RollingBack(rc))
    case JoinRollsBack =>
      if !s.owner.RollingBack? then s
      else Reply(s.(mode := if s.mode.Joined? then Joinable else s.mode), Return(-s.owner.rc, None))
    case JoinPublishes => s.(held := false, owner := Consumed(Return(0, Some(s.status))))
    case DetachStarts =>
      if s.held && s.mode.Joinable? then s.(mode := Detached, owner := Detaching)
      else Reply(s, Return(-EINVAL, None))
    case DetachHands(rc) =>
      if rc != 0 then Reply(s, Return(-rc, None))
      else s.(held := false, owner := Consumed(Return(0, None)))
    case OwnerDrops =>
      if !s.owner.Consumed? then s
      else s.(refs := s.refs - 1, owner := ODropped(s.refs == 1, s.owner.ret))
    case OwnerEnds =>
      if !s.owner.ODropped? then s
      else Reply(s.(frees := if s.owner.last then s.frees + 1 else s.frees), s.owner.ret)
  }

  /** The steps that read, write or free the handle's memory. */
  ghost predicate Touches(s: State, a: Action) {
    match a
    case TrampolineEnds => s.tramp.TDropped? && s.tramp.last
    case OwnerEnds => s.owner.ODropped? && s.owner.last
    case JoinStarts => s.held
    case DetachStarts => s.held
    case _ => true
  }

  ghost predicate IsRun(ss: seq<State>, tr: seq<Action>) {
    && |ss| == |tr| + 1 && ss[0] == SPAWNED
    && forall i | 0 <= i < |tr| :: Enabled(ss[i], tr[i]) && ss[i + 1] == Step(ss[i], tr[i])
  }

  // ---- one reference per party ----

  function TrampolineHolds(s: State): nat {
    if s.tramp.Running? || s.tramp.Wrote? then 1 else 0
  }

  function OwnerHolds(s: State): nat {
    if s.held || s.owner.Consumed? then 1 else 0
  }

  /** How many parties have dropped the last reference and not freed yet. */
  function Pending(s: State): nat {
    (if s.tramp.TDropped? && s.tramp.last then 1 else 0) + (if s.owner.ODropped? && s.owner.last then 1 else 0)
  }

  ghost predicate Counted(s: State) {
    && s.refs == TrampolineHolds(s) + OwnerHolds(s)
    && s.frees + Pending(s) == if s.refs == 0 then 1 else 0
  }

  /** `stuck`: a detach has failed, after which the exchange is never won again. */
  ghost predicate Phased(s: State, stuck: bool) {
    && (s.owner.Reaping? || s.owner.RollingBack? || s.owner.Reaped? ==> s.held && s.mode.Joined?)
    && (s.owner.Reaped? ==> s.tramp.Exited?)
    && (s.owner.Detaching? ==> s.held && s.mode.Detached?)
    && (s.owner.Consumed? || s.owner.ODropped? ==> !s.held)
    && (s.held && s.owner.Idle? ==> s.mode == if stuck then Detached else Joinable)
    && (stuck ==> s.held && s.owner.Idle?)
  }

  ghost predicate Publishes(r: Return, entry: Option<int>) {
    r.out.Some? ==> r.rc == 0 && entry == r.out
  }

  ghost predicate Faithful(s: State) {
    && (if s.tramp.Running? then s.entry.None? else s.entry == Some(s.status))
    && (s.owner.Consumed? || s.owner.ODropped? ==> Publishes(s.owner.ret, s.entry) && s.owner.ret.rc == 0)
    && (forall k | 0 <= k < |s.replies| :: Publishes(s.replies[k], s.entry))
  }

  ghost predicate Succeeded(rs: seq<Return>) {
    exists k :: 0 <= k < |rs| && rs[k].rc == 0
  }

  ghost predicate AtMostOnce(rs: seq<Return>) {
    forall j, k | 0 <= j < k < |rs| :: rs[j].rc != 0 || rs[k].rc != 0
  }

  ghost predicate Tallied(s: State) {
    && (s.owner.RollingBack? ==> s.owner.rc > 0)
    && (Succeeded(s.replies) <==> !s.held && !s.owner.Consumed? && !s.owner.ODropped?)
    && AtMostOnce(s.replies)
  }

  ghost predicate Inv(s: State, stuck: bool) {
    Counted(s) && Phased(s, stuck) && Faithful(s) && Tallied(s)
  }

  ghost predicate DetachFails(a: Action) {
    a.DetachHands? && a.rc != 0
  }

  lemma ReplyTallies(rs: seq<Return>, r: Return)
    ensures Succeeded(rs + [r]) <==> Succeeded(rs) || r.rc == 0
    ensures AtMostOnce(rs) && (r.rc == 0 ==> !Succeeded(rs)) ==> AtMostOnce(rs + [r])
  {
    assert r.rc == 0 ==> (rs + [r])[|rs|].rc == 0;
    assert forall k | 0 <= k < |rs| :: (rs + [r])[k] == rs[k];
  }

  lemma StepTallies(s: State, a: Action, stuck: bool)
    requires Phased(s, stuck) && Faithful(s) && Tallied(s) && Enabled(s, a)
    ensures Tallied(Step(s, a))
  {
    hide Succeeded, AtMostOnce;
    ReplyTallies(s.replies, Return(-EINVAL, None));
    match a {
      case JoinRollsBack => ReplyTallies(s.replies, Return(-s.owner.rc, None));
      case DetachHands(rc) => ReplyTallies(s.replies, Return(-rc, None));
      case OwnerEnds => ReplyTallies(s.replies, s.owner.ret);
      case _ =>
    }
  }

  lemma StepKeeps(s: State, a: Action, stuck: bool)
    requires Inv(s, stuck) && Enabled(s, a)
    ensures Inv(Step(s, a), stuck || DetachFails(a))
  {
    hide Tallied;
    StepTallies(s, a, stuck);
    assert Counted(Step(s, a));
    assert Phased(Step(s, a), stuck || DetachFails(a));
  }

  lemma {:induction false} RunKeeps(ss: seq<State>, tr: seq<Action>, i: nat)
    requires IsRun(ss, tr) && i < |ss|
    ensures Inv(ss[i], exists h :: 0 <= h < i && DetachFails(tr[h]))
  {
    hide Inv, Step, Enabled;
    if i == 0 {
      assert Inv(SPAWNED, false) by { SpawnedHolds(); }
    } else {
      RunKeeps(ss, tr, i - 1);
      var before := exists h :: 0 <= h < i - 1 && DetachFails(tr[h]);
      StepKeeps(ss[i - 1], tr[i - 1], before);
      assert (exists h :: 0 <= h < i && DetachFails(tr[h])) <==> before || DetachFails(tr[i - 1]);
    }
  }

  lemma SpawnedCounted()
    ensures Counted(SPAWNED)
  {
  }

  lemma SpawnedPhased()
    ensures Phased(SPAWNED, false)
  {
  }

  lemma SpawnedTallied()
    ensures Faithful(SPAWNED) && Tallied(SPAWNED)
  {
  }

  lemma SpawnedHolds()
    ensures Inv(SPAWNED, false)
  {
    hide Counted, Phased, Faithful, Tallied;
    SpawnedCounted();
    SpawnedPhased();
    SpawnedTallied();
  }

  // ---- theorems ----

  /** Whatever the interleaving, and however often a join fails and is retried, the handle is
      freed at most once, and no step touches it once it is. */
  lemma NeverTouchedAfterFree(ss: seq<State>, tr: seq<Action>, i: nat)
    requires IsRun(ss, tr) && i < |ss|
    ensures ss[i].frees <= 1
    ensures i < |tr| && Touches(ss[i], tr[i]) ==> ss[i].frees == 0
  {
    RunKeeps(ss, tr, i);
    if i < |tr| {
      assert Enabled(ss[i], tr[i]);
    }
  }

  ghost predicate Settled(s: State) {
    s.tramp.Exited? && s.owner.Idle?
  }

  /** Once both parties are at rest the handle has been freed exactly once if a join or detach
      succeeded, and is intact otherwise; at most one call ever succeeds, and the caller's pointer
      is NULL exactly when one has. */
  lemma FreedExactlyOnce(ss: seq<State>, tr: seq<Action>, i: nat)
    requires IsRun(ss, tr) && i < |ss| && Settled(ss[i])
    ensures ss[i].frees == if Succeeded(ss[i].replies) then 1 else 0
    ensures AtMostOnce(ss[i].replies) && (Succeeded(ss[i].replies) <==> !ss[i].held)
  {
    RunKeeps(ss, tr, i);
  }

  /** Every result a join publishes is what the entry returned, and only successes publish. */
  lemma JoinPublishesEntryResult(ss: seq<State>, tr: seq<Action>, i: nat, k: nat)
    requires IsRun(ss, tr) && i < |ss| && k < |ss[i].replies| && ss[i].replies[k].out.Some?
    ensures ss[i].replies[k].rc == 0 && ss[i].entry == ss[i].replies[k].out
  {
    RunKeeps(ss, tr, i);
  }

  // ---- what each call answers ----

  /** Whether the latest call the owner began in the first `n` steps is a join. */
  ghost function LatestCall(tr: seq<Action>, n: nat): Option<bool>
    requires n <= |tr|
  {
    if n == 0 then None
    else if tr[n - 1].JoinStarts? then Some(true)
    else if tr[n - 1].DetachStarts? then Some(false)
    else LatestCall(tr, n - 1)
  }

  /** What the host's latest join in the first `n` steps answered. */
  ghost function LatestReap(tr: seq<Action>, n: nat): Option<int>
    requires n <= |tr|
  {
    if n == 0 then None else if tr[n - 1].JoinReaps? then Some(tr[n - 1].rc) else LatestReap(tr, n - 1)
  }

  /** What the entry has returned in the first `n` steps. */
  ghost function EntryResult(tr: seq<Action>, n: nat): Option<int>
    requires n <= |tr|
  {
    if n == 0 then None else if tr[n - 1].EntryReturns? then Some(tr[n - 1].value) else EntryResult(tr, n - 1)
  }

  /** The owner's place in its call is that of its latest call. */
  ghost predicate Placed(s: State, join: Option<bool>, reap: Option<int>) {
    && (s.owner.Reaping? || s.owner.Reaped? ==> join == Some(true))
    && (s.owner.RollingBack? ==> join == Some(true) && reap == Some(s.owner.rc))
    && (s.owner.Detaching? ==> join == Some(false))
    && (s.owner.Consumed? || s.owner.ODropped? ==>
          join.Some? && s.owner.ret == Return(0, if join.value then s.entry else None) && (join.value ==> s.entry.Some?))
  }

  lemma PlacedStep(s: State, a: Action, stuck: bool, join: Option<bool>, reap: Option<int>)
    requires Inv(s, stuck) && Enabled(s, a) && Placed(s, join, reap)
    ensures Placed(Step(s, a), if a.JoinStarts? then Some(true) else if a.DetachStarts? then Some(false) else join,
                   if a.JoinReaps? then Some(a.rc) else reap)
    ensures Step(s, a).entry == if a.EntryReturns? then Some(a.value) else s.entry
  {
    hide Counted, Tallied;
  }

  lemma {:induction false} PlacedAlways(ss: seq<State>, tr: seq<Action>, i: nat)
    requires IsRun(ss, tr) && i < |ss|
    ensures Placed(ss[i], LatestCall(tr, i), LatestReap(tr, i)) && ss[i].entry == EntryResult(tr, i)
  {
    if i > 0 {
      hide Step, Enabled, Inv, Placed;
      PlacedAlways(ss, tr, i - 1);
      RunKeeps(ss, tr, i - 1);
      PlacedStep(ss[i - 1], tr[i - 1], exists h :: 0 <= h < i - 1 && DetachFails(tr[h]), LatestCall(tr, i - 1), LatestReap(tr, i - 1));
    }
  }

  /** Every answer the owner gets: EINVAL where the exchange is lost; the host's error, and no
      result, from a join or detach it refused; 0 and exactly what the entry returned from a join
      that succeeded; 0 and no result from such a detach. No other step answers. */
  lemma RepliesAreExact(ss: seq<State>, tr: seq<Action>, i: nat)
    requires IsRun(ss, tr) && i < |tr|
    ensures var s, s', a := ss[i], ss[i + 1], tr[i];
      match a
      case JoinStarts => s'.replies == if s'.owner.Reaping? then s.replies else s.replies + [Return(-EINVAL, None)]
      case DetachStarts => s'.replies == if s'.owner.Detaching? then s.replies else s.replies + [Return(-EINVAL, None)]
      case JoinRollsBack => LatestReap(tr, i).Some? && s'.replies == s.replies + [Return(-LatestReap(tr, i).value, None)]
      case DetachHands(rc) => s'.replies == if rc == 0 then s.replies else s.replies + [Return(-rc, None)]
      case OwnerEnds =>
        && LatestCall(tr, i).Some? && (LatestCall(tr, i).value ==> EntryResult(tr, i).Some?)
        && s'.replies == s.replies + [Return(0, if LatestCall(tr, i).value then EntryResult(tr, i) else None)]
      case _ => s'.replies == s.replies
  {
    PlacedAlways(ss, tr, i);
    assert Enabled(ss[i], tr[i]) && ss[i + 1] == Step(ss[i], tr[i]);
  }

  /** A join that fails to reap leaves the handle as it found it: still held, still joinable,
      both references in place, nothing published. */
  lemma FailedJoinRollsBack(ss: seq<State>, tr: seq<Action>, i: nat, rc: int)
    requires IsRun(ss, tr) && i < |ss| && ss[i].owner == RollingBack(rc)
    ensures var s := Step(ss[i], JoinRollsBack);
      && s.held && s.mode.Joinable? && s.owner.Idle? && s.refs == ss[i].refs >= 1 && s.frees == 0
      && s.replies == ss[i].replies + [Return(-rc, None)] && rc > 0
  {
    RunKeeps(ss, tr, i);
  }

  /** A call by the owner is turned away with EINVAL exactly when the handle has been consumed
      or a detach has failed. */
  lemma RefusedIff(ss: seq<State>, tr: seq<Action>, i: nat, a: Action)
    requires IsRun(ss, tr) && i < |ss| && Enabled(ss[i], a) && (a.JoinStarts? || a.DetachStarts?)
    ensures Step(ss[i], a).owner.Idle? <==> !ss[i].held || exists h :: 0 <= h < i && DetachFails(tr[h])
  {
    RunKeeps(ss, tr, i);
  }

  /** A detach that fails is not rolled back: from then on no call can succeed and the handle is
      never freed. With `FreedExactlyOnce`: a run in which a detach fails leaks the handle. */
  lemma {:induction false} FailedDetachLeaks(ss: seq<State>, tr: seq<Action>, h: nat, i: nat)
    requires IsRun(ss, tr) && h < i < |ss| && DetachFails(tr[h])
    ensures ss[i].held && ss[i].owner.Idle? && ss[i].frees == 0 && !Succeeded(ss[i].replies)
  {
    RunKeeps(ss, tr, i);
  }

  /** It can happen: the host refuses the detach, the thread ends, and both parties are at rest
      with the handle neither consumed nor freed. */
  lemma FailedDetachWitness() returns (ss: seq<State>, tr: seq<Action>)
    ensures IsRun(ss, tr) && tr == [DetachStarts, DetachHands(EINVAL), EntryReturns(0), TrampolineDrops, TrampolineEnds]
    ensures Settled(ss[5]) && ss[5].held && ss[5].refs == 1 && ss[5].frees == 0
    ensures Step(ss[5], JoinStarts).owner.Idle? && Step(ss[5], DetachStarts).owner.Idle?
  {
    var s0 := SPAWNED;
    var s1 := Step(s0, DetachStarts);
    var s2 := Step(s1, DetachHands(EINVAL));
    var s3 := Step(s2, EntryReturns(0));
    var s4 := Step(s3, TrampolineDrops);
    var s5 := Step(s4, TrampolineEnds);
    ss := [s0, s1, s2, s3, s4, s5];
    tr := [DetachStarts, DetachHands(EINVAL), EntryReturns(0), TrampolineDrops, TrampolineEnds];
  }

  // ---- the handle in place ----

  class Handle {
    var mode: Mode
    var refs: int
    var status: int
    var held: bool                     // the caller's pointer still names this handle
    ghost var s: State
    ghost var stuck: bool

    ghost predicate Valid()
      reads this
    {
      Inv(s, stuck) && s.mode == mode && s.refs == refs && s.status == status && s.held == held
    }

    constructor ()
      ensures Valid() && s == SPAWNED && !stuck
    {
      hide Inv;
      mode, refs, status, held := Joinable, 2, 0, true;
      s, stuck := SPAWNED, false;
      new;
      SpawnedHolds();
    }

    /** The trampoline's store of the entry's result. */
    method StoreStatus(value: int)
      requires Valid() && Enabled(s, EntryReturns(value)) && s.frees == 0
      modifies this
      ensures Valid() && s == Step(old(s), EntryReturns(value)) && stuck == old(stuck)
    {
      StepKeeps(s, EntryReturns(value), stuck);
      s := Step(s, EntryReturns(value));
      status := value;
    }

    /** The fetch_sub of an unref, by either party: whether the caller is to free the handle. */
    method DropReference(byOwner: bool) returns (last: bool)
      requires Valid() && Enabled(s, if byOwner then OwnerDrops else TrampolineDrops) && s.frees == 0
      modifies this
      ensures Valid() && s == Step(old(s), if byOwner then OwnerDrops else TrampolineDrops) && stuck == old(stuck)
      ensures last <==> old(refs) == 1
    {
      ghost var a := if byOwner then OwnerDrops else TrampolineDrops;
      StepKeeps(s, a, stuck);
      s := Step(s, a);
      last := refs == 1;
      refs := refs - 1;
    }

    /** Join and detach up to their exchange; false is the EINVAL return. */
    method Claim(toJoin: bool) returns (won: bool)
      requires Valid() && Enabled(s, if toJoin then JoinStarts else DetachStarts)
      requires held ==> s.frees == 0
      modifies this
      ensures Valid() && s == Step(old(s), if toJoin then JoinStarts else DetachStarts) && stuck == old(stuck)
      ensures won <==> old(held) && old(mode).Joinable?
    {
      ghost var a := if toJoin then JoinStarts else DetachStarts;
      StepKeeps(s, a, stuck);
      s := Step(s, a);
      if !held {
        return false;
      }
      won := mode == Joinable;
      if won {
        mode := if toJoin then Joined else Detached;
      }
    }

    /** The exchange that undoes a failed join. */
    method RollBack()
      requires Valid() && Enabled(s, JoinRollsBack) && s.frees == 0
      modifies this
      ensures Valid() && s == Step(old(s), JoinRollsBack) && stuck == old(stuck)
      ensures mode == Joinable && held
    {
      StepKeeps(s, JoinRollsBack, stuck);
      s := Step(s, JoinRollsBack);
      if mode == Joined {
        mode := Joinable;
      }
    }

    /** The result read after a successful reap, and the caller's pointer cleared. */
    method Publish() returns (result: int)
      requires Valid() && Enabled(s, JoinPublishes) && s.frees == 0
      modifies this
      ensures Valid() && s == Step(old(s), JoinPublishes) && stuck == old(stuck)
      ensures old(s).entry == Some(result) && !held
    {
      StepKeeps(s, JoinPublishes, stuck);
      s := Step(s, JoinPublishes);
      result := status;
      held := false;
    }

    /** The end of detach, given the host's answer. */
    method HandOver(rc: int)
      requires Valid() && Enabled(s, DetachHands(rc)) && s.frees == 0
      modifies this
      ensures Valid() && s == Step(old(s), DetachHands(rc)) && stuck == (old(stuck) || rc != 0)
      ensures held == (rc != 0)
    {
      StepKeeps(s, DetachHands(rc), stuck);
      s, stuck := Step(s, DetachHands(rc)), stuck || rc != 0;
      if rc == 0 {
        held := false;
      }
    }

    /** The steps that change no field of the handle: the reap, and what follows a fetch_sub. */
    method Elsewhere(a: Action)
      requires Valid() && Enabled(s, a) && (a.JoinReaps? || a.TrampolineEnds? || a.OwnerEnds?)
      requires Touches(s, a) ==> s.frees == 0
      modifies this
      ensures Valid() && s == Step(old(s), a) && stuck == old(stuck)
    {
      StepKeeps(s, a, stuck);
      s := Step(s, a);
    }

    lemma TouchIsSafe(a: Action)
      requires Valid() && Enabled(s, a) && Touches(s, a)
      ensures s.frees == 0
    {
    }

    method Perform(a: Action)
      requires Valid() && Enabled(s, a)
      modifies this
      ensures Valid() && s == Step(old(s), a)
    {
      if Touches(s, a) { TouchIsSafe(a); }
      match a {
        case EntryReturns(v) => StoreStatus(v);
        case TrampolineDrops => var _ := DropReference(false);
        case OwnerDrops => var _ := DropReference(true);
        case JoinStarts => var _ := Claim(true);
        case DetachStarts => var _ := Claim(false);
        case JoinRollsBack => RollBack();
        case JoinPublishes => var _ := Publish();
        case DetachHands(rc) => HandOver(rc);
        case _ => Elsewhere(a);
      }
    }
  }

  ghost predicate Schedule(s: State, tr: seq<Action>)
    decreases |tr|
  {
    tr != [] ==> Enabled(s, tr[0]) && Schedule(Step(s, tr[0]), tr[1..])
  }

  ghost function After(s: State, tr: seq<Action>): State
    decreases |tr|
  {
    if tr == [] then s else After(Step(s, tr[0]), tr[1..])
  }

  /** Any schedule of the two parties can be carried out on the real fields, each access meeting
      its demand that the handle has not been freed. */
  method Drive(h: Handle, tr: seq<Action>)
    requires h.Valid() && Schedule(h.s, tr)
    modifies h
    ensures h.Valid() && h.s == After(old(h.s), tr)
  {
    var i := 0;
    while i < |tr|
      invariant i <= |tr| && h.Valid() && Schedule(h.s, tr[i..])
      invariant After(h.s, tr[i..]) == After(old(h.s), tr)
    {
      assert tr[i..][0] == tr[i] && tr[i..][1..] == tr[i + 1..];
      h.Perform(tr[i]);
      i := i + 1;
    }
  }
}
