/** The counting semaphore as a monitor over one mutex and one condition variable, with any
    number of threads, wake-one signalling, barging arrivals, spurious wakes and timeouts. Each
    mutex-protected section is one step. */
module Semaphore {
  import opened Errno
  import opened Wrappers

  const INT_MAX: nat := 0x7FFF_FFFF

  /** A call that returned without a permit: its status, and the permits visible at that moment. */
  datatype Refusal = Refusal(tid: nat, timed: bool, rc: int, countSeen: nat)

  datatype State = State(
    count: nat,
    parked: set<nat>,     // asleep on the condition variable
    awake: set<nat>,      // off the condition variable, yet to re-check under the mutex
    timed: set<nat>,      // of those, the ones inside wait_until
    initial: nat,
    posts: nat,
    acquired: nat,
    refused: seq<Refusal>)

  datatype Action =
    | Post(woken: set<nat>)          // the threads the signal unblocks
    | Arrive(tid: nat, isTimed: bool)
    | TryWait(tid: nat)
    | Stir(tid: nat)                 // a spurious wake, or the deadline passing
    | Resume(tid: nat, rc: int)      // the condition wait returns `rc` with the mutex held

  ghost predicate Initial(s: State) {
    s == State(s.initial, {}, {}, {}, s.initial, 0, 0, [])
  }

  /** A signal unblocks at least one parked thread if there is any. */
  ghost predicate Enabled(s: State, a: Action) {
    match a
    case Post(w) => w <= s.parked && (s.parked != {} ==> w != {}) && s.count < INT_MAX
    case Arrive(t, _) => t !in s.parked && t !in s.awake
    case TryWait(t) => t !in s.parked && t !in s.awake
    case Stir(t) => t in s.parked
    case Resume(t, rc) => t in s.awake && rc <= 0
  }

  function Acquire(s: State, t: nat): State
    requires s.count > 0
  {
    s.(count := s.count - 1, acquired := s.acquired + 1, awake := s.awake - {t}, timed := s.timed - {t})
  }

  function Refuse(s: State, t: nat, rc: int): State {
    s.(awake := s.awake - {t}, timed := s.timed - {t}, refused := s.refused + [Refusal(t, t in s.timed, rc, s.count)])
  }

  function Step(s: State, a: Action): State {
    match a
    case Post(w) => s.(count := s.count + 1, posts := s.posts + 1, parked := s.parked - w, awake := s.awake + w)
    case Arrive(t, isTimed) =>
      if s.count > 0 then Acquire(s, t)
      else s.(parked := s.parked + {t}, timed := if isTimed then s.timed + {t} else s.timed)
    case TryWait(t) =>
      if s.count > 0 then Acquire(s, t) else Refuse(s, t, -EBUSY)
    case Stir(t) => s.(parked := s.parked - {t}, awake := s.awake + {t})
    case Resume(t, rc) =>
      if rc != 0 && (t !in s.timed || s.count == 0) then Refuse(s, t, rc)
      else if s.count == 0 then s.(awake := s.awake - {t}, parked := s.parked + {t})
      else Acquire(s, t)
  }

  ghost predicate IsRun(ss: seq<State>, tr: seq<Action>) {
    && |ss| == |tr| + 1 && Initial(ss[0])
    && forall i | 0 <= i < |tr| :: Enabled(ss[i], tr[i]) && ss[i + 1] == Step(ss[i], tr[i])
  }

  /** The condition wait of an untimed caller does not fail in this step. */
  ghost predicate Reliable(s: State, a: Action) {
    a.Resume? && a.tid !in s.timed ==> a.rc == 0
  }

  // ---- accounts, for every run ----

  ghost predicate Accounts(s: State) {
    && s.parked !! s.awake && s.timed <= s.parked + s.awake
    && s.initial + s.posts == s.acquired + s.count
    && (forall k | 0 <= k < |s.refused| && s.refused[k].timed :: s.refused[k].countSeen == 0)
  }

  lemma AccountsStep(s: State, a: Action)
    requires Accounts(s) && Enabled(s, a)
    ensures Accounts(Step(s, a)) && Step(s, a).initial == s.initial
  {
  }

  /** Permits are conserved over every run, failed waits included: the initial permits plus the
      posts are exactly the acquisitions plus the count, which is never negative; and a timed
      wait comes back without a permit only if none was there at its re-check. */
  lemma {:induction false} PermitConservation(ss: seq<State>, tr: seq<Action>, i: nat)
    requires IsRun(ss, tr) && i < |ss|
    ensures ss[i].initial == ss[0].initial
    ensures ss[i].initial + ss[i].posts - ss[i].acquired == ss[i].count
    ensures forall k | 0 <= k < |ss[i].refused| && ss[i].refused[k].timed :: ss[i].refused[k].countSeen == 0
    ensures Accounts(ss[i])
  {
    if i > 0 {
      PermitConservation(ss, tr, i - 1);
      AccountsStep(ss[i - 1], tr[i - 1]);
    }
  }

  // ---- what each call answers ----

  /** Whether the latest wait by `t` in the first `n` steps was a timed one. */
  ghost function LatestWait(tr: seq<Action>, n: nat, t: nat): Option<bool>
    requires n <= |tr|
  {
    if n == 0 then None
    else if tr[n - 1].Arrive? && tr[n - 1].tid == t then Some(tr[n - 1].isTimed)
    else LatestWait(tr, n - 1, t)
  }

  lemma WaiterStep(s: State, a: Action, t: nat)
    requires Accounts(s) && Enabled(s, a) && t in Step(s, a).parked + Step(s, a).awake
    ensures a.Arrive? && a.tid == t ==> (t in Step(s, a).timed <==> a.isTimed)
    ensures !(a.Arrive? && a.tid == t) ==> t in s.parked + s.awake && (t in Step(s, a).timed <==> t in s.timed)
  {
  }

  /** A thread inside a wait is inside its latest one, timed or not. */
  lemma {:induction false} TimedIsLatestWait(ss: seq<State>, tr: seq<Action>, i: nat, t: nat)
    requires IsRun(ss, tr) && i < |ss| && t in ss[i].parked + ss[i].awake
    ensures LatestWait(tr, i, t) == Some(t in ss[i].timed)
  {
    hide Step, Enabled, Accounts;
    if i > 0 {
      PermitConservation(ss, tr, i - 1);
      WaiterStep(ss[i - 1], tr[i - 1], t);
      if !(tr[i - 1].Arrive? && tr[i - 1].tid == t) {
        TimedIsLatestWait(ss, tr, i - 1, t);
      }
    }
  }

  /** `s'` is `s` with one permit taken by `t`, and nobody refused. */
  ghost predicate Takes(s: State, s': State, t: nat) {
    && s'.acquired == s.acquired + 1 && s'.count == s.count - 1 && s'.refused == s.refused
    && t !in s'.parked && t !in s'.awake && s'.parked == s.parked
  }

  ghost predicate Sleeps(s: State, s': State, t: nat) {
    && s'.acquired == s.acquired && s'.count == s.count == 0 && s'.refused == s.refused
    && t in s'.parked && t !in s'.awake && s'.parked == s.parked + {t}
  }

  ghost predicate Gives(s: State, s': State, t: nat, timed: bool, rc: int) {
    && s'.acquired == s.acquired && s'.count == s.count && s'.refused == s.refused + [Refusal(t, timed, rc, s.count)]
    && t !in s'.parked && t !in s'.awake && s'.parked == s.parked
  }

  /** What a waiter does when its condition wait returns `rc`, told from the call it made: a timed
      one takes a permit it can see whatever `rc` says, and otherwise gives up with a nonzero `rc`
      or sleeps on; an untimed one gives up with a nonzero `rc` at once. */
  lemma WaitAnswers(ss: seq<State>, tr: seq<Action>, i: nat, t: nat, rc: int)
    requires IsRun(ss, tr) && i < |tr| && tr[i] == Resume(t, rc)
    ensures LatestWait(tr, i, t).Some?
    ensures var s, s', timed := ss[i], ss[i + 1], LatestWait(tr, i, t).value;
      if rc != 0 && (!timed || s.count == 0) then Gives(s, s', t, timed, rc)
      else if s.count > 0 then Takes(s, s', t)
      else Sleeps(s, s', t)
  {
    PermitConservation(ss, tr, i);
    assert Enabled(ss[i], tr[i]) && ss[i + 1] == Step(ss[i], tr[i]);
    TimedIsLatestWait(ss, tr, i, t);
  }

  /** A wait that finds a permit takes it at once and otherwise sleeps; a try never sleeps and is
      refused with EBUSY when there is none; a post adds one permit and wakes whom it signals. */
  lemma CallAnswers(ss: seq<State>, tr: seq<Action>, i: nat)
    requires IsRun(ss, tr) && i < |tr|
    ensures var s, s', a := ss[i], ss[i + 1], tr[i];
      && (a.Arrive? ==> if s.count > 0 then Takes(s, s', a.tid) else Sleeps(s, s', a.tid))
      && (a.TryWait? ==> if s.count > 0 then Takes(s, s', a.tid) else Gives(s, s', a.tid, false, -EBUSY))
      && (a.Post? ==> s'.count == s.count + 1 && s'.acquired == s.acquired && s'.refused == s.refused
                      && s'.parked == s.parked - a.woken && s'.awake == s.awake + a.woken)
  {
    PermitConservation(ss, tr, i);
    assert Enabled(ss[i], tr[i]) && ss[i + 1] == Step(ss[i], tr[i]);
  }

  /** The posts of the first `n` steps. */
  ghost function Posts(tr: seq<Action>, n: nat): nat
    requires n <= |tr|
  {
    if n == 0 then 0 else Posts(tr, n - 1) + if tr[n - 1].Post? then 1 else 0
  }

  /** The account in the run's own posts: each adds one permit, whatever it wakes. */
  lemma {:induction false} PostsAreCounted(ss: seq<State>, tr: seq<Action>, i: nat)
    requires IsRun(ss, tr) && i < |ss|
    ensures ss[0].count + Posts(tr, i) == ss[i].acquired + ss[i].count
  {
    if i > 0 {
      PostsAreCounted(ss, tr, i - 1);
    }
  }

  // ---- no permit is left idle beside a sleeper ----

  /** Beside a sleeper the permits exceed the woken threads yet to re-check by `n` at most. */
  ghost predicate CoveredBut(s: State, n: nat) {
    s.parked != {} ==> s.count <= |s.awake| + n
  }

  ghost predicate Covered(s: State) {
    CoveredBut(s, 0)
  }

  lemma PostCovers(s: State, w: set<nat>, n: nat)
    requires s.parked !! s.awake && CoveredBut(s, n) && Enabled(s, Post(w))
    ensures CoveredBut(Step(s, Post(w)), n)
  {
    assert s.awake !! w;
    assert |s.awake + w| == |s.awake| + |w|;
    if s.parked != {} { assert |w| >= 1; }
  }

  lemma StirCovers(s: State, t: nat, n: nat)
    requires s.parked !! s.awake && CoveredBut(s, n) && Enabled(s, Stir(t))
    ensures CoveredBut(Step(s, Stir(t)), n)
  {
    assert |s.awake + {t}| == |s.awake| + 1;
  }

  lemma ResumeCovers(s: State, t: nat, rc: int, n: nat)
    requires CoveredBut(s, n) && Enabled(s, Resume(t, rc))
    ensures CoveredBut(Step(s, Resume(t, rc)), n + if Reliable(s, Resume(t, rc)) then 0 else 1)
  {
    assert |s.awake - {t}| == |s.awake| - 1;
  }

  /** Only a failing untimed wait can add to the excess, and by one. */
  lemma CoveredStep(s: State, a: Action, n: nat)
    requires Accounts(s) && CoveredBut(s, n) && Enabled(s, a)
    ensures CoveredBut(Step(s, a), n + if Reliable(s, a) then 0 else 1)
  {
    match a {
      case Post(w) => PostCovers(s, w, n);
      case Stir(t) => StirCovers(s, t, n);
      case Resume(t, rc) => ResumeCovers(s, t, rc, n);
      case Arrive(t, isTimed) => assert s.awake - {t} == s.awake;
      case TryWait(t) => assert s.awake - {t} == s.awake;
    }
  }

  /** The untimed path gives up on a failed condition wait without looking at the count. Such a
      failure keeps the cover exactly when nobody is parked or there is a woken thread to spare. */
  lemma FailedWaitKeepsCoverIff(s: State, t: nat, rc: int)
    requires Accounts(s) && Covered(s) && Enabled(s, Resume(t, rc)) && rc != 0 && t !in s.timed
    ensures Covered(Step(s, Resume(t, rc))) <==> s.parked == {} || |s.awake| > s.count
  {
    assert |s.awake - {t}| == |s.awake| - 1;
  }

  /** The untimed condition waits that failed in the first `n` steps. */
  ghost function FailedWaits(ss: seq<State>, tr: seq<Action>, n: nat): nat
    requires n <= |tr| && n <= |ss|
  {
    if n == 0 then 0 else FailedWaits(ss, tr, n - 1) + if Reliable(ss[n - 1], tr[n - 1]) then 0 else 1
  }

  /** With failing waits anywhere in the run, each of them strands at most one permit: beside a
      sleeper the permits never exceed the woken threads yet to re-check by more than the number
      of untimed waits that have failed. */
  lemma {:induction false} EachFailureStrandsAtMostOne(ss: seq<State>, tr: seq<Action>, i: nat)
    requires IsRun(ss, tr) && i < |ss|
    ensures ss[i].parked != {} ==> ss[i].count <= |ss[i].awake| + FailedWaits(ss, tr, i)
  {
    hide Step, Enabled, Reliable, Accounts;
    if i > 0 {
      EachFailureStrandsAtMostOne(ss, tr, i - 1);
      PermitConservation(ss, tr, i - 1);
      CoveredStep(ss[i - 1], tr[i - 1], FailedWaits(ss, tr, i - 1));
    }
  }

  lemma {:induction false} NoFailures(ss: seq<State>, tr: seq<Action>, n: nat)
    requires n <= |tr| && n <= |ss|
    ensures FailedWaits(ss, tr, n) == 0 <==> forall h | 0 <= h < n :: Reliable(ss[h], tr[h])
  {
    hide Reliable;
    if n > 0 {
      NoFailures(ss, tr, n - 1);
    }
  }

  /** In every reachable state, despite barging, try_wait, spurious wakes and timeouts: while no
      untimed wait has failed, a sleeper never has more permits beside it than woken threads yet
      to re-check, so no quiescent state has a sleeper and a free permit. Whatever has failed,
      permits beyond the number of failures have a woken thread whose next step takes one. */
  lemma NoIdlePermit(ss: seq<State>, tr: seq<Action>, i: nat)
    requires IsRun(ss, tr) && i < |ss|
    ensures (forall h | 0 <= h < i :: Reliable(ss[h], tr[h])) ==> FailedWaits(ss, tr, i) == 0 && Covered(ss[i])
    ensures ss[i].awake == {} && ss[i].parked != {} ==> ss[i].count <= FailedWaits(ss, tr, i)
    ensures ss[i].count > FailedWaits(ss, tr, i) && ss[i].parked != {} ==>
      exists t :: t in ss[i].awake && Enabled(ss[i], Resume(t, 0)) && Step(ss[i], Resume(t, 0)).acquired == ss[i].acquired + 1
  {
    EachFailureStrandsAtMostOne(ss, tr, i);
    NoFailures(ss, tr, i);
    if ss[i].count > FailedWaits(ss, tr, i) && ss[i].parked != {} {
      assert |ss[i].awake| > 0;
      var t :| t in ss[i].awake;
      assert Enabled(ss[i], Resume(t, 0));
    }
  }

  /** A failing untimed wait gives up beside a sleeper only if another woken thread is left for
      every permit. */
  ghost predicate Spared(s: State, a: Action) {
    Reliable(s, a) || s.parked == {} || |s.awake| > s.count
  }

  lemma CoverStepIff(s: State, a: Action)
    requires Accounts(s) && Covered(s) && Enabled(s, a)
    ensures Covered(Step(s, a)) <==> Spared(s, a)
  {
    if Reliable(s, a) {
      CoveredStep(s, a, 0);
    } else {
      FailedWaitKeepsCoverIff(s, a.tid, a.rc);
    }
  }

  /** Over a whole run no permit has lain idle beside a sleeper at any point exactly when every
      untimed wait that failed left a woken thread for every permit, or nobody asleep. */
  lemma {:induction false} NeverIdleIff(ss: seq<State>, tr: seq<Action>, i: nat)
    requires IsRun(ss, tr) && i < |ss|
    ensures (forall j | 0 <= j <= i :: Covered(ss[j])) <==> forall h | 0 <= h < i :: Spared(ss[h], tr[h])
  {
    hide Step, Enabled, Spared, Covered, Accounts;
    if i == 0 {
      assert Covered(ss[0]) by { StartsCovered(ss[0]); }
    } else {
      NeverIdleIff(ss, tr, i - 1);
      PermitConservation(ss, tr, i - 1);
      if Covered(ss[i - 1]) {
        CoverStepIff(ss[i - 1], tr[i - 1]);
      }
      assert (forall j | 0 <= j <= i :: Covered(ss[j])) <==> (forall j | 0 <= j <= i - 1 :: Covered(ss[j])) && Covered(ss[i]);
      assert (forall h | 0 <= h < i :: Spared(ss[h], tr[h])) <==>
        (forall h | 0 <= h < i - 1 :: Spared(ss[h], tr[h])) && Spared(ss[i - 1], tr[i - 1]);
    }
  }

  lemma StartsCovered(s: State)
    requires Initial(s)
    ensures Covered(s)
  {
  }

  /** And it can happen: two waiters, one post, a failed wait, and a permit lies idle. */
  lemma FailedWaitStrandsPermit() returns (ss: seq<State>, tr: seq<Action>)
    ensures IsRun(ss, tr)
    ensures var s := ss[|ss| - 1]; s.awake == {} && s.parked == {2} && s.count == 1
  {
    var s0 := State(0, {}, {}, {}, 0, 0, 0, []);
    tr := [Arrive(1, false), Arrive(2, false), Post({1}), Resume(1, -22)];
    var s1 := Step(s0, tr[0]);
    var s2 := Step(s1, tr[1]);
    var s3 := Step(s2, tr[2]);
    var s4 := Step(s3, tr[3]);
    ss := [s0, s1, s2, s3, s4];
    assert s2.parked == {1, 2};
    assert s3.parked == {2} && s3.awake == {1} && s4.awake == {};
  }

  // ---- the monitor in place ----

  datatype Outcome = Acquired | Refused(rc: int) | Sleeping

  class Monitor {
    var count: nat
    ghost var s: State

    ghost predicate Valid()
      reads this
    {
      Accounts(s) && s.count == count
    }

    constructor (initial: nat)
      ensures Valid() && Initial(s) && s.initial == initial
    {
      count := initial;
      s := State(initial, {}, {}, {}, initial, 0, 0, []);
    }

    method DoPost(ghost woken: set<nat>)
      requires Valid() && Enabled(s, Post(woken))
      modifies this
      ensures Valid() && s == Step(old(s), Post(woken))
    {
      AccountsStep(s, Post(woken));
      count := count + 1;
      s := Step(s, Post(woken));
    }

    /** wait and wait_until, from the lock to the first return or park. */
    method Enter(t: nat, isTimed: bool) returns (r: Outcome)
      requires Valid() && Enabled(s, Arrive(t, isTimed))
      modifies this
      ensures Valid() && s == Step(old(s), Arrive(t, isTimed))
      ensures r == if old(count) > 0 then Acquired else Sleeping
    {
      AccountsStep(s, Arrive(t, isTimed));
      s := Step(s, Arrive(t, isTimed));
      if count == 0 {
        return Sleeping;
      }
      count := count - 1;
      return Acquired;
    }

    /** The rest of the loop of wait, once the condition wait has returned. */
    method ReCheck(t: nat, rc: int) returns (r: Outcome)
      requires Valid() && Enabled(s, Resume(t, rc)) && t !in s.timed
      modifies this
      ensures Valid() && s == Step(old(s), Resume(t, rc))
      ensures r == if rc != 0 then Refused(rc) else if old(count) == 0 then Sleeping else Acquired
    {
      AccountsStep(s, Resume(t, rc));
      s := Step(s, Resume(t, rc));
      if rc != 0 {
        return Refused(rc);
      }
      if count == 0 {
        return Sleeping;
      }
      count := count - 1;
      return Acquired;
    }

    /** The same for wait_until, which looks at the count before it reports an expiry. */
    method ReCheckTimed(t: nat, rc: int) returns (r: Outcome)
      requires Valid() && Enabled(s, Resume(t, rc)) && t in s.timed
      modifies this
      ensures Valid() && s == Step(old(s), Resume(t, rc))
      ensures r == if old(count) > 0 then Acquired else if rc != 0 then Refused(rc) else Sleeping
    {
      AccountsStep(s, Resume(t, rc));
      s := Step(s, Resume(t, rc));
      if rc != 0 && count == 0 {
        return Refused(rc);
      }
      if count == 0 {
        return Sleeping;
      }
      count := count - 1;
      return Acquired;
    }

    method TryEnter(t: nat) returns (r: Outcome)
      requires Valid() && Enabled(s, TryWait(t))
      modifies this
      ensures Valid() && s == Step(old(s), TryWait(t))
      ensures r == if old(count) > 0 then Acquired else Refused(-EBUSY)
    {
      AccountsStep(s, TryWait(t));
      s := Step(s, TryWait(t));
      if count == 0 {
        return Refused(-EBUSY);
      }
      count := count - 1;
      return Acquired;
    }
  }
}
