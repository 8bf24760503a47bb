/** The auto-reset, breadth-one event as a monitor: at most one pending token, signals that find
    one pending coalesce without touching the condition variable, and each successful wait
    consumes the token. Each mutex-protected section is one step. */
module Event {
  import opened Wrappers

  datatype State = State(
    signaled: bool,
    parked: set<nat>,
    awake: set<nat>,
    timed: set<nat>,
    stored: nat,            // signals that stored a token
    coalesced: nat,         // signals that found one pending
    consumed: nat,
    expired: seq<bool>)     // for each timed wait that came back empty: was a token pending?

  datatype Action =
    | Signal(woken: set<nat>)
    | Arrive(tid: nat, isTimed: bool)
    | Stir(tid: nat)
    | Resume(tid: nat, rc: int)

  ghost predicate Initial(s: State) {
    s == State(false, {}, {}, {}, 0, 0, 0, [])
  }

  ghost predicate Enabled(s: State, a: Action) {
    match a
    case Signal(w) => w <= s.parked && (!s.signaled && s.parked != {} ==> w != {}) && (s.signaled ==> w == {})
    case Arrive(t, _) => t !in s.parked && t !in s.awake
    case Stir(t) => t in s.parked
    case Resume(t, rc) => t in s.awake && rc <= 0
  }

  function Consume(s: State, t: nat): State {
    s.(signaled := false, consumed := s.consumed + 1, awake := s.awake - {t}, timed := s.timed - {t})
  }

  function Step(s: State, a: Action): State {
    match a
    case Signal(w) =>
      if s.signaled then s.(coalesced := s.coalesced + 1)
      else s.(signaled := true, stored := s.stored + 1, parked := s.parked - w, awake := s.awake + w)
    case Arrive(t, isTimed) =>
      if s.signaled then Consume(s, t)
      else s.(parked := s.parked + {t}, timed := if isTimed then s.timed + {t} else s.timed)
    case Stir(t) => s.(parked := s.parked - {t}, awake := s.awake + {t})
    case Resume(t, rc) =>
      if rc != 0 && (t !in s.timed || !s.signaled) then
        s.(awake := s.awake - {t}, timed := s.timed - {t},
           expired := if t in s.timed then s.expired + [s.signaled] else s.expired)
      else if !s.signaled then s.(awake := s.awake - {t}, parked := s.parked + {t})
      else Consume(s, t)
  }

  ghost predicate IsRun(ss: seq<State>, tr: seq<Action>) {
    && |ss| == |tr| + 1 && Initial(ss[0])
    && forall i | 0 <= i < |tr| :: Enabled(ss[i], tr[i]) && ss[i + 1] == Step(ss[i], tr[i])
  }

  ghost predicate Reliable(s: State, a: Action) {
    a.Resume? && a.tid !in s.timed ==> a.rc == 0
  }

  /** Threads are parked or awake, not both; every token stored was consumed or is pending; no
      timed wait came back empty over a pending token. */
  ghost predicate Accounts(s: State) {
    && s.parked !! s.awake && s.timed <= s.parked + s.awake
    && s.stored == s.consumed + (if s.signaled then 1 else 0)
    && (forall k | 0 <= k < |s.expired| :: !s.expired[k])
  }

  /** A pending token beside a sleeper has a woken thread that has yet to re-check. */
  ghost predicate Covered(s: State) {
    s.signaled && s.parked != {} ==> s.awake != {}
  }

  lemma AccountsStep(s: State, a: Action)
    requires Accounts(s) && Enabled(s, a)
    ensures Accounts(Step(s, a))
  {
  }

  lemma CoveredStep(s: State, a: Action)
    requires Accounts(s) && Covered(s) && Enabled(s, a) && Reliable(s, a)
    ensures Covered(Step(s, a))
  {
    if a.Stir? { assert a.tid in Step(s, a).awake; }
    if a.Signal? && !s.signaled && a.woken != {} {
      var w :| w in a.woken;
      assert w in Step(s, a).awake;
    }
    if a.Arrive? { assert s.awake - {a.tid} == s.awake; }
  }

  /** Tokens are conserved over every run, failed waits included: those stored are those consumed
      plus the one pending, so coalesced signals never add a wake. */
  lemma {:induction false} TokenConservation(ss: seq<State>, tr: seq<Action>, i: nat)
    requires IsRun(ss, tr) && i < |ss|
    ensures Accounts(ss[i])
    ensures ss[i].stored == ss[i].consumed + if ss[i].signaled then 1 else 0
    ensures forall k | 0 <= k < |ss[i].expired| :: !ss[i].expired[k]
  {
    if i > 0 {
      TokenConservation(ss, tr, i - 1);
      AccountsStep(ss[i - 1], tr[i - 1]);
    }
  }

  // ---- what each call answers ----

  /** Whether the latest wait by `t` in the first `n` steps was a timed one. */
  ghost function LatestWait(tr: seq<Action>, n: nat, t: nat): Option<bool>
    requires n <= |tr|
  {
    if n == 0 then None
    else if tr[n - 1].Arrive? && tr[n - 1].tid == t then Some(tr[n - 1].isTimed)
    else LatestWait(tr, n - 1, t)
  }

  lemma WaiterStep(s: State, a: Action, t: nat)
    requires Accounts(s) && Enabled(s, a) && t in Step(s, a).parked + Step(s, a).awake
    ensures a.Arrive? && a.tid == t ==> (t in Step(s, a).timed <==> a.isTimed)
    ensures !(a.Arrive? && a.tid == t) ==> t in s.parked + s.awake && (t in Step(s, a).timed <==> t in s.timed)
  {
  }

  /** A thread inside a wait is inside its latest one, timed or not. */
  lemma {:induction false} TimedIsLatestWait(ss: seq<State>, tr: seq<Action>, i: nat, t: nat)
    requires IsRun(ss, tr) && i < |ss| && t in ss[i].parked + ss[i].awake
    ensures LatestWait(tr, i, t) == Some(t in ss[i].timed)
  {
    hide Step, Enabled, Accounts;
    if i > 0 {
      TokenConservation(ss, tr, i - 1);
      WaiterStep(ss[i - 1], tr[i - 1], t);
      if !(tr[i - 1].Arrive? && tr[i - 1].tid == t) {
        TimedIsLatestWait(ss, tr, i - 1, t);
      }
    }
  }

  /** `s'` is `s` with the token consumed by `t`. */
  ghost predicate Takes(s: State, s': State, t: nat) {
    && s.signaled && !s'.signaled && s'.consumed == s.consumed + 1 && s'.expired == s.expired
    && t !in s'.parked && t !in s'.awake && s'.parked == s.parked
  }

  ghost predicate Sleeps(s: State, s': State, t: nat) {
    && !s.signaled && !s'.signaled && s'.consumed == s.consumed && s'.expired == s.expired
    && t !in s'.awake && s'.parked == s.parked + {t}
  }

  /** `t` leaves with nothing; a timed wait's expiry is recorded with what it saw. */
  ghost predicate Leaves(s: State, s': State, t: nat, timed: bool) {
    && s'.signaled == s.signaled && s'.consumed == s.consumed
    && s'.expired == (if timed then s.expired + [s.signaled] else s.expired)
    && t !in s'.parked && t !in s'.awake && s'.parked == s.parked
  }

  /** What a waiter does when its condition wait returns `rc`, told from the call it made: a timed
      one consumes a token it can see whatever `rc` says, and otherwise gives up on a nonzero `rc`
      or sleeps on; an untimed one gives up on a nonzero `rc` at once. */
  lemma WaitAnswers(ss: seq<State>, tr: seq<Action>, i: nat, t: nat, rc: int)
    requires IsRun(ss, tr) && i < |tr| && tr[i] == Resume(t, rc)
    ensures LatestWait(tr, i, t).Some?
    ensures var s, s', timed := ss[i], ss[i + 1], LatestWait(tr, i, t).value;
      if rc != 0 && (!timed || !s.signaled) then Leaves(s, s', t, timed)
      else if s.signaled then Takes(s, s', t)
      else Sleeps(s, s', t)
  {
    TokenConservation(ss, tr, i);
    assert Enabled(ss[i], tr[i]) && ss[i + 1] == Step(ss[i], tr[i]);
    TimedIsLatestWait(ss, tr, i, t);
  }

  /** A wait that finds a token consumes it at once and otherwise sleeps; a signal stores a token
      and wakes whom it signals, unless one is pending, and then changes neither. */
  lemma CallAnswers(ss: seq<State>, tr: seq<Action>, i: nat)
    requires IsRun(ss, tr) && i < |tr|
    ensures var s, s', a := ss[i], ss[i + 1], tr[i];
      && (a.Arrive? ==> if s.signaled then Takes(s, s', a.tid) else Sleeps(s, s', a.tid))
      && (a.Signal? ==> s'.signaled && s'.consumed == s.consumed && s'.expired == s.expired
                        && s'.parked == s.parked - a.woken && s'.awake == s.awake + a.woken)
      && (a.Signal? && s.signaled ==> a.woken == {})
  {
    TokenConservation(ss, tr, i);
    assert Enabled(ss[i], tr[i]) && ss[i + 1] == Step(ss[i], tr[i]);
  }

  /** The signals of the first `n` steps that found no token pending. */
  ghost function Stored(ss: seq<State>, tr: seq<Action>, n: nat): nat
    requires n <= |tr| && n <= |ss|
  {
    if n == 0 then 0 else Stored(ss, tr, n - 1) + if tr[n - 1].Signal? && !ss[n - 1].signaled then 1 else 0
  }

  /** The account in the run's own signals: those that found none pending store a token each. */
  lemma {:induction false} SignalsAreCounted(ss: seq<State>, tr: seq<Action>, i: nat)
    requires IsRun(ss, tr) && i < |ss|
    ensures Stored(ss, tr, i) == ss[i].consumed + if ss[i].signaled then 1 else 0
  {
    if i > 0 {
      SignalsAreCounted(ss, tr, i - 1);
    }
  }

  /** A failed untimed wait keeps the cover exactly when nobody is parked, no token is pending,
      or another woken thread remains. */
  lemma FailedWaitKeepsCoverIff(s: State, t: nat, rc: int)
    requires Accounts(s) && Covered(s) && Enabled(s, Resume(t, rc)) && rc != 0 && t !in s.timed
    ensures Covered(Step(s, Resume(t, rc))) <==> s.parked == {} || !s.signaled || s.awake != {t}
  {
    assert s.awake - {t} == {} <==> s.awake == {t};
  }

  /** The untimed condition waits that failed in the first `n` steps. */
  ghost function FailedWaits(ss: seq<State>, tr: seq<Action>, n: nat): nat
    requires n <= |tr| && n <= |ss|
  {
    if n == 0 then 0 else FailedWaits(ss, tr, n - 1) + if Reliable(ss[n - 1], tr[n - 1]) then 0 else 1
  }

  /** With failing waits anywhere in the run: a token idle beside a sleeper, no woken thread left
      for it, is always one over which an untimed wait failed while that same token was pending. */
  lemma {:induction false} IdleTokenNeedsFailure(ss: seq<State>, tr: seq<Action>, i: nat) returns (h: nat)
    requires IsRun(ss, tr) && i < |ss| && !Covered(ss[i])
    ensures h < i && !Reliable(ss[h], tr[h]) && forall j | h <= j <= i :: ss[j].signaled
    ensures FailedWaits(ss, tr, i) > 0
  {
    hide Step, Enabled, Reliable, Accounts;
    StartsCovered(ss[0]);
    h := 0;
    if i > 0 {
      TokenConservation(ss, tr, i - 1);
      UncoveredStep(ss[i - 1], tr[i - 1]);
      if Covered(ss[i - 1]) {
        h := i - 1;
      } else {
        h := IdleTokenNeedsFailure(ss, tr, i - 1);
      }
    }
  }

  /** Only a failing wait uncovers a token, and it leaves it pending. */
  lemma UncoveredStep(s: State, a: Action)
    requires Accounts(s) && Enabled(s, a) && !Covered(Step(s, a))
    ensures s.signaled && (Covered(s) ==> !Reliable(s, a))
  {
    if Covered(s) && Reliable(s, a) {
      CoveredStep(s, a);
    }
  }

  /** In every reachable state a pending token beside a parked waiter has a woken thread that has
      yet to re-check and whose next step consumes it, even though coalesced signals skip the
      condition variable; unless an untimed wait has failed over that very token. */
  lemma NoIdleToken(ss: seq<State>, tr: seq<Action>, i: nat)
    requires IsRun(ss, tr) && i < |ss|
    ensures (forall h | 0 <= h < i :: Reliable(ss[h], tr[h])) ==> Covered(ss[i])
    ensures ss[i].signaled && ss[i].parked != {} ==>
      || (exists t :: t in ss[i].awake && Enabled(ss[i], Resume(t, 0)) && Step(ss[i], Resume(t, 0)).consumed == ss[i].consumed + 1)
      || (exists h :: 0 <= h < i && !Reliable(ss[h], tr[h]) && forall j | h <= j <= i :: ss[j].signaled)
  {
    if !Covered(ss[i]) {
      var h := IdleTokenNeedsFailure(ss, tr, i);
    } else if ss[i].signaled && ss[i].parked != {} {
      var t :| t in ss[i].awake;
      assert Enabled(ss[i], Resume(t, 0));
    }
  }

  /** A failing untimed wait gives up beside a sleeper and a pending token only if another woken
      thread is left. */
  ghost predicate Spared(s: State, a: Action) {
    Reliable(s, a) || s.parked == {} || !s.signaled || s.awake != {a.tid}
  }

  lemma CoverStepIff(s: State, a: Action)
    requires Accounts(s) && Covered(s) && Enabled(s, a)
    ensures Covered(Step(s, a)) <==> Spared(s, a)
  {
    if Reliable(s, a) {
      CoveredStep(s, a);
    } else {
      FailedWaitKeepsCoverIff(s, a.tid, a.rc);
    }
  }

  /** Over a whole run no token has lain idle beside a sleeper at any point exactly when no
      untimed wait failed as the last woken thread of a pending token with others asleep. */
  lemma {:induction false} NeverIdleIff(ss: seq<State>, tr: seq<Action>, i: nat)
    requires IsRun(ss, tr) && i < |ss|
    ensures (forall j | 0 <= j <= i :: Covered(ss[j])) <==> forall h | 0 <= h < i :: Spared(ss[h], tr[h])
  {
    hide Step, Enabled, Spared, Covered, Accounts;
    if i == 0 {
      assert Covered(ss[0]) by { StartsCovered(ss[0]); }
    } else {
      NeverIdleIff(ss, tr, i - 1);
      TokenConservation(ss, tr, i - 1);
      if Covered(ss[i - 1]) {
        CoverStepIff(ss[i - 1], tr[i - 1]);
      }
      assert (forall j | 0 <= j <= i :: Covered(ss[j])) <==> (forall j | 0 <= j <= i - 1 :: Covered(ss[j])) && Covered(ss[i]);
      assert (forall h | 0 <= h < i :: Spared(ss[h], tr[h])) <==>
        (forall h | 0 <= h < i - 1 :: Spared(ss[h], tr[h])) && Spared(ss[i - 1], tr[i - 1]);
    }
  }

  lemma StartsCovered(s: State)
    requires Initial(s)
    ensures Covered(s)
  {
  }

  /** And it can happen: two waiters, one signal, a failed wait, and the token lies idle. */
  lemma FailedWaitStrandsToken() returns (ss: seq<State>, tr: seq<Action>)
    ensures IsRun(ss, tr)
    ensures var s := ss[|ss| - 1]; s.signaled && s.awake == {} && s.parked == {2}
  {
    var s0 := State(false, {}, {}, {}, 0, 0, 0, []);
    tr := [Arrive(1, false), Arrive(2, false), Signal({1}), Resume(1, -22)];
    var s1 := Step(s0, tr[0]);
    var s2 := Step(s1, tr[1]);
    var s3 := Step(s2, tr[2]);
    var s4 := Step(s3, tr[3]);
    ss := [s0, s1, s2, s3, s4];
    assert s2.parked == {1, 2};
    assert s3.parked == {2} && s3.awake == {1} && s4.awake == {};
  }

  // ---- the monitor in place ----

  datatype Outcome = Consumed | Gave(rc: int) | Sleeping

  class Monitor {
    var signaled: bool
    ghost var s: State

    ghost predicate Valid()
      reads this
    {
      Accounts(s) && s.signaled == signaled
    }

    constructor ()
      ensures Valid() && Initial(s)
    {
      signaled := false;
      s := State(false, {}, {}, {}, 0, 0, 0, []);
    }

    /** Store the one token and wake one waiter; otherwise coalesce. */
    method DoSignal(ghost woken: set<nat>) returns (condSignalled: bool)
      requires Valid() && Enabled(s, Signal(woken))
      modifies this
      ensures Valid() && s == Step(old(s), Signal(woken)) && condSignalled == !old(signaled)
    {
      AccountsStep(s, Signal(woken));
      s := Step(s, Signal(woken));
      condSignalled := !signaled;
      if !signaled {
        signaled := true;
      }
    }

    method Enter(t: nat, isTimed: bool) returns (r: Outcome)
      requires Valid() && Enabled(s, Arrive(t, isTimed))
      modifies this
      ensures Valid() && s == Step(old(s), Arrive(t, isTimed))
      ensures r == if old(signaled) then Consumed else Sleeping
    {
      AccountsStep(s, Arrive(t, isTimed));
      s := Step(s, Arrive(t, isTimed));
      if !signaled {
        return Sleeping;
      }
      signaled := false;
      return Consumed;
    }

    method ReCheck(t: nat, rc: int) returns (r: Outcome)
      requires Valid() && Enabled(s, Resume(t, rc)) && t !in s.timed
      modifies this
      ensures Valid() && s == Step(old(s), Resume(t, rc))
      ensures r == if rc != 0 then Gave(rc) else if old(signaled) then Consumed else Sleeping
    {
      AccountsStep(s, Resume(t, rc));
      s := Step(s, Resume(t, rc));
      if rc != 0 {
        return Gave(rc);
      }
      if !signaled {
        return Sleeping;
      }
      signaled := false;
      return Consumed;
    }

    method ReCheckTimed(t: nat, rc: int) returns (r: Outcome)
      requires Valid() && Enabled(s, Resume(t, rc)) && t in s.timed
      modifies this
      ensures Valid() && s == Step(old(s), Resume(t, rc))
      ensures r == if old(signaled) then Consumed else if rc != 0 then Gave(rc) else Sleeping
    {
      AccountsStep(s, Resume(t, rc));
      s := Step(s, Resume(t, rc));
      if rc != 0 && !signaled {
        return Gave(rc);
      }
      if !signaled {
        return Sleeping;
      }
      signaled := false;
      return Consumed;
    }
  }
}
