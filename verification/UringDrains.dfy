/** What a drain of the completion queue delivers and what it does to the table, and whose tokens
    the events carry. */
module UringDrains {
  import opened PollTypes
  import opened Uring
  import opened UringRuns
  import opened UringTheorems
  import opened UringZero

  // ---- the caller's buffer ----

  ghost function Events(log: seq<Delivery>): (evs: seq<PollEvent>)
    ensures |evs| == |log| && forall k | 0 <= k < |log| :: evs[k] == log[k].event
  {
    if log == [] then [] else Events(log[..|log| - 1]) + [log[|log| - 1].event]
  }

  /** The log has grown by `news`, the buffer by their events, and it holds `cap` at most. */
  ghost predicate Filled(s: State, s': State, news: seq<Delivery>, cap: nat) {
    s'.delivered == s.delivered + news && s'.out == s.out + Events(news) && (|s.out| <= cap ==> |s'.out| <= cap)
  }

  lemma FilledThen(a: State, b: State, c: State, p: seq<Delivery>, q: seq<Delivery>, cap: nat)
    requires Filled(a, b, p, cap) && Filled(b, c, q, cap)
    ensures Filled(a, c, p + q, cap)
  {
    assert Events(p + q) == Events(p) + Events(q);
  }

  lemma DrainOneFills(s: State, cap: nat) returns (news: seq<Delivery>)
    requires s.cq != []
    ensures Filled(s, DrainOne(s, cap), news, cap)
  {
    news := DrainOne(s, cap).delivered[|s.delivered|..];
  }

  lemma {:induction false} DrainFills(s: State, cap: nat) returns (news: seq<Delivery>)
    ensures Filled(s, DrainAll(s, cap), news, cap)
    decreases |s.cq|
  {
    hide Filled, DrainOne;
    if s.cq == [] {
      news := [];
      NothingFilled(s, cap);
    } else {
      var one := DrainOneFills(s, cap);
      DrainShrinks(s, cap);
      var rest := DrainFills(DrainOne(s, cap), cap);
      FilledThen(s, DrainOne(s, cap), DrainAll(s, cap), one, rest, cap);
      news := one + rest;
    }
  }

  lemma NothingFilled(s: State, cap: nat)
    ensures Filled(s, s, [], cap)
  {
  }

  /** After a drain the caller's buffer is exactly the events of the deliveries that drain added
      to the history, in order, and never more than it has room for. */
  lemma BufferIsNewDeliveries(ss: seq<State>, tr: seq<Action>, i: nat, cap: nat)
    requires IsRun(ss, tr) && i < |tr| && tr[i] == DoDrain(cap)
    ensures var s, s' := ss[i], ss[i + 1];
      && |s.delivered| <= |s'.delivered| && s'.delivered[..|s.delivered|] == s.delivered
      && s'.out == Events(s'.delivered[|s.delivered|..]) && |s'.out| <= cap
  {
    hide DrainAll;
    var s, s' := ss[i], ss[i + 1];
    assert s' == DrainAll(s.(out := []), cap);
    var news := DrainFills(s.(out := []), cap);
    assert s'.delivered[|s.delivered|..] == news;
    assert [] + Events(news) == Events(news);
  }

  // ---- what the events say ----

  /** Delivery `d` reports the completion `c` of a row: flags as the kernel found the poll ready,
      descriptor and token of the row. */
  ghost predicate Reports(d: Delivery, c: Cqe, table: seq<Reg>) {
    && c.res.Ready? && c.ud == d.ud && Says(d.event.flags, c.res.bits, {PollHup})
    && exists row :: 0 <= row < |table| && OfRow(d.event, table[row])
  }

  ghost predicate OfRow(ev: PollEvent, r: Reg) {
    r.fd >= 0 && ev.fd == r.fd && ev.token == r.token
  }

  /** A drain keeps descriptor, token and interests of every row it does not retire. */
  ghost predicate Shrunk(t: seq<Reg>, t': seq<Reg>) {
    |t'| == |t| && forall i | 0 <= i < |t| && t'[i].fd >= 0 :: t[i].fd == t'[i].fd && t[i].token == t'[i].token && t[i].interests == t'[i].interests
  }

  lemma DrainOneReports(s: State, cap: nat)
    requires s.cq != []
    ensures Shrunk(s.table, DrainOne(s, cap).table)
    ensures DrainOne(s, cap).delivered == s.delivered ||
      (|DrainOne(s, cap).delivered| == |s.delivered| + 1 && DrainOne(s, cap).delivered[..|s.delivered|] == s.delivered
       && Reports(DrainOne(s, cap).delivered[|s.delivered|], s.cq[0], s.table))
  {
    hide Says, FlagsOf;
    var i := FindFrom(s.table, s.cq[0].ud, 0);
    if s.cq[0].res.Ready? {
      FlagsSay(s.cq[0].res.bits);
      if i < |s.table| { assert OfRow(PollEvent(s.table[i].token, s.table[i].fd, FlagsOf(s.cq[0].res.bits - {PollRdHup})), s.table[i]); }
    }
  }

  lemma ReportsEarlier(d: Delivery, c: Cqe, t: seq<Reg>, t': seq<Reg>)
    requires Shrunk(t, t') && Reports(d, c, t')
    ensures Reports(d, c, t)
  {
    hide Says;
    var row :| 0 <= row < |t'| && OfRow(d.event, t'[row]);
    assert t'[row].fd >= 0;
    assert OfRow(d.event, t[row]);
  }

  /** Some completion of `q` is what `d` reports. */
  ghost predicate Sourced(d: Delivery, q: seq<Cqe>, table: seq<Reg>) {
    exists j :: 0 <= j < |q| && Reports(d, q[j], table)
  }

  ghost predicate Explained(s: State, s': State) {
    && Shrunk(s.table, s'.table) && |s.delivered| <= |s'.delivered| && s'.delivered[..|s.delivered|] == s.delivered
    && forall k | |s.delivered| <= k < |s'.delivered| :: Sourced(s'.delivered[k], s.cq, s.table)
  }

  lemma SourcedEarlier(d: Delivery, q: seq<Cqe>, t: seq<Reg>, t': seq<Reg>)
    requires q != [] && Shrunk(t, t') && Sourced(d, q[1..], t')
    ensures Sourced(d, q, t)
  {
    hide Reports;
    var j :| 0 <= j < |q[1..]| && Reports(d, q[1..][j], t');
    ReportsEarlier(d, q[1..][j], t, t');
    assert Reports(d, q[j + 1], t);
  }

  lemma ShrunkThen(t: seq<Reg>, u: seq<Reg>, v: seq<Reg>)
    requires Shrunk(t, u) && Shrunk(u, v)
    ensures Shrunk(t, v)
  {
    forall i | 0 <= i < |t| && v[i].fd >= 0
      ensures t[i].fd == v[i].fd && t[i].token == v[i].token && t[i].interests == v[i].interests
    {
      assert u[i].fd == v[i].fd;
    }
  }

  lemma ExplainedThen(s: State, b: State, c: State)
    requires s.cq != [] && b.cq == s.cq[1..] && Shrunk(s.table, b.table) && Explained(b, c)
    requires b.delivered == s.delivered || (|b.delivered| == |s.delivered| + 1 && b.delivered[..|s.delivered|] == s.delivered && Reports(b.delivered[|s.delivered|], s.cq[0], s.table))
    ensures Explained(s, c)
  {
    hide Reports, Shrunk, Sourced;
    ShrunkThen(s.table, b.table, c.table);
    assert b.delivered[..|s.delivered|] == s.delivered;
    assert c.delivered[..|s.delivered|] == c.delivered[..|b.delivered|][..|s.delivered|];
    forall k | |s.delivered| <= k < |c.delivered| ensures Sourced(c.delivered[k], s.cq, s.table) {
      if k < |b.delivered| {
        assert c.delivered[k] == c.delivered[..|b.delivered|][k] == b.delivered[k];
        HeadSources(b.delivered[k], s.cq, s.table);
      } else {
        SourcedEarlier(c.delivered[k], s.cq, s.table, b.table);
      }
    }
  }

  lemma HeadSources(d: Delivery, q: seq<Cqe>, table: seq<Reg>)
    requires q != [] && Reports(d, q[0], table)
    ensures Sourced(d, q, table)
  {
  }

  lemma {:induction false} DrainExplained(s: State, cap: nat)
    ensures Explained(s, DrainAll(s, cap))
    decreases |s.cq|
  {
    hide Explained, DrainOne, Reports, Shrunk;
    if s.cq == [] {
      NothingToExplain(s);
    } else {
      DrainOneReports(s, cap);
      Popped(s, cap);
      DrainExplained(DrainOne(s, cap), cap);
      ExplainedThen(s, DrainOne(s, cap), DrainAll(s, cap));
    }
  }

  lemma NothingToExplain(s: State)
    ensures Explained(s, s)
  {
  }

  /** Every event a drain delivers reports some completion it drained: readable, writable, end of
      file and error exactly as the kernel found the poll ready, with the descriptor and the token
      of a row that was live when the drain began. */
  lemma EventsSayWhatIsReady(ss: seq<State>, tr: seq<Action>, i: nat, cap: nat, k: nat)
    requires IsRun(ss, tr) && i < |tr| && tr[i] == DoDrain(cap) && |ss[i].delivered| <= k < |ss[i + 1].delivered|
    ensures exists j :: 0 <= j < |ss[i].cq| && Reports(ss[i + 1].delivered[k], ss[i].cq[j], ss[i].table)
  {
    hide DrainAll, Reports, Shrunk;
    assert ss[i + 1] == DrainAll(ss[i].(out := []), cap);
    var s := ss[i].(out := []);
    DrainExplained(s, cap);
    var j :| 0 <= j < |s.cq| && Reports(ss[i + 1].delivered[k], s.cq[j], s.table);
  }

  // ---- what becomes of the rows ----

  /** What the first completion under `ud` in `q` does to an armed row of that number. */
  ghost function Fate(q: seq<Cqe>, r: Reg): Reg {
    if q == [] then r
    else if q[0].ud == r.ud then (if q[0].res.Failed? then r.(fd := -1) else r.(ud := 0))
    else Fate(q[1..], r)
  }

  ghost predicate NoZeroes(q: seq<Cqe>) {
    forall c | c in q :: c.ud != 0
  }

  ghost predicate Fated(t: seq<Reg>, t': seq<Reg>, q: seq<Cqe>) {
    |t'| == |t| && forall i | 0 <= i < |t| :: t'[i] == if Armed(t[i]) then Fate(q, t[i]) else t[i]
  }

  lemma {:induction false} FateSkips(q: seq<Cqe>, r: Reg)
    requires forall c | c in q :: c.ud != r.ud
    ensures Fate(q, r) == r
  {
    if q != [] {
      FateSkips(q[1..], r);
    }
  }

  lemma DrainOneFates(s: State, cap: nat, t: seq<Reg>)
    requires Inv(s) && s.cq != [] && s.cq[0].ud != 0 && Fated(DrainOne(s, cap).table, t, s.cq[1..])
    ensures Fated(s.table, t, s.cq)
  {
    hide DrainOne, Logged, Inv;
    DrainKind(s, cap);
    var s', n := DrainOne(s, cap), FindFrom(s.table, s.cq[0].ud, 0);
    forall i | 0 <= i < |s.table| ensures t[i] == if Armed(s.table[i]) then Fate(s.cq, s.table[i]) else s.table[i] {
      if Armed(s.table[i]) && s.table[i].ud == s.cq[0].ud {
        OneRowHasIt(s, i, n);
        assert s'.table[i] == SpentRow(s.table[i], s.cq[0].res);
      } else {
        assert s'.table[i] == s.table[i];
      }
    }
  }

  /** The row of a completion is the one the drain finds. */
  lemma OneRowHasIt(s: State, i: nat, n: nat)
    requires Inv(s) && i < |s.table| && Armed(s.table[i]) && s.cq != [] && s.table[i].ud == s.cq[0].ud
    requires n == FindFrom(s.table, s.cq[0].ud, 0)
    ensures n == i && s.cq[0].ud != WAKE && s.cq[0].ud != TIMEOUT
  {
    assert n < |s.table|;
    assert Armed(s.table[n]);
  }

  lemma {:induction false} DrainFates(s: State, cap: nat)
    requires Inv(s) && NoZeroes(s.cq)
    ensures Fated(s.table, DrainAll(s, cap).table, s.cq)
    decreases |s.cq|
  {
    hide Inv, Fated, DrainOne;
    if s.cq == [] {
      EmptyFates(s.table);
    } else {
      assert s.cq[0] in s.cq;
      DrainOneKeeps(s, cap);
      Popped(s, cap);
      DrainFates(DrainOne(s, cap), cap);
      DrainOneFates(s, cap, DrainAll(s, cap).table);
    }
  }

  lemma EmptyFates(t: seq<Reg>)
    ensures Fated(t, t, [])
  {
  }

  lemma {:induction false} FateIs(q: seq<Cqe>, r: Reg)
    requires CountDone(q, r.ud) <= 1
    ensures (exists c :: c in q && c.ud == r.ud && c.res.Failed?) ==> Fate(q, r) == r.(fd := -1)
    ensures (exists c :: c in q && c.ud == r.ud && c.res.Ready?) ==> Fate(q, r) == r.(ud := 0)
    ensures (forall c | c in q :: c.ud != r.ud) ==> Fate(q, r) == r
  {
    if q != [] {
      if q[0].ud == r.ud {
        NoneDone(q[1..], r.ud);
      } else {
        FateIs(q[1..], r);
      }
    }
  }

  /** A drain with no remove operation's completion in the queue: a live armed row is retired
      exactly when its poll failed, is left to be re-armed exactly when it reported readiness, and
      is otherwise as it was, as is every other row. */
  lemma DrainDecidesRows(ss: seq<State>, tr: seq<Action>, i: nat, cap: nat, row: nat)
    requires IsRun(ss, tr) && i < |tr| && tr[i] == DoDrain(cap) && ss[i].nextSeq < TIMEOUT
    requires row < |ss[i].table| && forall c | c in ss[i].cq :: c.ud != 0
    ensures var s, s', r := ss[i], ss[i + 1], ss[i].table[row];
      && |s'.table| == |s.table|
      && (!Armed(r) ==> s'.table[row] == r)
      && (Armed(r) && (exists c :: c in s.cq && c.ud == r.ud && c.res.Failed?) ==> s'.table[row] == r.(fd := -1))
      && (Armed(r) && (exists c :: c in s.cq && c.ud == r.ud && c.res.Ready?) ==> s'.table[row] == r.(ud := 0))
      && (Armed(r) && (forall c | c in s.cq :: c.ud != r.ud) ==> s'.table[row] == r)
  {
    hide Inv, DrainAll;
    RunKeeps(ss, tr, i);
    var s, r := ss[i], ss[i].table[row];
    assert ss[i + 1] == DrainAll(s.(out := []), cap);
    DrainResetKeeps(s);
    DrainFates(s.(out := []), cap);
    if Armed(r) {
      OneCompletion(s, row);
      FateIs(s.cq, r);
    }
  }

  lemma OneCompletion(s: State, row: nat)
    requires Inv(s) && row < |s.table| && Armed(s.table[row])
    ensures CountDone(s.cq, s.table[row].ud) <= 1
  {
    assert Out(s, s.table[row].ud) == 1;
  }

  // ---- no readiness is lost ----

  /** A delivery under `ud` was added between `s` and `s'`. */
  ghost predicate Added(s: State, s': State, ud: nat) {
    exists k :: |s.delivered| <= k < |s'.delivered| && s'.delivered[k].ud == ud
  }

  lemma HeadAdded(s: State, cap: nat)
    requires Inv(s) && s.cq != [] && s.cq[0].ud != 0 && Fires(s.table, s.cq[0]) && |s.out| < cap
    ensures Added(s, DrainOne(s, cap), s.cq[0].ud)
  {
    FiresIff(s);
    assert DrainOne(s, cap).delivered[|s.delivered|].ud == s.cq[0].ud;
  }

  lemma DrainOneGrows(s: State, cap: nat)
    requires s.cq != []
    ensures |DrainOne(s, cap).out| <= |s.out| + 1 && |s.delivered| <= |DrainOne(s, cap).delivered|
  {
  }

  lemma ZeroLeavesFires(s: State, cap: nat)
    requires s.cq != [] && s.cq[0].ud == 0
    ensures forall c :: Fires(DrainOne(s, cap).table, c) <==> Fires(s.table, c)
  {
    var s' := DrainOne(s, cap);
    assert |s'.table| == |s.table|;
    assert forall i | 0 <= i < |s.table| :: s'.table[i] == s.table[i] || (!Armed(s.table[i]) && !Armed(s'.table[i]));
  }

  lemma {:induction false} FiredAdded(s: State, cap: nat, j: nat)
    requires Inv(s) && j < |s.cq| && Fires(s.table, s.cq[j]) && |s.out| + j < cap
    ensures Added(s, DrainAll(s, cap), s.cq[j].ud)
    decreases |s.cq|
  {
    hide Inv, DrainOne, Fires, Added, Explained;
    FiresNonzero(s.table, s.cq[j]);
    var s' := DrainOne(s, cap);
    DrainOneGrows(s, cap);
    Popped(s, cap);
    DrainExplained(s', cap);
    if j == 0 {
      HeadAdded(s, cap);
      AddedStays(s, s', DrainAll(s', cap), s.cq[0].ud);
    } else {
      assert s.cq[j] in s.cq[1..] by { assert s.cq[1..][j - 1] == s.cq[j]; }
      if s.cq[0].ud == 0 { ZeroLeavesFires(s, cap); } else { LaterFires(s, cap); }
      DrainOneKeeps(s, cap);
      FiredAdded(s', cap, j - 1);
      AddedEarlier(s, s', DrainAll(s', cap), s.cq[j].ud);
    }
  }

  lemma FiresNonzero(table: seq<Reg>, c: Cqe)
    requires Fires(table, c)
    ensures c.ud != 0
  {
  }

  lemma AddedStays(a: State, b: State, c: State, ud: nat)
    requires Added(a, b, ud) && Explained(b, c)
    ensures Added(a, c, ud)
  {
    var k :| |a.delivered| <= k < |b.delivered| && b.delivered[k].ud == ud;
    assert c.delivered[k] == c.delivered[..|b.delivered|][k];
  }

  lemma AddedEarlier(a: State, b: State, c: State, ud: nat)
    requires |a.delivered| <= |b.delivered| && Added(b, c, ud)
    ensures Added(a, c, ud)
  {
  }

  /** No readiness is lost while there is room: a drain delivers an event for every completion
      that reports readiness of a live armed row and has fewer than `cap` completions before it. */
  lemma ReadinessIsDelivered(ss: seq<State>, tr: seq<Action>, i: nat, cap: nat, j: nat)
    requires IsRun(ss, tr) && i < |tr| && tr[i] == DoDrain(cap) && ss[i].nextSeq < TIMEOUT
    requires j < |ss[i].cq| && j < cap && Fires(ss[i].table, ss[i].cq[j])
    ensures Added(ss[i], ss[i + 1], ss[i].cq[j].ud)
  {
    hide Inv, DrainAll, Fires, Added;
    RunKeeps(ss, tr, i);
    DrainResetKeeps(ss[i]);
    assert ss[i + 1] == DrainAll(ss[i].(out := []), cap);
    FiredAdded(ss[i].(out := []), cap, j);
    AddedEarlier(ss[i], ss[i].(out := []), ss[i + 1], ss[i].cq[j].ud);
  }
}
