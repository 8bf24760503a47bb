/** Completions under user_data 0, which the io_uring remove operations post, against the mark 0
    of a live row that waits to be re-armed: when a drain takes one for the other. */
module UringZero {
  import opened Errno
  import opened PollTypes
  import opened Uring
  import opened UringRuns
  import opened UringTheorems

  // ---- one completion ----

  /** Completions under user_data 0, which every remove operation posts, leave the table and
      the caller's buffer alone exactly when no live row waits to be re-armed. */
  lemma ZeroCompletionIsHarmlessIff(s: State, cap: nat)
    requires Inv(s) && s.cq != [] && s.cq[0].ud == 0 && |s.out| < cap
    ensures (DrainOne(s, cap).table == s.table && DrainOne(s, cap).out == s.out) <==>
            forall i | 0 <= i < |s.table| && s.table[i].fd >= 0 :: s.table[i].ud != 0
  {
    var i := FindFrom(s.table, 0, 0);
    if i < |s.table| && s.cq[0].res.Failed? {
      assert DrainOne(s, cap).table[i].fd == -1;
    }
  }

  // ---- a whole drain ----

  /** The completions without those under 0. */
  ghost function NonZero(q: seq<Cqe>): seq<Cqe> {
    if q == [] then [] else (if q[0].ud == 0 then [] else [q[0]]) + NonZero(q[1..])
  }

  /** A completion that reports readiness for an armed row. */
  ghost predicate Fires(table: seq<Reg>, c: Cqe) {
    c.res.Ready? && exists i :: 0 <= i < |table| && Armed(table[i]) && table[i].ud == c.ud
  }

  ghost function Fired(table: seq<Reg>, q: seq<Cqe>): nat {
    if q == [] then 0 else (if Fires(table, q[0]) then 1 else 0) + Fired(table, q[1..])
  }

  /** The completion at `j` is under 0, some row has fired before it (`fired` rows before `q`),
      and it either failed or finds room left in the buffer. */
  ghost predicate Bites(table: seq<Reg>, q: seq<Cqe>, fired: nat, cap: nat, j: nat) {
    && j < |q| && q[j].ud == 0
    && fired + Fired(table, q[..j]) > 0
    && (q[j].res.Failed? || fired + Fired(table, q[..j]) < cap)
  }

  ghost predicate Agree(a: State, f: State) {
    a.table == f.table && a.delivered == f.delivered && a.out == f.out
  }

  /** The same drain without the completions under 0. */
  ghost function Sieved(s: State): State {
    s.(cq := NonZero(s.cq))
  }

  // Once the two drains differ they stay different.

  ghost predicate Lost(a: State, f: State, i: nat) {
    i < |a.table| == |f.table| && a.table[i].fd == -1 && f.table[i].fd >= 0 && f.table[i].ud == 0
  }

  /** `a` may have lost rows that `f` only marks, and has reported something under 0 if it has
      lost none; `f` has reported nothing under 0 since its log was `base` long. */
  ghost predicate Split(a: State, f: State, base: nat) {
    && |a.table| == |f.table| && f.cq == NonZero(a.cq)
    && (forall i: nat | i < |a.table| :: a.table[i] == f.table[i] || Lost(a, f, i))
    && base <= |f.delivered| && (forall k | base <= k < |f.delivered| :: f.delivered[k].ud != 0)
    && ((exists i: nat :: Lost(a, f, i)) || exists k :: base <= k < |a.delivered| && a.delivered[k].ud == 0)
  }

  lemma SplitDisagrees(a: State, f: State, base: nat)
    requires Split(a, f, base)
    ensures !Agree(a, f)
  {
  }

  lemma SplitZero(a: State, f: State, base: nat, cap: nat)
    requires Split(a, f, base) && a.cq != [] && a.cq[0].ud == 0
    ensures Split(DrainOne(a, cap), f, base)
  {
    var a', i := DrainOne(a, cap), FindFrom(a.table, 0, 0);
    assert f.cq == NonZero(a'.cq);
    if i < |a.table| && a.cq[0].res.Failed? {
      assert Lost(a', f, i);
    } else {
      assert a'.table == a.table;
      SplitMore(a, f, a', base);
    }
  }

  lemma SplitMore(a: State, f: State, a': State, base: nat)
    requires Split(a, f, base) && a'.table == a.table && f.cq == NonZero(a'.cq)
    requires |a.delivered| <= |a'.delivered| && a'.delivered[..|a.delivered|] == a.delivered
    ensures Split(a', f, base)
  {
    if i: nat :| Lost(a, f, i) {
      assert Lost(a', f, i);
    } else {
      var k :| base <= k < |a.delivered| && a.delivered[k].ud == 0;
      assert a'.delivered[k] == a.delivered[k];
    }
  }

  lemma SameRowFound(a: State, f: State, base: nat, ud: nat)
    requires Split(a, f, base) && ud != 0
    ensures FindFrom(a.table, ud, 0) == FindFrom(f.table, ud, 0)
    ensures FindFrom(a.table, ud, 0) < |a.table| ==> a.table[FindFrom(a.table, ud, 0)] == f.table[FindFrom(a.table, ud, 0)]
  {
    var i, j := FindFrom(a.table, ud, 0), FindFrom(f.table, ud, 0);
    assert i < |a.table| ==> a.table[i] == f.table[i];
    assert j < |f.table| ==> a.table[j] == f.table[j];
  }

  /** The log gained at most one entry, under a nonzero number. */
  ghost predicate Logged(log: seq<Delivery>, log': seq<Delivery>) {
    log' == log || (|log'| == |log| + 1 && log'[..|log|] == log && log'[|log|].ud != 0)
  }

  lemma SplitLogs(a: State, f: State, a': State, f': State, base: nat)
    requires Split(a, f, base) && a'.table == a.table && f'.table == f.table && f'.cq == NonZero(a'.cq)
    requires Logged(a.delivered, a'.delivered) && Logged(f.delivered, f'.delivered)
    ensures Split(a', f', base)
  {
    if i: nat :| Lost(a, f, i) {
      assert Lost(a', f', i);
    } else {
      var k :| base <= k < |a.delivered| && a.delivered[k].ud == 0;
      assert a'.delivered[k] == a.delivered[k];
    }
    assert forall k | base <= k < |f'.delivered| && k < |f.delivered| :: f'.delivered[k] == f.delivered[k];
    assert forall i: nat | i < |a.table| && Lost(a, f, i) :: Lost(a', f', i);
  }

  lemma SplitRow(a: State, f: State, n: nat, r: Reg, base: nat)
    requires Split(a, f, base) && n < |a.table| && a.table[n] == f.table[n]
    ensures Split(a.(table := a.table[n := r]), f.(table := f.table[n := r]), base)
  {
    var a', f' := a.(table := a.table[n := r]), f.(table := f.table[n := r]);
    assert forall i: nat | Lost(a, f, i) :: i != n && Lost(a', f', i);
  }

  lemma DrainKind(s: State, cap: nat)
    requires s.cq != [] && s.cq[0].ud != 0
    ensures var s', i := DrainOne(s, cap), FindFrom(s.table, s.cq[0].ud, 0);
      && s'.cq == s.cq[1..] && Logged(s.delivered, s'.delivered)
      && s'.table == if s.cq[0].ud == TIMEOUT || s.cq[0].ud == WAKE || i == |s.table| then s.table
                     else s.table[i := SpentRow(s.table[i], s.cq[0].res)]
  {
  }

  function SpentRow(r: Reg, res: Res): Reg {
    if res.Failed? then r.(fd := -1) else r.(ud := 0)
  }

  lemma SplitOther(a: State, f: State, base: nat, cap: nat)
    requires Split(a, f, base) && a.cq != [] && a.cq[0].ud != 0
    ensures f.cq != [] && Split(DrainOne(a, cap), DrainOne(f, cap), base)
  {
    hide Split, DrainOne, Logged, Lost;
    SplitHead(a, f, base);
    SameRowFound(a, f, base, a.cq[0].ud);
    var a', f', i := DrainOne(a, cap), DrainOne(f, cap), FindFrom(a.table, a.cq[0].ud, 0);
    DrainKind(a, cap);
    DrainKind(f, cap);
    if a'.table == a.table && f'.table == f.table {
      SplitLogs(a, f, a', f', base);
    } else {
      SplitRow(a, f, i, SpentRow(a.table[i], a.cq[0].res), base);
      SplitLogs(a.(table := a'.table), f.(table := f'.table), a', f', base);
    }
  }

  lemma SplitHead(a: State, f: State, base: nat)
    requires Split(a, f, base) && a.cq != [] && a.cq[0].ud != 0
    ensures f.cq != [] && f.cq[0] == a.cq[0] && f.cq[1..] == NonZero(a.cq[1..]) && |a.table| == |f.table|
  {
  }

  lemma {:induction false} SplitStays(a: State, f: State, base: nat, cap: nat)
    requires Split(a, f, base)
    ensures !Agree(DrainAll(a, cap), DrainAll(f, cap))
    decreases |a.cq|
  {
    hide Split, Agree, DrainOne;
    if a.cq == [] {
      assert f.cq == [] by { SplitEmpty(a, f, base); }
      SplitDisagrees(a, f, base);
    } else {
      DrainShrinks(a, cap);
      if a.cq[0].ud == 0 {
        SplitZero(a, f, base, cap);
        SplitStays(DrainOne(a, cap), f, base, cap);
      } else {
        SplitOther(a, f, base, cap);
        SplitStays(DrainOne(a, cap), DrainOne(f, cap), base, cap);
      }
    }
  }

  lemma SplitEmpty(a: State, f: State, base: nat)
    requires Split(a, f, base) && a.cq == []
    ensures f.cq == []
  {
  }

  // Until they differ they run in step.

  /** Some live row waits to be re-armed. */
  ghost predicate Ripe(table: seq<Reg>) {
    exists i :: 0 <= i < |table| && table[i].fd >= 0 && table[i].ud == 0
  }

  lemma {:induction false} FiredSame(table: seq<Reg>, table': seq<Reg>, q: seq<Cqe>)
    requires forall c | c in q :: Fires(table', c) <==> Fires(table, c)
    ensures Fired(table', q) == Fired(table, q)
  {
    hide Fires;
    if q != [] {
      assert q[0] in q;
      FiredSame(table, table', q[1..]);
    }
  }

  lemma BitesShift(table: seq<Reg>, table': seq<Reg>, q: seq<Cqe>, fired: nat, cap: nat, j: nat)
    requires q != [] && j < |q| - 1 && forall c | c in q[1..] :: Fires(table', c) <==> Fires(table, c)
    ensures var fired' := fired + if Fires(table, q[0]) then 1 else 0;
      Bites(table', q[1..], fired', cap, j) <==> Bites(table, q, fired, cap, j + 1)
  {
    hide Fires;
    assert q[..j + 1][0] == q[0] && q[..j + 1][1..] == q[1..][..j];
    FiredSame(table, table', q[1..][..j]);
  }

  /** Taking the first completion off, unless it is the one that bites. */
  lemma NoneBitesTail(table: seq<Reg>, table': seq<Reg>, q: seq<Cqe>, fired: nat, fired': nat, cap: nat)
    requires q != [] && !Bites(table, q, fired, cap, 0) && fired' == fired + if Fires(table, q[0]) then 1 else 0
    requires forall c | c in q[1..] :: Fires(table', c) <==> Fires(table, c)
    ensures (forall j: nat :: !Bites(table', q[1..], fired', cap, j)) <==> forall j: nat :: !Bites(table, q, fired, cap, j)
  {
    hide Fires;
    forall j: nat | j < |q| - 1 ensures Bites(table', q[1..], fired', cap, j) <==> Bites(table, q, fired, cap, j + 1) {
      BitesShift(table, table', q, fired, cap, j);
    }
    if j: nat :| Bites(table, q, fired, cap, j) {
      assert j > 0;
      assert Bites(table', q[1..], fired', cap, j - 1);
    }
  }

  /** A completion under 0 that does not bite does nothing. */
  lemma HarmlessZero(s: State, fired: nat, cap: nat)
    requires s.cq != [] && s.cq[0].ud == 0 && !Bites(s.table, s.cq, fired, cap, 0)
    requires (Ripe(s.table) <==> fired > 0) && |s.out| == if fired < cap then fired else cap
    ensures DrainOne(s, cap) == s.(cq := s.cq[1..])
  {
    assert s.cq[..0] == [];
    var i := FindFrom(s.table, 0, 0);
    if i < |s.table| {
      assert s.table[i := s.table[i].(ud := 0)] == s.table;
    }
  }

  /** One that bites retires a live row or is reported. */
  lemma HarmfulZero(s: State, fired: nat, cap: nat)
    requires s.cq != [] && s.cq[0].ud == 0 && Bites(s.table, s.cq, fired, cap, 0)
    requires (Ripe(s.table) <==> fired > 0) && |s.out| == if fired < cap then fired else cap
    ensures Split(DrainOne(s, cap), Sieved(s), |s.delivered|)
  {
    assert s.cq[..0] == [];
    var i := FindFrom(s.table, 0, 0);
    var a, f := DrainOne(s, cap), Sieved(s);
    assert f.cq == NonZero(a.cq);
    if s.cq[0].res.Failed? {
      assert Lost(a, f, i);
    } else {
      assert a.delivered[|s.delivered|].ud == 0;
    }
  }

  /** Draining any other completion leaves the later ones firing as before. */
  lemma LaterFires(s: State, cap: nat)
    requires Inv(s) && s.cq != [] && s.cq[0].ud != 0
    ensures forall c | c in s.cq[1..] :: Fires(DrainOne(s, cap).table, c) <==> Fires(s.table, c)
  {
    hide DrainOne, Logged;
    DrainKind(s, cap);
    var s', i := DrainOne(s, cap), FindFrom(s.table, s.cq[0].ud, 0);
    if s'.table != s.table {
      assert Armed(s.table[i]) && Out(s, s.table[i].ud) == 1;
      NoneDone(s.cq[1..], s.cq[0].ud);
      forall c | c in s.cq[1..] ensures Fires(s'.table, c) <==> Fires(s.table, c) {
        assert forall n | 0 <= n < |s.table| && n != i :: s'.table[n] == s.table[n];
      }
    }
  }

  lemma {:induction false} NoneDone(q: seq<Cqe>, ud: nat)
    requires CountDone(q, ud) == 0
    ensures forall c | c in q :: c.ud != ud
  {
    if q != [] {
      NoneDone(q[1..], ud);
    }
  }

  /** The drain counts what has fired, in the rows and in the buffer. */
  lemma OtherCounts(s: State, fired: nat, cap: nat)
    requires Inv(s) && s.cq != [] && s.cq[0].ud != 0
    requires (Ripe(s.table) <==> fired > 0) && |s.out| == if fired < cap then fired else cap
    ensures var s', n := DrainOne(s, cap), fired + if Fires(s.table, s.cq[0]) then 1 else 0;
      (Ripe(s'.table) <==> n > 0) && |s'.out| == if n < cap then n else cap
  {
    var s', i := DrainOne(s, cap), FindFrom(s.table, s.cq[0].ud, 0);
    FiresIff(s);
    if Fires(s.table, s.cq[0]) {
      assert s'.table[i].fd >= 0 && s'.table[i].ud == 0;
    } else {
      RipeSame(s, s', i);
    }
  }

  /** A completion fires when the drain finds its row and it did not fail. */
  lemma FiresIff(s: State)
    requires Inv(s) && s.cq != [] && s.cq[0].ud != 0
    ensures var c := s.cq[0];
      Fires(s.table, c) <==> c.ud != TIMEOUT && c.ud != WAKE && FindFrom(s.table, c.ud, 0) < |s.table| && c.res.Ready?
  {
  }

  lemma RipeSame(s: State, s': State, i: nat)
    requires |s'.table| == |s.table| && (s'.table == s.table || (i < |s.table| && s.table[i].ud != 0 && s'.table == s.table[i := s.table[i].(fd := -1)]))
    ensures Ripe(s'.table) <==> Ripe(s.table)
  {
    if n :| 0 <= n < |s.table| && s.table[n].fd >= 0 && s.table[n].ud == 0 {
      assert s'.table[n] == s.table[n];
    }
  }

  lemma SievedZero(s: State)
    requires s.cq != [] && s.cq[0].ud == 0
    ensures Sieved(s.(cq := s.cq[1..])) == Sieved(s)
  {
  }

  /** A drain step looks at the first completion only. */
  lemma DrainHeadOnly(s: State, q: seq<Cqe>, cap: nat)
    requires s.cq != [] && q != [] && q[0] == s.cq[0]
    ensures DrainOne(s.(cq := q), cap) == DrainOne(s, cap).(cq := q[1..])
  {
    hide Fire;
    var i := FindFrom(s.table, s.cq[0].ud, 0);
    if i < |s.table| && s.cq[0].res.Ready? {
      FireApart(s.(cq := s.cq[1..]), q[1..], i, s.cq[0], cap);
    }
  }

  lemma FireApart(s: State, q: seq<Cqe>, i: nat, c: Cqe, cap: nat)
    requires i < |s.table| && c.res.Ready?
    ensures Fire(s.(cq := q), i, c, cap) == Fire(s, i, c, cap).(cq := q)
  {
  }

  lemma SievedOther(s: State, cap: nat)
    requires s.cq != [] && s.cq[0].ud != 0
    ensures Sieved(s).cq != [] && DrainOne(Sieved(s), cap) == Sieved(DrainOne(s, cap))
  {
    hide NonZero, DrainOne;
    KeepsHead(s.cq);
    Popped(s, cap);
    DrainHeadOnly(s, NonZero(s.cq), cap);
    assert NonZero(s.cq)[1..] == NonZero(s.cq[1..]);
  }

  lemma KeepsHead(q: seq<Cqe>)
    requires q != [] && q[0].ud != 0
    ensures NonZero(q) == [q[0]] + NonZero(q[1..])
  {
  }

  lemma {:induction false} InStepUntilBitten(s: State, fired: nat, cap: nat)
    requires Inv(s) && (Ripe(s.table) <==> fired > 0) && |s.out| == if fired < cap then fired else cap
    ensures Agree(DrainAll(s, cap), DrainAll(Sieved(s), cap)) <==> forall j: nat :: !Bites(s.table, s.cq, fired, cap, j)
    decreases |s.cq|
  {
    hide Inv, Bites, Split, DrainOne, Ripe, Fires;
    if s.cq == [] {
      NoneToBite(s, fired, cap);
    } else if Bites(s.table, s.cq, fired, cap, 0) {
      BitesZero(s, fired, cap);
      HarmfulZero(s, fired, cap);
      SplitStays(DrainOne(s, cap), Sieved(s), |s.delivered|, cap);
    } else if s.cq[0].ud == 0 {
      HarmlessZero(s, fired, cap);
      SievedZero(s);
      ZeroNeverFires(s.table, s.cq[0]);
      NoneBitesTail(s.table, s.table, s.cq, fired, fired, cap);
      DrainOneKeeps(s, cap);
      var s1 := s.(cq := s.cq[1..]);
      InStepUntilBitten(s1, fired, cap);
      assert DrainAll(s, cap) == DrainAll(s1, cap);
    } else {
      SievedOther(s, cap);
      LaterFires(s, cap);
      var n := fired + if Fires(s.table, s.cq[0]) then 1 else 0;
      NoneBitesTail(s.table, DrainOne(s, cap).table, s.cq, fired, n, cap);
      OtherCounts(s, fired, cap);
      DrainOneKeeps(s, cap);
      DrainShrinks(s, cap);
      Popped(s, cap);
      InStepUntilBitten(DrainOne(s, cap), n, cap);
    }
  }

  lemma Popped(s: State, cap: nat)
    requires s.cq != []
    ensures DrainOne(s, cap).cq == s.cq[1..]
  {
  }

  lemma NoneToBite(s: State, fired: nat, cap: nat)
    requires s.cq == []
    ensures Sieved(s) == s && forall j: nat :: !Bites(s.table, s.cq, fired, cap, j)
  {
  }

  lemma BitesZero(s: State, fired: nat, cap: nat)
    requires s.cq != [] && Bites(s.table, s.cq, fired, cap, 0)
    ensures s.cq[0].ud == 0
  {
  }

  lemma ZeroNeverFires(table: seq<Reg>, c: Cqe)
    requires c.ud == 0
    ensures !Fires(table, c)
  {
  }

  // ---- the drain of a wait ----

  lemma Unripe(table: seq<Reg>)
    requires forall row | 0 <= row < |table| && table[row].fd >= 0 :: table[row].ud != 0
    ensures !Ripe(table)
  {
  }

  lemma {:induction false} TableRests(ss: seq<State>, tr: seq<Action>, i: nat, j: nat)
    requires IsRun(ss, tr) && i <= j < |ss| && forall h | i <= h < j :: tr[h].Complete? || tr[h].DoWake?
    ensures ss[j].table == ss[i].table
  {
    if i < j {
      TableRests(ss, tr, i, j - 1);
    }
  }

  /** A wait that blocked and then drains whatever the kernel completed meanwhile: its events and
      its table are those of a drain without the remove operations' completions exactly when,
      in the completion queue, none of them comes behind readiness of a live row and either
      failed or finds room in the caller's buffer. */
  lemma WaitIgnoresZeroesIff(ss: seq<State>, tr: seq<Action>, i: nat, j: nat, timed: bool, e: Enter, cap: nat)
    requires IsRun(ss, tr) && i < j < |tr| && ss[j].nextSeq < TIMEOUT
    requires tr[i] == DoArm(timed, e) && Arm(ss[i], timed).1 && tr[j] == DoDrain(cap)
    requires forall h | i < h < j :: tr[h].Complete? || tr[h].DoWake?
    ensures Agree(ss[j + 1], DrainAll(Sieved(ss[j].(out := [])), cap)) <==>
            forall k: nat :: !Bites(ss[j].table, ss[j].cq, 0, cap, k)
  {
    hide Inv, Step, Arm, DrainOne, Bites, Ripe, Agree;
    assert Enabled(ss[j], tr[j]) && ss[j + 1] == Step(ss[j], tr[j]);
    RunEvolves(ss, tr, i + 1, j);
    WaitBlocksFullyArmed(ss, tr, i, timed, e);
    TableRests(ss, tr, i + 1, j);
    RunKeeps(ss, tr, j);
    DrainResetKeeps(ss[j]);
    Unripe(ss[j].table);
    InStepUntilBitten(ss[j].(out := []), 0, cap);
    StepDrains(ss[j], cap);
  }

  lemma StepDrains(s: State, cap: nat)
    requires Enabled(s, DoDrain(cap))
    ensures Step(s, DoDrain(cap)) == DrainAll(s.(out := []), cap)
  {
  }

  lemma {:induction false} FiredSome(table: seq<Reg>, q: seq<Cqe>)
    ensures Fired(table, q) <= |q|
    ensures Fired(table, q) > 0 <==> exists i :: 0 <= i < |q| && Fires(table, q[i])
  {
    hide Fires;
    if q != [] {
      FiredSome(table, q[1..]);
      if i :| 0 <= i < |q[1..]| && Fires(table, q[1..][i]) {
        assert Fires(table, q[i + 1]);
      }
      if i :| 0 < i < |q| && Fires(table, q[i]) {
        assert q[1..][i - 1] == q[i];
      }
    }
  }

  /** With room for every completion: one bites exactly when it comes behind readiness of a live
      row, failed or not. */
  lemma BitesWithRoomIff(table: seq<Reg>, q: seq<Cqe>, cap: nat, j: nat)
    requires |q| <= cap
    ensures Bites(table, q, 0, cap, j) <==> j < |q| && q[j].ud == 0 && exists i :: 0 <= i < j && Fires(table, q[i])
  {
    hide Fires;
    if j < |q| {
      FiredSome(table, q[..j]);
      if i :| 0 <= i < j && Fires(table, q[i]) {
        assert q[..j][i] == q[i];
      }
      if i :| 0 <= i < j && Fires(table, q[..j][i]) {
        assert q[..j][i] == q[i];
      }
    }
  }

  // ---- the exception is reachable ----

  const WATCHED: Reg := Reg(5, FIRST_SEQ, 77, {Readable})
  const DROPPED: Reg := Reg(6, FIRST_SEQ + 1, 88, {Readable})

  /** A new handle: sixteen empty rows and the wake poll in the kernel. */
  function NewHandle(): (s: State)
    ensures Initial(s) && |s.table| == 16 && s.room == 128 && s.sq == [] && s.kernel == [WAKE_POLL]
  {
    State(seq(16, _ => Reg(-1, 0, 0, {})), 0, FIRST_SEQ, true, false, 128, [], [WAKE_POLL], [], 0, [], map[], [])
  }

  /** Registering on an empty home row, with the kernel taking the poll at once. */
  lemma RegisterHome(s: State, r: Reg)
    requires |s.table| == 16 && r.fd >= 0 && ValidInterests(r.interests) && r.ud == s.nextSeq
    requires s.count < 16 && s.sq == [] && s.room > 0 && s.table[Hash(r.fd, 16)].fd == -1
    ensures Register(s, r.fd, r.interests, r.token, Enter(1, 1), Enter(1, 1)).0 ==
      Issue(s, r).(table := s.table[Hash(r.fd, 16) := r], count := s.count + 1, kernel := s.kernel + [AddFor(r)])
  {
    hide Hash;
    assert Probe(s.table, r.fd) == Hash(r.fd, 16);
  }

  lemma {:induction false} RearmIdle(s: State, i: nat)
    requires i <= |s.table| && forall k | 0 <= k < |s.table| && s.table[k].fd >= 0 :: s.table[k].ud != 0
    ensures Rearm(s, i) == (s, true)
    decreases |s.table| - i
  {
    if i < |s.table| {
      RearmIdle(s, i + 1);
    }
  }

  lemma FindsRow(table: seq<Reg>, ud: nat, row: nat)
    requires row < |table| && table[row].fd >= 0 && table[row].ud == ud
    requires forall k | 0 <= k < |table| && k != row :: table[k].fd < 0
    ensures FindFrom(table, ud, 0) == row
  {
  }

  /** Both descriptors registered. */
  ghost predicate BothWatched(s: State) {
    && |s.table| == 16 && s.table[5] == WATCHED && s.table[6] == DROPPED
    && (forall k | 0 <= k < 16 && k != 5 && k != 6 :: s.table[k].fd < 0)
    && s.kernel == [WAKE_POLL, AddFor(WATCHED), AddFor(DROPPED)] && s.sq == [] && s.room == 128
    && s.cq == [] && s.wakeArmed
  }

  /** The second one dropped again, its removal in the kernel's hands. */
  ghost predicate OneDropped(s: State) {
    && |s.table| == 16 && s.table[5] == WATCHED
    && (forall k | 0 <= k < 16 && k != 5 :: s.table[k].fd < 0)
    && s.kernel == [WAKE_POLL, AddFor(WATCHED), AddFor(DROPPED), PollRemove(DROPPED.ud)] && s.sq == []
    && s.cq == [] && s.wakeArmed
  }

  lemma RegisterBoth() returns (ss: seq<State>, tr: seq<Action>)
    ensures |tr| == 2 && |ss| == 3 && IsRun(ss, tr) && BothWatched(ss[2]) && tr[0].DoRegister? && tr[1].DoRegister?
  {
    hide Hash, Register;
    assert Hash(5, 16) == 5 && Hash(6, 16) == 6 by { HomeRows(); }
    var s0 := NewHandle();
    var a0 := DoRegister(5, {Readable}, 77, Enter(1, 1), Enter(1, 1));
    RegisterHome(s0, WATCHED);
    var s1 := Step(s0, a0);
    var a1 := DoRegister(6, {Readable}, 88, Enter(1, 1), Enter(1, 1));
    RegisterHome(s1, DROPPED);
    ss, tr := [s0, s1, Step(s1, a1)], [a0, a1];
  }

  lemma DropOne(s: State)
    requires BothWatched(s)
    ensures OneDropped(Step(s, DoUnregister(6, Enter(1, 1))))
  {
    hide Hash;
    assert Hash(6, 16) == 6 by { HomeRows(); }
    assert Probe(s.table, 6) == 6;
  }

  /** A wait finds everything armed and blocks. */
  lemma WaitIdles(s: State)
    requires OneDropped(s)
    ensures OneDropped(Step(s, DoArm(false, Enter(0, 0))))
  {
    RearmIdle(s, 0);
    assert s.sq[0..] == s.sq;
  }

  lemma HomeRows()
    ensures Hash(5, 16) == 5 && Hash(6, 16) == 6
  {
  }

  lemma Extend(ss: seq<State>, tr: seq<Action>, a: Action) returns (ss': seq<State>, tr': seq<Action>)
    requires IsRun(ss, tr) && Enabled(ss[|tr|], a)
    ensures IsRun(ss', tr') && tr' == tr + [a]
    ensures |ss'| == |tr'| + 1 && ss' == ss + [Step(ss[|tr|], a)]
  {
    hide Initial, Enabled, Step;
    ss', tr' := ss + [Step(ss[|tr|], a)], tr + [a];
  }

  /** From a new handle to a wait that has blocked with a removal in the kernel's hands. */
  lemma Blocked() returns (ss: seq<State>, tr: seq<Action>)
    ensures |tr| == 4 && |ss| == 5 && IsRun(ss, tr) && OneDropped(ss[4])
    ensures forall h | 0 <= h < 4 && tr[h].DoUnregister? :: tr[h].fd == 6
  {
    hide IsRun, Arm, Unregister, Register;
    ss, tr := RegisterBoth();
    DropOne(ss[2]);
    ss, tr := Extend(ss, tr, DoUnregister(6, Enter(1, 1)));
    WaitIdles(ss[3]);
    ss, tr := Extend(ss, tr, DoArm(false, Enter(0, 0)));
  }

  /** The exception is real, and reached from a new handle: when the poll of one descriptor and
      the removal of another complete together, a single drain reports the first descriptor
      twice, the second time without any readiness. */
  lemma ZeroCompletionCounterexample() returns (ss: seq<State>, tr: seq<Action>)
    ensures IsRun(ss, tr) && |tr| > 0 && tr[|tr| - 1] == DoDrain(8)
    ensures ss[|tr|].out == [PollEvent(77, 5, {Readable}), PollEvent(77, 5, {})]
  {
    hide IsRun, Arm, Unregister, Register;
    ss, tr := Blocked();
    ss, tr := Extend(ss, tr, Complete(1, Ready({PollIn})));
    assert ss[5].kernel == [WAKE_POLL, AddFor(DROPPED), PollRemove(DROPPED.ud)];
    ss, tr := Extend(ss, tr, Complete(2, Ready({})));
    assert ss[6].cq == [Cqe(FIRST_SEQ, Ready({PollIn})), Cqe(0, Ready({}))];
    DrainsTwice(ss[6].(out := []));
    ss, tr := Extend(ss, tr, DoDrain(8));
  }

  lemma DrainsTwice(s: State)
    requires |s.table| == 16 && s.table[5] == WATCHED && (forall k | 0 <= k < 16 && k != 5 :: s.table[k].fd < 0)
    requires s.out == [] && s.cq == [Cqe(FIRST_SEQ, Ready({PollIn})), Cqe(0, Ready({}))]
    ensures DrainAll(s, 8).out == [PollEvent(77, 5, {Readable}), PollEvent(77, 5, {})]
  {
    FindsRow(s.table, FIRST_SEQ, 5);
    var s1 := DrainOne(s, 8);
    FindsRow(s1.table, 0, 5);
    var s2 := DrainOne(s1, 8);
    assert s1.cq == [Cqe(0, Ready({}))] && s2.cq == [];
    assert DrainAll(s, 8) == DrainAll(s1, 8) == DrainAll(s2, 8) == s2;
  }

  /** And worse: when the dropped descriptor's poll fires before its removal reaches it, the
      removal completes with ENOENT, and the drain then silently retires the other descriptor,
      which nobody has unregistered. */
  lemma FailedRemovalRetiresAnother() returns (ss: seq<State>, tr: seq<Action>)
    ensures IsRun(ss, tr) && |tr| > 0 && tr[|tr| - 1] == DoDrain(8)
    ensures forall h | 0 <= h < |tr| && tr[h].DoUnregister? :: tr[h].fd == 6
    ensures |ss[|tr| - 1].table| == 16 && ss[|tr| - 1].table[5] == WATCHED
    ensures ss[|tr|].out == [PollEvent(77, 5, {Readable})]
    ensures forall k | 0 <= k < |ss[|tr|].table| :: ss[|tr|].table[k].fd < 0
  {
    hide IsRun, Step;
    ss, tr := Blocked();
    CompletesThree(ss[4]);
    ss, tr := Extend(ss, tr, Complete(1, Ready({PollIn})));
    ss, tr := Extend(ss, tr, Complete(1, Ready({PollIn})));
    ss, tr := Extend(ss, tr, Complete(1, Failed(ENOENT)));
    DrainRetires(ss[7].(out := []));
    StepDrains(ss[7], 8);
    ss, tr := Extend(ss, tr, DoDrain(8));
  }

  lemma CompletesThree(s: State)
    requires OneDropped(s)
    ensures Enabled(s, Complete(1, Ready({PollIn})))
    ensures var s1 := Step(s, Complete(1, Ready({PollIn})));
      Enabled(s1, Complete(1, Ready({PollIn}))) &&
      var s2 := Step(s1, Complete(1, Ready({PollIn})));
      Enabled(s2, Complete(1, Failed(ENOENT))) &&
      var s3 := Step(s2, Complete(1, Failed(ENOENT)));
      Enabled(s3, DoDrain(8)) && s3.table == s.table &&
      s3.cq == [Cqe(FIRST_SEQ, Ready({PollIn})), Cqe(FIRST_SEQ + 1, Ready({PollIn})), Cqe(0, Failed(ENOENT))]
  {
    var s1 := Step(s, Complete(1, Ready({PollIn})));
    assert s1.kernel == [WAKE_POLL, AddFor(DROPPED), PollRemove(DROPPED.ud)];
    var s2 := Step(s1, Complete(1, Ready({PollIn})));
    assert s2.kernel == [WAKE_POLL, PollRemove(DROPPED.ud)];
  }

  lemma DrainRetires(s: State)
    requires |s.table| == 16 && s.table[5] == WATCHED && (forall k | 0 <= k < 16 && k != 5 :: s.table[k].fd < 0)
    requires s.out == []
    requires s.cq == [Cqe(FIRST_SEQ, Ready({PollIn})), Cqe(FIRST_SEQ + 1, Ready({PollIn})), Cqe(0, Failed(ENOENT))]
    ensures var s' := DrainAll(s, 8); s'.out == [PollEvent(77, 5, {Readable})] && |s'.table| == 16 && forall k | 0 <= k < 16 :: s'.table[k].fd < 0
  {
    FindsRow(s.table, FIRST_SEQ, 5);
    var s1 := DrainOne(s, 8);
    var s2 := DrainOne(s1, 8);
    assert s1.cq == [Cqe(FIRST_SEQ + 1, Ready({PollIn})), Cqe(0, Failed(ENOENT))] && s2.cq == [Cqe(0, Failed(ENOENT))];
    FindsRow(s2.table, 0, 5);
    var s3 := DrainOne(s2, 8);
    assert s3.cq == [];
    assert DrainAll(s, 8) == DrainAll(s1, 8) == DrainAll(s2, 8) == DrainAll(s3, 8) == s3;
  }
}
