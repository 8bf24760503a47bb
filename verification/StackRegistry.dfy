/** The stack allocator's reservation registry against the host's address space: reservations that
    can fail at every host call, and releases by base address alone. */
module StackRegistry {
  import opened Errno
  import opened Wrappers
  import opened Arithmetic
  import opened StackLayout

  const FIRST_CAPACITY := 8

  /** A registry slot; base 0 marks it free. */
  datatype Entry = Entry(base: nat, total: nat)
  datatype Registry = Registry(entries: seq<Entry>, cap: nat)

  /** The first slot recorded under `base` at or after `from`, or the length. */
  function Find(es: seq<Entry>, base: nat, from: nat): (i: nat)
    requires from <= |es|
    ensures from <= i <= |es|
    ensures i < |es| ==> es[i].base == base
    ensures forall j | from <= j < i :: es[j].base != base
    decreases |es| - from
  {
    if from == |es| || es[from].base == base then from else Find(es, base, from + 1)
  }

  /** The recording step: a free slot, or a new one if there is room or the array can grow. */
  function Record(r: Registry, e: Entry, growOk: bool): (Registry, bool) {
    var i := Find(r.entries, 0, 0);
    if i < |r.entries| then (r.(entries := r.entries[i := e]), true)
    else if |r.entries| < r.cap then (r.(entries := r.entries + [e]), true)
    else if growOk then (Registry(r.entries + [e], Grown(r.cap, FIRST_CAPACITY)), true)
    else (r, false)
  }

  function Erase(r: Registry, i: nat): Registry
    requires i < |r.entries|
  {
    r.(entries := r.entries[i := Entry(0, 0)])
  }

  /** The host's answers during one allocation: where it maps (0 if it refuses), and whether the
      protection change, the array growth and the unmapping of a rollback succeed. */
  datatype Host = Host(base: word, mapErr: nat, protectFails: bool, protectErr: nat, growOk: bool, unmaps: bool)

  datatype Reply = Placed(base: word, guardLow: word, top: word) | Refused(rc: int)

  function Alloc(r: Registry, ps: word, q: Request, h: Host): (Registry, Reply)
    requires ps > 0
  {
    match Plan(ps, q)
    case None => (r, Refused(-EINVAL))
    case Some(l) =>
      if h.base == 0 then (r, Refused(-(h.mapErr as int)))
      else if l.commit > 0 && h.protectFails then (r, Refused(if h.protectErr != 0 then -(h.protectErr as int) else -EIO))
      else
        var (r', ok) := Record(r, Entry(h.base, l.total), h.growOk);
        if ok then (r', Placed(h.base, Wrap(h.base + l.guard), Wrap(h.base + l.total)))
        else (r, Refused(-ENOMEM))
  }

  function Free(r: Registry, base: nat, hostRc: nat): (Registry, int) {
    var i := Find(r.entries, base, 0);
    if base == 0 || i == |r.entries| then (r, -EINVAL)
    else if hostRc != 0 then (r, -(hostRc as int))
    else (Erase(r, i), 0)
  }

  // ---- the registry and the host together ----

  datatype State = State(
    reg: Registry,
    mapped: map<nat, nat>,   // the host's regions, base to length
    live: map<nat, nat>,     // stacks handed out and not yet freed
    leaked: set<nat>,        // regions a failed rollback left behind
    peak: nat)               // the most stacks that were ever live at once

  datatype Action = AllocStack(q: Request, h: Host) | FreeStack(base: nat, hostRc: nat)

  const START := State(Registry([], 0), map[], map[], {}, 0)

  ghost predicate Separate(a: nat, la: nat, b: nat, lb: nat) {
    a + la <= b || b + lb <= a
  }

  /** The host maps at page boundaries, inside the address space, clear of every other region. */
  ghost predicate Enabled(ps: word, s: State, a: Action)
    requires ps > 0
  {
    match a
    case AllocStack(q, h) =>
      h.mapErr > 0 && (h.base != 0 && Plan(ps, q).Some? ==>
        var total := Plan(ps, q).value.total;
        && h.base % ps == 0 && h.base + total <= WIDTH
        && forall b | b in s.mapped :: Separate(h.base, total, b, s.mapped[b]))
    case FreeStack(_, _) => true
  }

  function Max(a: nat, b: nat): nat {
    if a < b then b else a
  }

  function Step(ps: word, s: State, a: Action): State
    requires ps > 0
  {
    match a
    case AllocStack(q, h) =>
      var (r, reply) := Alloc(s.reg, ps, q, h);
      if Plan(ps, q).None? || h.base == 0 then s
      else
        var total := Plan(ps, q).value.total;
        if reply.Placed? then
          var live := s.live[h.base := total];
          State(r, s.mapped[h.base := total], live, s.leaked, Max(s.peak, |live|))
        else if h.unmaps then s
        else s.(mapped := s.mapped[h.base := total], leaked := s.leaked + {h.base})
    case FreeStack(b, hostRc) =>
      var (r, rc) := Free(s.reg, b, hostRc);
      if rc != 0 then s
      else s.(reg := r, live := s.live - {b}, mapped := Unmap(s.mapped, b, s.reg.entries[Find(s.reg.entries, b, 0)].total))
  }

  /** The host releases a whole region when given its exact length. */
  function Unmap(m: map<nat, nat>, base: nat, length: nat): map<nat, nat> {
    if base in m && m[base] == length then m - {base} else m
  }

  /** An allocation that fails after mapping, and whose rollback the host refuses. */
  ghost predicate RollbackFails(ps: word, s: State, a: Action)
    requires ps > 0
  {
    && a.AllocStack? && Plan(ps, a.q).Some? && a.h.base != 0 && !a.h.unmaps
    && Alloc(s.reg, ps, a.q, a.h).1.Refused?
  }

  ghost predicate IsRun(ps: word, ss: seq<State>, tr: seq<Action>)
    requires ps > 0
  {
    && |ss| == |tr| + 1 && ss[0] == START
    && forall i | 0 <= i < |tr| :: Enabled(ps, ss[i], tr[i]) && ss[i + 1] == Step(ps, ss[i], tr[i])
  }

  // ---- the invariant ----

  function Bases(es: seq<Entry>): set<nat> {
    set i | 0 <= i < |es| && es[i].base != 0 :: es[i].base
  }

  ghost predicate Distinct(es: seq<Entry>) {
    forall i: nat, j: nat | i < j < |es| && es[i].base != 0 :: es[i].base != es[j].base
  }

  ghost predicate Mirrors(es: seq<Entry>, live: map<nat, nat>) {
    && Distinct(es) && Bases(es) == live.Keys
    && forall i: nat | i < |es| && es[i].base != 0 :: es[i].base in live && live[es[i].base] == es[i].total
  }

  ghost predicate Mapped(mapped: map<nat, nat>, live: map<nat, nat>, leaked: set<nat>) {
    && live.Keys !! leaked && mapped.Keys == live.Keys + leaked
    && forall b | b in live :: mapped[b] == live[b]
  }

  ghost predicate Clear(mapped: map<nat, nat>) {
    && (forall b | b in mapped :: b > 0 && mapped[b] > 0 && b + mapped[b] <= WIDTH)
    && (forall a, b | a in mapped && b in mapped && a != b :: Separate(a, mapped[a], b, mapped[b]))
  }

  ghost predicate Sized(s: State) {
    |s.reg.entries| <= s.reg.cap && |s.reg.entries| == s.peak
  }

  ghost predicate Inv(s: State) {
    Mirrors(s.reg.entries, s.live) && Mapped(s.mapped, s.live, s.leaked) && Clear(s.mapped) && Sized(s)
  }

  lemma BasesSnoc(es: seq<Entry>, e: Entry)
    ensures Bases(es + [e]) == Bases(es) + if e.base != 0 then {e.base} else {}
  {
    var es' := es + [e];
    assert es'[|es|] == e;
    assert forall i: nat | i < |es| :: es'[i] == es[i];
  }

  ghost predicate NoneFree(es: seq<Entry>) {
    forall i: nat | i < |es| :: es[i].base != 0
  }

  lemma {:induction false} BasesBounded(es: seq<Entry>)
    ensures |Bases(es)| <= |es|
    ensures Distinct(es) && NoneFree(es) ==> |Bases(es)| == |es|
  {
    if es != [] {
      var n := |es| - 1;
      var rest, e := es[..n], es[n];
      assert es == rest + [e];
      BasesBounded(rest);
      BasesSnoc(rest, e);
      assert Distinct(es) && NoneFree(es) ==> Distinct(rest) && NoneFree(rest) && e.base !in Bases(rest);
    }
  }

  /** Filling a free slot, or adding one at the end, adds the entry's base. */
  lemma RecordBases(r: Registry, e: Entry, growOk: bool)
    requires e.base != 0 && Record(r, e, growOk).1
    ensures Bases(Record(r, e, growOk).0.entries) == Bases(r.entries) + {e.base}
  {
    var es, es', at := r.entries, Record(r, e, growOk).0.entries, Find(r.entries, 0, 0);
    assert es'[at] == e;
    forall b | b in Bases(es) ensures b in Bases(es') {
      var i: nat :| i < |es| && es[i].base != 0 && es[i].base == b;
      assert es'[i].base == b;
    }
  }

  lemma RecordMirrors(r: Registry, live: map<nat, nat>, e: Entry, growOk: bool)
    requires Mirrors(r.entries, live) && e.base != 0 && e.base !in live && Record(r, e, growOk).1
    ensures Mirrors(Record(r, e, growOk).0.entries, live[e.base := e.total])
  {
    var es, es', at := r.entries, Record(r, e, growOk).0.entries, Find(r.entries, 0, 0);
    RecordBases(r, e, growOk);
    hide Bases;
    assert es'[at] == e;
    assert forall i: nat | i < |es'| && i != at :: i < |es| && es'[i] == es[i];
  }

  lemma RecordSizes(s: State, e: Entry, growOk: bool)
    requires Mirrors(s.reg.entries, s.live) && Sized(s) && e.base != 0 && e.base !in s.live && Record(s.reg, e, growOk).1
    ensures var r := Record(s.reg, e, growOk).0;
      |r.entries| <= r.cap && |r.entries| == Max(s.peak, |s.live[e.base := e.total]|)
  {
    hide Mirrors, Bases, Distinct;
    var r := Record(s.reg, e, growOk).0;
    var live := s.live[e.base := e.total];
    RecordMirrors(s.reg, s.live, e, growOk);
    MirrorCounts(s.reg.entries, s.live);
    MirrorCounts(r.entries, live);
    assert live.Keys == s.live.Keys + {e.base};
    assert |live.Keys| == |s.live.Keys| + 1;
  }

  lemma MirrorCounts(es: seq<Entry>, live: map<nat, nat>)
    requires Mirrors(es, live)
    ensures |live| == |live.Keys| <= |es|
    ensures NoneFree(es) ==> |live| == |es|
  {
    BasesBounded(es);
  }

  lemma EraseMirrors(r: Registry, live: map<nat, nat>, at: nat)
    requires Mirrors(r.entries, live) && at < |r.entries| && r.entries[at].base != 0
    ensures Mirrors(Erase(r, at).entries, live - {r.entries[at].base})
  {
    var es, es', base := r.entries, Erase(r, at).entries, r.entries[at].base;
    forall b | b in live.Keys - {base} ensures b in Bases(es') {
      assert b in Bases(es);
      var i: nat :| i < |es| && es[i].base != 0 && es[i].base == b;
      assert es'[i].base == b;
    }
    assert Bases(es') == live.Keys - {base};
  }

  lemma PlanTotalPositive(ps: word, q: Request)
    requires ps > 0 && Plan(ps, q).Some?
    ensures Plan(ps, q).value.total > 0
  {
    hide Plan;
    CommitMissesGuard(ps, q);
  }

  lemma MapKeeps(m: map<nat, nat>, base: nat, total: nat)
    requires Clear(m) && base > 0 && total > 0 && base + total <= WIDTH
    requires forall b | b in m :: Separate(base, total, b, m[b])
    ensures base !in m && Clear(m[base := total])
  {
  }

  lemma MappedPlaced(mapped: map<nat, nat>, live: map<nat, nat>, leaked: set<nat>, base: nat, total: nat)
    requires Mapped(mapped, live, leaked) && base !in mapped
    ensures Mapped(mapped[base := total], live[base := total], leaked)
    ensures Mapped(mapped[base := total], live, leaked + {base})
  {
  }

  lemma AllocKeeps(ps: word, s: State, q: Request, h: Host)
    requires ps > 0 && Inv(s) && Enabled(ps, s, AllocStack(q, h))
    ensures Inv(Step(ps, s, AllocStack(q, h)))
  {
    hide Plan, Mirrors, Clear, Record, Separate, Mapped;
    if Plan(ps, q).Some? && h.base != 0 {
      var total := Plan(ps, q).value.total;
      PlanTotalPositive(ps, q);
      MapKeeps(s.mapped, h.base, total);
      MappedPlaced(s.mapped, s.live, s.leaked, h.base, total);
      if Alloc(s.reg, ps, q, h).1.Placed? {
        LiveIsMapped(s, h.base);
        RecordMirrors(s.reg, s.live, Entry(h.base, total), h.growOk);
        RecordSizes(s, Entry(h.base, total), h.growOk);
      }
    }
  }

  lemma LiveIsMapped(s: State, base: nat)
    requires Mapped(s.mapped, s.live, s.leaked) && base !in s.mapped
    ensures base !in s.live
  {
  }

  /** A base is found exactly when it names a live stack, and then with that stack's length. */
  lemma FindsLive(s: State, base: nat)
    requires Mirrors(s.reg.entries, s.live) && base != 0
    ensures var i := Find(s.reg.entries, base, 0);
      && (i < |s.reg.entries| <==> base in s.live)
      && (i < |s.reg.entries| ==> s.reg.entries[i] == Entry(base, s.live[base]))
  {
    assert base in s.live ==> base in Bases(s.reg.entries);
  }

  lemma FreeKeeps(ps: word, s: State, base: nat, hostRc: nat)
    requires ps > 0 && Inv(s)
    ensures Inv(Step(ps, s, FreeStack(base, hostRc)))
  {
    hide Mirrors;
    if Free(s.reg, base, hostRc).1 == 0 {
      FindsLive(s, base);
      EraseMirrors(s.reg, s.live, Find(s.reg.entries, base, 0));
    }
  }

  lemma {:induction false} RunKeeps(ps: word, ss: seq<State>, tr: seq<Action>, i: nat)
    requires ps > 0 && IsRun(ps, ss, tr) && i < |ss|
    ensures Inv(ss[i])
  {
    hide Inv, Step, Enabled;
    if i == 0 {
      StartHolds();
    } else {
      RunKeeps(ps, ss, tr, i - 1);
      match tr[i - 1] {
        case AllocStack(q, h) => AllocKeeps(ps, ss[i - 1], q, h);
        case FreeStack(b, rc) => FreeKeeps(ps, ss[i - 1], b, rc);
      }
    }
  }

  lemma StartHolds()
    ensures Inv(START)
  {
  }

  // ---- theorems ----

  /** Over every run the live registry entries are exactly the stacks handed out, each with its
      region's exact length; these regions and the leaked ones are all the host has mapped, and
      no two of them overlap. */
  lemma LiveEntriesAreMappings(ps: word, ss: seq<State>, tr: seq<Action>, i: nat)
    requires ps > 0 && IsRun(ps, ss, tr) && i < |ss|
    ensures Mirrors(ss[i].reg.entries, ss[i].live)
    ensures Mapped(ss[i].mapped, ss[i].live, ss[i].leaked) && Clear(ss[i].mapped)
  {
    RunKeeps(ps, ss, tr, i);
  }

  /** Nothing leaks, and the registry mirrors the host's regions themselves, exactly when no
      rollback has been refused by the host. */
  lemma NoLeakIff(ps: word, ss: seq<State>, tr: seq<Action>, i: nat)
    requires ps > 0 && IsRun(ps, ss, tr) && i < |ss|
    ensures ss[i].mapped == ss[i].live <==> forall h | 0 <= h < i :: !RollbackFails(ps, ss[h], tr[h])
    ensures ss[i].leaked == {} <==> forall h | 0 <= h < i :: !RollbackFails(ps, ss[h], tr[h])
  {
    hide RollbackFails, Mirrors, Clear, Enabled, Step, Mapped;
    RunKeeps(ps, ss, tr, i);
    LeaksCounted(ps, ss, tr, i);
    NoLeakMeansMirror(ss[i]);
  }

  lemma {:induction false} LeaksCounted(ps: word, ss: seq<State>, tr: seq<Action>, i: nat)
    requires ps > 0 && IsRun(ps, ss, tr) && i < |ss|
    ensures ss[i].leaked == {} <==> forall h | 0 <= h < i :: !RollbackFails(ps, ss[h], tr[h])
  {
    hide RollbackFails, Enabled, Step;
    if i > 0 {
      LeaksCounted(ps, ss, tr, i - 1);
      LeakStep(ps, ss[i - 1], tr[i - 1]);
      assert ss[i] == Step(ps, ss[i - 1], tr[i - 1]);
    }
  }

  lemma LeakStep(ps: word, s: State, a: Action)
    requires ps > 0
    ensures Step(ps, s, a).leaked == {} <==> s.leaked == {} && !RollbackFails(ps, s, a)
  {
    hide Plan, Alloc, Free;
  }

  lemma NoLeakMeansMirror(s: State)
    requires Mapped(s.mapped, s.live, s.leaked)
    ensures s.mapped == s.live <==> s.leaked == {}
  {
    if s.mapped == s.live {
      assert s.mapped.Keys == s.live.Keys;
    }
  }

  /** It can happen: the host maps the first reservation, refuses its commit and then refuses to
      unmap it, and a region stays mapped that no caller can free. */
  lemma RefusedRollbackWitness() returns (ss: seq<State>, tr: seq<Action>)
    ensures IsRun(4096, ss, tr) && |tr| == 1 && RollbackFails(4096, ss[0], tr[0])
    ensures ss[1].live == map[] && 65536 in ss[1].mapped && ss[1].leaked == {65536}
    ensures Free(ss[1].reg, 65536, 0) == (ss[1].reg, -EINVAL)
  {
    hide Wrap, RoundUp, Ceiling, Plan;
    var q := Request(4096, 4096, 4096);
    var h := Host(65536, 12, true, 12, true, false);
    SmallPlan(q);
    var a := AllocStack(q, h);
    assert Enabled(4096, START, a);
    ss, tr := [START, Step(4096, START, a)], [a];
  }

  lemma SmallPlan(q: Request)
    requires q == Request(4096, 4096, 4096)
    ensures Plan(4096, q).Some? && Plan(4096, q).value.commit > 0 && Plan(4096, q).value.total == 8192
  {
    AcceptedIff(4096, q);
    AcceptedPlansAreIdeal(4096, q);
  }

  /** Slot reuse keeps the registry as long as the most stacks ever live at once, no longer. */
  lemma LengthIsPeak(ps: word, ss: seq<State>, tr: seq<Action>, i: nat)
    requires ps > 0 && IsRun(ps, ss, tr) && i < |ss|
    ensures |ss[i].reg.entries| == ss[i].peak
    ensures forall h | 0 <= h <= i :: |ss[h].live| <= ss[i].peak
    ensures exists h :: 0 <= h <= i && |ss[h].live| == ss[i].peak
  {
    RunKeeps(ps, ss, tr, i);
    PeakIsMaximum(ps, ss, tr, i);
  }

  lemma PeakStep(ps: word, s: State, a: Action)
    requires ps > 0
    ensures var s' := Step(ps, s, a); s'.peak == Max(s.peak, |s'.live|) || (s'.peak == s.peak && |s'.live| <= |s.live|)
  {
    hide Plan, Alloc, Free;
    var s' := Step(ps, s, a);
    if a.FreeStack? && s'.live != s.live {
      assert s'.live.Keys <= s.live.Keys;
      assert |s'.live| == |s'.live.Keys|;
      assert |s.live| == |s.live.Keys|;
      SubsetSmaller(s'.live.Keys, s.live.Keys);
    }
  }

  lemma SubsetSmaller(a: set<nat>, b: set<nat>)
    requires a <= b
    ensures |a| <= |b|
  {
    assert b == a + (b - a);
  }

  lemma {:induction false} PeakIsMaximum(ps: word, ss: seq<State>, tr: seq<Action>, i: nat)
    requires ps > 0 && IsRun(ps, ss, tr) && i < |ss|
    ensures forall h | 0 <= h <= i :: |ss[h].live| <= ss[i].peak
    ensures exists h :: 0 <= h <= i && |ss[h].live| == ss[i].peak
  {
    hide Step, Enabled;
    if i == 0 {
      assert |ss[0].live| == ss[0].peak;
    } else {
      PeakIsMaximum(ps, ss, tr, i - 1);
      PeakStep(ps, ss[i - 1], tr[i - 1]);
      assert ss[i] == Step(ps, ss[i - 1], tr[i - 1]);
      var g :| 0 <= g <= i - 1 && |ss[g].live| == ss[i - 1].peak;
      assert |ss[g].live| == ss[i].peak || |ss[i].live| == ss[i].peak;
    }
  }

  /** An allocation hands out a stack exactly when its sizes are acceptable, the host maps it and
      grants the commit it needs, and the registry has or gets room; the caller then gains that
      one stack, at a base no mapped region had, and a refusal costs the caller and the registry
      nothing. */
  lemma AllocIsExact(ps: word, ss: seq<State>, tr: seq<Action>, i: nat)
    requires ps > 0 && IsRun(ps, ss, tr) && i < |tr| && tr[i].AllocStack?
    ensures var s, s', q, h := ss[i], ss[i + 1], tr[i].q, tr[i].h;
      var reply, plan := Alloc(s.reg, ps, q, h).1, Plan(ps, q);
      && (reply.Placed? <==>
            && plan.Some? && h.base != 0 && (plan.value.commit == 0 || !h.protectFails)
            && (|s.live| < s.peak || s.peak < s.reg.cap || h.growOk))
      && (reply.Placed? ==> reply.base !in s.mapped && s'.live == s.live[reply.base := plan.value.total])
      && (reply.Refused? ==> s'.live == s.live && s'.reg == s.reg && reply.rc < 0)
  {
    hide Plan, Clear, Mirrors, Separate, Find;
    RunKeeps(ps, ss, tr, i);
    var s, q, h := ss[i], tr[i].q, tr[i].h;
    assert Enabled(ps, s, tr[i]) && ss[i + 1] == Step(ps, s, tr[i]);
    if Plan(ps, q).Some? && h.base != 0 {
      PlanTotalPositive(ps, q);
      MapKeeps(s.mapped, h.base, Plan(ps, q).value.total);
    }
    FreeSlotIff(s);
  }

  /** The status of every refusal, in the order the failures are met. */
  lemma RefusalsSayWhy(ps: word, ss: seq<State>, tr: seq<Action>, i: nat)
    requires ps > 0 && IsRun(ps, ss, tr) && i < |tr| && tr[i].AllocStack?
    requires Alloc(ss[i].reg, ps, tr[i].q, tr[i].h).1.Refused?
    ensures var q, h, rc := tr[i].q, tr[i].h, Alloc(ss[i].reg, ps, tr[i].q, tr[i].h).1.rc;
      rc ==
        if Plan(ps, q).None? then -EINVAL
        else if h.base == 0 then -(h.mapErr as int)
        else if Plan(ps, q).value.commit > 0 && h.protectFails then (if h.protectErr != 0 then -(h.protectErr as int) else -EIO)
        else -ENOMEM
  {
    hide Plan, Record;
  }

  /** There is a free slot exactly when fewer stacks are live than ever were. */
  lemma FreeSlotIff(s: State)
    requires Mirrors(s.reg.entries, s.live) && Sized(s)
    ensures Find(s.reg.entries, 0, 0) < |s.reg.entries| <==> |s.live| < s.peak
  {
    var es, at := s.reg.entries, Find(s.reg.entries, 0, 0);
    MirrorCounts(es, s.live);
    if at < |es| {
      BasesAround(es, at);
    }
  }

  lemma BasesAround(es: seq<Entry>, at: nat)
    requires at < |es| && es[at].base == 0
    ensures |Bases(es)| < |es|
  {
    var rest := es[..at] + es[at + 1..];
    BasesBounded(rest);
    forall b | b in Bases(es) ensures b in Bases(rest) {
      var i: nat :| i < |es| && es[i].base != 0 && es[i].base == b;
      assert rest[if i < at then i else i - 1] == es[i];
    }
    SubsetSmaller(Bases(es), Bases(rest));
  }

  /** A free succeeds exactly for the base of a live stack whose unmapping the host grants, and
      then removes that region alone, whole; any other base is refused and changes nothing. */
  lemma FreeIsExact(ps: word, ss: seq<State>, tr: seq<Action>, i: nat)
    requires ps > 0 && IsRun(ps, ss, tr) && i < |tr| && tr[i].FreeStack?
    ensures var s, s', b := ss[i], ss[i + 1], tr[i].base;
      var rc := Free(s.reg, b, tr[i].hostRc).1;
      && (rc == 0 <==> b in s.live && tr[i].hostRc == 0)
      && (rc == 0 ==> s'.mapped == s.mapped - {b} && s'.live == s.live - {b})
      && (b !in s.live ==> rc == -EINVAL)
      && (rc != 0 ==> s' == s)
  {
    hide Mirrors, Clear;
    RunKeeps(ps, ss, tr, i);
    var s := ss[i];
    assert ss[i + 1] == Step(ps, s, tr[i]);
    ZeroNotLive(s);
    if tr[i].base != 0 {
      FindsLive(s, tr[i].base);
    }
  }

  lemma ZeroNotLive(s: State)
    requires Mirrors(s.reg.entries, s.live)
    ensures 0 !in s.live
  {
  }

  /** A stack freed is not freed again unless an allocation returns the same base in between. */
  lemma {:induction false} DoubleFreeRefused(ps: word, ss: seq<State>, tr: seq<Action>, i: nat, j: nat, b: nat, rc: nat)
    requires ps > 0 && IsRun(ps, ss, tr) && i <= j < |ss| && b !in ss[i].live
    requires forall h | i <= h < j && tr[h].AllocStack? :: tr[h].h.base != b
    ensures b !in ss[j].live && Free(ss[j].reg, b, rc) == (ss[j].reg, -EINVAL)
  {
    hide Mirrors, Clear, Plan, Alloc;
    if i < j {
      DoubleFreeRefused(ps, ss, tr, i, j - 1, b, rc);
      assert ss[j] == Step(ps, ss[j - 1], tr[j - 1]);
    }
    RunKeeps(ps, ss, tr, j);
    if b != 0 {
      FindsLive(ss[j], b);
    }
  }

  /** Every stack handed out that ends below the last address carries a context: its span
      [guard_low, top) passes the geometry test and is started at the reported top. */
  lemma PlacedStacksCarryContexts(ps: word, ss: seq<State>, tr: seq<Action>, i: nat)
    requires ps > 0 && ps % 16 == 0 && IsRun(ps, ss, tr) && i < |tr| && tr[i].AllocStack?
    requires Alloc(ss[i].reg, ps, tr[i].q, tr[i].h).1.Placed?
    ensures var p := Alloc(ss[i].reg, ps, tr[i].q, tr[i].h).1;
      && p.base in ss[i + 1].live && p.base !in ss[i].mapped
      && (p.base + ss[i + 1].live[p.base] < WIDTH ==>
        && ContextTop(p.guardLow, Wrap(p.top - p.guardLow)) == Some(p.top)
        && p.base < p.guardLow < p.top == p.base + ss[i + 1].live[p.base] && p.top % 16 == 0)
  {
    hide Plan, Record, Mirrors, ContextTop, Wrap;
    RunKeeps(ps, ss, tr, i);
    var q, h := tr[i].q, tr[i].h;
    assert Enabled(ps, ss[i], tr[i]) && ss[i + 1] == Step(ps, ss[i], tr[i]);
    PlanTotalPositive(ps, q);
    MapKeeps(ss[i].mapped, h.base, Plan(ps, q).value.total);
    ContextAcceptsIff(ps, q, h.base);
    CommitMissesGuard(ps, q);
  }

  // ---- the registry in place ----

  class Reservations {
    var entries: array<Entry>
    var len: nat

    ghost predicate Valid()
      reads this
    {
      len <= entries.Length
    }

    ghost function Abs(): Registry
      reads this, entries
      requires Valid()
    {
      Registry(entries[..len], entries.Length)
    }

    constructor ()
      ensures Valid() && Abs() == START.reg && fresh(entries)
    {
      entries := new Entry[0];
      len := 0;
    }

    /** The scan both operations make: for a free slot, or for a base. */
    method Locate(base: nat) returns (i: nat)
      requires Valid()
      ensures i == Find(Abs().entries, base, 0)
    {
      i := 0;
      while i < len && entries[i].base != base
        invariant i <= len
        invariant Find(entries[..len], base, 0) == Find(entries[..len], base, i)
      {
        i := i + 1;
      }
    }

    method Grow()
      requires Valid() && len == entries.Length
      modifies this`entries
      ensures Valid() && fresh(entries) && len < entries.Length
      ensures Abs() == old(Abs()).(cap := Grown(len, FIRST_CAPACITY))
    {
      var bigger := new Entry[if len == 0 then FIRST_CAPACITY else len * 2](_ => Entry(0, 0));
      forall i | 0 <= i < len {
        bigger[i] := entries[i];
      }
      assert bigger[..len] == entries[..len];
      entries := bigger;
    }

    method Put(e: Entry, growOk: bool) returns (ok: bool)
      requires Valid()
      modifies this, entries
      ensures Valid() && (entries == old(entries) || fresh(entries))
      ensures (Abs(), ok) == Record(old(Abs()), e, growOk)
    {
      var i := Locate(0);
      ghost var was := entries[..len];
      if i == len {
        if len == entries.Length {
          if !growOk {
            return false;
          }
          Grow();
        }
        len := len + 1;
      }
      entries[i] := e;
      assert entries[..len] == if i < |was| then was[i := e] else was + [e];
      return true;
    }

    method AllocateStack(ps: word, q: Request, h: Host) returns (reply: Reply)
      requires Valid() && ps > 0
      modifies this, entries
      ensures Valid() && (entries == old(entries) || fresh(entries))
      ensures (Abs(), reply) == Alloc(old(Abs()), ps, q, h)
    {
      hide Record;
      var plan := Plan(ps, q);
      if plan.None? {
        return Refused(-EINVAL);
      }
      var l := plan.value;
      if h.base == 0 {
        return Refused(-(h.mapErr as int));
      }
      if l.commit > 0 && h.protectFails {
        return Refused(if h.protectErr != 0 then -(h.protectErr as int) else -EIO);
      }
      var ok := Put(Entry(h.base, l.total), h.growOk);
      if !ok {
        RecordFails(old(Abs()), Entry(h.base, l.total), h.growOk);
        return Refused(-ENOMEM);
      }
      return Placed(h.base, Wrap(h.base + l.guard), Wrap(h.base + l.total));
    }

    lemma RecordFails(r: Registry, e: Entry, growOk: bool)
      requires !Record(r, e, growOk).1
      ensures Record(r, e, growOk).0 == r
    {
    }

    method FreeStack(base: nat, hostRc: nat) returns (rc: int)
      requires Valid()
      modifies entries
      ensures Valid() && (Abs(), rc) == Free(old(Abs()), base, hostRc)
    {
      if base == 0 {
        return -EINVAL;
      }
      var i := Locate(base);
      if i == len {
        return -EINVAL;
      }
      if hostRc != 0 {
        return -(hostRc as int);
      }
      entries[i] := Entry(0, 0);
      return 0;
    }
  }
}
