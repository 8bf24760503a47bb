/** The thread-local-storage registry: public ids that are never reused, backed by slots that are
    reused and by host keys that the platform may hand out again once deleted. */
module TlsRegistry {
  import opened Errno
  import opened Arithmetic

  const NULL: nat := 0
  const FIRST_CAPACITY := 16

  datatype Slot = Slot(id: nat, key: nat, live: bool)
  datatype Registry = Registry(slots: seq<Slot>, cap: nat, nextId: nat)

  ghost predicate LiveAt(slots: seq<Slot>, i: nat) {
    i < |slots| && slots[i].live
  }

  /** The first live slot owning `id` at or after `from`, or the length. */
  function Find(slots: seq<Slot>, id: nat, from: nat): (i: nat)
    requires from <= |slots|
    ensures from <= i <= |slots|
    ensures i < |slots| ==> slots[i].live && slots[i].id == id
    ensures forall j | from <= j < i :: !(slots[j].live && slots[j].id == id)
    decreases |slots| - from
  {
    if from == |slots| || (slots[from].live && slots[from].id == id) then from
    else Find(slots, id, from + 1)
  }

  function FirstDead(slots: seq<Slot>, from: nat): (i: nat)
    requires from <= |slots|
    ensures from <= i <= |slots|
    ensures i < |slots| ==> !slots[i].live
    ensures forall j | from <= j < i :: slots[j].live
    decreases |slots| - from
  {
    if from == |slots| || !slots[from].live then from else FirstDead(slots, from + 1)
  }

  /** The locked section of create. The id is 0 when the array had to grow and could not. */
  function Publish(r: Registry, key: nat, growOk: bool): (o: (Registry, nat)) {
    var i := FirstDead(r.slots, 0);
    var s := Slot(r.nextId, key, true);
    if i < |r.slots| then (Registry(r.slots[i := s], r.cap, r.nextId + 1), r.nextId)
    else if |r.slots| == r.cap && !growOk then (r, 0)
    else (Registry(r.slots + [s], if |r.slots| == r.cap then Grown(r.cap, FIRST_CAPACITY) else r.cap, r.nextId + 1), r.nextId)
  }

  /** The locked section of destroy, for a slot that was found. */
  function Retire(r: Registry, i: nat): Registry
    requires i < |r.slots|
  {
    r.(slots := r.slots[i := r.slots[i].(live := false)])
  }

  // ---- threads and the host ----

  /** A call between its locked section and its host call, with the host key it alone holds. */
  datatype Call = Creating(key: nat) | Failed(key: nat) | Destroying(key: nat)

  datatype State = State(
    reg: Registry,
    host: set<nat>,                   // host keys that exist
    values: map<(nat, nat), nat>,     // (thread, host key), NULL where absent
    calls: map<nat, Call>)

  datatype Action =
    | KeyCreate(t: nat, key: nat)     // the host mints `key`, which reads NULL in every thread
    | CreatePublish(t: nat, growOk: bool)
    | CreateAbort(t: nat)
    | Get(t: nat, id: nat)
    | Set(t: nat, id: nat, value: nat, hostRc: int)
    | DestroyBegin(t: nat, id: nat)
    | DestroyEnd(t: nat)

  datatype Out = Silent | Minted(id: nat) | Value(value: nat) | Rc(rc: int)

  const START := State(Registry([], 0, 1), {}, map[], map[])

  ghost predicate Enabled(s: State, a: Action) {
    match a
    case KeyCreate(t, k) => t !in s.calls && k !in s.host
    case CreatePublish(t, _) => t in s.calls && s.calls[t].Creating?
    case CreateAbort(t) => t in s.calls && s.calls[t].Failed?
    case DestroyEnd(t) => t in s.calls && s.calls[t].Destroying?
    case _ => a.t !in s.calls
  }

  function HostGet(s: State, t: nat, k: nat): nat {
    if (t, k) in s.values then s.values[(t, k)] else NULL
  }

  function Slotted(s: State, id: nat): nat {
    Find(s.reg.slots, id, 0)
  }

  function Step(s: State, a: Action): State {
    match a
    case KeyCreate(t, k) =>
      s.(host := s.host + {k}, calls := s.calls[t := Creating(k)],
         values := map p | p in s.values && p.1 != k :: s.values[p])
    case CreatePublish(t, growOk) =>
      if t !in s.calls then s
      else
        var (r, id) := Publish(s.reg, s.calls[t].key, growOk);
        if id == 0 then s.(calls := s.calls[t := Failed(s.calls[t].key)])
        else s.(reg := r, calls := s.calls - {t})
    case CreateAbort(t) =>
      if t !in s.calls then s else s.(host := s.host - {s.calls[t].key}, calls := s.calls - {t})
    case Get(t, id) => s
    case Set(t, id, v, hostRc) =>
      var i := Slotted(s, id);
      if i == |s.reg.slots| || hostRc != 0 then s
      else s.(values := s.values[(t, s.reg.slots[i].key) := v])
    case DestroyBegin(t, id) =>
      var i := Slotted(s, id);
      if i == |s.reg.slots| then s
      else s.(reg := Retire(s.reg, i), calls := s.calls[t := Destroying(s.reg.slots[i].key)])
    case DestroyEnd(t) =>
      if t !in s.calls then s else s.(host := s.host - {s.calls[t].key}, calls := s.calls - {t})
  }

  /** What the step lets its caller observe. Deleting a host key that does not exist is EINVAL. */
  function Seen(s: State, a: Action): Out {
    match a
    case KeyCreate(_, _) => Silent
    case CreatePublish(t, growOk) =>
      if t !in s.calls then Silent
      else
        var id := Publish(s.reg, s.calls[t].key, growOk).1;
        if id == 0 then Silent else Minted(id)
    case CreateAbort(_) => Rc(-ENOMEM)
    case Get(t, id) =>
      var i := Slotted(s, id);
      Value(if i < |s.reg.slots| then HostGet(s, t, s.reg.slots[i].key) else NULL)
    case Set(_, id, _, hostRc) => Rc(if Slotted(s, id) == |s.reg.slots| then -EINVAL else -hostRc)
    case DestroyBegin(_, id) => if Slotted(s, id) == |s.reg.slots| then Rc(-EINVAL) else Silent
    case DestroyEnd(t) => Rc(if t in s.calls && s.calls[t].key in s.host then 0 else -EINVAL)
  }

  /** The host keys the step hands to the host's get, set or delete. */
  function Touched(s: State, a: Action): set<nat> {
    match a
    case Get(_, id) => var i := Slotted(s, id); if i < |s.reg.slots| then {s.reg.slots[i].key} else {}
    case Set(_, id, _, _) => var i := Slotted(s, id); if i < |s.reg.slots| then {s.reg.slots[i].key} else {}
    case CreateAbort(t) => if t in s.calls then {s.calls[t].key} else {}
    case DestroyEnd(t) => if t in s.calls then {s.calls[t].key} else {}
    case _ => {}
  }

  ghost predicate IsRun(ss: seq<State>, tr: seq<Action>) {
    && |ss| == |tr| + 1 && ss[0] == START
    && forall i | 0 <= i < |tr| :: Enabled(ss[i], tr[i]) && ss[i + 1] == Step(ss[i], tr[i])
  }

  // ---- every host key has exactly one holder ----

  ghost predicate IdsFresh(r: Registry) {
    && r.nextId >= 1 && |r.slots| <= r.cap
    && (forall i: nat | i < |r.slots| :: 1 <= r.slots[i].id < r.nextId)
    && (forall i: nat, j: nat | i < j < |r.slots| :: r.slots[i].id != r.slots[j].id)
  }

  ghost predicate SlotsHold(slots: seq<Slot>, host: set<nat>) {
    && (forall i: nat | LiveAt(slots, i) :: slots[i].key in host)
    && (forall i: nat, j: nat | LiveAt(slots, i) && LiveAt(slots, j) && i != j :: slots[i].key != slots[j].key)
  }

  ghost predicate CallsHold(calls: map<nat, Call>, host: set<nat>) {
    && (forall t | t in calls :: calls[t].key in host)
    && (forall t, u | t in calls && u in calls && t != u :: calls[t].key != calls[u].key)
  }

  ghost predicate Apart(slots: seq<Slot>, calls: map<nat, Call>) {
    forall i: nat, t | LiveAt(slots, i) && t in calls :: slots[i].key != calls[t].key
  }

  ghost predicate Held(slots: seq<Slot>, calls: map<nat, Call>, k: nat) {
    (exists i: nat :: LiveAt(slots, i) && slots[i].key == k) || (exists t :: t in calls && calls[t].key == k)
  }

  ghost predicate Inv(s: State) {
    && IdsFresh(s.reg) && SlotsHold(s.reg.slots, s.host) && CallsHold(s.calls, s.host)
    && Apart(s.reg.slots, s.calls)
    && (forall k | k in s.host :: Held(s.reg.slots, s.calls, k))
  }

  lemma KeyCreateKeeps(s: State, t: nat, k: nat)
    requires Inv(s) && Enabled(s, KeyCreate(t, k))
    ensures Inv(Step(s, KeyCreate(t, k)))
  {
    var s' := Step(s, KeyCreate(t, k));
    assert t in s'.calls && s'.calls[t].key == k;
    forall j | j in s'.host ensures Held(s'.reg.slots, s'.calls, j) {
      if j in s.host {
        assert Held(s.reg.slots, s.calls, j);
        assert forall u | u in s.calls :: u in s'.calls && s'.calls[u] == s.calls[u];
      }
    }
  }

  /** Publishing fills one slot that was not live, and every live slot stays where it was. */
  lemma PublishFills(r: Registry, key: nat, growOk: bool) returns (at: nat)
    requires IdsFresh(r) && Publish(r, key, growOk).1 != 0
    ensures var r' := Publish(r, key, growOk).0;
      && IdsFresh(r') && r'.nextId == r.nextId + 1 && Publish(r, key, growOk).1 == r.nextId && !LiveAt(r.slots, at)
      && LiveAt(r'.slots, at) && r'.slots[at] == Slot(r.nextId, key, true)
      && (forall i: nat | i != at :: LiveAt(r'.slots, i) <==> LiveAt(r.slots, i))
      && (forall i: nat | i != at && LiveAt(r.slots, i) :: r'.slots[i] == r.slots[i])
  {
    at := FirstDead(r.slots, 0);
  }

  lemma FailKeeps(s: State, t: nat, s': State)
    requires Inv(s) && t in s.calls && s' == s.(calls := s.calls[t := Failed(s.calls[t].key)])
    ensures Inv(s')
  {
    assert forall u | u in s.calls :: u in s'.calls && s'.calls[u].key == s.calls[u].key;
    forall j | j in s'.host ensures Held(s'.reg.slots, s'.calls, j) {
      assert Held(s.reg.slots, s.calls, j);
    }
  }

  lemma FillKeeps(s: State, t: nat, s': State, at: nat)
    requires Inv(s) && t in s.calls && IdsFresh(s'.reg)
    requires s' == s.(reg := s'.reg, calls := s.calls - {t})
    requires !LiveAt(s.reg.slots, at) && LiveAt(s'.reg.slots, at) && s'.reg.slots[at].key == s.calls[t].key
    requires forall i: nat | i != at :: LiveAt(s'.reg.slots, i) <==> LiveAt(s.reg.slots, i)
    requires forall i: nat | i != at && LiveAt(s.reg.slots, i) && LiveAt(s'.reg.slots, i) :: s'.reg.slots[i] == s.reg.slots[i]
    ensures Inv(s')
  {
    hide IdsFresh;
    assert forall u | u in s.calls && u != t :: u in s'.calls && s'.calls[u] == s.calls[u];
    forall j | j in s'.host ensures Held(s'.reg.slots, s'.calls, j) {
      assert Held(s.reg.slots, s.calls, j);
    }
  }

  lemma PublishKeeps(s: State, t: nat, growOk: bool)
    requires Inv(s) && Enabled(s, CreatePublish(t, growOk))
    ensures Inv(Step(s, CreatePublish(t, growOk)))
  {
    hide Publish;
    var s' := Step(s, CreatePublish(t, growOk));
    var key := s.calls[t].key;
    if Publish(s.reg, key, growOk).1 == 0 {
      FailKeeps(s, t, s');
    } else {
      var at := PublishFills(s.reg, key, growOk);
      FillKeeps(s, t, s', at);
    }
  }

  /** Dropping the key a call holds leaves all the others held. */
  lemma DropKeeps(s: State, t: nat, s': State)
    requires Inv(s) && t in s.calls
    requires s' == s.(host := s.host - {s.calls[t].key}, calls := s.calls - {t})
    ensures Inv(s')
  {
    forall j | j in s'.host ensures Held(s'.reg.slots, s'.calls, j) {
      assert Held(s.reg.slots, s.calls, j);
      assert forall u | u in s.calls && u != t :: u in s'.calls && s'.calls[u] == s.calls[u];
    }
  }

  lemma DestroyKeeps(s: State, t: nat, id: nat)
    requires Inv(s) && Enabled(s, DestroyBegin(t, id))
    ensures Inv(Step(s, DestroyBegin(t, id)))
  {
    var s' := Step(s, DestroyBegin(t, id));
    var at := Slotted(s, id);
    if at < |s.reg.slots| {
      assert forall i: nat :: LiveAt(s'.reg.slots, i) <==> LiveAt(s.reg.slots, i) && i != at;
      assert LiveAt(s.reg.slots, at) && t in s'.calls;
      forall j | j in s'.host ensures Held(s'.reg.slots, s'.calls, j) {
        assert Held(s.reg.slots, s.calls, j);
        assert forall u | u in s.calls :: u in s'.calls && s'.calls[u] == s.calls[u];
      }
    }
  }

  lemma StepKeeps(s: State, a: Action)
    requires Inv(s) && Enabled(s, a)
    ensures Inv(Step(s, a))
  {
    hide Inv, Publish;
    match a {
      case KeyCreate(t, k) => KeyCreateKeeps(s, t, k);
      case CreatePublish(t, g) => PublishKeeps(s, t, g);
      case CreateAbort(t) => DropKeeps(s, t, Step(s, a));
      case Get(_, _) =>
      case Set(t, id, v, rc) => SetKeeps(s, t, id, v, rc);
      case DestroyBegin(t, id) => DestroyKeeps(s, t, id);
      case DestroyEnd(t) => DropKeeps(s, t, Step(s, a));
    }
  }

  lemma SetKeeps(s: State, t: nat, id: nat, v: nat, rc: int)
    requires Inv(s)
    ensures Inv(Step(s, Set(t, id, v, rc)))
  {
  }

  lemma {:induction false} RunKeeps(ss: seq<State>, tr: seq<Action>, i: nat)
    requires IsRun(ss, tr) && i < |ss|
    ensures Inv(ss[i])
  {
    hide Step, Inv, Enabled;
    if i == 0 {
      StartHolds();
    } else {
      RunKeeps(ss, tr, i - 1);
      StepKeeps(ss[i - 1], tr[i - 1]);
    }
  }

  lemma StartHolds()
    ensures Inv(START)
  {
  }

  function LiveKeys(s: State): set<nat> {
    set i | 0 <= i < |s.reg.slots| && s.reg.slots[i].live :: s.reg.slots[i].key
  }

  function InFlight(s: State, kind: Call -> bool): set<nat> {
    set t | t in s.calls && kind(s.calls[t]) :: s.calls[t].key
  }

  /** In every reachable state the existing host keys split, without overlap, into the keys of
      live slots, of creates not yet published, of creates that failed and of destroys under way;
      no two slots and no two calls hold the same key, so none leaks and none is deleted twice. */
  lemma HostKeysPartition(ss: seq<State>, tr: seq<Action>, i: nat)
    requires IsRun(ss, tr) && i < |ss|
    ensures var s := ss[i];
      var creating, failed, destroying :=
        InFlight(s, (c: Call) => c.Creating?), InFlight(s, (c: Call) => c.Failed?), InFlight(s, (c: Call) => c.Destroying?);
      && s.host == LiveKeys(s) + creating + failed + destroying
      && LiveKeys(s) !! creating !! failed !! destroying
      && SlotsHold(s.reg.slots, s.host) && CallsHold(s.calls, s.host)
  {
    RunKeeps(ss, tr, i);
    var s := ss[i];
    var creating := InFlight(s, (c: Call) => c.Creating?);
    var failed := InFlight(s, (c: Call) => c.Failed?);
    var destroying := InFlight(s, (c: Call) => c.Destroying?);
    forall k | k in s.host ensures k in LiveKeys(s) + creating + failed + destroying {
      assert Held(s.reg.slots, s.calls, k);
    }
    assert forall j: nat | LiveAt(s.reg.slots, j) :: s.reg.slots[j].key in s.host;
  }

  /** No get, set or delete is ever handed a host key that does not exist; so a destroy that found
      its slot always succeeds. */
  lemma NoDeletedKeyTouched(ss: seq<State>, tr: seq<Action>, i: nat)
    requires IsRun(ss, tr) && i < |tr|
    ensures Touched(ss[i], tr[i]) <= ss[i].host
    ensures tr[i].DestroyEnd? ==> Seen(ss[i], tr[i]) == Rc(0)
  {
    RunKeeps(ss, tr, i);
    var s := ss[i];
    assert forall j: nat | LiveAt(s.reg.slots, j) :: s.reg.slots[j].key in s.host;
    assert Enabled(s, tr[i]);
  }

  // ---- the simple store the registry refines ----

  /** One value per thread and id, ids handed out in order and never again. */
  datatype Store = Store(next: nat, live: set<nat>, vals: map<(nat, nat), nat>)

  const EMPTY_STORE := Store(1, {}, map[])

  function Read(st: Store, t: nat, id: nat): nat {
    if id in st.live && (t, id) in st.vals then st.vals[(t, id)] else NULL
  }

  function StoreStep(st: Store, a: Action, out: Out): Store {
    match a
    case CreatePublish(_, _) => if out.Minted? then Store(st.next + 1, st.live + {st.next}, st.vals) else st
    case Set(t, id, v, _) => if out == Rc(0) then st.(vals := st.vals[(t, id) := v]) else st
    case DestroyBegin(_, id) => st.(live := st.live - {id})
    case _ => st
  }

  /** The answers the store permits. */
  ghost predicate Allowed(st: Store, a: Action, out: Out) {
    match a
    case KeyCreate(_, _) => out == Silent
    case CreatePublish(_, growOk) => out == Minted(st.next) || (out == Silent && !growOk)
    case CreateAbort(_) => out == Rc(-ENOMEM)
    case Get(t, id) => out == Value(Read(st, t, id))
    case Set(_, id, _, hostRc) => out == Rc(if id in st.live then -hostRc else -EINVAL)
    case DestroyBegin(_, id) => out == if id in st.live then Silent else Rc(-EINVAL)
    case DestroyEnd(_) => out == Rc(0)
  }

  function Stores(ss: seq<State>, tr: seq<Action>, n: nat): Store
    requires n <= |tr| && n <= |ss|
  {
    if n == 0 then EMPTY_STORE
    else StoreStep(Stores(ss, tr, n - 1), tr[n - 1], Seen(ss[n - 1], tr[n - 1]))
  }

  ghost predicate SameIds(slots: seq<Slot>, live: set<nat>) {
    && (forall i: nat | LiveAt(slots, i) :: slots[i].id in live)
    && (forall id | id in live :: exists i: nat :: LiveAt(slots, i) && slots[i].id == id)
  }

  ghost predicate SameValues(s: State, st: Store) {
    forall i: nat, t: nat | LiveAt(s.reg.slots, i) :: HostGet(s, t, s.reg.slots[i].key) == Read(st, t, s.reg.slots[i].id)
  }

  /** A key on its way into a slot still reads NULL everywhere. */
  ghost predicate Pristine(s: State) {
    forall t, u: nat | t in s.calls && s.calls[t].Creating? :: HostGet(s, u, s.calls[t].key) == NULL
  }

  ghost predicate Refines(s: State, st: Store) {
    && st.next == s.reg.nextId && SameIds(s.reg.slots, st.live) && SameValues(s, st) && Pristine(s)
    && (forall p | p in st.vals :: p.1 < st.next)
  }

  lemma FoundIffLive(s: State, st: Store, id: nat)
    requires SameIds(s.reg.slots, st.live)
    ensures Slotted(s, id) < |s.reg.slots| <==> id in st.live
    ensures id in st.live ==> LiveAt(s.reg.slots, Slotted(s, id))
  {
  }

  lemma AnswersAllowed(s: State, st: Store, a: Action)
    requires Inv(s) && Refines(s, st) && Enabled(s, a)
    ensures Allowed(st, a, Seen(s, a))
  {
    match a {
      case Get(t, id) => FoundIffLive(s, st, id);
      case Set(t, id, _, _) => FoundIffLive(s, st, id);
      case DestroyBegin(t, id) => FoundIffLive(s, st, id);
      case _ =>
    }
  }

  /** The store does not see which call holds which host key. */
  lemma CallsApartRefines(s: State, st: Store, s': State)
    requires Refines(s, st) && s'.reg == s.reg && s'.values == s.values
    requires forall t | t in s'.calls && s'.calls[t].Creating? :: t in s.calls && s.calls[t] == s'.calls[t]
    ensures Refines(s', st)
  {
    assert forall u: nat, k: nat :: HostGet(s', u, k) == HostGet(s, u, k);
  }

  lemma FillIds(slots: seq<Slot>, slots': seq<Slot>, live: set<nat>, at: nat)
    requires SameIds(slots, live) && !LiveAt(slots, at) && LiveAt(slots', at)
    requires forall i: nat | i != at :: LiveAt(slots', i) <==> LiveAt(slots, i)
    requires forall i: nat | i != at && LiveAt(slots, i) && LiveAt(slots', i) :: slots'[i] == slots[i]
    ensures SameIds(slots', live + {slots'[at].id})
  {
    forall id | id in live ensures exists i: nat :: LiveAt(slots', i) && slots'[i].id == id {
      var i: nat :| LiveAt(slots, i) && slots[i].id == id;
      assert i != at && LiveAt(slots', i);
    }
  }

  lemma PublishRefines(s: State, st: Store, t: nat, growOk: bool)
    requires Inv(s) && Refines(s, st) && Enabled(s, CreatePublish(t, growOk))
    ensures var a := CreatePublish(t, growOk); Refines(Step(s, a), StoreStep(st, a, Seen(s, a)))
  {
    hide Publish;
    var a := CreatePublish(t, growOk);
    var key := s.calls[t].key;
    var s', st' := Step(s, a), StoreStep(st, a, Seen(s, a));
    if Publish(s.reg, key, growOk).1 != 0 {
      var at := PublishFills(s.reg, key, growOk);
      assert s.reg.nextId >= 1;
      FillIds(s.reg.slots, s'.reg.slots, st.live, at);
      assert forall u: nat, j: nat :: HostGet(s', u, j) == HostGet(s, u, j);
      assert forall u: nat, j: nat | j != st.next :: Read(st', u, j) == Read(st, u, j);
      assert forall u: nat :: (u, st.next) !in st.vals && Read(st', u, st.next) == NULL;
    } else {
      CallsApartRefines(s, st, s');
    }
  }

  lemma KeyCreateRefines(s: State, st: Store, t: nat, k: nat)
    requires Inv(s) && Refines(s, st) && Enabled(s, KeyCreate(t, k))
    ensures Refines(Step(s, KeyCreate(t, k)), st)
  {
    var s' := Step(s, KeyCreate(t, k));
    assert forall u: nat, j: nat | j != k :: HostGet(s', u, j) == HostGet(s, u, j);
    assert forall u: nat :: HostGet(s', u, k) == NULL;
    assert forall i: nat | LiveAt(s.reg.slots, i) :: s.reg.slots[i].key != k;
    assert forall u | u in s.calls :: s.calls[u].key != k;
  }

  /** Writing the host value behind a live slot is writing the store under that slot's id. */
  lemma WriteSame(s: State, st: Store, t: nat, at: nat, v: nat)
    requires Inv(s) && Refines(s, st) && LiveAt(s.reg.slots, at)
    ensures SameValues(s.(values := s.values[(t, s.reg.slots[at].key) := v]), st.(vals := st.vals[(t, s.reg.slots[at].id) := v]))
  {
    var key, id := s.reg.slots[at].key, s.reg.slots[at].id;
    var s', st' := s.(values := s.values[(t, key) := v]), st.(vals := st.vals[(t, id) := v]);
    assert forall i: nat | LiveAt(s.reg.slots, i) && i != at :: s.reg.slots[i].key != key && s.reg.slots[i].id != id;
    assert forall u: nat, j: nat | (u, j) != (t, key) :: HostGet(s', u, j) == HostGet(s, u, j);
    assert forall u: nat, j: nat | (u, j) != (t, id) :: Read(st', u, j) == Read(st, u, j);
  }

  lemma WritePristine(s: State, t: nat, at: nat, v: nat)
    requires Apart(s.reg.slots, s.calls) && Pristine(s) && LiveAt(s.reg.slots, at)
    ensures Pristine(s.(values := s.values[(t, s.reg.slots[at].key) := v]))
  {
    var key := s.reg.slots[at].key;
    var s' := s.(values := s.values[(t, key) := v]);
    assert forall u: nat, j: nat | j != key :: HostGet(s', u, j) == HostGet(s, u, j);
  }

  lemma SetRefines(s: State, st: Store, t: nat, id: nat, v: nat, rc: int)
    requires Inv(s) && Refines(s, st)
    ensures var a := Set(t, id, v, rc); Refines(Step(s, a), StoreStep(st, a, Seen(s, a)))
  {
    hide SameIds, SameValues, Pristine, Apart, SlotsHold, CallsHold, Held;
    FoundIffLive(s, st, id);
    if id in st.live && rc == 0 {
      WriteSame(s, st, t, Slotted(s, id), v);
      WritePristine(s, t, Slotted(s, id), v);
    }
  }

  lemma RetireIds(r: Registry, live: set<nat>, at: nat)
    requires IdsFresh(r) && SameIds(r.slots, live) && LiveAt(r.slots, at)
    ensures SameIds(Retire(r, at).slots, live - {r.slots[at].id})
  {
    var slots := Retire(r, at).slots;
    assert forall i: nat :: LiveAt(slots, i) <==> LiveAt(r.slots, i) && i != at;
    forall id | id in live - {r.slots[at].id} ensures exists i: nat :: LiveAt(slots, i) && slots[i].id == id {
      var i: nat :| LiveAt(r.slots, i) && r.slots[i].id == id;
      assert LiveAt(slots, i);
    }
  }

  lemma DestroyRefines(s: State, st: Store, t: nat, id: nat)
    requires Inv(s) && Refines(s, st) && Enabled(s, DestroyBegin(t, id))
    ensures var a := DestroyBegin(t, id); Refines(Step(s, a), StoreStep(st, a, Seen(s, a)))
  {
    FoundIffLive(s, st, id);
    var a := DestroyBegin(t, id);
    var s', st' := Step(s, a), StoreStep(st, a, Seen(s, a));
    var at := Slotted(s, id);
    if id in st.live {
      assert forall i: nat :: LiveAt(s'.reg.slots, i) <==> LiveAt(s.reg.slots, i) && i != at;
      assert SameIds(s'.reg.slots, st'.live) by {
        RetireIds(s.reg, st.live, at);
      }
      assert forall u: nat, j: nat | j != id :: Read(st', u, j) == Read(st, u, j);
      assert forall u: nat, j: nat :: HostGet(s', u, j) == HostGet(s, u, j);
    } else {
      assert st' == st;
    }
  }

  lemma StepRefines(s: State, st: Store, a: Action)
    requires Inv(s) && Refines(s, st) && Enabled(s, a)
    ensures Refines(Step(s, a), StoreStep(st, a, Seen(s, a)))
  {
    hide Inv, Publish;
    match a {
      case KeyCreate(t, k) => KeyCreateRefines(s, st, t, k);
      case CreatePublish(t, g) => PublishRefines(s, st, t, g);
      case CreateAbort(t) => CallsApartRefines(s, st, Step(s, a));
      case Get(_, _) =>
      case Set(t, id, v, rc) => SetRefines(s, st, t, id, v, rc);
      case DestroyBegin(t, id) => DestroyRefines(s, st, t, id);
      case DestroyEnd(t) => CallsApartRefines(s, st, Step(s, a));
    }
  }

  /** Over every interleaving the registry answers as the simple store does: although slots and
      host keys are reused, ids are not, and each thread reads what it stored under that id. */
  lemma {:induction false} RegistryRefinesStore(ss: seq<State>, tr: seq<Action>, i: nat)
    requires IsRun(ss, tr) && i < |ss|
    ensures Refines(ss[i], Stores(ss, tr, i))
    ensures i < |tr| ==> Allowed(Stores(ss, tr, i), tr[i], Seen(ss[i], tr[i]))
  {
    hide Refines, Inv, Step, Allowed, Seen, StoreStep;
    if i == 0 {
      StartRefines();
    } else {
      RegistryRefinesStore(ss, tr, i - 1);
      RunKeeps(ss, tr, i - 1);
      StepRefines(ss[i - 1], Stores(ss, tr, i - 1), tr[i - 1]);
    }
    RunKeeps(ss, tr, i);
    if i < |tr| {
      AnswersAllowed(ss[i], Stores(ss, tr, i), tr[i]);
    }
  }

  lemma StartRefines()
    ensures Refines(START, EMPTY_STORE)
  {
  }

  // ---- what a caller may rely on ----

  /** Once an id has been minted and is no longer live it stays so: whatever slot or host key is
      reused, a get on it reads NULL and set and destroy refuse it. */
  lemma {:induction false} StaleIdsStayDead(ss: seq<State>, tr: seq<Action>, i: nat, j: nat, id: nat)
    requires IsRun(ss, tr) && i <= j < |ss|
    requires id < Stores(ss, tr, i).next && id !in Stores(ss, tr, i).live
    ensures id < Stores(ss, tr, j).next && id !in Stores(ss, tr, j).live
    ensures j < |tr| && tr[j].Get? && tr[j].id == id ==> Seen(ss[j], tr[j]) == Value(NULL)
    ensures j < |tr| && (tr[j].Set? || tr[j].DestroyBegin?) && tr[j].id == id ==> Seen(ss[j], tr[j]) == Rc(-EINVAL)
  {
    hide Step, Enabled, Seen;
    RegistryRefinesStore(ss, tr, j);
    if i < j {
      StaleIdsStayDead(ss, tr, i, j - 1, id);
    }
  }

  ghost predicate Overwrites(a: Action, out: Out, t: nat, id: nat) {
    (a.Set? && a.t == t && a.id == id && out == Rc(0)) || (a.DestroyBegin? && a.id == id)
  }

  lemma {:induction false} ReadPersists(ss: seq<State>, tr: seq<Action>, i: nat, j: nat, t: nat, id: nat)
    requires IsRun(ss, tr) && i <= j < |ss| && id in Stores(ss, tr, i).live
    requires forall h | i <= h < j :: !Overwrites(tr[h], Seen(ss[h], tr[h]), t, id)
    ensures id in Stores(ss, tr, j).live && Read(Stores(ss, tr, j), t, id) == Read(Stores(ss, tr, i), t, id)
  {
    hide Step, Enabled, Seen;
    if i < j {
      ReadPersists(ss, tr, i, j - 1, t, id);
      assert !Overwrites(tr[j - 1], Seen(ss[j - 1], tr[j - 1]), t, id);
    }
  }

  /** A get returns the value of the thread's latest successful set under that id. */
  lemma GetReturnsLatestSet(ss: seq<State>, tr: seq<Action>, i: nat, j: nat, t: nat, id: nat, v: nat)
    requires IsRun(ss, tr) && i < j < |tr|
    requires tr[i] == Set(t, id, v, 0) && Seen(ss[i], tr[i]) == Rc(0) && tr[j] == Get(t, id)
    requires forall h | i < h < j :: !Overwrites(tr[h], Seen(ss[h], tr[h]), t, id)
    ensures Seen(ss[j], tr[j]) == Value(v)
  {
    hide Step, Enabled, Seen;
    RegistryRefinesStore(ss, tr, i);
    RegistryRefinesStore(ss, tr, j);
    ReadPersists(ss, tr, i + 1, j, t, id);
  }

  /** A new id reads NULL in every thread until that thread sets it, even when the slot and the
      host key behind it carried another id's values before. */
  lemma NewIdReadsNull(ss: seq<State>, tr: seq<Action>, i: nat, j: nat, t: nat, id: nat)
    requires IsRun(ss, tr) && i < j < |tr|
    requires tr[i].CreatePublish? && Seen(ss[i], tr[i]) == Minted(id) && tr[j] == Get(t, id)
    requires forall h | i < h < j :: !Overwrites(tr[h], Seen(ss[h], tr[h]), t, id)
    ensures Seen(ss[j], tr[j]) == Value(NULL)
  {
    hide Step, Enabled, Seen;
    RegistryRefinesStore(ss, tr, i);
    RegistryRefinesStore(ss, tr, j);
    ReadPersists(ss, tr, i + 1, j, t, id);
  }

  /** A create is refused exactly when no slot is dead, the array is full and it cannot grow; one
      that is not refused takes over a dead slot if there is one, and only otherwise makes the
      registry longer, by one, doubling the array if that was full. */
  lemma CreateRefusedIff(ss: seq<State>, tr: seq<Action>, i: nat, t: nat, growOk: bool)
    requires IsRun(ss, tr) && i < |tr| && tr[i] == CreatePublish(t, growOk)
    ensures var r, r' := ss[i].reg, ss[i + 1].reg;
      var allLive := forall k: nat | k < |r.slots| :: r.slots[k].live;
      && (Seen(ss[i], tr[i]) == Silent <==> allLive && |r.slots| == r.cap && !growOk)
      && (Seen(ss[i], tr[i]) == Silent ==> r' == r)
      && (Seen(ss[i], tr[i]).Minted? ==>
            && |r'.slots| == |r.slots| + (if allLive then 1 else 0)
            && r'.cap == if !allLive || |r.slots| < r.cap then r.cap else if r.cap == 0 then 16 else 2 * r.cap)
  {
    RunKeeps(ss, tr, i);
    assert Enabled(ss[i], tr[i]) && ss[i + 1] == Step(ss[i], tr[i]);
    var at := FirstDead(ss[i].reg.slots, 0);
  }

  /** Two creates never return the same id. */
  lemma {:induction false} IdsNeverReused(ss: seq<State>, tr: seq<Action>, i: nat, j: nat)
    requires IsRun(ss, tr) && i < j < |tr|
    requires Seen(ss[i], tr[i]).Minted? && Seen(ss[j], tr[j]).Minted?
    ensures 0 < Seen(ss[i], tr[i]).id < Seen(ss[j], tr[j]).id
  {
    hide Step, Enabled;
    RegistryRefinesStore(ss, tr, i);
    RegistryRefinesStore(ss, tr, j);
    NextGrows(ss, tr, i + 1, j);
    RunKeeps(ss, tr, i);
  }

  lemma {:induction false} NextGrows(ss: seq<State>, tr: seq<Action>, i: nat, j: nat)
    requires i <= j <= |tr| && j <= |ss|
    ensures Stores(ss, tr, i).next <= Stores(ss, tr, j).next
  {
    hide Seen;
    if i < j {
      NextGrows(ss, tr, i, j - 1);
    }
  }

  // ---- the registry in place ----

  class SlotTable {
    var slots: array<Slot>
    var len: nat
    var nextId: nat

    ghost predicate Valid()
      reads this, slots
    {
      len <= slots.Length && IdsFresh(Abs())
    }

    ghost function Abs(): Registry
      reads this, slots
      requires len <= slots.Length
    {
      Registry(slots[..len], slots.Length, nextId)
    }

    constructor ()
      ensures Valid() && Abs() == START.reg && fresh(slots)
    {
      slots := new Slot[0];
      len := 0;
      nextId := 1;
    }

    /** tls_find. */
    method Locate(id: nat) returns (i: nat)
      requires Valid()
      ensures i == Find(Abs().slots, id, 0)
    {
      i := 0;
      while i < len && !(slots[i].live && slots[i].id == id)
        invariant i <= len
        invariant Find(slots[..len], id, 0) == Find(slots[..len], id, i)
      {
        i := i + 1;
      }
    }

    method Grow()
      requires Valid() && len == slots.Length
      modifies this`slots
      ensures Valid() && fresh(slots) && slots.Length == Grown(len, FIRST_CAPACITY)
      ensures Abs() == old(Abs()).(cap := Grown(len, FIRST_CAPACITY)) && len < slots.Length
    {
      var bigger := new Slot[if len == 0 then FIRST_CAPACITY else len * 2](_ => Slot(0, 0, false));
      forall i | 0 <= i < len {
        bigger[i] := slots[i];
      }
      assert bigger[..len] == slots[..len];
      slots := bigger;
    }

    /** The locked section of create. */
    method Fill(key: nat, growOk: bool) returns (id: nat)
      requires Valid()
      modifies this, slots
      ensures Valid() && (fresh(slots) || slots == old(slots))
      ensures (Abs(), id) == Publish(old(Abs()), key, growOk)
    {
      var i := 0;
      while i < len && slots[i].live
        invariant i <= len
        invariant FirstDead(slots[..len], 0) == FirstDead(slots[..len], i)
      {
        i := i + 1;
      }
      assert i == FirstDead(slots[..len], 0);
      ghost var was := slots[..len];
      if i == len {
        if len == slots.Length {
          if !growOk {
            return 0;
          }
          Grow();
        }
        len := len + 1;
      }
      ghost var at := i;
      slots[i] := Slot(nextId, key, true);
      id := nextId;
      nextId := nextId + 1;
      assert slots[..len] == if at < |was| then was[at := Slot(id, key, true)] else was + [Slot(id, key, true)];
      assert nextId >= 1;
    }

    /** The locked section of destroy: the host key to delete, if the id is live. */
    method Release(id: nat) returns (found: bool, key: nat)
      requires Valid()
      modifies slots
      ensures Valid()
      ensures var i := Find(old(Abs()).slots, id, 0);
        if i < |old(Abs()).slots| then found && key == old(Abs()).slots[i].key && Abs() == Retire(old(Abs()), i)
        else !found && Abs() == old(Abs())
    {
      var i := Locate(id);
      if i == len {
        return false, 0;
      }
      key := slots[i].key;
      slots[i] := slots[i].(live := false);
      return true, key;
    }
  }
}
