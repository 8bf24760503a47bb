/** Whose tokens the io_uring table holds and its events carry: those of the caller's registers. */
module UringOwners {
  import opened PollTypes
  import opened Uring
  import opened UringRuns
  import opened UringTheorems
  import opened UringAnswers
  import opened UringDrains

  /** An accepted register puts its descriptor into `row`. */
  ghost predicate Takes(s: State, a: Action, row: nat)
    requires Enabled(s, a)
  {
    a.DoRegister? && ResultOf(s, a) == 0 && a.fd >= 0 && row == Probe(s.table, a.fd)
  }

  /** The row holds what the register asked for. */
  ghost predicate Asked(r: Reg, a: Action) {
    a.DoRegister? && r.fd == a.fd && r.token == a.token && r.interests == a.interests
  }

  ghost predicate SameOwner(r: Reg, r': Reg) {
    r.fd == r'.fd && r.token == r'.token && r.interests == r'.interests
  }

  lemma OthersKeepOwners(s: State, a: Action, row: nat)
    requires Enabled(s, a) && !a.DoRegister? && !a.DoUnregister? && row < |s.table|
    ensures |Step(s, a).table| == |s.table|
    ensures Step(s, a).table[row].fd >= 0 ==> SameOwner(s.table[row], Step(s, a).table[row])
  {
    hide Arm, DrainAll, Needed;
    match a {
      case DoArm(timed, e) =>
        ArmStages(s, timed);
        SubmitMoves(Arm(s, timed).0, 1, e);
      case DoDrain(cap) => DrainExplained(s.(out := []), cap);
      case _ =>
    }
  }

  lemma CallsKeepOwners(ss: seq<State>, tr: seq<Action>, i: nat, row: nat)
    requires IsRun(ss, tr) && i < |tr| && (tr[i].DoRegister? || tr[i].DoUnregister?) && ss[i].nextSeq < TIMEOUT
    requires row < |ss[i].table|
    ensures |ss[i + 1].table| == |ss[i].table|
    ensures Takes(ss[i], tr[i], row) ==> Asked(ss[i + 1].table[row], tr[i])
    ensures !Takes(ss[i], tr[i], row) && ss[i + 1].table[row].fd >= 0 ==> ss[i + 1].table[row] == ss[i].table[row]
  {
    hide Probe, Register, Unregister, Step;
    var a := tr[i];
    assert Enabled(ss[i], a);
    if a.DoRegister? {
      RegisterTakesEffect(ss, tr, i, a.fd, a.interests, a.token, a.flush, a.e);
    } else {
      UnregisterTakesEffect(ss, tr, i, a.fd, a.e);
    }
  }

  /** Every live row holds descriptor, token and interests of the latest accepted register that
      took it, and some register did. */
  lemma {:induction false} RowsAreTheCallers(ss: seq<State>, tr: seq<Action>, i: nat, row: nat) returns (h: nat)
    requires IsRun(ss, tr) && i < |ss| && ss[i].nextSeq < TIMEOUT && row < |ss[i].table| && ss[i].table[row].fd >= 0
    ensures h < i && Takes(ss[h], tr[h], row) && Asked(ss[i].table[row], tr[h])
    ensures forall g | h < g < i :: !Takes(ss[g], tr[g], row)
  {
    hide Step, Takes, Enabled, Evolves;
    EmptyAtFirst(ss, tr);
    assert i > 0;
    assert Enabled(ss[i - 1], tr[i - 1]) && ss[i] == Step(ss[i - 1], tr[i - 1]);
    GrowsBefore(ss, tr, i);
    if tr[i - 1].DoRegister? || tr[i - 1].DoUnregister? {
      RowThere(ss, tr, i);
      CallsKeepOwners(ss, tr, i - 1, row);
      if Takes(ss[i - 1], tr[i - 1], row) {
        h := i - 1;
      } else {
        h := RowsAreTheCallers(ss, tr, i - 1, row);
      }
    } else {
      RowThere(ss, tr, i);
      OthersKeepOwners(ss[i - 1], tr[i - 1], row);
      h := RowsAreTheCallers(ss, tr, i - 1, row);
      OthersTakeNothing(ss[i - 1], tr[i - 1], row);
    }
  }

  lemma EmptyAtFirst(ss: seq<State>, tr: seq<Action>)
    requires IsRun(ss, tr)
    ensures forall row | 0 <= row < |ss[0].table| :: ss[0].table[row].fd == -1
  {
  }

  lemma OthersTakeNothing(s: State, a: Action, row: nat)
    requires Enabled(s, a) && !a.DoRegister?
    ensures !Takes(s, a, row)
  {
  }

  lemma GrowsBefore(ss: seq<State>, tr: seq<Action>, i: nat)
    requires IsRun(ss, tr) && 0 < i < |ss|
    ensures ss[i - 1].nextSeq <= ss[i].nextSeq
  {
    RunEvolves(ss, tr, i - 1, i);
  }

  /** The table never changes its size. */
  lemma RowThere(ss: seq<State>, tr: seq<Action>, i: nat)
    requires IsRun(ss, tr) && 0 < i < |ss| && ss[i - 1].nextSeq < TIMEOUT
    ensures |ss[i].table| == |ss[i - 1].table|
  {
    hide Probe, Register, Unregister, Arm, DrainAll;
    assert Enabled(ss[i - 1], tr[i - 1]) && ss[i] == Step(ss[i - 1], tr[i - 1]);
    if tr[i - 1].DoRegister? || tr[i - 1].DoUnregister? {
      CallsKeepOwners(ss, tr, i - 1, 0);
    } else {
      OthersKeepOwners(ss[i - 1], tr[i - 1], 0);
    }
  }

  /** Every event a drain delivers carries the descriptor and the token of an accepted register,
      the latest one to take its row, and reports a completion the drain met. */
  lemma EventsAreTheCallers(ss: seq<State>, tr: seq<Action>, i: nat, cap: nat, k: nat) returns (h: nat, row: nat)
    requires IsRun(ss, tr) && i < |tr| && tr[i] == DoDrain(cap) && ss[i].nextSeq < TIMEOUT
    requires |ss[i].delivered| <= k < |ss[i + 1].delivered|
    ensures h < i && Takes(ss[h], tr[h], row) && forall g | h < g < i :: !Takes(ss[g], tr[g], row)
    ensures tr[h].DoRegister? && ss[i + 1].delivered[k].event.fd == tr[h].fd && ss[i + 1].delivered[k].event.token == tr[h].token
  {
    hide Step, Takes, Enabled, Says;
    EventsSayWhatIsReady(ss, tr, i, cap, k);
    var d := ss[i + 1].delivered[k];
    var j :| 0 <= j < |ss[i].cq| && Reports(d, ss[i].cq[j], ss[i].table);
    var r :| 0 <= r < |ss[i].table| && OfRow(d.event, ss[i].table[r]);
    row := r;
    h := RowsAreTheCallers(ss, tr, i, row);
  }
}
