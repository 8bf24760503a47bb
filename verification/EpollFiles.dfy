/** Which open file an epoll event belongs to: the kernel reports a registration, descriptor and
    file, but only the descriptor comes back, and the token is looked up under it. */
module EpollFiles {
  import opened PollTypes
  import opened EpollTable
  import opened Epoll
  import opened EpollTheorems

  /** The open file each descriptor of the caller's map meant when its token was accepted. */
  ghost function CallerFiles(ss: seq<State>, tr: seq<Action>, i: nat): map<int, nat>
    requires IsRun(ss, tr) && i < |ss|
  {
    if i == 0 then map[] else NextFiles(CallerFiles(ss, tr, i - 1), ss[i - 1], tr[i - 1])
  }

  ghost function NextFiles(m: map<int, nat>, s: State, a: Action): map<int, nat>
    requires Enabled(s, a)
  {
    if (a.DoRegister? || a.DoModify?) && ResultOf(s, a) == 0 && a.fd in s.open then m[a.fd := s.open[a.fd]]
    else if a.DoUnregister? then m - {a.fd}
    else m
  }

  /** The files are those of the descriptors that have tokens. */
  lemma {:induction false} FilesHaveTokens(ss: seq<State>, tr: seq<Action>, i: nat)
    requires IsRun(ss, tr) && i < |ss|
    ensures CallerFiles(ss, tr, i).Keys == CallerMap(ss, tr, i).Keys
  {
    hide Step, Enabled;
    if i > 0 {
      FilesHaveTokens(ss, tr, i - 1);
      var s, a := ss[i - 1], tr[i - 1];
      if (a.DoRegister? || a.DoModify?) && ResultOf(s, a) == 0 {
        AcceptedIsOpen(s, a);
      }
    }
  }

  lemma AcceptedIsOpen(s: State, a: Action)
    requires Enabled(s, a) && (a.DoRegister? || a.DoModify?) && ResultOf(s, a) == 0
    ensures a.fd in s.open
  {
    hide Probe;
  }

  /** Every kernel registration under a descriptor with a token is of the file the token was
      given for. */
  ghost predicate Owned(s: State, files: map<int, nat>) {
    forall r | r in s.regs && r.fd in files :: files[r.fd] == r.file
  }

  /** An accepted register or modify finds no registration of another file under its number. */
  ghost predicate FreshStep(s: State, a: Action)
    requires Enabled(s, a)
  {
    (a.DoRegister? || a.DoModify?) && ResultOf(s, a) == 0 ==>
      forall file | Reg(a.fd, file) in s.regs :: a.fd in s.open && file == s.open[a.fd]
  }

  lemma AcceptedRegisters(s: State, a: Action)
    requires Enabled(s, a) && (a.DoRegister? || a.DoModify?)
    ensures if ResultOf(s, a) != 0 then Step(s, a) == s
            else a.fd in s.open && Step(s, a).regs.Keys == s.regs.Keys + {Reg(a.fd, s.open[a.fd])}
  {
    hide Probe;
  }

  lemma OthersRegisterNothing(s: State, a: Action)
    requires Enabled(s, a) && !a.DoRegister? && !a.DoModify?
    ensures Step(s, a).regs.Keys <= s.regs.Keys
  {
    hide Probe, Collect;
  }

  lemma OwnedStepIff(s: State, a: Action, m: map<int, nat>)
    requires Enabled(s, a) && Owned(s, m)
    ensures Owned(Step(s, a), NextFiles(m, s, a)) <==> FreshStep(s, a)
  {
    hide Step, ResultOf;
    if a.DoRegister? || a.DoModify? {
      AcceptedRegisters(s, a);
      if ResultOf(s, a) == 0 && Owned(Step(s, a), NextFiles(m, s, a)) {
        forall file | Reg(a.fd, file) in s.regs ensures file == s.open[a.fd] {
          assert Reg(a.fd, file) in Step(s, a).regs;
        }
      }
    } else {
      OthersRegisterNothing(s, a);
    }
  }

  /** With descriptors closed, duplicated and reused at any time, every kernel registration has
      stayed with the file its descriptor's token was given for exactly when every accepted
      register and modify found none of another file under its number. */
  lemma {:induction false} TokensMeanFilesIff(ss: seq<State>, tr: seq<Action>, i: nat)
    requires IsRun(ss, tr) && i < |ss|
    ensures (forall j | 0 <= j <= i :: Owned(ss[j], CallerFiles(ss, tr, j))) <==> forall h | 0 <= h < i :: FreshStep(ss[h], tr[h])
  {
    hide Owned, FreshStep, Step, Enabled, NextFiles;
    if i == 0 {
      assert Owned(ss[0], map[]) by { NoFilesOwned(ss[0]); }
    } else {
      TokensMeanFilesIff(ss, tr, i - 1);
      if Owned(ss[i - 1], CallerFiles(ss, tr, i - 1)) {
        OwnedStepIff(ss[i - 1], tr[i - 1], CallerFiles(ss, tr, i - 1));
      }
      assert ss[i] == Step(ss[i - 1], tr[i - 1]);
      assert (forall j | 0 <= j <= i :: Owned(ss[j], CallerFiles(ss, tr, j))) <==>
        (forall j | 0 <= j <= i - 1 :: Owned(ss[j], CallerFiles(ss, tr, j))) && Owned(ss[i], CallerFiles(ss, tr, i));
      assert (forall h | 0 <= h < i :: FreshStep(ss[h], tr[h])) <==>
        (forall h | 0 <= h < i - 1 :: FreshStep(ss[h], tr[h])) && FreshStep(ss[i - 1], tr[i - 1]);
    }
  }

  lemma NoFilesOwned(s: State)
    ensures Owned(s, map[])
  {
  }

  /** Every entry a wait turns into an event is of the file its token was given for. */
  ghost predicate Rightful(s: State, files: map<int, nat>, batch: seq<Ready>) {
    forall k | 0 <= k < |batch| && batch[k].fd != s.wfd && batch[k].fd in files :: batch[k].file == files[batch[k].fd]
  }

  /** No wait the kernel could answer at this point gives one file's readiness under another
      file's token exactly when every registration is with its token's file. */
  lemma WaitsAreRightfulIff(ss: seq<State>, tr: seq<Action>, i: nat)
    requires IsRun(ss, tr) && i < |ss|
    ensures var files := CallerFiles(ss, tr, i);
      Owned(ss[i], files) <==> forall batch, cap | Enabled(ss[i], DoWait(batch, cap)) :: Rightful(ss[i], files, batch)
  {
    hide Represents, Step;
    RunKeeps(ss, tr, i);
    var s, files := ss[i], CallerFiles(ss, tr, i);
    Sizes(s);
    if r :| r in s.regs && r.fd in files && files[r.fd] != r.file {
      var batch := [Ready(r.fd, r.file, {PollIn})];
      assert Enabled(s, DoWait(batch, 1));
      assert batch[0].file != files[batch[0].fd];
    }
  }
}
