/** When a record stays down: exactly which records of a running supervisor can still start a
    process of their own (internal/supervisor/supervisor.go:189-234, 530-643). */
module SupervisorRespawn {
  import opened UMCProcess
  import opened Supervisor
  import opened SupervisorSafety
  import opened SupervisorRuns

  /** Some exit makes the policy restart. */
  predicate Restarting(policy: Policy) {
    policy == Always || policy == OnFailure
  }

  /** The monitor can still start another process: its own position, the policy where it has
      not read it yet, and stopChan where it still looks at it, tell. */
  predicate MayRespawn(e: Entry, stopClosed: bool) {
    match e.pc
    case LoopHead => !stopClosed && Restarting(e.fields.policy)
    case Waiting => !stopClosed && Restarting(e.fields.policy)
    case Spawned(_) => !stopClosed && Restarting(e.fields.policy)
    case Exited(exit) => !stopClosed && ShouldRestart(e.fields.policy, exit)
    case Noted(exit, policy) => !stopClosed && ShouldRestart(policy, exit)
    case Deciding => true
    case BackingOff(_) => true
    case Respawning => true
    case Returned => false
  }

  predicate SetsPolicy(a: Action, name: string) {
    a.SetPolicy? && a.name == name
  }

  predicate LeavesPolicy(actions: seq<Action>, name: string) {
    forall i :: 0 <= i < |actions| ==> !SetsPolicy(actions[i], name)
  }

  // ---------------------------------------------------------------- what stays down

  /** No new process, and none of the old comes back to life. */
  predicate NoneNew(e: Entry, e': Entry) {
    && e'.fields.name == e.fields.name && |e'.alive| == |e.alive|
    && forall i :: 0 <= i < |e.alive| ==> e'.alive[i] ==> e.alive[i]
  }

  lemma MonitorSpawnsNothing(e: Entry, stopClosed: bool, clock: nat, c: Choice)
    requires !MayRespawn(e, stopClosed)
    ensures var e' := MonitorStep(e, stopClosed, clock, c); NoneNew(e, e') && !MayRespawn(e', stopClosed)
  {
  }

  lemma SameStaysDown(e: Entry, e': Entry, stopClosed: bool, stopClosed': bool)
    requires SameProcesses(e, e') && !MayRespawn(e, stopClosed) && (stopClosed ==> stopClosed')
    ensures NoneNew(e, e') && !MayRespawn(e', stopClosed')
  {
  }

  lemma EnvironmentSpawnsNothing(s: State, a: Action, r: nat)
    requires forall n :: n in s.table ==> s.table[n] < |s.entries| && s.entries[s.table[n]].fields.name == n
    requires r < |s.entries| && !a.Monitor? && !a.Advance? && !SetsPolicy(a, s.entries[r].fields.name)
    ensures var s', e := Step(s, a), s.entries[r];
            && |s'.entries| == |s.entries| && s'.stopClosed == s.stopClosed
            && s'.entries[r].(alive := e.alive) == e && NoneNew(e, s'.entries[r])
  {
  }

  lemma StepSpawnsNothing(s: State, a: Action, r: nat)
    requires Inv(s) && r < |s.entries| && !MayRespawn(s.entries[r], s.stopClosed)
    requires !SetsPolicy(a, s.entries[r].fields.name)
    ensures var s' := Step(s, a);
            && r < |s'.entries| && NoneNew(s.entries[r], s'.entries[r]) && !MayRespawn(s'.entries[r], s'.stopClosed)
  {
    var e := s.entries[r];
    match a {
      case Monitor(q, c) =>
        if q < |s.entries| {
          MonitorActionShape(s, q, c);
          MonitorSpawnsNothing(e, s.stopClosed, s.clock, c);
        }
      case Advance(t, ok) =>
        if t in s.calls {
          CallerSteps(s, t, ok);
          SameStaysDown(e, Step(s, a).entries[r], s.stopClosed, Step(s, a).stopClosed);
        }
      case _ =>
        EnvironmentSpawnsNothing(s, a, r);
    }
  }

  /** A record that cannot respawn never does, in any run that does not set its policy; when
      its processes are gone it stays down. */
  lemma {:induction false} StaysDown(s: State, actions: seq<Action>, r: nat)
    requires Inv(s) && r < |s.entries| && !MayRespawn(s.entries[r], s.stopClosed)
    requires LeavesPolicy(actions, s.entries[r].fields.name)
    ensures var s' := Run(s, actions);
            && r < |s'.entries| && NoneNew(s.entries[r], s'.entries[r]) && !MayRespawn(s'.entries[r], s'.stopClosed)
    decreases |actions|
  {
    if actions != [] {
      StepKeepsInv(s, actions[0]);
      StepSpawnsNothing(s, actions[0], r);
      StaysDown(Step(s, actions[0]), actions[1..], r);
    }
  }

  // ---------------------------------------------------------------- what comes back

  /** A step of a monitor, of the operating system, of time, or of a StopUMC that holds a lock. */
  predicate Unprompted(s: State, a: Action) {
    a.Monitor? || a.Tick? || a.ProcessExits?
    || (a.Advance? && a.thread in s.calls && s.calls[a.thread].StopHolding?)
  }

  predicate AllUnprompted(s: State, actions: seq<Action>)
    decreases |actions|
  {
    actions == [] || (Unprompted(s, actions[0]) && AllUnprompted(Step(s, actions[0]), actions[1..]))
  }

  lemma {:induction false} UnpromptedConcat(s: State, a: seq<Action>, b: seq<Action>)
    requires AllUnprompted(s, a) && AllUnprompted(Run(s, a), b)
    ensures AllUnprompted(s, a + b)
    decreases |a|
  {
    if a == [] {
      assert a + b == b;
    } else {
      assert (a + b)[1..] == a[1..] + b;
      UnpromptedConcat(Step(s, a[0]), a[1..], b);
    }
  }

  lemma {:induction false} UnpromptedLeavesPolicy(s: State, actions: seq<Action>, name: string)
    requires AllUnprompted(s, actions)
    ensures LeavesPolicy(actions, name)
    decreases |actions|
  {
    if actions != [] {
      UnpromptedLeavesPolicy(Step(s, actions[0]), actions[1..], name);
      assert forall i :: 1 <= i < |actions| ==> actions[i] == actions[1..][i - 1];
    }
  }

  /** Two states that differ in one record only, apart from calls and clock. */
  predicate OnlyThere(s: State, s': State, r: nat) {
    && |s'.entries| == |s.entries| && s'.stopClosed == s.stopClosed
    && forall q :: 0 <= q < |s.entries| && q != r ==> s'.entries[q] == s.entries[q]
  }

  predicate Live(s: State, r: nat, i: nat) {
    r < |s.entries| && i < |s.entries[r].alive| && s.entries[r].alive[i]
  }

  predicate Down(e: Entry) {
    forall i :: 0 <= i < |e.alive| ==> !e.alive[i]
  }

  /** Nothing but the monitor itself holds the record back. */
  ghost predicate Ready(e: Entry, stopClosed: bool) {
    ProcessInv(e) && e.lock.Free? && Down(e) && MayRespawn(e, stopClosed)
  }

  function StepsToSpawn(pc: Pc): nat {
    match pc
    case Spawned(_) => 8
    case LoopHead => 7
    case Waiting => 6
    case Exited(_) => 5
    case Noted(_, _) => 4
    case Deciding => 3
    case BackingOff(_) => 2
    case Respawning => 1
    case Returned => 0
  }

  const FAILING := Choice(ExitError(1), 0, true, true)

  lemma ReadyStep(e: Entry, stopClosed: bool, clock: nat)
    requires Ready(e, stopClosed) && (e.pc.BackingOff? ==> e.pc.wakeAt <= clock)
    ensures var e' := MonitorStep(e, stopClosed, clock, FAILING);
            && e'.fields.name == e.fields.name
            && (if e.pc.Respawning? then e'.alive == e.alive + [true]
                else e'.alive == e.alive && Ready(e', stopClosed) && StepsToSpawn(e'.pc) < StepsToSpawn(e.pc))
  {
    MonitorKeepsProcessInv(e, stopClosed, clock, FAILING);
  }

  /** Left alone, a record that is ready starts a process, and nothing else changes. */
  lemma {:induction false} ReadySpawns(s: State, r: nat) returns (actions: seq<Action>)
    requires r < |s.entries| && Ready(s.entries[r], s.stopClosed)
    ensures AllUnprompted(s, actions)
    ensures var s' := Run(s, actions);
            && OnlyThere(s, s', r) && s'.entries[r].alive == s.entries[r].alive + [true]
            && s'.entries[r].fields.name == s.entries[r].fields.name
    decreases StepsToSpawn(s.entries[r].pc)
  {
    var e := s.entries[r];
    var wait := Tick(if e.pc.BackingOff? && e.pc.wakeAt > 0 then e.pc.wakeAt else 0);
    var s1 := Step(s, wait);
    ReadyStep(e, s1.stopClosed, s1.clock);
    var s2 := Step(s1, Monitor(r, FAILING));
    assert s2.entries[r] == MonitorStep(e, s1.stopClosed, s1.clock, FAILING);
    var rest := [];
    if !e.pc.Respawning? {
      rest := ReadySpawns(s2, r);
    }
    actions := [wait, Monitor(r, FAILING)] + rest;
    assert actions[1..] == [Monitor(r, FAILING)] + rest && ([Monitor(r, FAILING)] + rest)[1..] == rest;
    assert Run(s, actions) == Run(s1, [Monitor(r, FAILING)] + rest) == Run(s2, rest);
    assert AllUnprompted(s1, [Monitor(r, FAILING)] + rest);
  }

  /** Its processes can all exit. */
  lemma GoesDown(s: State, r: nat) returns (actions: seq<Action>)
    requires Inv(s) && r < |s.entries|
    ensures AllUnprompted(s, actions)
    ensures var s' := Run(s, actions);
            && OnlyThere(s, s', r) && s'.calls == s.calls && Down(s'.entries[r])
            && s'.entries[r].(alive := s.entries[r].alive) == s.entries[r]
            && |s'.entries[r].alive| == |s.entries[r].alive|
  {
    var e := s.entries[r];
    assert ProcessInv(e);
    actions := [ProcessExits(r, Current(e))];
    assert Run(s, actions) == Run(Step(s, actions[0]), actions[1..]) == Step(s, actions[0]);
    assert AllUnprompted(Step(s, actions[0]), actions[1..]);
  }

  /** A StopUMC that holds the lock of a record whose processes are gone gives it back. */
  lemma LockReleased(s: State, r: nat) returns (actions: seq<Action>)
    requires Inv(s) && LockInv(s) && r < |s.entries| && Down(s.entries[r])
    ensures AllUnprompted(s, actions)
    ensures var s', e := Run(s, actions), s.entries[r];
            && OnlyThere(s, s', r) && s'.entries[r].lock.Free?
            && s'.entries[r].pc == e.pc && s'.entries[r].alive == e.alive
            && s'.entries[r].fields.name == e.fields.name && s'.entries[r].fields.policy == e.fields.policy
  {
    var e := s.entries[r];
    assert ProcessInv(e);
    if e.lock.Free? {
      actions := [];
    } else {
      var t := e.lock.thread;
      var go := Advance(t, true);
      if e.lock.waited {
        actions := [go];
        LastStepReleases(s, t, r);
      } else {
        var s1 := Step(s, go);
        assert s1.entries == s.entries[r := e.(lock := Held(t, true))] && s1.calls == s.calls;
        actions := [go, go];
        LastStepReleases(s1, t, r);
        assert Run(s, actions) == Run(s1, [go]);
        assert AllUnprompted(s1, [go]);
      }
    }
  }

  lemma LastStepReleases(s: State, t: nat, r: nat)
    requires r < |s.entries| && s.entries[r].lock == Held(t, true) && HeldByStop(s, t, r)
    ensures var s', e := Run(s, [Advance(t, true)]), s.entries[r];
            && OnlyThere(s, s', r) && s'.entries[r] == e.(lock := Free, fields := MarkStopped(e.fields))
    ensures AllUnprompted(s, [Advance(t, true)])
  {
    var go := [Advance(t, true)];
    assert Run(s, go) == Run(Step(s, go[0]), go[1..]) == Step(s, go[0]);
    assert AllUnprompted(Step(s, go[0]), go[1..]);
  }

  /** A record that may respawn can do so without any call being made. */
  lemma ComesBack(s: State, r: nat) returns (actions: seq<Action>)
    requires Inv(s) && LockInv(s) && r < |s.entries| && MayRespawn(s.entries[r], s.stopClosed)
    ensures AllUnprompted(s, actions)
    ensures var s' := Run(s, actions);
            && OnlyThere(s, s', r) && Live(s', r, |s.entries[r].alive|)
            && s'.entries[r].fields.name == s.entries[r].fields.name
  {
    var down := GoesDown(s, r);
    var s1 := Run(s, down);
    RunKeepsInv(s, down);
    RunKeepsLockInv(s, down);
    var released := LockReleased(s1, r);
    var s2 := Run(s1, released);
    RunKeepsInv(s1, released);
    var spawns := ReadySpawns(s2, r);
    RunConcat(s1, released, spawns);
    RunConcat(s, down, released + spawns);
    UnpromptedConcat(s1, released, spawns);
    UnpromptedConcat(s, down, released + spawns);
    actions := down + (released + spawns);
  }

  // ---------------------------------------------------------------- both together

  /** Some continuation that leaves the record's policy alone has it start another process. */
  ghost predicate CanRespawn(s: State, r: nat) {
    exists more, i: nat ::
      r < |s.entries| <= |Run(s, more).entries| && LeavesPolicy(more, s.entries[r].fields.name)
      && |s.entries[r].alive| <= i && Live(Run(s, more), r, i)
  }

  lemma InitInv()
    ensures Inv(INIT) && LockInv(INIT)
  {
  }

  /** After any run, whatever the record's lock and processes, its monitor can start another
      process without a change of its policy exactly when MayRespawn says so: then a stopped
      component does not stay stopped. */
  lemma RespawnsExactly(actions: seq<Action>, r: nat)
    requires r < |Run(INIT, actions).entries|
    ensures var s := Run(INIT, actions); CanRespawn(s, r) <==> MayRespawn(s.entries[r], s.stopClosed)
  {
    var s := Run(INIT, actions);
    InitInv();
    RunKeepsInv(INIT, actions);
    RunKeepsLockInv(INIT, actions);
    if MayRespawn(s.entries[r], s.stopClosed) {
      var more := ComesBack(s, r);
      UnpromptedLeavesPolicy(s, more, s.entries[r].fields.name);
      assert Live(Run(s, more), r, |s.entries[r].alive|);
    } else if CanRespawn(s, r) {
      var more, i: nat :| r < |s.entries| <= |Run(s, more).entries| && LeavesPolicy(more, s.entries[r].fields.name)
        && |s.entries[r].alive| <= i && Live(Run(s, more), r, i);
      StaysDown(s, more, r);
      assert false;
    }
  }

  lemma NeverShape(s: State, r: nat, name: string)
    requires s.lock.None? && name in s.table && s.table[name] == r < |s.entries|
    requires ProcessInv(s.entries[r]) && s.entries[r].fields.running
    ensures var s' := Step(s, SetPolicy(name, Never));
            && |s'.entries| == |s.entries| && !MayRespawn(s'.entries[r], s'.stopClosed)
            && s'.entries[r].alive == s.entries[r].alive && s'.entries[r].fields.name == s.entries[r].fields.name
  {
  }

  /** SetRestartPolicy(never) while the component is Running: the record starts no further
      process, so that a StopUMC after it is for good. */
  lemma NeverIsForGood(s: State, r: nat, name: string, actions: seq<Action>)
    requires Inv(s) && s.lock.None? && name in s.table && s.table[name] == r
    requires s.entries[r].fields.running && LeavesPolicy(actions, name)
    ensures var s' := Run(Step(s, SetPolicy(name, Never)), actions);
            r < |s'.entries| && NoneNew(s.entries[r], s'.entries[r])
  {
    var s1 := Step(s, SetPolicy(name, Never));
    StepKeepsInv(s, SetPolicy(name, Never));
    NeverShape(s, r, name);
    assert s.entries[r].fields.name == name;
    StaysDown(s1, actions, r);
  }

  // ---------------------------------------------------------------- which exits restart

  /** Once Wait has returned, with stopChan open and the lock free, two steps of the monitor
      lead to a restart exactly if the policy is "always", or "on-failure" and the process ended
      with an exit code that is not zero; they end the monitor otherwise. */
  lemma RestartsExactly(s: State, r: nat, exit: Exit, c: Choice, c': Choice)
    requires r < |s.entries| && s.entries[r].pc == Exited(exit) && s.entries[r].lock.Free? && !s.stopClosed
    ensures |Run(s, [Monitor(r, c), Monitor(r, c')]).entries| == |s.entries|
    ensures var e, e' := s.entries[r], Run(s, [Monitor(r, c), Monitor(r, c')]).entries[r];
            if e.fields.policy == Always || (e.fields.policy == OnFailure && exit.ExitError? && exit.code != 0)
            then e'.pc.Deciding? else e'.pc.Returned?
  {
    var s1 := Step(s, Monitor(r, c));
    RunFirst(s, Monitor(r, c), [Monitor(r, c')]);
    RunFirst(s1, Monitor(r, c'), []);
  }

  /** After such an end the component stays down in every run that leaves its policy alone. */
  lemma OnFailureStaysDown(s: State, actions: seq<Action>, r: nat, exit: Exit)
    requires Inv(s) && r < |s.entries| && s.entries[r].pc == Exited(exit)
    requires s.entries[r].fields.policy != Always
    requires s.entries[r].fields.policy == OnFailure ==> !(exit.ExitError? && exit.code != 0)
    requires LeavesPolicy(actions, s.entries[r].fields.name)
    ensures r < |Run(s, actions).entries| && NoneNew(s.entries[r], Run(s, actions).entries[r])
  {
    StaysDown(s, actions, r);
  }

  /** After any run, a component whose Wait has just returned can run again, with stopChan open
      and its policy left alone, exactly if the policy asks for it. */
  lemma ExitRespawnsExactly(actions: seq<Action>, r: nat, exit: Exit)
    requires r < |Run(INIT, actions).entries| && Run(INIT, actions).entries[r].pc == Exited(exit)
    requires !Run(INIT, actions).stopClosed
    ensures var s := Run(INIT, actions);
            var policy := s.entries[r].fields.policy;
            CanRespawn(s, r) <==>
              policy == Always || (policy == OnFailure && exit.ExitError? && exit.code != 0)
  {
    RespawnsExactly(actions, r);
  }
}
