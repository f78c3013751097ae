/** When one name can have two processes: exactly which StartUMC calls are safe
    (internal/supervisor/supervisor.go:121-186, 279-341). */
module SupervisorNames {
  import opened Wrappers
  import opened UMCProcess
  import opened Supervisor
  import opened SupervisorSafety
  import opened SupervisorRuns
  import opened SupervisorRespawn
  import opened SupervisorRates

  /** The record has no live process and starts none any more. */
  predicate Spent(e: Entry, stopClosed: bool) {
    Down(e) && !MayRespawn(e, stopClosed)
  }

  /** A monitor that has returned from a record that is not Running has left nothing behind. */
  lemma ReturnedIsSpent(e: Entry, stopClosed: bool)
    requires ProcessInv(e) && e.pc.Returned? && !e.fields.running
    ensures Spent(e, stopClosed)
  {
    assert forall i :: 0 <= i < |e.alive| && e.alive[i] ==> i == Current(e);
  }

  /** The step in which a StartUMC succeeds. */
  predicate Starts(s: State, a: Action) {
    a.Advance? && a.ok && a.thread in s.calls && s.calls[a.thread].StartChecked? && s.lock == Some(a.thread)
  }

  predicate Earlier(s: State, name: string, r: nat) {
    name in s.table && s.table[name] == r < |s.entries|
  }

  /** A StartUMC that succeeds does so over a spent record, if there is one of its name. */
  predicate SafeStep(s: State, a: Action) {
    Starts(s, a) ==>
      var name := s.calls[a.thread].name;
      name in s.table && s.table[name] < |s.entries| ==> Spent(s.entries[s.table[name]], s.stopClosed)
  }

  predicate Safe(s: State, actions: seq<Action>)
    decreases |actions|
  {
    actions == [] || (SafeStep(s, actions[0]) && Safe(Step(s, actions[0]), actions[1..]))
  }

  // ---------------------------------------------------------------- safe starts are enough

  /** All but the latest record of a name are spent. */
  ghost predicate TableInv(s: State) {
    forall r :: 0 <= r < |s.entries| ==>
      && s.entries[r].fields.name in s.table
      && (s.table[s.entries[r].fields.name] != r ==> Spent(s.entries[r], s.stopClosed))
  }

  ghost predicate NameInv(s: State) {
    Inv(s) && TableInv(s)
  }

  /** Only a StartUMC that succeeds changes the table, for its name, or adds a record. */
  lemma TableByStarts(s: State, a: Action)
    ensures var s' := Step(s, a);
            && (!Starts(s, a) ==> s'.table == s.table && |s'.entries| == |s.entries|)
            && (Starts(s, a) ==>
                  var name := s.calls[a.thread].name;
                  && s'.table == s.table[name := |s.entries|] && s'.stopClosed == s.stopClosed
                  && s'.entries == s.entries + [NewEntry(name, s.calls[a.thread].port)])
  {
    if a.Advance? && a.thread in s.calls && !s.calls[a.thread].StartChecked? {
      CallerSteps(s, a.thread, a.ok);
    }
  }

  lemma PolicyElsewhere(s: State, a: Action, r: nat)
    requires Inv(s) && r < |s.entries| && SetsPolicy(a, s.entries[r].fields.name)
    requires s.entries[r].fields.name in s.table && s.table[s.entries[r].fields.name] != r
    ensures Step(s, a).entries[r] == s.entries[r] && Step(s, a).stopClosed == s.stopClosed
    ensures |Step(s, a).entries| == |s.entries|
  {
  }

  /** A spent record that is not the latest of its name stays so: even its policy is out of
      reach. */
  lemma SpentStays(s: State, a: Action, r: nat)
    requires Inv(s) && r < |s.entries| && Spent(s.entries[r], s.stopClosed)
    requires s.entries[r].fields.name in s.table && s.table[s.entries[r].fields.name] != r
    ensures var s' := Step(s, a);
            && r < |s'.entries| && Spent(s'.entries[r], s'.stopClosed)
            && s'.entries[r].fields.name == s.entries[r].fields.name
  {
    if SetsPolicy(a, s.entries[r].fields.name) {
      PolicyElsewhere(s, a, r);
    } else {
      StepSpawnsNothing(s, a, r);
    }
  }

  lemma NamesStay(s: State, a: Action, r: nat)
    requires r < |s.entries|
    ensures r < |Step(s, a).entries| && Step(s, a).entries[r].fields.name == s.entries[r].fields.name
  {
    if a.Advance? && a.thread in s.calls {
      CallerSteps(s, a.thread, a.ok);
      assert SameProcesses(s.entries[r], Step(s, a).entries[r]);
    }
  }

  lemma StepKeepsTableInv(s: State, a: Action)
    requires NameInv(s) && SafeStep(s, a)
    ensures TableInv(Step(s, a))
  {
    var s' := Step(s, a);
    TableByStarts(s, a);
    forall r | 0 <= r < |s'.entries|
      ensures s'.entries[r].fields.name in s'.table
      ensures s'.table[s'.entries[r].fields.name] != r ==> Spent(s'.entries[r], s'.stopClosed)
    {
      if r < |s.entries| {
        NamesStay(s, a, r);
        if s.table[s.entries[r].fields.name] != r {
          SpentStays(s, a, r);
        }
      }
    }
  }

  lemma {:induction false} RunKeepsNameInv(s: State, actions: seq<Action>)
    requires NameInv(s) && Safe(s, actions)
    ensures NameInv(Run(s, actions))
    decreases |actions|
  {
    if actions != [] {
      StepKeepsInv(s, actions[0]);
      StepKeepsTableInv(s, actions[0]);
      RunKeepsNameInv(Step(s, actions[0]), actions[1..]);
    }
  }

  /** In a run in which StartUMC succeeds only over spent records, a name never has two live
      processes. */
  lemma AtMostOneProcessPerName(actions: seq<Action>, r: nat, i: nat, q: nat, j: nat)
    requires Safe(INIT, actions)
    requires Live(Run(INIT, actions), r, i) && Live(Run(INIT, actions), q, j)
    requires Run(INIT, actions).entries[r].fields.name == Run(INIT, actions).entries[q].fields.name
    ensures r == q && i == j
  {
    InitInv();
    RunKeepsNameInv(INIT, actions);
    var s := Run(INIT, actions);
    assert ProcessInv(s.entries[r]);
  }

  ghost predicate TwoLive(s: State, name: string) {
    exists r: nat, q: nat, i: nat, j: nat ::
      r != q && Live(s, r, i) && Live(s, q, j) && s.entries[r].fields.name == s.entries[q].fields.name == name
  }

  lemma NameInvAllowsOne(s: State, name: string)
    requires NameInv(s)
    ensures !TwoLive(s, name)
  {
  }

  // ---------------------------------------------------------------- and needed

  lemma {:induction false} UnpromptedIsSafe(s: State, actions: seq<Action>)
    requires AllUnprompted(s, actions)
    ensures Safe(s, actions)
    decreases |actions|
  {
    if actions != [] {
      UnpromptedIsSafe(Step(s, actions[0]), actions[1..]);
    }
  }

  /** A StartUMC that succeeds over a record that is not spent can end, with no further call,
      with two live processes of its name. */
  lemma UnsafeStartDoubles(s: State, t: nat, r: nat) returns (more: seq<Action>)
    requires Inv(s) && LockInv(s) && Starts(s, Advance(t, true)) && Earlier(s, s.calls[t].name, r)
    requires !Spent(s.entries[r], s.stopClosed)
    ensures AllUnprompted(Step(s, Advance(t, true)), more)
    ensures TwoLive(Run(Step(s, Advance(t, true)), more), s.calls[t].name)
  {
    var go := Advance(t, true);
    var s1 := Step(s, go);
    StepKeepsInv(s, go);
    StepKeepsLockInv(s, go);
    TableByStarts(s, go);
    assert s1.entries[r] == s.entries[r] && s.entries[r].fields.name == s.calls[t].name;
    if MayRespawn(s.entries[r], s.stopClosed) {
      more := ComesBack(s1, r);
      assert Live(Run(s1, more), r, |s.entries[r].alive|) && Live(Run(s1, more), |s.entries|, 0);
    } else {
      more := [];
      var i :| 0 <= i < |s.entries[r].alive| && s.entries[r].alive[i];
      assert Live(s1, r, i) && Live(s1, |s.entries|, 0);
    }
  }

  /** Whatever follows, if its starts are safe, the name never has two live processes. */
  ghost predicate Harmless(s: State, name: string) {
    forall more :: Safe(s, more) ==> !TwoLive(Run(s, more), name)
  }

  lemma SafeStartIsHarmless(s: State, a: Action, name: string)
    requires NameInv(s) && SafeStep(s, a)
    ensures Harmless(Step(s, a), name)
  {
    var s1 := Step(s, a);
    StepKeepsInv(s, a);
    StepKeepsTableInv(s, a);
    forall more | Safe(s1, more) ensures !TwoLive(Run(s1, more), name) {
      RunKeepsNameInv(s1, more);
      NameInvAllowsOne(Run(s1, more), name);
    }
  }

  /** After a run of safe starts, a StartUMC past its check may succeed exactly when the earlier
      record of its name is spent: otherwise, and only otherwise, something that follows gives
      the name two live processes. */
  lemma StartSafeExactly(actions: seq<Action>, t: nat, r: nat)
    requires Safe(INIT, actions)
    requires var s := Run(INIT, actions);
             t in s.calls && s.calls[t].StartChecked? && Earlier(s, s.calls[t].name, r)
    ensures var s := Run(INIT, actions);
            Spent(s.entries[r], s.stopClosed) <==> Harmless(Step(s, Advance(t, true)), s.calls[t].name)
  {
    var s := Run(INIT, actions);
    InitInv();
    RunKeepsNameInv(INIT, actions);
    RunKeepsLockInv(INIT, actions);
    if Spent(s.entries[r], s.stopClosed) {
      SafeStartIsHarmless(s, Advance(t, true), s.calls[t].name);
    } else {
      var more := UnsafeStartDoubles(s, t, r);
      UnpromptedIsSafe(Step(s, Advance(t, true)), more);
    }
  }

  // ---------------------------------------------------------------- RestartUMC and Shutdown get there

  const GO := Advance(0, true)

  /** One component started by its first StartUMC. */
  function OneStarted(name: string): State {
    INIT.(entries := [NewEntry(name, 80)], table := map[name := 0], waitGroup := 1)
  }

  /** A call with number `t` that stops that component and holds the record's lock. */
  function Holding(name: string, t: nat, after: After): State {
    OneStarted(name).(entries := [NewEntry(name, 80).(lock := Held(t, false))],
                      calls := map[t := StopHolding(name, 0, after)])
  }

  function StoppedEntry(name: string): Entry {
    NewEntry(name, 80).(alive := [false], fields := MarkStopped(Started(name, 80)))
  }

  /** The process is gone, StopUMC is over and StartUMC is past its check. */
  function RestartChecked(name: string): State {
    OneStarted(name).(entries := [StoppedEntry(name)], lock := Some(0), calls := map[0 := StartChecked(name, 80)])
  }

  lemma ReachOneStarted(name: string)
    ensures Run(INIT, [Invoke(0, StartEntered(name, 80)), GO, GO]) == OneStarted(name)
  {
    var s1 := Step(INIT, Invoke(0, StartEntered(name, 80)));
    var s2 := Step(s1, GO);
    assert Run(s1, [GO, GO]) == Run(s2, [GO]) == Run(Step(s2, GO), []);
    assert Step(s2, GO) == OneStarted(name);
  }

  lemma ReachRestartHolding(name: string)
    ensures Run(OneStarted(name), [Invoke(0, RestartFound(name, 0)), GO, GO, GO, GO])
         == Holding(name, 0, StartAgain(80))
  {
    var s1 := Step(OneStarted(name), Invoke(0, RestartFound(name, 0)));
    var s2 := Step(s1, GO);
    var s3 := Step(s2, GO);
    var s4 := Step(s3, GO);
    assert Run(s1, [GO, GO, GO, GO]) == Run(s2, [GO, GO, GO]) == Run(s3, [GO, GO]);
    assert Run(s3, [GO, GO]) == Run(s4, [GO]) == Run(Step(s4, GO), []);
    assert Step(s4, GO) == Holding(name, 0, StartAgain(80));
  }

  /** The process exits and the StopUMC sees it. */
  lemma ReachExited(name: string, t: nat, after: After)
    ensures Run(Holding(name, t, after), [ProcessExits(0, 0), Advance(t, true)])
         == Holding(name, t, after).(entries := [NewEntry(name, 80).(alive := [false], lock := Held(t, true))])
  {
    var s0, go := Holding(name, t, after), Advance(t, true);
    var gone := NewEntry(name, 80).(alive := [false]);
    var s1 := s0.(entries := [gone.(lock := Held(t, false))]);
    assert s0.entries[0].alive[0 := false] == [false];
    assert Step(s0, ProcessExits(0, 0)).entries == s1.entries;
    assert Step(s1, go).entries == [gone.(lock := Held(t, true))];
    RunFirst(s0, ProcessExits(0, 0), [go]);
    RunFirst(s1, go, []);
  }

  lemma ReachChecked(name: string)
    ensures Run(Holding(name, 0, StartAgain(80)), [ProcessExits(0, 0), GO] + [GO, GO]) == RestartChecked(name)
  {
    var s0 := Holding(name, 0, StartAgain(80));
    ReachExited(name, 0, StartAgain(80));
    var s2 := Run(s0, [ProcessExits(0, 0), GO]);
    var s3 := RestartChecked(name).(lock := None, calls := map[0 := StartEntered(name, 80)]);
    assert Step(s2, GO) == s3;
    assert Step(s3, GO) == RestartChecked(name);
    RunFirst(s2, GO, [GO]);
    RunFirst(s3, GO, []);
    RunConcat(s0, [ProcessExits(0, 0), GO], [GO, GO]);
  }

  /** RestartUMC gets there: it starts the component again while the old monitor, which it
      does not end, is still in its loop. */
  lemma RestartCanDouble(name: string) returns (actions: seq<Action>)
    ensures TwoLive(Run(INIT, actions), name)
  {
    var a := [Invoke(0, StartEntered(name, 80)), GO, GO];
    var b := [Invoke(0, RestartFound(name, 0)), GO, GO, GO, GO];
    var c := [ProcessExits(0, 0), GO] + [GO, GO];
    ReachOneStarted(name);
    ReachRestartHolding(name);
    ReachChecked(name);
    RunConcat(INIT, a, b);
    RunConcat(INIT, a + b, c);
    InitInv();
    RunKeepsInv(INIT, a + b + c);
    RunKeepsLockInv(INIT, a + b + c);
    var more := UnsafeStartDoubles(RestartChecked(name), 0, 0);
    RunFirst(RestartChecked(name), GO, more);
    RunConcat(INIT, a + b + c, [GO] + more);
    actions := a + b + c + ([GO] + more);
  }

  /** Shutdown has stopped the component and is about to close stopChan; a StartUMC is past
      its check. */
  function ShutdownChecked(name: string): State {
    OneStarted(name).(entries := [StoppedEntry(name)], lock := Some(0),
                      calls := map[1 := Closing, 0 := StartChecked(name, 80)])
  }

  /** Shutdown takes the component's name and finds its record. */
  lemma ReachShutdownFound(name: string)
    ensures Run(OneStarted(name), [Invoke(1, StopEntered(name, StopRest([]))), Advance(1, true)])
         == OneStarted(name).(calls := map[1 := StopFound(name, 0, StopRest([]))])
  {
    var s0, enter := OneStarted(name), Invoke(1, StopEntered(name, StopRest([])));
    assert [name] + [] == [name] && (set n | n in [name]) == {name} == s0.table.Keys;
    var s1 := s0.(calls := map[1 := StopEntered(name, StopRest([]))]);
    assert Step(s0, enter) == s1;
    RunFirst(s0, enter, [Advance(1, true)]);
    RunFirst(s1, Advance(1, true), []);
  }

  lemma ReachShutdownHolding(name: string)
    ensures Run(OneStarted(name),
                [Invoke(1, StopEntered(name, StopRest([]))), Advance(1, true)] + [Advance(1, true), Advance(1, true)])
         == Holding(name, 1, StopRest([]))
  {
    var go := Advance(1, true);
    var s2 := OneStarted(name).(calls := map[1 := StopFound(name, 0, StopRest([]))]);
    var s3 := OneStarted(name).(calls := map[1 := StopPassed(name, 0, StopRest([]))]);
    ReachShutdownFound(name);
    assert Step(s2, go) == s3;
    assert Step(s3, go) == Holding(name, 1, StopRest([]));
    RunFirst(s2, go, [go]);
    RunFirst(s3, go, []);
    RunConcat(OneStarted(name), [Invoke(1, StopEntered(name, StopRest([]))), go], [go, go]);
  }

  lemma ReachShutdownChecked(name: string)
    ensures Run(Holding(name, 1, StopRest([])),
                [ProcessExits(0, 0), Advance(1, true)] + [Advance(1, true), Invoke(0, StartEntered(name, 80)), GO])
         == ShutdownChecked(name)
  {
    var s0, enter := Holding(name, 1, StopRest([])), Invoke(0, StartEntered(name, 80));
    ReachExited(name, 1, StopRest([]));
    ReachClosing(name);
    ReachStartBesideClosing(name);
    var s2 := Run(s0, [ProcessExits(0, 0), Advance(1, true)]);
    RunFirst(s2, Advance(1, true), [enter, GO]);
    RunConcat(s0, [ProcessExits(0, 0), Advance(1, true)], [Advance(1, true), enter, GO]);
  }

  function ClosingBeside(name: string): State {
    OneStarted(name).(entries := [StoppedEntry(name)], calls := map[1 := Closing])
  }

  lemma ReachClosing(name: string)
    ensures Step(Holding(name, 1, StopRest([]))
                   .(entries := [NewEntry(name, 80).(alive := [false], lock := Held(1, true))]), Advance(1, true))
         == ClosingBeside(name)
  {
  }

  lemma ReachStartBesideClosing(name: string)
    ensures Run(ClosingBeside(name), [Invoke(0, StartEntered(name, 80)), GO]) == ShutdownChecked(name)
  {
    var s3, enter := ClosingBeside(name), Invoke(0, StartEntered(name, 80));
    var s4 := s3.(calls := map[1 := Closing, 0 := StartEntered(name, 80)]);
    assert Step(s3, enter) == s4;
    assert Step(s4, GO) == ShutdownChecked(name);
    RunFirst(s3, enter, [GO]);
    RunFirst(s4, GO, []);
  }

  /** From there the monitor restarts the component, Shutdown closes stopChan, and the monitor
      returns and leaves the process behind. */
  lemma LeavesBehind(name: string) returns (actions: seq<Action>)
    ensures var s := Run(ShutdownChecked(name), actions);
            && Starts(s, GO) && s.calls[0].name == name && Earlier(s, name, 0)
            && s.entries[0].pc.Returned? && Live(s, 0, 1)
  {
    var s0 := ShutdownChecked(name);
    var restart := RestartsAtOnce(s0, 0);
    var s1 := Run(s0, restart);
    var close, look := Advance(1, true), Monitor(0, FAILING);
    var s2 := Step(s1, close);
    assert s2.stopClosed && s2.entries == s1.entries;
    var s3 := Step(s2, look);
    RunFirst(s1, close, [look]);
    RunFirst(s2, look, []);
    RunConcat(s0, restart, [close, look]);
    actions := restart + [close, look];
    assert Run(s0, actions) == s3;
  }

  /** That the earlier monitor has returned is not enough: with a Shutdown beside it, the
      StartUMC ends with two live processes of the name. */
  lemma ReturnedIsNotEnough(name: string) returns (actions: seq<Action>)
    ensures var s := Run(INIT, actions);
            && Starts(s, GO) && s.calls[0].name == name && Earlier(s, name, 0) && s.entries[0].pc.Returned?
            && TwoLive(Step(s, GO), name)
  {
    var a := [Invoke(0, StartEntered(name, 80)), GO, GO];
    var b := [Invoke(1, StopEntered(name, StopRest([]))), Advance(1, true)] + [Advance(1, true), Advance(1, true)];
    var c := [ProcessExits(0, 0), Advance(1, true)] + [Advance(1, true), Invoke(0, StartEntered(name, 80)), GO];
    ReachOneStarted(name);
    ReachShutdownHolding(name);
    ReachShutdownChecked(name);
    RunConcat(INIT, a, b);
    RunConcat(INIT, a + b, c);
    var d := LeavesBehind(name);
    RunConcat(INIT, a + b + c, d);
    actions := a + b + c + d;
    InitInv();
    RunKeepsInv(INIT, actions);
    var s := Run(INIT, actions);
    TableByStarts(s, GO);
    assert Live(Step(s, GO), 0, 1) && Live(Step(s, GO), |s.entries|, 0);
  }
}
