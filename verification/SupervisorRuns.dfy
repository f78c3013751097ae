/** Whole runs of the supervisor: what its locks promise, and how it winds down once stopChan
    is closed. */
module SupervisorRuns {
  import opened Wrappers
  import opened UMCProcess
  import opened Supervisor
  import opened SupervisorSafety

  // ---------------------------------------------------------------- what a caller's step can do

  predicate SameProcesses(e: Entry, e': Entry) {
    && e'.pc == e.pc && e'.alive == e.alive
    && e'.fields.name == e.fields.name && e'.fields.policy == e.fields.policy
  }

  /** A caller's step leaves monitors and processes alone, and only a StartUMC past its
      check changes the table or adds a record. */
  lemma CallerSteps(s: State, t: nat, ok: bool)
    requires t in s.calls
    ensures var s' := AdvanceCall(s, t, ok);
            && (s.stopClosed ==> s'.stopClosed)
            && |s.entries| <= |s'.entries|
            && (forall r :: 0 <= r < |s.entries| ==> SameProcesses(s.entries[r], s'.entries[r]))
            && (!s.calls[t].StartChecked? ==> s'.table == s.table && |s'.entries| == |s.entries|)
  {
    match s.calls[t]
    case StopHolding(name, q, after) =>
      if q < |s.entries| {
        AfterStopTouchesNothing(s.(entries := s.entries[q := s.entries[q].(
          lock := Free, fields := MarkStopped(s.entries[q].fields))]), t, name, after, true);
      }
    case StartChecked(_, _) =>
    case StopPassed(_, _, _) =>
    case _ => OtherCallStepsTouchNothing(s, t, ok);
  }

  // ---------------------------------------------------------------- shutdown

  /** Steps a monitor can still take of its own once stopChan is closed. */
  function Rank(pc: Pc): nat {
    match pc
    case Returned => 0
    case LoopHead => 1
    case Noted(_, _) => 1
    case Exited(_) => 2
    case Spawned(_) => 2
    case Waiting => 3
    case Respawning => 3
    case BackingOff(_) => 4
    case Deciding => 5
  }

  /** Processes a monitor can still start once stopChan is closed. */
  function Budget(pc: Pc): nat {
    if pc.Deciding? || pc.BackingOff? || pc.Respawning? then 1 else 0
  }

  predicate Moves(s: State, a: Action, r: nat) {
    && a.Monitor? && a.entry == r && r < |s.entries|
    && MonitorStep(s.entries[r], s.stopClosed, s.clock, a.choice) != s.entries[r]
  }

  function OwnSteps(s: State, actions: seq<Action>, r: nat): nat
    decreases |actions|
  {
    if actions == [] then 0
    else (if Moves(s, actions[0], r) then 1 else 0) + OwnSteps(Step(s, actions[0]), actions[1..], r)
  }

  /** With stopChan closed a monitor is held up only by a process that is still alive or by
      a StopUMC that holds the record's lock. */
  lemma HeldUpExactly(e: Entry, clock: nat, c: Choice)
    requires ProcessInv(e)
    ensures MonitorStep(e, true, clock, c) == e
        <==> || e.pc.Returned?
             || (e.pc.Waiting? && e.alive[e.fields.command])
             || ((e.pc.Exited? || e.pc.Deciding? || e.pc.Spawned?) && e.lock.Held?)
  {
  }

  lemma EachStepCounts(s: State, a: Action, r: nat)
    requires r < |s.entries| && s.stopClosed
    ensures var s' := Step(s, a);
            && r < |s'.entries| && s'.stopClosed
            && Rank(s'.entries[r].pc) + (if Moves(s, a, r) then 1 else 0) <= Rank(s.entries[r].pc)
            && |s'.entries[r].alive| + Budget(s'.entries[r].pc) <= |s.entries[r].alive| + Budget(s.entries[r].pc)
  {
    if a.Advance? && a.thread in s.calls {
      CallerSteps(s, a.thread, a.ok);
      assert SameProcesses(s.entries[r], Step(s, a).entries[r]);
    }
  }

  /** Once stopChan is closed, a monitor takes at most five more steps of its own and starts
      at most one more process, whatever else happens. */
  lemma {:induction false} WindsDown(s: State, actions: seq<Action>, r: nat)
    requires r < |s.entries| && s.stopClosed
    ensures var s' := Run(s, actions);
            && r < |s'.entries|
            && OwnSteps(s, actions, r) + Rank(s'.entries[r].pc) <= Rank(s.entries[r].pc) <= 5
            && |s'.entries[r].alive| <= |s.entries[r].alive| + Budget(s.entries[r].pc) - Budget(s'.entries[r].pc)
    decreases |actions|
  {
    if actions != [] {
      EachStepCounts(s, actions[0], r);
      WindsDown(Step(s, actions[0]), actions[1..], r);
    }
  }

  // ---------------------------------------------------------------- the locks

  /** A step of one call leaves the others where they are; it gets past the check only by
      taking the free lock over a record, if any, that is not Running. */
  lemma CheckedCalls(s: State, u: nat, ok: bool, t: nat)
    requires u in s.calls && (s.calls[u].StartChecked? ==> s.lock == Some(u))
    ensures var s' := AdvanceCall(s, u, ok);
            && (t != u ==> (t in s'.calls <==> t in s.calls) && (t in s.calls ==> s'.calls[t] == s.calls[t]))
            && (u in s'.calls && s'.calls[u].StartChecked? ==>
                  && s'.lock == Some(u) && s'.table == s.table && s'.entries == s.entries
                  && (s.calls[u].StartChecked? ==> s' == s)
                  && (!s.calls[u].StartChecked? ==>
                        var name := s'.calls[u].name;
                        && s.calls[u].StartEntered? && s.lock.None? && s.calls[u].name == name
                        && (name in s.table && s.table[name] < |s.entries| ==>
                              !s.entries[s.table[name]].fields.running)))
            && (s.lock.Some? && s.lock != Some(u) ==> s'.lock == s.lock)
  {
    match s.calls[u]
    case StopEntered(_, _) =>
    case StopFound(_, _, _) =>
    case StopHolding(_, _, _) =>
    case _ =>
  }

  /** A record's lock is held by a StopUMC of that record, and the supervisor's lock by the
      StartUMC that is past its check. */
  ghost predicate LockInv(s: State) {
    && (forall r: nat :: r < |s.entries| && s.entries[r].lock.Held? ==> HeldByStop(s, s.entries[r].lock.thread, r))
    && (forall t :: t in s.calls && s.calls[t].StartChecked? ==> s.lock == Some(t))
  }

  predicate HeldByStop(s: State, t: nat, r: nat) {
    t in s.calls && s.calls[t].StopHolding? && s.calls[t].entry == r
  }

  lemma CallsElsewhere(s: State, a: Action)
    requires !a.Advance?
    ensures var s' := Step(s, a);
            && s'.lock == s.lock && |s'.entries| == |s.entries|
            && (forall r :: 0 <= r < |s.entries| ==> s'.entries[r].lock == s.entries[r].lock)
            && (forall t :: t in s.calls ==> t in s'.calls && s'.calls[t] == s.calls[t])
            && (forall t :: t in s'.calls && t !in s.calls ==> !s'.calls[t].StartChecked?)
  {
  }

  /** A step of a call changes a record's lock only to take it free, or to keep or give back
      what the call holds. */
  lemma LocksByCalls(s: State, u: nat, ok: bool, r: nat)
    requires u in s.calls && r < |s.entries| && LockInv(s)
    ensures var s' := AdvanceCall(s, u, ok);
            && r < |s'.entries|
            && (s'.entries[r].lock.Held? && s'.entries[r].lock.thread == u ==> HeldByStop(s', u, r))
            && (s'.entries[r].lock.Held? && s'.entries[r].lock.thread != u ==> s'.entries[r].lock == s.entries[r].lock)
  {
    match s.calls[u]
    case StopHolding(name, q, after) =>
      if q < |s.entries| {
        AfterStopTouchesNothing(s.(entries := s.entries[q := s.entries[q].(
          lock := Free, fields := MarkStopped(s.entries[q].fields))]), u, name, after, true);
      }
    case StartChecked(_, _) =>
    case StopPassed(_, _, _) =>
    case _ => OtherCallStepsTouchNothing(s, u, ok);
  }

  lemma StepKeepsLockInv(s: State, a: Action)
    requires LockInv(s)
    ensures LockInv(Step(s, a))
  {
    var s' := Step(s, a);
    if a.Advance? && a.thread in s.calls {
      forall t | t in s'.calls && s'.calls[t].StartChecked? ensures s'.lock == Some(t) {
        CheckedCalls(s, a.thread, a.ok, t);
      }
      forall r: nat | r < |s'.entries| && s'.entries[r].lock.Held?
        ensures HeldByStop(s', s'.entries[r].lock.thread, r)
      {
        if r < |s.entries| {
          LocksByCalls(s, a.thread, a.ok, r);
          CheckedCalls(s, a.thread, a.ok, s'.entries[r].lock.thread);
        }
      }
    } else if !a.Advance? {
      CallsElsewhere(s, a);
    }
  }

  /** In every run StopUMC alone holds records' locks, and at most one StartUMC is past its
      check, holding the supervisor's. */
  lemma {:induction false} RunKeepsLockInv(s: State, actions: seq<Action>)
    requires LockInv(s)
    ensures LockInv(Run(s, actions))
    decreases |actions|
  {
    if actions != [] {
      StepKeepsLockInv(s, actions[0]);
      RunKeepsLockInv(Step(s, actions[0]), actions[1..]);
    }
  }

  lemma {:induction false} RunConcat(s: State, a: seq<Action>, b: seq<Action>)
    ensures Run(s, a + b) == Run(Run(s, a), b)
    decreases |a|
  {
    if a == [] {
      assert a + b == b;
    } else {
      assert (a + b)[1..] == a[1..] + b;
      RunConcat(Step(s, a[0]), a[1..], b);
    }
  }

  lemma RunFirst(s: State, a: Action, rest: seq<Action>)
    ensures Run(s, [a] + rest) == Run(Step(s, a), rest)
  {
    assert ([a] + rest)[1..] == rest;
  }

  // ---------------------------------------------------------------- what calls do next

  /** RestartUMC goes on to StartUMC only from a StopUMC that held the record's lock until the
      process was gone, with the record's port; the record is then marked. */
  lemma RestartStartsAfterStop(s: State, t: nat, ok: bool)
    requires t in s.calls && !s.calls[t].StartEntered?
    requires var s' := AdvanceCall(s, t, ok); t in s'.calls && s'.calls[t].StartEntered?
    ensures var s', call := AdvanceCall(s, t, ok), s.calls[t];
            && call.StopHolding? && call.after == StartAgain(s'.calls[t].port) && call.name == s'.calls[t].name
            && call.entry < |s.entries| && s.entries[call.entry].lock == Held(t, true)
            && s'.entries[call.entry].lock.Free? && !s'.entries[call.entry].fields.running
  {
    match s.calls[t]
    case StopEntered(_, after) =>
    case StopFound(_, _, after) =>
    case StopHolding(_, _, after) =>
    case _ =>
  }

  /** RestartUMC stops the component and remembers its port if it is Running, and gives up
      otherwise; StopUMC takes the record's lock only if it is. */
  lemma StopsOnlyRunning(s: State, t: nat, ok: bool)
    requires t in s.calls
    ensures var s' := AdvanceCall(s, t, ok);
            match s.calls[t]
            case RestartFound(name, r) =>
              if r < |s.entries| && s.entries[r].fields.running
              then t in s'.calls && s'.calls[t] == StopEntered(name, StartAgain(s.entries[r].fields.port))
              else t !in s'.calls
            case StopFound(name, r, after) =>
              t in s'.calls && s'.calls[t].StopPassed? ==> r < |s.entries| && s.entries[r].fields.running
            case StopEntered(name, after) =>
              t in s'.calls && s'.calls[t].StopFound? ==>
                name in s.table && s'.calls[t] == StopFound(name, s.table[name], after)
            case _ => true
  {
  }

  /** A StartUMC past its check ends there and gives the supervisor's lock back, with a new
      record and its monitor if the process started and with nothing changed if it did not. */
  lemma StartLetsGo(s: State, t: nat, ok: bool)
    requires t in s.calls && s.calls[t].StartChecked? && s.lock == Some(t)
    ensures var s', call := AdvanceCall(s, t, ok), s.calls[t];
            && s'.lock.None? && s'.calls == s.calls - {t} && s'.stopClosed == s.stopClosed && s'.clock == s.clock
            && (ok ==> s'.entries == s.entries + [NewEntry(call.name, call.port)]
                       && s'.table == s.table[call.name := |s.entries|] && s'.waitGroup == s.waitGroup + 1)
            && (!ok ==> s'.entries == s.entries && s'.table == s.table && s'.waitGroup == s.waitGroup)
  {
  }

  /** The names that a Shutdown has not begun to stop. */
  function ToStop(call: Call): Option<seq<string>> {
    match call
    case StopEntered(_, StopRest(names)) => Some(names)
    case StopFound(_, _, StopRest(names)) => Some(names)
    case StopPassed(_, _, StopRest(names)) => Some(names)
    case StopHolding(_, _, StopRest(names)) => Some(names)
    case _ => None
  }

  /** Shutdown stops one name after the other, each whatever became of the one before, and goes
      on to close stopChan exactly after the last; nothing else closes it. */
  lemma ShutdownGoesThrough(s: State, t: nat, ok: bool)
    requires t in s.calls
    ensures var s' := AdvanceCall(s, t, ok);
            && (s'.stopClosed != s.stopClosed ==> s.calls[t].Closing?)
            && (ToStop(s.calls[t]).Some? ==>
                  var names := ToStop(s.calls[t]).value;
                  && t in s'.calls
                  && (|| ToStop(s'.calls[t]) == Some(names)
                      || (names == [] && s'.calls[t] == Closing)
                      || (names != [] && s'.calls[t] == StopEntered(names[0], StopRest(names[1..])))))
  {
    match s.calls[t]
    case StopEntered(_, after) =>
    case StopFound(_, _, after) =>
    case StopHolding(_, _, after) =>
    case _ =>
  }

  /** What a caller may enter with: StartUMC with a port in range, and Shutdown with all the names
      of the table, each once. */
  lemma EntersExactly(s: State, name: string, port: int, names: seq<string>)
    ensures MayEnter(s, StartEntered(name, port)) <==> 1 <= port <= 65535
    ensures MayEnter(s, StopEntered(name, StopRest(names))) ==>
              && (forall n :: n in s.table <==> n in [name] + names)
              && forall i, j :: 0 <= i < j < |names| + 1 ==> ([name] + names)[i] != ([name] + names)[j]
  {
    var all := [name] + names;
    if MayEnter(s, StopEntered(name, StopRest(names))) {
      assert (set n | n in all) == s.table.Keys;
      forall i, j | 0 <= i < j < |all| ensures all[i] != all[j] {
        if all[i] == all[j] {
          FewerThanListed(all, i, j);
        }
      }
    }
  }

  lemma {:induction false} AtMostListed(all: seq<string>)
    ensures |set n | n in all| <= |all|
    decreases |all|
  {
    if all == [] {
      assert (set n | n in all) == {};
    } else {
      var last := |all| - 1;
      AtMostListed(all[..last]);
      assert (set n | n in all) == (set n | n in all[..last]) + {all[last]};
    }
  }

  lemma FewerThanListed(all: seq<string>, i: nat, j: nat)
    requires i < j < |all| && all[i] == all[j]
    ensures |set n | n in all| < |all|
  {
    var rest := all[..j] + all[j + 1..];
    AtMostListed(rest);
    assert rest[i] == all[i];
    forall n ensures n in all <==> n in rest {
      if k :| 0 <= k < |all| && all[k] == n {
        assert if k < j then rest[k] == n else if k > j then rest[k - 1] == n else rest[i] == n;
      }
    }
    assert (set n | n in all) == (set n | n in rest);
  }
}
