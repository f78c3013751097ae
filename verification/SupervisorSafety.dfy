/** What every interleaving of the supervisor keeps. */
module SupervisorSafety {
  import opened Basics
  import opened Wrappers
  import opened UMCProcess
  import opened Supervisor

  // ---------------------------------------------------------------- the invariant of one record

  /** The one process of a record that can be alive: the one just started, or its Command. */
  function Current(e: Entry): nat {
    if e.pc.Spawned? then e.pc.process else e.fields.command
  }

  /** The monitor is between the return of Wait and the next start. */
  predicate BetweenProcesses(pc: Pc) {
    pc.Exited? || pc.Noted? || pc.Deciding? || pc.BackingOff? || pc.Respawning?
  }

  predicate ClearedRunning(pc: Pc) {
    pc.Noted? || pc.Deciding? || pc.BackingOff? || pc.Respawning? || pc.Spawned?
  }

  /** Processes of a record against its fields, its monitor's position and its lock. */
  ghost predicate ProcessInv(e: Entry) {
    && e.fields.command < |e.alive|
    && (forall i :: 0 <= i < |e.alive| && e.alive[i] ==> i == Current(e))
    && (BetweenProcesses(e.pc) ==> !e.alive[e.fields.command])
    && (e.pc.Spawned? ==> e.pc.process == |e.alive| - 1 && e.fields.command < e.pc.process)
    && (ClearedRunning(e.pc) ==> !e.fields.running)
    && (!e.fields.running ==> !e.alive[e.fields.command])
    && (e.lock.Held? && e.lock.waited ==> !e.alive[e.fields.command])
  }

  /** Restart decisions the record has taken but not yet, or never, carried out. */
  predicate OwesRespawn(pc: Pc) {
    pc.BackingOff? || pc.Respawning?
  }

  /** The record's bookkeeping against its history and the clock. */
  ghost predicate HistoryInv(e: Entry, now: nat) {
    var h := e.history;
    && Explains(h, e.fields)
    && |e.alive| >= 1
    && (OwesRespawn(e.pc) ==> |h| == |e.alive|)
    && (!OwesRespawn(e.pc) && !e.pc.Returned? ==> |h| == |e.alive| - 1)
    && (e.pc.Returned? ==> |e.alive| - 1 <= |h| <= |e.alive|)
    && (e.pc.BackingOff? ==> h != [] && e.pc.wakeAt == h[|h| - 1].at + h[|h| - 1].delay)
    && (h != [] && !e.pc.BackingOff? && !e.pc.Returned? ==> h[|h| - 1].at + h[|h| - 1].delay <= now)
  }

  lemma MonitorKeepsProcessInv(e: Entry, stopClosed: bool, clock: nat, c: Choice)
    requires ProcessInv(e)
    ensures ProcessInv(MonitorStep(e, stopClosed, clock, c))
  {
  }

  lemma DecidingKeepsHistoryInv(e: Entry, stopClosed: bool, clock: nat, c: Choice)
    requires HistoryInv(e, clock) && e.pc.Deciding? && e.lock.Free?
    ensures HistoryInv(MonitorStep(e, stopClosed, clock, c), clock + MonitorTime(e, c))
  {
    DecideFollowsClosedForm(e.history, e.fields, clock, clock + c.between);
  }

  lemma MonitorKeepsHistoryInv(e: Entry, stopClosed: bool, clock: nat, c: Choice)
    requires HistoryInv(e, clock)
    ensures HistoryInv(MonitorStep(e, stopClosed, clock, c), clock + MonitorTime(e, c))
  {
    if e.pc.Deciding? && e.lock.Free? {
      DecidingKeepsHistoryInv(e, stopClosed, clock, c);
    }
  }

  // ---------------------------------------------------------------- the invariant of the whole supervisor

  function ReturnedCount(e: Entry): nat {
    if e.pc.Returned? then 1 else 0
  }

  /** Monitors that have not returned. */
  function Active(entries: seq<Entry>): nat {
    if entries == [] then 0
    else Active(entries[..|entries| - 1]) + (if entries[|entries| - 1].pc.Returned? then 0 else 1)
  }

  ghost predicate Inv(s: State) {
    && (forall r :: 0 <= r < |s.entries| ==> ProcessInv(s.entries[r]) && HistoryInv(s.entries[r], s.clock))
    && (forall n :: n in s.table ==> s.table[n] < |s.entries| && s.entries[s.table[n]].fields.name == n)
    && s.waitGroup == Active(s.entries)
  }

  lemma {:induction false} ActiveUpdate(entries: seq<Entry>, r: nat, e: Entry)
    requires r < |entries|
    ensures Active(entries[r := e])
         == Active(entries) + (if entries[r].pc.Returned? then 1 else 0) - (if e.pc.Returned? then 1 else 0)
  {
    var n := |entries| - 1;
    if r < n {
      ActiveUpdate(entries[..n], r, e);
      assert entries[r := e][..n] == entries[..n][r := e];
    } else {
      assert entries[r := e][..n] == entries[..n];
    }
  }

  /** The steps of one record other than its monitor's. */
  lemma CallerStepsKeepEntry(e: Entry, now: nat, t: nat, policy: Policy, p: nat)
    requires ProcessInv(e) && HistoryInv(e, now)
    ensures var e' := e.(fields := e.fields.(policy := policy)); ProcessInv(e') && HistoryInv(e', now)
    ensures e.lock.Free? ==> ProcessInv(e.(lock := Held(t, false))) && HistoryInv(e.(lock := Held(t, false)), now)
    ensures CommandExited(e) ==> ProcessInv(e.(lock := Held(t, true))) && HistoryInv(e.(lock := Held(t, true)), now)
    ensures e.lock == Held(t, true) ==>
              var e' := e.(lock := Free, fields := MarkStopped(e.fields)); ProcessInv(e') && HistoryInv(e', now)
    ensures p < |e.alive| ==>
              var e' := e.(alive := e.alive[p := false]); ProcessInv(e') && HistoryInv(e', now)
  {
  }

  lemma EntryInvLater(e: Entry, now: nat, later: nat)
    requires HistoryInv(e, now) && now <= later
    ensures HistoryInv(e, later)
  {
  }

  /** A step that changes one record keeps the whole invariant when it keeps that record's. */
  lemma UpdateKeepsInv(s: State, s': State, r: nat, e: Entry)
    requires Inv(s) && r < |s.entries|
    requires s'.entries == s.entries[r := e] && s'.table == s.table && s.clock <= s'.clock
    requires ProcessInv(e) && HistoryInv(e, s'.clock) && e.fields.name == s.entries[r].fields.name
    requires s'.waitGroup == s.waitGroup + ReturnedCount(s.entries[r]) - ReturnedCount(e)
    ensures Inv(s')
  {
    forall q | 0 <= q < |s'.entries|
      ensures ProcessInv(s'.entries[q]) && HistoryInv(s'.entries[q], s'.clock)
    {
      if q != r {
        EntryInvLater(s.entries[q], s.clock, s'.clock);
      }
    }
    ActiveUpdate(s.entries, r, e);
  }

  lemma SameEntriesKeepInv(s: State, s': State)
    requires Inv(s)
    requires s'.entries == s.entries && s'.table == s.table && s'.waitGroup == s.waitGroup && s.clock <= s'.clock
    ensures Inv(s')
  {
    forall q | 0 <= q < |s'.entries|
      ensures ProcessInv(s'.entries[q]) && HistoryInv(s'.entries[q], s'.clock)
    {
      EntryInvLater(s.entries[q], s.clock, s'.clock);
    }
  }

  lemma NewEntryKeepsInv(s: State, s': State, name: string, port: int)
    requires Inv(s)
    requires s'.entries == s.entries + [NewEntry(name, port)] && s'.table == s.table[name := |s.entries|]
    requires s'.waitGroup == s.waitGroup + 1 && s'.clock == s.clock
    ensures Inv(s')
  {
    assert s'.entries[..|s.entries|] == s.entries;
    assert Explains([], Started(name, port));
  }

  /** A record change by a caller or by the operating system, with its calls and locks. */
  lemma EntryStepKeepsInv(s: State, s': State, r: nat, e: Entry)
    requires Inv(s) && r < |s.entries|
    requires s'.entries == s.entries[r := e] && s'.table == s.table && s.clock == s'.clock
    requires s'.waitGroup == s.waitGroup && e.pc == s.entries[r].pc
    requires ProcessInv(e) && HistoryInv(e, s.clock) && e.fields.name == s.entries[r].fields.name
    ensures Inv(s')
  {
    UpdateKeepsInv(s, s', r, e);
  }

  lemma MonitorActionShape(s: State, r: nat, c: Choice)
    requires r < |s.entries|
    ensures var s', e := Step(s, Monitor(r, c)), MonitorStep(s.entries[r], s.stopClosed, s.clock, c);
            && s'.entries == s.entries[r := e] && s'.table == s.table
            && s'.clock == s.clock + MonitorTime(s.entries[r], c)
            && s'.waitGroup == s.waitGroup + ReturnedCount(s.entries[r]) - ReturnedCount(e)
            && e.fields.name == s.entries[r].fields.name
  {
  }

  lemma MonitorActionKeepsInv(s: State, r: nat, c: Choice)
    requires Inv(s) && r < |s.entries|
    ensures Inv(Step(s, Monitor(r, c)))
  {
    MonitorKeepsProcessInv(s.entries[r], s.stopClosed, s.clock, c);
    MonitorKeepsHistoryInv(s.entries[r], s.stopClosed, s.clock, c);
    MonitorActionShape(s, r, c);
    UpdateKeepsInv(s, Step(s, Monitor(r, c)), r, MonitorStep(s.entries[r], s.stopClosed, s.clock, c));
  }

  lemma EnvironmentKeepsInv(s: State, a: Action)
    requires Inv(s) && !a.Monitor? && !a.Advance?
    ensures Inv(Step(s, a))
  {
    match a
    case SetPolicy(name, policy) =>
      if s.lock.None? && name in s.table {
        var e := s.entries[s.table[name]];
        CallerStepsKeepEntry(e, s.clock, 0, policy, 0);
        EntryStepKeepsInv(s, Step(s, a), s.table[name], e.(fields := e.fields.(policy := policy)));
      }
    case ProcessExits(r, p) =>
      if r < |s.entries| && p < |s.entries[r].alive| {
        var e := s.entries[r];
        CallerStepsKeepEntry(e, s.clock, 0, Always, p);
        EntryStepKeepsInv(s, Step(s, a), r, e.(alive := e.alive[p := false]));
      }
    case _ =>
      SameEntriesKeepInv(s, Step(s, a));
  }

  lemma StopLocksKeepInv(s: State, t: nat, ok: bool)
    requires Inv(s) && t in s.calls && s.calls[t].StopPassed?
    ensures Inv(AdvanceCall(s, t, ok))
  {
    var r := s.calls[t].entry;
    if r < |s.entries| && s.entries[r].lock.Free? {
      var e := s.entries[r];
      CallerStepsKeepEntry(e, s.clock, t, Always, 0);
      EntryStepKeepsInv(s, AdvanceCall(s, t, ok), r, e.(lock := Held(t, false)));
    }
  }

  lemma AfterStopTouchesNothing(s: State, t: nat, name: string, after: After, ok: bool)
    ensures var s' := AfterStop(s, t, name, after, ok);
            s'.entries == s.entries && s'.table == s.table && s'.waitGroup == s.waitGroup && s'.clock == s.clock
  {
  }

  lemma StopFinishesKeepInv(s: State, t: nat, ok: bool)
    requires Inv(s) && t in s.calls && s.calls[t].StopHolding?
    ensures Inv(AdvanceCall(s, t, ok))
  {
    var StopHolding(name, r, after) := s.calls[t];
    if r < |s.entries| {
      var e := s.entries[r];
      CallerStepsKeepEntry(e, s.clock, t, Always, 0);
      if e.lock == Held(t, false) && CommandExited(e) {
        EntryStepKeepsInv(s, AdvanceCall(s, t, ok), r, e.(lock := Held(t, true)));
      } else if e.lock == Held(t, true) {
        var e' := e.(lock := Free, fields := MarkStopped(e.fields));
        AfterStopTouchesNothing(s.(entries := s.entries[r := e']), t, name, after, true);
        EntryStepKeepsInv(s, AdvanceCall(s, t, ok), r, e');
      }
    }
  }

  lemma StartKeepsInv(s: State, t: nat, ok: bool)
    requires Inv(s) && t in s.calls && s.calls[t].StartChecked?
    ensures Inv(AdvanceCall(s, t, ok))
  {
    var s' := AdvanceCall(s, t, ok);
    if s.lock == Some(t) && ok {
      NewEntryKeepsInv(s, s', s.calls[t].name, s.calls[t].port);
    } else {
      SameEntriesKeepInv(s, s');
    }
  }

  predicate Touches(call: Call) {
    call.StartChecked? || call.StopPassed? || call.StopHolding?
  }

  /** The other steps of a call only move the call itself. */
  lemma OtherCallStepsTouchNothing(s: State, t: nat, ok: bool)
    requires t in s.calls && !Touches(s.calls[t])
    ensures var s' := AdvanceCall(s, t, ok);
            s'.entries == s.entries && s'.table == s.table && s'.waitGroup == s.waitGroup && s'.clock == s.clock
  {
    match s.calls[t]
    case StartEntered(_, _) =>
    case StopEntered(_, _) =>
    case StopFound(_, _, _) =>
    case _ =>
  }

  lemma StepKeepsInv(s: State, a: Action)
    requires Inv(s)
    ensures Inv(Step(s, a))
  {
    match a
    case Monitor(r, c) =>
      if r < |s.entries| {
        MonitorActionKeepsInv(s, r, c);
      }
    case Advance(t, ok) =>
      if t in s.calls {
        match s.calls[t]
        case StartChecked(_, _) => StartKeepsInv(s, t, ok);
        case StopPassed(_, _, _) => StopLocksKeepInv(s, t, ok);
        case StopHolding(_, _, _) => StopFinishesKeepInv(s, t, ok);
        case _ =>
          OtherCallStepsTouchNothing(s, t, ok);
          SameEntriesKeepInv(s, AdvanceCall(s, t, ok));
      }
    case _ =>
      EnvironmentKeepsInv(s, a);
  }

  lemma {:induction false} RunKeepsInv(s: State, actions: seq<Action>)
    requires Inv(s)
    ensures Inv(Run(s, actions))
    decreases |actions|
  {
    if actions != [] {
      StepKeepsInv(s, actions[0]);
      RunKeepsInv(Step(s, actions[0]), actions[1..]);
    }
  }

  // ---------------------------------------------------------------- what holds after every run

  /** At most one live process per record, and a record that is not Running holds a Command
      whose process has exited. */
  lemma AtMostOneProcessPerRecord(actions: seq<Action>, r: nat, i: nat, j: nat)
    requires r < |Run(INIT, actions).entries|
    ensures var e := Run(INIT, actions).entries[r];
            && (i < |e.alive| && e.alive[i] && j < |e.alive| && e.alive[j] ==> i == j)
            && e.fields.command < |e.alive|
            && (!e.fields.running ==> !e.alive[e.fields.command])
  {
    RunKeepsInv(INIT, actions);
  }

  /** The WaitGroup counts the monitors still in their loop, and RestartCount exceeds the
      number of successful respawns by nothing or by one. */
  lemma Accounting(actions: seq<Action>, r: nat)
    ensures var s := Run(INIT, actions);
            && s.waitGroup == Active(s.entries)
            && (r < |s.entries| ==>
                  0 <= s.entries[r].fields.restartCount - (|s.entries[r].alive| - 1) <= 1)
  {
    RunKeepsInv(INIT, actions);
  }

  /** In every run the backoff of every record is min(60, 2^j) after j decisions since its
      creation or last reset, delays are as advertised, and restarts keep to their rate. */
  lemma BackoffInEveryRun(actions: seq<Action>, r: nat, a: nat, n: nat)
    requires r < |Run(INIT, actions).entries|
    requires a + n < |Run(INIT, actions).entries[r].history|
    ensures var e := Run(INIT, actions).entries[r];
            var h := e.history;
            && e.fields.backoffSeconds == Min(60, Pow2(SinceReset(h)))
            && h[a].delay == (if h[a].reset then SECOND else Min(60, Pow2(SinceReset(h[..a + 1]) - 1)) * SECOND)
            && (h[a].reset ==> a > 0 && h[a].at - (h[a - 1].at + h[a - 1].delay) > 240 * SECOND)
            && h[a + n].at - h[a].at >= (45 * n - 251) * SECOND
            && h[n].at - h[0].at >= (45 * n - 207) * SECOND
  {
    RunKeepsInv(INIT, actions);
    var h := Run(INIT, actions).entries[r].history;
    BackoffClosedForm(h, a);
    RestartRateBound(h, a, n);
    RestartRateBound(h, 0, n);
  }
}
