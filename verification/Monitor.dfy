/** monitorUMC as the loop it is, and the supervisor as the object that owns the records: what
    one goroutine does when no other interferes (internal/supervisor/supervisor.go:121-234,
    316-356, 530-643). */
module Monitor {
  import opened Wrappers
  import opened UMCProcess
  import opened Supervisor
  import opened SupervisorSafety

  // ---------------------------------------------------------------- the loop

  /** What the environment decides in one pass of the loop: whether stopChan is closed at each
      look, how the process ended, the two clock readings, whether the select takes the timer
      when both cases are ready and how late it does, and whether the replacement starts. */
  datatype Pass = Pass(stopAtHead: bool, exit: Exit, stopAfterExit: bool, sinceRead: nat, between: nat,
                       stopInSelect: bool, timer: bool, late: nat, startOk: bool)

  function Choose(p: Pass): Choice {
    Choice(p.exit, p.between, p.timer, p.startOk)
  }

  function Gone(e: Entry): Entry {
    if e.fields.command < |e.alive| then e.(alive := e.alive[e.fields.command := false]) else e
  }

  /** The clock when the select is over. */
  function Woken(e: Entry, p: Pass): nat {
    if e.pc.BackingOff? && e.pc.wakeAt > 0 then e.pc.wakeAt + p.late else p.late
  }

  /** One pass in steps of the state machine, up to the policy, up to the select, and up to the
      loop head; a monitor that has returned stays so. */
  function ToPolicy(e: Entry, p: Pass): Entry {
    var head := MonitorStep(e, p.stopAtHead, p.sinceRead, Choose(p));
    var waited := MonitorStep(if head.pc.Waiting? then Gone(head) else head, false, p.sinceRead, Choose(p));
    MonitorStep(waited, false, p.sinceRead, Choose(p))
  }

  function ToSelect(e: Entry, p: Pass): Entry {
    MonitorStep(MonitorStep(e, p.stopAfterExit, p.sinceRead, Choose(p)), false, p.sinceRead, Choose(p))
  }

  function ToHead(e: Entry, p: Pass): Entry {
    var selected := MonitorStep(e, p.stopInSelect, Woken(e, p), Choose(p));
    MonitorStep(MonitorStep(selected, false, Woken(e, p), Choose(p)), false, Woken(e, p), Choose(p))
  }

  function OnePass(e: Entry, p: Pass): Entry {
    ToHead(ToSelect(ToPolicy(e, p), p), p)
  }

  function Passes(e: Entry, passes: seq<Pass>): Entry {
    if passes == [] then e else OnePass(Passes(e, passes[..|passes| - 1]), passes[|passes| - 1])
  }

  lemma PassesMore(e: Entry, passes: seq<Pass>, i: nat)
    requires i < |passes|
    ensures Passes(e, passes[..i + 1]) == OnePass(Passes(e, passes[..i]), passes[i])
  {
    assert passes[..i + 1][..i] == passes[..i];
  }

  /** The record's fields agree, and its lock is free. */
  ghost predicate Tracks(rec: Record, e: Entry, spawned: nat)
    reads rec
  {
    e.fields == rec.View() && e.lock.Free? && e.fields.command < |e.alive| == spawned
  }

  /** The first half of the loop's body, up to the policy just read. */
  method NoteAndRead(rec: Record, p: Pass, spawned: nat, ghost e: Entry)
    returns (restartPolicy: Policy, ghost e': Entry)
    requires Tracks(rec, e, spawned) && e.pc.LoopHead? && !p.stopAtHead
    modifies rec
    ensures Tracks(rec, e', spawned) && e' == ToPolicy(e, p) && e'.pc == Noted(p.exit, restartPolicy)
  {
    restartPolicy := rec.NoteExit();
    e' := Gone(e).(pc := Noted(p.exit, restartPolicy), fields := rec.View());
  }

  /** The second half: the bookkeeping, the select and the new process. */
  method Restart(rec: Record, p: Pass, spawned: nat, ghost e: Entry) returns (go: bool, spawned': nat, ghost e': Entry)
    requires Tracks(rec, e, spawned) && e.pc.Noted? && !p.stopAfterExit && ShouldRestart(e.pc.policy, e.pc.exit)
    modifies rec
    ensures Tracks(rec, e', spawned') && e' == ToHead(ToSelect(e, p), p)
    ensures if go then e'.pc.LoopHead? else e'.pc.Returned?
  {
    var d := rec.DecideRestart(p.sinceRead, p.sinceRead + p.between);
    ghost var waiting := e.(pc := BackingOff(d.at + d.delay), fields := rec.View(), history := e.history + [d]);
    assert ToSelect(e, p) == waiting;
    if p.stopInSelect && !p.timer {
      return false, spawned, waiting.(pc := Returned);
    }
    if !p.startOk {
      return false, spawned, waiting.(pc := Returned);
    }
    rec.InstallCommand(spawned);
    return true, spawned + 1, waiting.(pc := LoopHead, fields := rec.View(), alive := waiting.alive + [true]);
  }

  lemma ReturnedStays(e: Entry, p: Pass)
    ensures e.pc.Returned? ==> ToPolicy(e, p) == ToSelect(e, p) == ToHead(e, p) == e
    ensures p.stopAtHead && e.pc.LoopHead? ==> ToPolicy(e, p) == e.(pc := Returned)
    ensures e.pc.Noted? && (p.stopAfterExit || !ShouldRestart(e.pc.policy, e.pc.exit)) ==>
              ToSelect(e, p) == e.(pc := Returned)
  {
  }

  /** The body of monitorUMC's loop takes the steps of the state machine; `spawned` counts the
      record's processes and numbers a new one. */
  method MonitorPass(rec: Record, p: Pass, spawned: nat, ghost e: Entry)
    returns (go: bool, spawned': nat, ghost e': Entry)
    requires Tracks(rec, e, spawned) && e.pc.LoopHead?
    modifies rec
    ensures Tracks(rec, e', spawned') && e' == OnePass(e, p)
    ensures if go then e'.pc.LoopHead? else e'.pc.Returned?
  {
    ReturnedStays(e, p);
    if p.stopAtHead {
      e' := e.(pc := Returned);
      ReturnedStays(e', p);
      return false, spawned, e';
    }
    var restartPolicy;
    restartPolicy, e' := NoteAndRead(rec, p, spawned, e);
    var shouldRestart := false;
    match restartPolicy {
      case Always => shouldRestart := true;
      case OnFailure => shouldRestart := ExitCode(p.exit) != 0;
      case Never => shouldRestart := false;
      case Unknown(_) => {}
    }
    if p.stopAfterExit || !shouldRestart {
      ReturnedStays(e', p);
      e' := e'.(pc := Returned);
      ReturnedStays(e', p);
      return false, spawned, e';
    }
    go, spawned', e' := Restart(rec, p, spawned, e');
  }

  /** monitorUMC, for as many passes as are given: it returns within them, or is at the loop
      head after all of them. */
  method MonitorUMC(rec: Record, passes: seq<Pass>, spawned: nat, ghost e: Entry)
    returns (returned: bool, spawned': nat, ghost taken: nat, ghost e': Entry)
    requires Tracks(rec, e, spawned) && e.pc.LoopHead?
    modifies rec
    ensures taken <= |passes| && e' == Passes(e, passes[..taken])
    ensures Tracks(rec, e', spawned')
    ensures returned <==> e'.pc.Returned?
    ensures !returned ==> taken == |passes| && e'.pc.LoopHead?
  {
    var i := 0;
    e', spawned', taken := e, spawned, 0;
    while i < |passes|
      invariant i == taken <= |passes| && e' == Passes(e, passes[..i])
      invariant Tracks(rec, e', spawned') && e'.pc.LoopHead?
    {
      var go;
      PassesMore(e, passes, i);
      go, spawned', e' := MonitorPass(rec, passes[i], spawned', e');
      i, taken := i + 1, taken + 1;
      if !go {
        return true, spawned', taken, e';
      }
    }
    return false, spawned', taken, e';
  }

  /** A pass keeps at most one process of the record alive. */
  lemma OnePassKeepsProcessInv(e: Entry, p: Pass)
    requires ProcessInv(e) && (e.pc.LoopHead? || e.pc.Returned?)
    ensures ProcessInv(OnePass(e, p))
  {
    var c := Choose(p);
    var head := MonitorStep(e, p.stopAtHead, p.sinceRead, c);
    MonitorKeepsProcessInv(e, p.stopAtHead, p.sinceRead, c);
    var gone := if head.pc.Waiting? then Gone(head) else head;
    var exited := MonitorStep(gone, false, p.sinceRead, c);
    MonitorKeepsProcessInv(gone, false, p.sinceRead, c);
    MonitorKeepsProcessInv(exited, false, p.sinceRead, c);
    var noted := ToPolicy(e, p);
    assert noted == MonitorStep(exited, false, p.sinceRead, c);
    MonitorKeepsProcessInv(noted, p.stopAfterExit, p.sinceRead, c);
    MonitorKeepsProcessInv(MonitorStep(noted, p.stopAfterExit, p.sinceRead, c), false, p.sinceRead, c);
    LaterStepsKeepProcessInv(ToSelect(noted, p), p);
  }

  lemma LaterStepsKeepProcessInv(e: Entry, p: Pass)
    requires ProcessInv(e)
    ensures ProcessInv(ToHead(e, p))
  {
    var c, now := Choose(p), Woken(e, p);
    var selected := MonitorStep(e, p.stopInSelect, now, c);
    MonitorKeepsProcessInv(e, p.stopInSelect, now, c);
    MonitorKeepsProcessInv(selected, false, now, c);
    MonitorKeepsProcessInv(MonitorStep(selected, false, now, c), false, now, c);
  }

  // ---------------------------------------------------------------- the supervisor

  datatype Failure = BadName | BadPort | AlreadyRunning | NoExecutable | StartFailed | NotFound | NotRunning

  /** What the outside answers a StartUMC: whether the name is well formed, whether there is
      an executable, and whether it starts. */
  datatype Outside = Outside(validName: bool, found: bool, started: bool)

  /** The first thing wrong with a StartUMC. */
  function StartError(running: bool, port: int, outside: Outside): Option<Failure> {
    if !outside.validName then Some(BadName)
    else if !(1 <= port <= 65535) then Some(BadPort)
    else if running then Some(AlreadyRunning)
    else if !outside.found then Some(NoExecutable)
    else if !outside.started then Some(StartFailed)
    else None
  }

  /** What a StartUMC needs, and what each error says. */
  lemma StartErrorExactly(running: bool, port: int, outside: Outside)
    ensures var err := StartError(running, port, outside);
            && (err.None? <==> outside == Outside(true, true, true) && 1 <= port <= 65535 && !running)
            && (err == Some(BadName) <==> !outside.validName)
            && (err == Some(BadPort) <==> outside.validName && (port < 1 || port > 65535))
            && (err == Some(AlreadyRunning) <==> outside.validName && 1 <= port <= 65535 && running)
            && (err == Some(NoExecutable) <==>
                  outside.validName && 1 <= port <= 65535 && !running && !outside.found)
            && (err == Some(StartFailed) <==>
                  outside.validName && 1 <= port <= 65535 && !running && outside.found && !outside.started)
  {
  }

  class Manager {
    var processes: map<string, Record>
    var waitGroup: nat
    var monitors: seq<Record>   // the monitor goroutines launched, in order

    ghost predicate Valid()
      reads this
    {
      forall n :: n in processes ==> processes[n].name == n
    }

    constructor ()
      ensures Valid() && processes == map[] && waitGroup == 0 && monitors == []
    {
      processes, waitGroup, monitors := map[], 0, [];
    }

    /** A failed StartUMC changes nothing; one that succeeds puts a new record in the table and
        launches its monitor. */
    method StartUMC(name: string, port: int, outside: Outside) returns (err: Option<Failure>)
      requires Valid()
      modifies this
      ensures Valid()
      ensures err == StartError(name in old(processes) && old(processes[name].running), port, outside)
      ensures err.Some? ==> unchanged(this)
      ensures err.None? ==>
                && name in processes && fresh(processes[name]) && processes[name].View() == Started(name, port)
                && processes == old(processes)[name := processes[name]]
                && waitGroup == old(waitGroup) + 1 && monitors == old(monitors) + [processes[name]]
    {
      if !outside.validName {
        return Some(BadName);
      }
      if port < 1 || port > 65535 {
        return Some(BadPort);
      }
      if name in processes && processes[name].running {
        return Some(AlreadyRunning);
      }
      if !outside.found {
        return Some(NoExecutable);
      }
      if !outside.started {
        return Some(StartFailed);
      }
      var rec := new Record(name, port);
      processes := processes[name := rec];
      waitGroup, monitors := waitGroup + 1, monitors + [rec];
      return None;
    }

    /** StopUMC, once its Wait has returned, marks the record and no other, and leaves it in
        the table. */
    method StopUMC(name: string) returns (err: Option<Failure>)
      requires Valid()
      modifies if name in processes then {processes[name]} else {}
      ensures err == if name !in processes then Some(NotFound)
                     else if !old(processes[name].running) then Some(NotRunning) else None
      ensures name in processes ==>
                processes[name].View() == if err.None? then MarkStopped(old(processes[name].View()))
                                          else old(processes[name].View())
    {
      if name !in processes {
        return Some(NotFound);
      }
      if !processes[name].running {
        return Some(NotRunning);
      }
      processes[name].Stopped();
      return None;
    }

    /** RestartUMC replaces the record: the port is kept, and the policy, the restart count and
        the backoff start over, under a second monitor beside the old one, which is not ended.
        When the new start fails the old record is left, stopped. */
    method RestartUMC(name: string, outside: Outside) returns (err: Option<Failure>)
      requires Valid()
      modifies this, if name in processes then {processes[name]} else {}
      ensures Valid()
      ensures err == if name !in old(processes) then Some(NotFound)
                     else if !old(processes[name].running) then Some(NotRunning)
                     else StartError(false, old(processes)[name].port, outside)
      ensures err.Some? ==> unchanged(this)
      ensures err.Some? && name in processes ==>
                processes[name].View() == MarkStopped(old(processes[name].View()))
      ensures err.None? ==>
                && name in processes && name in old(processes) && fresh(processes[name])
                && processes == old(processes)[name := processes[name]]
                && processes[name].View() == Started(name, old(processes)[name].port)
                && waitGroup == old(waitGroup) + 1 && monitors == old(monitors) + [processes[name]]
    {
      if name !in processes {
        return Some(NotFound);
      }
      var rec := processes[name];
      if !rec.running {
        return Some(NotRunning);
      }
      err := StopUMC(name);
      if err.Some? {
        return;
      }
      err := StartUMC(name, rec.port, outside);
    }

    /** SetRestartPolicy changes the policy of the one record and nothing else. */
    method SetRestartPolicy(name: string, restartPolicy: Policy) returns (err: Option<Failure>)
      requires Valid()
      modifies if name in processes then {processes[name]} else {}
      ensures err == if name in processes then None else Some(NotFound)
      ensures name in processes ==>
                processes[name].View() == old(processes[name].View()).(policy := restartPolicy)
    {
      if name !in processes {
        return Some(NotFound);
      }
      processes[name].SetPolicy(restartPolicy);
      return None;
    }
  }
}
