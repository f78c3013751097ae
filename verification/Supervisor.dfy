/** The supervisor as a state machine: API calls, monitor goroutines and the operating
    system take atomic steps in any order (internal/supervisor/supervisor.go). */
module Supervisor {
  import opened Wrappers
  import opened UMCProcess

  /** Where a monitor goroutine is in its loop. */
  datatype Pc =
    | LoopHead                              // about to look at stopChan
    | Waiting                               // in Command.Wait
    | Exited(exit: Exit)                    // Wait has returned
    | Noted(exit: Exit, policy: Policy)     // Running cleared, policy read
    | Deciding                              // about to do the restart bookkeeping
    | BackingOff(wakeAt: int)               // in the select on the timer and stopChan
    | Respawning                            // about to look for the executable and start it
    | Spawned(process: nat)                 // started, not yet stored in the record
    | Returned

  /** The record's lock as StopUMC holds it. `waited` says its Wait has returned. The
      monitor's own critical sections are single steps that need the lock free. */
  datatype Lock = Free | Held(thread: nat, waited: bool)

  /** A UMCProcess record with its monitor and the processes it has spawned. */
  datatype Entry = Entry(fields: Fields, pc: Pc, lock: Lock, alive: seq<bool>, history: seq<Decision>)

  /** What a caller does once StopUMC has returned. */
  datatype After = Done | StartAgain(port: int) | StopRest(names: seq<string>)

  /** Where an API call is. */
  datatype Call =
    | StartEntered(name: string, port: int)               // StartUMC before it takes the supervisor lock
    | StartChecked(name: string, port: int)               // past the Running check, holding that lock
    | RestartFound(name: string, entry: nat)
    | StopEntered(name: string, after: After)
    | StopFound(name: string, entry: nat, after: After)
    | StopPassed(name: string, entry: nat, after: After)  // saw Running, about to lock the record
    | StopHolding(name: string, entry: nat, after: After)
    | Closing                                             // Shutdown about to close stopChan

  datatype State = State(
    entries: seq<Entry>,            // every record ever made, in order of creation
    table: map<string, nat>,        // the processes map
    lock: Option<nat>,              // who holds the supervisor's lock
    calls: map<nat, Call>,
    stopClosed: bool,
    waitGroup: int,
    clock: nat)

  /** What the environment decides in one monitor step. */
  datatype Choice = Choice(exit: Exit, between: nat, timer: bool, startOk: bool)

  datatype Action =
    | Invoke(thread: nat, call: Call)             // a caller enters the API
    | Advance(thread: nat, ok: bool)
    | SetPolicy(name: string, policy: Policy)
    | Monitor(entry: nat, choice: Choice)
    | ProcessExits(entry: nat, process: nat)
    | Tick(delta: nat)

  const INIT := State([], map[], None, map[], false, 0, 0)

  // ---------------------------------------------------------------- one record

  function NewEntry(name: string, port: int): Entry {
    Entry(Started(name, port), LoopHead, Free, [true], [])
  }

  predicate CommandExited(e: Entry) {
    e.fields.command < |e.alive| && !e.alive[e.fields.command]
  }

  /** One step of monitorUMC on its record; the record comes back unchanged when the
      step is not possible. */
  function MonitorStep(e: Entry, stopClosed: bool, clock: nat, c: Choice): Entry {
    match e.pc
    case LoopHead => e.(pc := if stopClosed then Returned else Waiting)
    case Waiting => if CommandExited(e) then e.(pc := Exited(c.exit)) else e
    case Exited(exit) =>
      if e.lock.Free? then e.(fields := MarkStopped(e.fields), pc := Noted(exit, e.fields.policy)) else e
    case Noted(exit, policy) =>
      e.(pc := if !stopClosed && ShouldRestart(policy, exit) then Deciding else Returned)
    case Deciding =>
      if e.lock.Free? then
        var d := DecisionOf(e.fields, clock, clock + c.between);
        e.(fields := Decide(e.fields, clock, clock + c.between),
           history := e.history + [d],
           pc := BackingOff(d.at + d.delay))
      else e
    case BackingOff(wakeAt) =>
      if clock >= wakeAt && (c.timer || !stopClosed) then e.(pc := Respawning)
      else if stopClosed then e.(pc := Returned)
      else e
    case Respawning =>
      if c.startOk then e.(alive := e.alive + [true], pc := Spawned(|e.alive|)) else e.(pc := Returned)
    case Spawned(p) =>
      if e.lock.Free? then e.(fields := Install(e.fields, p), pc := LoopHead) else e
    case Returned => e
  }

  function MonitorTime(e: Entry, c: Choice): nat {
    if e.pc.Deciding? && e.lock.Free? then c.between else 0
  }

  // ---------------------------------------------------------------- API calls

  function Finish(s: State, t: nat): State {
    s.(calls := s.calls - {t})
  }

  /** StopUMC is over with or without an error: RestartUMC gives up on an error, Shutdown goes on. */
  function AfterStop(s: State, t: nat, name: string, after: After, ok: bool): State {
    match after
    case Done => Finish(s, t)
    case StartAgain(port) =>
      if ok then s.(calls := s.calls[t := StartEntered(name, port)]) else Finish(s, t)
    case StopRest(names) =>
      if names == [] then s.(calls := s.calls[t := Closing])
      else s.(calls := s.calls[t := StopEntered(names[0], StopRest(names[1..]))])
  }

  /** The calls a caller may enter: StartUMC, StopUMC, RestartUMC, and Shutdown, which
      stops the names of the table in any order. */
  predicate MayEnter(s: State, call: Call) {
    match call
    case StartEntered(_, port) => 1 <= port <= 65535
    case StopEntered(_, Done) => true
    case StopEntered(name, StopRest(names)) =>
      s.lock.None? && (set n | n in [name] + names) == s.table.Keys && |names| + 1 == |s.table|
    case RestartFound(name, entry) => s.lock.None? && name in s.table && s.table[name] == entry
    case Closing => s.lock.None? && s.table == map[]
    case _ => false
  }

  function AdvanceCall(s: State, t: nat, ok: bool): State
    requires t in s.calls
  {
    match s.calls[t]
    case StartEntered(name, port) =>
      if s.lock.Some? then s
      else if name in s.table && s.table[name] < |s.entries| && s.entries[s.table[name]].fields.running
      then Finish(s, t)
      else s.(lock := Some(t), calls := s.calls[t := StartChecked(name, port)])
    case StartChecked(name, port) =>
      if s.lock != Some(t) then s
      else if !ok then Finish(s.(lock := None), t)
      else Finish(s.(lock := None,
                     entries := s.entries + [NewEntry(name, port)],
                     table := s.table[name := |s.entries|],
                     waitGroup := s.waitGroup + 1), t)
    case RestartFound(name, r) =>
      if r < |s.entries| && s.entries[r].fields.running
      then s.(calls := s.calls[t := StopEntered(name, StartAgain(s.entries[r].fields.port))])
      else Finish(s, t)
    case StopEntered(name, after) =>
      if s.lock.Some? then s
      else if name in s.table then s.(calls := s.calls[t := StopFound(name, s.table[name], after)])
      else AfterStop(s, t, name, after, false)
    case StopFound(name, r, after) =>
      if r < |s.entries| && s.entries[r].fields.running
      then s.(calls := s.calls[t := StopPassed(name, r, after)])
      else AfterStop(s, t, name, after, false)
    case StopPassed(name, r, after) =>
      if r < |s.entries| && s.entries[r].lock.Free?
      then s.(entries := s.entries[r := s.entries[r].(lock := Held(t, false))],
              calls := s.calls[t := StopHolding(name, r, after)])
      else s
    case StopHolding(name, r, after) =>
      if r < |s.entries| && s.entries[r].lock == Held(t, false) && CommandExited(s.entries[r])
      then s.(entries := s.entries[r := s.entries[r].(lock := Held(t, true))])
      else if r < |s.entries| && s.entries[r].lock == Held(t, true)
      then AfterStop(s.(entries := s.entries[r :=
                       s.entries[r].(lock := Free, fields := MarkStopped(s.entries[r].fields))]), t, name, after, true)
      else s
    case Closing => Finish(s.(stopClosed := true), t)
  }

  /** One step; an action that is not possible leaves the state as it is. */
  function Step(s: State, a: Action): State {
    match a
    case Invoke(t, call) =>
      if t !in s.calls && MayEnter(s, call) then s.(calls := s.calls[t := call]) else s
    case Advance(t, ok) => if t in s.calls then AdvanceCall(s, t, ok) else s
    case SetPolicy(name, policy) =>
      if s.lock.None? && name in s.table && s.table[name] < |s.entries|
      then var r := s.table[name];
           s.(entries := s.entries[r := s.entries[r].(fields := s.entries[r].fields.(policy := policy))])
      else s
    case Monitor(r, c) =>
      if r < |s.entries|
      then var e := MonitorStep(s.entries[r], s.stopClosed, s.clock, c);
           s.(entries := s.entries[r := e],
              clock := s.clock + MonitorTime(s.entries[r], c),
              waitGroup := s.waitGroup - (if e.pc.Returned? && !s.entries[r].pc.Returned? then 1 else 0))
      else s
    case ProcessExits(r, p) =>
      if r < |s.entries| && p < |s.entries[r].alive|
      then s.(entries := s.entries[r := s.entries[r].(alive := s.entries[r].alive[p := false])])
      else s
    case Tick(delta) => s.(clock := s.clock + delta)
  }

  function Run(s: State, actions: seq<Action>): State
    decreases |actions|
  {
    if actions == [] then s else Run(Step(s, actions[0]), actions[1..])
  }
}
