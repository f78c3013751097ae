/** Runs that restart as fast as the backoff allows, and reach both rate bounds
    (internal/supervisor/supervisor.go:580-616). */
module SupervisorRates {
  import opened Basics
  import opened UMCProcess
  import opened Supervisor
  import opened SupervisorSafety
  import opened SupervisorRuns
  import opened SupervisorRespawn

  /** `s` with its record `r` as `e`, at time `clock`. */
  function With(s: State, r: nat, e: Entry, clock: nat): State
    requires r < |s.entries|
  {
    s.(entries := s.entries[r := e], clock := clock)
  }

  /** One step of the monitor there. */
  lemma StepThere(s: State, r: nat, e: Entry, clock: nat)
    requires r < |s.entries| && !e.pc.Returned? && !MonitorStep(e, s.stopClosed, clock, FAILING).pc.Returned?
    ensures Step(With(s, r, e, clock), Monitor(r, FAILING))
         == With(s, r, MonitorStep(e, s.stopClosed, clock, FAILING), clock)
  {
    var e' := MonitorStep(e, s.stopClosed, clock, FAILING);
    assert s.entries[r := e][r := e'] == s.entries[r := e'];
  }

  /** The monitor decides to restart. */
  function Backing(e: Entry, clock: nat): Entry {
    var d := DecisionOf(e.fields, clock, clock);
    e.(fields := Decide(MarkStopped(e.fields), clock, clock), history := e.history + [d],
       pc := BackingOff(d.at + d.delay))
  }

  /** The record's Command exits and the monitor decides to restart it. */
  function Decided(e: Entry, clock: nat): Entry {
    Backing(if e.fields.command < |e.alive| then e.(alive := e.alive[e.fields.command := false]) else e, clock)
  }

  /** The delay is over and the replacement is installed. */
  function Replaced(e: Entry): Entry {
    e.(fields := Install(e.fields, |e.alive|), alive := e.alive + [true], pc := LoopHead)
  }

  function Watch(r: nat): Action {
    Monitor(r, FAILING)
  }

  lemma ExitsAtOnce(s: State, r: nat, e: Entry, clock: nat)
    requires r < |s.entries| && !s.stopClosed && e.pc.LoopHead? && e.lock.Free? && e.fields.command < |e.alive|
    ensures Run(With(s, r, e, clock), [ProcessExits(r, e.fields.command), Watch(r), Watch(r)])
         == With(s, r, e.(alive := e.alive[e.fields.command := false], pc := Exited(ExitError(1))), clock)
  {
    var m, e1 := Watch(r), e.(alive := e.alive[e.fields.command := false]);
    assert s.entries[r := e][r := e1] == s.entries[r := e1];
    StepThere(s, r, e1, clock);
    StepThere(s, r, e1.(pc := Waiting), clock);
    RunFirst(With(s, r, e, clock), ProcessExits(r, e.fields.command), [m, m]);
    RunFirst(With(s, r, e1, clock), m, [m]);
    RunFirst(With(s, r, e1.(pc := Waiting), clock), m, []);
  }

  lemma NotesAtOnce(s: State, r: nat, e: Entry, clock: nat)
    requires r < |s.entries| && !s.stopClosed && e.lock.Free? && e.fields.policy == Always
    requires e.pc == Exited(ExitError(1))
    ensures Run(With(s, r, e, clock), [Watch(r), Watch(r), Watch(r)])
         == With(s, r, Backing(e, clock), clock)
  {
    var m := Watch(r);
    var e1 := e.(pc := Noted(ExitError(1), Always), fields := MarkStopped(e.fields));
    var e2 := e1.(pc := Deciding);
    StepThere(s, r, e, clock);
    StepThere(s, r, e1, clock);
    StepThere(s, r, e2, clock);
    RunFirst(With(s, r, e, clock), m, [m, m]);
    RunFirst(With(s, r, e1, clock), m, [m]);
    RunFirst(With(s, r, e2, clock), m, []);
  }

  lemma DecidesAtOnce(s: State, r: nat, e: Entry, clock: nat)
    requires r < |s.entries| && !s.stopClosed && e.pc.LoopHead? && e.lock.Free? && e.fields.policy == Always
    requires e.fields.command < |e.alive|
    ensures Run(With(s, r, e, clock),
                [ProcessExits(r, e.fields.command), Watch(r), Watch(r)] + [Watch(r), Watch(r), Watch(r)])
         == With(s, r, Decided(e, clock), clock)
  {
    var exited := e.(alive := e.alive[e.fields.command := false], pc := Exited(ExitError(1)));
    ExitsAtOnce(s, r, e, clock);
    NotesAtOnce(s, r, exited, clock);
    RunConcat(With(s, r, e, clock),
              [ProcessExits(r, e.fields.command), Watch(r), Watch(r)], [Watch(r), Watch(r), Watch(r)]);
  }

  lemma ReplacesAtOnce(s: State, r: nat, e: Entry, clock: nat, delay: nat)
    requires r < |s.entries| && !s.stopClosed && e.lock.Free? && e.pc == BackingOff(clock + delay)
    ensures Run(With(s, r, e, clock), [Tick(delay), Watch(r), Watch(r), Watch(r)])
         == With(s, r, Replaced(e), clock + delay)
  {
    var m, later := Watch(r), clock + delay;
    var e1 := e.(pc := Respawning);
    var e2 := e.(pc := Spawned(|e.alive|), alive := e.alive + [true]);
    StepThere(s, r, e, later);
    StepThere(s, r, e1, later);
    StepThere(s, r, e2, later);
    RunFirst(With(s, r, e, clock), Tick(delay), [m, m, m]);
    RunFirst(With(s, r, e, later), m, [m, m]);
    RunFirst(With(s, r, e1, later), m, [m]);
    RunFirst(With(s, r, e2, later), m, []);
  }

  /** One restart with no delay but the backoff; nothing else in the supervisor changes. */
  lemma RestartsAtOnce(s: State, r: nat) returns (actions: seq<Action>)
    requires r < |s.entries| && !s.stopClosed
    requires var e := s.entries[r];
             && e.pc.LoopHead? && e.lock.Free? && e.fields.policy == Always && e.fields.command < |e.alive|
             && DecisionOf(e.fields, s.clock, s.clock).delay >= 0
    ensures var e := s.entries[r];
            Run(s, actions) == With(s, r, Replaced(Decided(e, s.clock)),
                                    s.clock + DecisionOf(e.fields, s.clock, s.clock).delay)
  {
    var e := s.entries[r];
    var d := DecisionOf(e.fields, s.clock, s.clock);
    assert s == With(s, r, e, s.clock);
    DecidesAtOnce(s, r, e, s.clock);
    ReplacesAtOnce(s, r, Decided(e, s.clock), s.clock, d.delay);
    var a := [ProcessExits(r, e.fields.command), Watch(r), Watch(r)] + [Watch(r), Watch(r), Watch(r)];
    var b := [Tick(d.delay), Watch(r), Watch(r), Watch(r)];
    RunConcat(s, a, b);
    actions := a + b;
  }

  // ---------------------------------------------------------------- the bounds are reached

  /** Record `r` is running and about to be waited for, its last delay just over. */
  ghost predicate Rolling(s: State, r: nat) {
    && Inv(s) && r < |s.entries| && !s.stopClosed
    && var e := s.entries[r];
       && e.pc.LoopHead? && e.lock.Free? && e.fields.policy == Always
       && (e.history != [] ==> var d := e.history[|e.history| - 1]; s.clock == d.at + d.delay)
  }

  /** The next decision, taken now or after `idle` more time. */
  lemma Rolls(s: State, r: nat, idle: nat) returns (actions: seq<Action>)
    requires Rolling(s, r)
    ensures var s', h := Run(s, actions), s.entries[r].history;
            && Rolling(s', r) && |s'.entries[r].history| == |h| + 1
            && s'.entries[r].history == h + [s'.entries[r].history[|h|]]
            && var d := s'.entries[r].history[|h|];
               && d.at == s.clock + idle
               && (d.reset <==> h != [] && s.clock + idle - h[|h| - 1].at > HEALTHY_PERIOD)
               && d.delay == (if d.reset then 1 else Min(60, Pow2(SinceReset(h)))) * SECOND
  {
    var s1 := Step(s, Tick(idle));
    StepKeepsInv(s, Tick(idle));
    var e := s1.entries[r];
    assert ProcessInv(e) && HistoryInv(e, s1.clock);
    Pow2Values(SinceReset(e.history));
    var rest := RestartsAtOnce(s1, r);
    actions := [Tick(idle)] + rest;
    RunFirst(s, Tick(idle), rest);
    RunKeepsInv(s1, rest);
  }

  /** `h` goes on with `m` decisions as early as they can be, from a delay of one second on. */
  ghost predicate GoesOn(h: seq<Decision>, h': seq<Decision>, m: nat) {
    && h != [] && |h'| == |h| + m && h <= h' && SinceReset(h') == m + 1
    && h'[|h'| - 1].at == h[|h| - 1].at + (Pow2(m) - 1) * SECOND
    && h'[|h'| - 1].delay == Min(60, Pow2(m)) * SECOND
  }

  lemma GoesOnMore(h: seq<Decision>, q: seq<Decision>, m: nat, d: Decision)
    requires GoesOn(h, q, m) && m < 6
    requires d.at == q[|q| - 1].at + q[|q| - 1].delay && !d.reset
    requires d.delay == Min(60, Pow2(SinceReset(q))) * SECOND
    ensures GoesOn(h, q + [d], m + 1)
  {
    Pow2Values(m);
    assert (q + [d])[..|q|] == q;
  }

  lemma RollsOnce(s: State, r: nat, h: seq<Decision>, m: nat) returns (actions: seq<Action>)
    requires Rolling(s, r) && GoesOn(h, s.entries[r].history, m) && m < 6
    ensures var s' := Run(s, actions); Rolling(s', r) && GoesOn(h, s'.entries[r].history, m + 1)
  {
    actions := Rolls(s, r, 0);
    var q := s.entries[r].history;
    ShortDelay(q[|q| - 1].delay, Pow2(m));
    GoesOnMore(h, q, m, Run(s, actions).entries[r].history[|q|]);
  }

  lemma {:induction false} RollsOn(s: State, r: nat, m: nat) returns (actions: seq<Action>)
    requires Rolling(s, r) && m <= 6 && GoesOn(s.entries[r].history, s.entries[r].history, 0)
    ensures var s' := Run(s, actions); Rolling(s', r) && GoesOn(s.entries[r].history, s'.entries[r].history, m)
    decreases m
  {
    if m == 0 {
      actions := [];
    } else {
      var before := RollsOn(s, r, m - 1);
      var last := RollsOnce(Run(s, before), r, s.entries[r].history, m - 1);
      RunConcat(s, before, last);
      actions := before + last;
    }
  }

  lemma ShortDelay(delay: int, p: nat)
    requires delay == Min(60, p) * SECOND
    ensures delay <= HEALTHY_PERIOD
  {
  }

  /** The first decision of the first component, at once. */
  lemma FirstDecision() returns (actions: seq<Action>)
    ensures var s := Run(INIT, actions);
            && Rolling(s, 0) && |s.entries[0].history| == 1
            && GoesOn(s.entries[0].history, s.entries[0].history, 0)
  {
    var start := [Invoke(0, StartEntered("name", 80)), Advance(0, true), Advance(0, true)];
    var s0 := Run(INIT, start);
    InitInv();
    RunKeepsInv(INIT, start);
    var s1 := Step(INIT, start[0]);
    var s2 := Step(s1, start[1]);
    assert Run(INIT, start) == Run(s1, start[1..]) == Run(s2, start[2..]) == Step(s2, start[2]);
    assert s0.entries == [NewEntry("name", 80)];
    var first := Rolls(s0, 0, 0);
    RunConcat(INIT, start, first);
    actions := start + first;
    FirstSinceReset(Run(INIT, actions).entries[0].history);
  }

  lemma FirstSinceReset(h: seq<Decision>)
    requires |h| == 1 && !h[0].reset && h[0].delay == Min(60, Pow2(SinceReset([]))) * SECOND
    ensures GoesOn(h, h, 0)
  {
    assert h[..0] == [];
  }

  /** After five healthy minutes: the reset, and the first delay of one second after it. */
  lemma AfterReset(s: State) returns (actions: seq<Action>)
    requires Rolling(s, 0) && |s.entries[0].history| == 1
    ensures var s' := Run(s, actions);
            && Rolling(s', 0) && |s'.entries[0].history| == 3
            && GoesOn(s'.entries[0].history, s'.entries[0].history, 0)
            && s'.entries[0].history[2].at == s'.entries[0].history[1].at + SECOND
  {
    var a := Rolls(s, 0, 301 * SECOND);
    var s1 := Run(s, a);
    assert HistoryInv(s.entries[0], s.clock);
    BackoffClosedForm(s.entries[0].history, 0);
    assert s1.entries[0].history[1].reset && SinceReset(s1.entries[0].history) == 0;
    var b := Rolls(s1, 0, 0);
    RunConcat(s, a, b);
    actions := a + b;
    var h := Run(s, actions).entries[0].history;
    assert h[..2] == s1.entries[0].history;
  }

  /** The first component's decisions from number `a` to number `a + n` take so long. */
  predicate Spans(s: State, a: nat, n: nat, seconds: int) {
    && |s.entries| > 0 && a + n < |s.entries[0].history|
    && s.entries[0].history[a + n].at - s.entries[0].history[a].at == seconds * SECOND
  }

  /** A run from the initial state with six decisions in 63 s from the first: the bound of
      45 n - 207 is reached. */
  lemma FirstBoundIsTight() returns (actions: seq<Action>)
    ensures Spans(Run(INIT, actions), 0, 6, 45 * 6 - 207)
  {
    var start := FirstDecision();
    var s := Run(INIT, start);
    var fast := RollsOn(s, 0, 6);
    RunConcat(INIT, start, fast);
    actions := start + fast;
    Pow2Values(6);
  }

  /** A run from the initial state with seven decisions in 64 s after a reset: the bound of
      45 n - 251 is reached. */
  lemma ResetBoundIsTight() returns (actions: seq<Action>)
    ensures Spans(Run(INIT, actions), 1, 7, 45 * 7 - 251)
  {
    var start := FirstDecision();
    var s := Run(INIT, start);
    var healthy := AfterReset(s);
    var s1 := Run(s, healthy);
    var fast := RollsOn(s1, 0, 6);
    RunConcat(s, healthy, fast);
    RunConcat(INIT, start, healthy + fast);
    actions := start + (healthy + fast);
    Pow2Values(6);
  }
}
