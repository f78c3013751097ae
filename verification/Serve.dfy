/** One job of the event subscriber: what it does to the daemon and what it tells the kernel
    (cmd/serve/main.go:242-280, 367-579). */
module Serve {
  import opened Basics
  import opened Wrappers
  import opened Tiling
  import opened Secrets
  import opened Compiler
  import opened Docker
  import opened Runner
  import opened Deployments

  // ---------------------------------------------------------------- payloads

  datatype PayloadService = PayloadService(name: string, spec: ServiceSpec)

  datatype PayloadDeployment = PayloadDeployment(id: string, name: string, slug: string, version: int,
                                                 source: Option<SourceRef>, services: seq<PayloadService>,
                                                 networks: seq<Named>, volumes: seq<Named>)

  datatype ApplyPayload = ApplyPayload(jobId: string, deployment: PayloadDeployment)

  datatype DeletePayload = DeletePayload(deploymentId: string, slug: string)

  function Decimal(n: int): string
    decreases if n < 0 then 1 - n else n
  {
    if n < 0 then "-" + Decimal(-n)
    else if n < 10 then ["0123456789"[n]]
    else Decimal(n / 10) + ["0123456789"[n % 10]]
  }

  /** The services by name; of several with one name the last. */
  function ServicesOf(list: seq<PayloadService>): map<string, ServiceSpec> {
    if list == [] then map[]
    else ServicesOf(list[..|list| - 1])[list[|list| - 1].name := list[|list| - 1].spec]
  }

  /** Networks and volumes of the payload do not get into the spec. */
  function SpecOf(dep: PayloadDeployment): Spec {
    Spec(dep.id, dep.slug, Decimal(dep.version), dep.source, ServicesOf(dep.services), map[], map[])
  }

  /** The number that decimal digits stand for. */
  function Value(digits: string): int {
    if digits == "" then 0
    else 10 * Value(digits[..|digits| - 1]) + (digits[|digits| - 1] as int - '0' as int)
  }

  lemma {:induction false} DecimalValue(n: nat)
    ensures Decimal(n) != "" && Value(Decimal(n)) == n
  {
    var last := ["0123456789"[n % 10]];
    assert last[0] as int - '0' as int == n % 10;
    assert last[..0] == "" && Value(last) == n % 10;
    if n >= 10 {
      DecimalValue(n / 10);
      assert Decimal(n)[..|Decimal(n)| - 1] == Decimal(n / 10);
    }
  }

  /** What of a payload gets into the spec; the version as decimal text. */
  lemma SpecCarries(dep: PayloadDeployment)
    ensures var spec := SpecOf(dep);
            && spec.id == dep.id && spec.slug == dep.slug && spec.source == dep.source
            && spec.services == ServicesOf(dep.services) && spec.networks == map[] && spec.volumes == map[]
            && (dep.version >= 0 ==> Value(spec.version) == dep.version)
            && (dep.version < 0 ==> spec.version == "-" + Decimal(-dep.version)
                                    && Value(spec.version[1..]) == -dep.version)
  {
    DecimalValue(if dep.version >= 0 then dep.version else -dep.version);
    if dep.version < 0 {
      assert ("-" + Decimal(-dep.version))[1..] == Decimal(-dep.version);
    }
  }

  predicate LastNamed(list: seq<PayloadService>, i: nat) {
    i < |list| && forall j :: i < j < |list| ==> list[j].name != list[i].name
  }

  /** Each name is mapped to the last service that has it. */
  lemma {:induction false} LastWins(list: seq<PayloadService>, i: nat)
    requires LastNamed(list, i)
    ensures list[i].name in ServicesOf(list) && ServicesOf(list)[list[i].name] == list[i].spec
    decreases |list|
  {
    var n := |list| - 1;
    if i < n {
      assert list[n].name != list[i].name;
      LastWins(list[..n], i);
    }
  }

  lemma {:induction false} NamedOnly(list: seq<PayloadService>, name: string) returns (i: nat)
    requires name in ServicesOf(list)
    ensures LastNamed(list, i) && list[i].name == name
    decreases |list|
  {
    i := |list| - 1;
    if list[i].name != name {
      var n := i;
      i := NamedOnly(list[..n], name);
      assert forall j :: i < j < n ==> list[..n][j] == list[j];
    }
  }

  // ---------------------------------------------------------------- events

  datatype Stage = Building | Pulling | Starting | Deployed

  datatype Cause = Nothing | NotCompiled | NoRunner | Unreachable | NotExecuted

  /** The events of one job: deployments.progress and deployments.result. */
  datatype Event =
    | Progressed(stage: Stage)
    | Finished(success: bool, cause: Cause)

  datatype Job = Job(jobId: string, deploymentId: string, version: int)

  /** One call of EmitDeploymentEvent and whether the kernel acknowledged it. */
  datatype Attempt = Attempt(job: Job, event: Event, acknowledged: bool)

  function Limit(e: Event): nat {
    if e.Progressed? then 3 else 5
  }

  /** The kernel's side: the calls it got, and the seconds the job slept between them. */
  class Kernel {
    var attempts: seq<Attempt>
    var slept: nat
    const accepts: nat -> bool

    constructor (accepts: nat -> bool)
      ensures attempts == [] && slept == 0 && this.accepts == accepts
    {
      attempts, slept := [], 0;
      this.accepts := accepts;
    }

    method EmitDeploymentEvent(job: Job, event: Event) returns (ok: bool)
      modifies this`attempts
      ensures ok == accepts(|old(attempts)|)
      ensures attempts == old(attempts) + [Attempt(job, event, ok)]
    {
      ok := accepts(|attempts|);
      attempts := attempts + [Attempt(job, event, ok)];
    }

    method Sleep(seconds: nat)
      modifies this`slept
      ensures slept == old(slept) + seconds
    {
      slept := slept + seconds;
    }
  }

  /** The calls for one emission: refused ones, then one acknowledged, or all refused up to
      the limit. */
  predicate Burst(log: seq<Attempt>, job: Job, e: Event) {
    && 1 <= |log| <= Limit(e)
    && (forall i :: 0 <= i < |log| ==> log[i] == Attempt(job, e, i == |log| - 1 && log[i].acknowledged))
    && (log[|log| - 1].acknowledged || |log| == Limit(e))
  }

  /** emitDeploymentProgress and emitDeploymentResult, which differ in the limit. */
  method Emit(kernel: Kernel, job: Job, event: Event) returns (ghost log: seq<Attempt>)
    modifies kernel
    ensures Burst(log, job, event) && kernel.attempts == old(kernel.attempts) + log
    ensures kernel.slept == old(kernel.slept) + Pow2(|log| - 1) - 1
  {
    log := [];
    var attempt := 0;
    while attempt < Limit(event)
      invariant attempt == |log| <= Limit(event) && kernel.attempts == old(kernel.attempts) + log
      invariant forall i :: 0 <= i < |log| ==> log[i] == Attempt(job, event, false)
      invariant kernel.slept == old(kernel.slept) + (if attempt == 0 then 0 else Pow2(attempt - 1) - 1)
    {
      if attempt > 0 {
        kernel.Sleep(Pow2(attempt - 1));
      }
      var ok := kernel.EmitDeploymentEvent(job, event);
      log := log + [Attempt(job, event, ok)];
      if ok {
        return;
      }
      attempt := attempt + 1;
    }
  }

  function Flat(bursts: seq<seq<Attempt>>): seq<Attempt> {
    if bursts == [] then [] else Flat(bursts[..|bursts| - 1]) + bursts[|bursts| - 1]
  }

  ghost predicate AreBursts(bursts: seq<seq<Attempt>>, job: Job, events: seq<Event>) {
    |bursts| == |events| && forall i :: 0 <= i < |bursts| ==> Burst(bursts[i], job, events[i])
  }

  /** The calls for several emissions, one after the other. */
  ghost predicate Carries(log: seq<Attempt>, job: Job, events: seq<Event>) {
    exists bursts :: AreBursts(bursts, job, events) && log == Flat(bursts)
  }

  lemma CarriesNone(job: Job)
    ensures Carries([], job, [])
  {
    assert AreBursts([], job, []) && Flat([]) == [];
  }

  lemma CarriesMore(log: seq<Attempt>, job: Job, events: seq<Event>, burst: seq<Attempt>, e: Event)
    requires Carries(log, job, events) && Burst(burst, job, e)
    ensures Carries(log + burst, job, events + [e])
  {
    var bursts :| AreBursts(bursts, job, events) && log == Flat(bursts);
    assert (bursts + [burst])[..|bursts|] == bursts;
    assert AreBursts(bursts + [burst], job, events + [e]) && Flat(bursts + [burst]) == log + burst;
  }

  lemma CarriesSplit(log: seq<Attempt>, job: Job, events: seq<Event>) returns (head: seq<Attempt>, burst: seq<Attempt>)
    requires Carries(log, job, events) && events != []
    ensures log == head + burst && Carries(head, job, events[..|events| - 1]) && Burst(burst, job, events[|events| - 1])
  {
    var n := |events| - 1;
    var bursts :| AreBursts(bursts, job, events) && log == Flat(bursts);
    head, burst := Flat(bursts[..n]), bursts[n];
    assert AreBursts(bursts[..n], job, events[..n]);
  }

  // ---------------------------------------------------------------- what the kernel knows

  function Acknowledged(log: seq<Attempt>): seq<Event> {
    if log == [] then []
    else
      var n := |log| - 1;
      Acknowledged(log[..n]) + (if log[n].acknowledged then [log[n].event] else [])
  }

  predicate Subsequence(a: seq<Event>, b: seq<Event>)
    decreases |b|
  {
    if a == [] then true
    else if b == [] then false
    else
      var m, n := |a| - 1, |b| - 1;
      (a[m] == b[n] && Subsequence(a[..m], b[..n])) || Subsequence(a, b[..n])
  }

  lemma {:induction false} AcknowledgedConcat(a: seq<Attempt>, b: seq<Attempt>)
    ensures Acknowledged(a + b) == Acknowledged(a) + Acknowledged(b)
    decreases |b|
  {
    if b == [] {
      assert a + b == a;
    } else {
      var n := |b| - 1;
      AcknowledgedConcat(a, b[..n]);
      assert (a + b)[..|a| + n] == a + b[..n];
    }
  }

  lemma {:induction false} NoneAcknowledged(log: seq<Attempt>)
    requires forall i :: 0 <= i < |log| ==> !log[i].acknowledged
    ensures Acknowledged(log) == []
    decreases |log|
  {
    if log != [] {
      NoneAcknowledged(log[..|log| - 1]);
    }
  }

  /** Of one emission the kernel acknowledges at most one call. */
  lemma BurstAcknowledged(log: seq<Attempt>, job: Job, e: Event)
    requires Burst(log, job, e)
    ensures Acknowledged(log) == if log[|log| - 1].acknowledged then [e] else []
  {
    NoneAcknowledged(log[..|log| - 1]);
  }

  lemma SubsequenceMore(a: seq<Event>, b: seq<Event>, e: Event, more: seq<Event>)
    requires Subsequence(a, b) && (more == [] || more == [e])
    ensures Subsequence(a + more, b + [e])
  {
    assert (b + [e])[..|b|] == b;
    if more == [] {
      assert a + more == a;
    } else {
      assert (a + more)[..|a|] == a;
    }
  }

  lemma InOrderStep(head: seq<Attempt>, burst: seq<Attempt>, job: Job, events: seq<Event>, e: Event)
    requires Subsequence(Acknowledged(head), events) && Burst(burst, job, e)
    ensures Subsequence(Acknowledged(head + burst), events + [e])
  {
    BurstAcknowledged(burst, job, e);
    AcknowledgedConcat(head, burst);
    SubsequenceMore(Acknowledged(head), events, e, Acknowledged(burst));
  }

  /** What the kernel acknowledges of a job is a subsequence of what the job emits, so that no
      emission counts twice and none overtakes another. */
  lemma {:induction false} AcknowledgedInOrder(log: seq<Attempt>, job: Job, events: seq<Event>)
    requires Carries(log, job, events)
    ensures Subsequence(Acknowledged(log), events)
    decreases |events|
  {
    if events != [] {
      var n := |events| - 1;
      var head, burst := CarriesSplit(log, job, events);
      AcknowledgedInOrder(head, job, events[..n]);
      InOrderStep(head, burst, job, events[..n], events[n]);
      assert events == events[..n] + [events[n]];
    }
  }

  function Limits(events: seq<Event>): nat {
    if events == [] then 0 else Limits(events[..|events| - 1]) + Limit(events[|events| - 1])
  }

  /** Every call bears the job's IDs and one of its events, each of them within its limit. */
  lemma {:induction false} CallsBounded(log: seq<Attempt>, job: Job, events: seq<Event>)
    requires Carries(log, job, events)
    ensures |events| <= |log| <= Limits(events)
    ensures forall i :: 0 <= i < |log| ==> log[i].job == job && log[i].event in events
    decreases |events|
  {
    if events != [] {
      var n := |events| - 1;
      var head, burst := CarriesSplit(log, job, events);
      CallsBounded(head, job, events[..n]);
    }
  }

  /** The result of a job is lost exactly when the last five calls all carry it and are all
      refused. */
  lemma ResultLostExactly(log: seq<Attempt>, job: Job, events: seq<Event>)
    requires Carries(log, job, events) && events != [] && events[|events| - 1].Finished?
    requires forall i :: 0 <= i < |events| - 1 ==> events[i].Progressed?
    ensures (forall e :: e in Acknowledged(log) ==> e.Progressed?)
       <==> |log| >= 5 && forall i :: |log| - 5 <= i < |log| ==> log[i] == Attempt(job, events[|events| - 1], false)
  {
    var n := |events| - 1;
    var head, burst := CarriesSplit(log, job, events);
    AcknowledgedInOrder(head, job, events[..n]);
    SubsequenceOnly(Acknowledged(head), events[..n]);
    BurstAcknowledged(burst, job, events[n]);
    AcknowledgedConcat(head, burst);
    LastBurst(head, burst, job, events[n]);
    if burst[|burst| - 1].acknowledged {
      assert events[n] in Acknowledged(log);
    }
  }

  lemma LastBurst(head: seq<Attempt>, burst: seq<Attempt>, job: Job, e: Event)
    requires Burst(burst, job, e) && Limit(e) == 5
    ensures var log := head + burst;
            !burst[|burst| - 1].acknowledged
            <==> |log| >= 5 && forall i :: |log| - 5 <= i < |log| ==> log[i] == Attempt(job, e, false)
  {
    var log := head + burst;
    assert log[|log| - 1] == burst[|burst| - 1];
  }

  lemma {:induction false} SubsequenceOnly(a: seq<Event>, b: seq<Event>)
    requires Subsequence(a, b)
    ensures forall e :: e in a ==> e in b
    decreases |b|
  {
    if a != [] && b != [] {
      var m, n := |a| - 1, |b| - 1;
      if Subsequence(a, b[..n]) {
        SubsequenceOnly(a, b[..n]);
      } else {
        SubsequenceOnly(a[..m], b[..n]);
        assert a == a[..m] + [a[m]];
      }
    }
  }

  // ---------------------------------------------------------------- a job

  predicate HasBuild(services: map<string, ServiceSpec>) {
    exists name :: name in services && services[name].build.Some?
  }

  /** How far a job gets. */
  datatype Fate = NeverCompiled | NeverRun(cause: Cause) | Broken(built: bool) | Done(built: bool)

  function Events(fate: Fate): seq<Event> {
    match fate
    case NeverCompiled => [Finished(false, NotCompiled)]
    case NeverRun(cause) => [Finished(false, cause)]
    case Broken(built) => [Progressed(if built then Building else Pulling), Finished(false, NotExecuted)]
    case Done(built) =>
      [Progressed(if built then Building else Pulling), Progressed(Starting), Progressed(Stage.Deployed),
       Finished(true, Nothing)]
  }

  function Launched(d: Daemon, w: World, g: Graph, hasBuild: bool, runner: bool, ping: bool, services: seq<string>)
    : (Daemon, Fate)
    requires Among(services, g.services.Keys)
  {
    if !runner then (d, NeverRun(NoRunner))
    else if !ping then (d, NeverRun(Unreachable))
    else
      var (e, result) := Executed(d, w, g, [], services);
      (e, if result.error then Broken(hasBuild) else Done(hasBuild))
  }

  /** What a job does to the daemon, its services being deployed in this order, and how far it
      gets. */
  function Processed(d: Daemon, w: World, dep: PayloadDeployment, store: Store, runner: bool, ping: bool,
                     services: seq<string>): (Daemon, Fate)
    requires Among(services, ServicesOf(dep.services).Keys)
  {
    var spec := SpecOf(dep);
    if !Compiles(Some(spec), Some(store)) then (d, NeverCompiled)
    else Launched(d, w, Compiled(spec, Some(store)), HasBuild(spec.services), runner, ping, services)
  }

  method CollectServices(list: seq<PayloadService>) returns (services: map<string, ServiceSpec>)
    ensures services == ServicesOf(list)
  {
    services := map[];
    for i := 0 to |list|
      invariant services == ServicesOf(list[..i])
    {
      assert list[..i + 1][..i] == list[..i];
      services := services[list[i].name := list[i].spec];
    }
    assert list[..|list|] == list;
  }

  method AnyBuild(services: map<string, ServiceSpec>) returns (hasBuild: bool)
    ensures hasBuild == HasBuild(services)
  {
    var left := services.Keys;
    while left != {}
      invariant left <= services.Keys
      invariant forall name :: name in services && name !in left ==> services[name].build.None?
      decreases |left|
    {
      var name :| name in left;
      left := left - {name};
      if services[name].build.Some? {
        return true;
      }
    }
    return false;
  }

  /** One more emission of the job that started when the kernel had got `start`. */
  method EmitNext(kernel: Kernel, job: Job, e: Event,
                  ghost start: seq<Attempt>, ghost log: seq<Attempt>, ghost events: seq<Event>)
    returns (ghost log': seq<Attempt>)
    requires kernel.attempts == start + log && Carries(log, job, events)
    modifies kernel
    ensures kernel.attempts == start + log' && Carries(log', job, events + [e])
  {
    ghost var burst := Emit(kernel, job, e);
    CarriesMore(log, job, events, burst, e);
    log' := log + burst;
    assert start + log + burst == start + log';
  }

  lemma FirstAmong(order: seq<string>, names: set<string>)
    requires Among(order, names)
    ensures order != [] ==> order[0] in names
  {
  }

  /** The first emission of a job. */
  method EmitFirst(kernel: Kernel, job: Job, e: Event) returns (ghost log: seq<Attempt>)
    modifies kernel
    ensures kernel.attempts == old(kernel.attempts) + log && Carries(log, job, [e])
  {
    CarriesNone(job);
    log := EmitNext(kernel, job, e, kernel.attempts, [], []);
    assert [] + [e] == [e];
  }

  /** What follows the first progress event of a job. */
  function Sequel(completed: bool): seq<Event> {
    if completed then [Progressed(Starting), Progressed(Stage.Deployed), Finished(true, Nothing)]
    else [Finished(false, NotExecuted)]
  }

  /** The part of processDeployment after the first progress event. */
  method RunJob(kernel: Kernel, engine: Engine, job: Job, graph: Graph,
                ghost start: seq<Attempt>, ghost log: seq<Attempt>, ghost events: seq<Event>)
    returns (ghost log': seq<Attempt>, ghost completed: bool, ghost services: seq<string>)
    requires kernel.attempts == start + log && Carries(log, job, events) && graph.volumes == map[]
    modifies kernel, engine
    ensures kernel.attempts == start + log' && Carries(log', job, events + Sequel(completed))
    ensures Among(services, graph.services.Keys) && Visits(graph.services.Keys, services, completed)
    ensures var (e, result) := Executed(old(engine.View()), engine.world, graph, [], services);
            engine.View() == e && completed == !result.error
  {
    var result, err;
    ghost var volumes;
    result, err, volumes, services := Execute(engine, graph);
    FirstAmong(volumes, graph.volumes.Keys);
    completed := !err;
    if err {
      log' := EmitNext(kernel, job, Finished(false, NotExecuted), start, log, events);
      return;
    }
    log' := RunStarted(kernel, job, result.status.Completed?, start, log, events);
  }

  method RunStarted(kernel: Kernel, job: Job, success: bool,
                    ghost start: seq<Attempt>, ghost log: seq<Attempt>, ghost events: seq<Event>)
    returns (ghost log': seq<Attempt>)
    requires kernel.attempts == start + log && Carries(log, job, events)
    modifies kernel
    ensures kernel.attempts == start + log'
    ensures Carries(log', job, events + [Progressed(Starting), Progressed(Stage.Deployed), Finished(success, Nothing)])
  {
    log' := EmitNext(kernel, job, Progressed(Starting), start, log, events);
    ghost var events1 := events + [Progressed(Starting)];
    log' := EmitNext(kernel, job, Progressed(Stage.Deployed), start, log', events1);
    ghost var events2 := events1 + [Progressed(Stage.Deployed)];
    log' := EmitNext(kernel, job, Finished(success, Nothing), start, log', events2);
    assert events2 + [Finished(success, Nothing)]
        == events + [Progressed(Starting), Progressed(Stage.Deployed), Finished(success, Nothing)];
  }

  /** The part of processDeployment after compilation. */
  method Launch(kernel: Kernel, engine: Engine, job: Job, graph: Graph, specs: map<string, ServiceSpec>,
                runner: bool, ping: bool)
    returns (ghost log: seq<Attempt>, ghost fate: Fate, ghost services: seq<string>)
    requires graph.volumes == map[]
    modifies kernel, engine
    ensures kernel.attempts == old(kernel.attempts) + log && Carries(log, job, Events(fate))
    ensures Among(services, graph.services.Keys) && Visits(graph.services.Keys, services, fate.Done?)
    ensures (engine.View(), fate)
         == Launched(old(engine.View()), engine.world, graph, HasBuild(specs), runner, ping, services)
  {
    ghost var start := kernel.attempts;
    services := [];
    VisitsNone(graph.services.Keys);
    if !runner {
      log := EmitFirst(kernel, job, Finished(false, NoRunner));
      fate := NeverRun(NoRunner);
      return;
    }
    if !ping {
      log := EmitFirst(kernel, job, Finished(false, Unreachable));
      fate := NeverRun(Unreachable);
      return;
    }
    var hasBuild := AnyBuild(specs);
    var first := Progressed(if hasBuild then Building else Pulling);
    log := EmitFirst(kernel, job, first);
    ghost var completed;
    log, completed, services := RunJob(kernel, engine, job, graph, start, log, [first]);
    fate := if completed then Done(hasBuild) else Broken(hasBuild);
    assert [first] + Sequel(completed) == Events(fate);
  }

  lemma GraphKeys(dep: PayloadDeployment, store: Store)
    ensures Compiled(SpecOf(dep), Some(store)).services.Keys == ServicesOf(dep.services).Keys
  {
    CompileKeepsKeys(SpecOf(dep), Some(store));
  }

  /** processDeployment; no payload stands for one that does not parse, and `runner` and `ping`
      say whether a runner can be made and the daemon answers. */
  method ProcessDeployment(kernel: Kernel, engine: Engine, store: Store, payload: Option<ApplyPayload>,
                           runner: bool, ping: bool)
    returns (ghost log: seq<Attempt>, ghost fate: Fate, ghost services: seq<string>)
    modifies kernel, engine
    ensures kernel.attempts == old(kernel.attempts) + log
    ensures payload.None? ==> log == [] && engine.View() == old(engine.View())
    ensures payload.Some? ==>
              var dep := payload.value.deployment;
              && Among(services, ServicesOf(dep.services).Keys)
              && Visits(ServicesOf(dep.services).Keys, services, fate.Done?)
              && (engine.View(), fate)
                 == Processed(old(engine.View()), engine.world, dep, store, runner, ping, services)
              && Carries(log, Job(payload.value.jobId, dep.id, dep.version), Events(fate))
  {
    log, services, fate := [], [], NeverCompiled;
    if payload.None? {
      return;
    }
    var dep := payload.value.deployment;
    var job := Job(payload.value.jobId, dep.id, dep.version);
    var collected := CollectServices(dep.services);
    var spec := Spec(dep.id, dep.slug, Decimal(dep.version), dep.source, collected, map[], map[]);
    var graph := Compile(Some(spec), Some(store));
    if graph.Err? {
      VisitsNone(collected.Keys);
      log := EmitFirst(kernel, job, Finished(false, NotCompiled));
      return;
    }
    GraphKeys(dep, store);
    log, fate, services := Launch(kernel, engine, job, graph.value, collected, runner, ping);
  }

  /** processDeploymentDelete: an event without a slug touches nothing. */
  method ProcessDeploymentDelete(engine: Engine, payload: Option<DeletePayload>, runner: bool)
    returns (ghost order: seq<Id>)
    modifies engine
    ensures payload.None? || payload.value.slug == "" || !runner ==> engine.View() == old(engine.View())
    ensures payload.Some? && payload.value.slug != "" && runner ==>
              && IsOrder(order, old(engine.containers).Keys) && Lists(order, old(engine.containers))
              && engine.View() == Stopped(old(engine.View()), engine.world, payload.value.slug, order).0
  {
    order := [];
    if payload.None? || payload.value.slug == "" || !runner {
      return;
    }
    var err, stopped, errors;
    err, stopped, errors, order := Stop(engine, payload.value.slug);
  }

  // ---------------------------------------------------------------- what the kernel knows of a job

  function Rank(e: Event): nat {
    match e
    case Progressed(stage) => (match stage case Building => 0 case Pulling => 0 case Starting => 1 case Deployed => 2)
    case Finished(_, _) => 3
  }

  predicate Ranked(events: seq<Event>) {
    forall i, j :: 0 <= i < j < |events| ==> Rank(events[i]) < Rank(events[j])
  }

  lemma {:induction false} SubsequenceRanked(a: seq<Event>, b: seq<Event>)
    requires Subsequence(a, b) && Ranked(b)
    ensures Ranked(a)
    decreases |b|
  {
    if a != [] && b != [] {
      var m, n := |a| - 1, |b| - 1;
      if Subsequence(a, b[..n]) {
        SubsequenceRanked(a, b[..n]);
      } else {
        SubsequenceRanked(a[..m], b[..n]);
        SubsequenceOnly(a[..m], b[..n]);
        forall i | 0 <= i < m ensures Rank(a[i]) < Rank(a[m]) {
          assert a[i] in a[..m];
        }
      }
    }
  }

  /** What the kernel may conclude from an event of a job. */
  predicate Truthful(e: Event, fate: Fate) {
    match e
    case Finished(success, _) => success <==> fate.Done?
    case Progressed(stage) => stage.Building? || stage.Pulling? || fate.Done?
  }

  /** No call goes back to an event before those of the calls made. */
  predicate NeverBack(log: seq<Attempt>) {
    forall i, j :: 0 <= i < j < |log| ==> Rank(log[i].event) <= Rank(log[j].event)
  }

  lemma {:induction false} CallsInOrder(log: seq<Attempt>, job: Job, events: seq<Event>)
    requires Carries(log, job, events) && Ranked(events)
    ensures NeverBack(log)
    decreases |events|
  {
    if events != [] {
      var n := |events| - 1;
      var head, burst := CarriesSplit(log, job, events);
      CallsInOrder(head, job, events[..n]);
      CallsBounded(head, job, events[..n]);
      forall i | 0 <= i < |head| ensures Rank(head[i].event) <= Rank(events[n]) {
        assert head[i].event in events[..n];
      }
    }
  }

  /** The protocol of one job, in at most fourteen calls. Whether or not the kernel acknowledges
      them, the calls it gets are truthful and in the order of building or pulling, starting,
      deployed and the result; what it acknowledges, it does at most once each. */
  lemma JobProtocol(log: seq<Attempt>, job: Job, fate: Fate)
    requires Carries(log, job, Events(fate))
    ensures |log| <= 14 && NeverBack(log) && forall i :: 0 <= i < |log| ==> Truthful(log[i].event, fate)
    ensures Ranked(Acknowledged(log)) && forall e :: e in Acknowledged(log) ==> Truthful(e, fate)
  {
    var events := Events(fate);
    FateFacts(fate);
    AcknowledgedInOrder(log, job, events);
    SubsequenceOnly(Acknowledged(log), events);
    SubsequenceRanked(Acknowledged(log), events);
    CallsBounded(log, job, events);
    CallsInOrder(log, job, events);
  }

  lemma FateFacts(fate: Fate)
    ensures Ranked(Events(fate)) && Limits(Events(fate)) <= 14 && forall e :: e in Events(fate) ==> Truthful(e, fate)
  {
    JobLimits(Events(fate));
    assert |Events(fate)| <= 4;
  }

  lemma {:induction false} LimitsOfProgress(events: seq<Event>)
    requires forall i :: 0 <= i < |events| ==> events[i].Progressed?
    ensures Limits(events) == 3 * |events|
    decreases |events|
  {
    if events != [] {
      LimitsOfProgress(events[..|events| - 1]);
    }
  }

  /** Three calls for each stage and five for the result. */
  lemma JobLimits(events: seq<Event>)
    requires events != [] && events[|events| - 1].Finished?
    requires forall i :: 0 <= i < |events| - 1 ==> events[i].Progressed?
    ensures Limits(events) == 3 * |events| + 2
  {
    LimitsOfProgress(events[..|events| - 1]);
  }

  /** The events of a job that never runs, of one that fails, and of one that is done: the
      result alone; the first stage and the result; all stages and the result. */
  lemma TraceExactly(fate: Fate)
    ensures var events := Events(fate);
            && |events| == (if fate.Done? then 4 else if fate.Broken? then 2 else 1)
            && events[|events| - 1].Finished?
            && (fate.Broken? || fate.Done? ==>
                  events[0] == (if fate.built then Progressed(Building) else Progressed(Pulling)))
            && (fate.Done? ==> events[1] == Progressed(Starting) && events[2] == Progressed(Stage.Deployed))
            && (events[|events| - 1].success <==> fate.Done?)
  {
  }

  /** How far a job gets, and what it does to the daemon: nothing unless the spec compiles, a
      runner can be made and the daemon answers; then what executing the graph does. Its first
      stage is "building" exactly when a service that is deployed is to be built. */
  lemma FateExactly(d: Daemon, w: World, dep: PayloadDeployment, store: Store, runner: bool, ping: bool,
                    services: seq<string>)
    requires Among(services, ServicesOf(dep.services).Keys)
    ensures var spec, (e, fate) := SpecOf(dep), Processed(d, w, dep, store, runner, ping, services);
            && (fate == NeverCompiled <==> !Compiles(Some(spec), Some(store)))
            && (fate == NeverRun(NoRunner) <==> Compiles(Some(spec), Some(store)) && !runner)
            && (fate == NeverRun(Unreachable) <==> Compiles(Some(spec), Some(store)) && runner && !ping)
            && (fate.NeverCompiled? || fate.NeverRun? ==> e == d)
            && (fate.Broken? || fate.Done? ==>
                  && Compiles(Some(spec), Some(store)) && runner && ping
                  && var result := Executed(d, w, Compiled(spec, Some(store)), [], services);
                     e == result.0 && (fate.Done? <==> result.1.status == Completed))
            && (fate.Broken? || fate.Done? ==>
                  (fate.built <==> exists i: nat :: LastNamed(dep.services, i) && dep.services[i].spec.build.Some?))
  {
    BuildsExactly(dep.services);
  }

  lemma BuildsExactly(list: seq<PayloadService>)
    ensures HasBuild(ServicesOf(list)) <==> exists i: nat :: LastNamed(list, i) && list[i].spec.build.Some?
  {
    if name :| name in ServicesOf(list) && ServicesOf(list)[name].build.Some? {
      var i := NamedOnly(list, name);
      LastWins(list, i);
    }
    if i: nat :| LastNamed(list, i) && list[i].spec.build.Some? {
      LastWins(list, i);
    }
  }

  // ---------------------------------------------------------------- what jobs come to

  lemma PayloadGraph(dep: PayloadDeployment, store: Store)
    requires Compiles(Some(SpecOf(dep)), Some(store))
    ensures var g := Compiled(SpecOf(dep), Some(store));
            ValidGraph(g) <==>
              && ServicesOf(dep.services) != map[]
              && forall name :: name in ServicesOf(dep.services) ==>
                   var svc := ServicesOf(dep.services)[name];
                   (svc.image != "" || svc.build.Some?) && svc.networks == []
  {
    var spec := SpecOf(dep);
    CompiledGraphValidExactly(spec, Some(store));
    forall name | name in spec.services
      ensures (forall network :: network in spec.services[name].networks ==> network in spec.networks)
         <==> spec.services[name].networks == []
    {
      var networks := spec.services[name].networks;
      assert networks != [] ==> networks[0] in networks;
    }
  }

  /** A job is reported successful only if no service names a network: the payload's networks
      are not passed on, so that naming one is an error whatever the payload declares. */
  lemma NetworksNeverSucceed(d: Daemon, w: World, dep: PayloadDeployment, store: Store, runner: bool, ping: bool,
                             services: seq<string>, name: string)
    requires Among(services, ServicesOf(dep.services).Keys)
    requires name in ServicesOf(dep.services) && ServicesOf(dep.services)[name].networks != []
    ensures var (e, fate) := Processed(d, w, dep, store, runner, ping, services);
            e == d && !fate.Done?
  {
    if Compiles(Some(SpecOf(dep)), Some(store)) {
      PayloadGraph(dep, store);
    }
  }

  /** With a runner, a daemon that answers and every call succeeding, exactly these payloads
      are reported deployed. */
  lemma SucceedsExactly(d: Daemon, w: World, dep: PayloadDeployment, store: Store,
                        services: seq<string>, done: set<string>)
    requires WellFormed(d) && AllGood(w) && Among(services, ServicesOf(dep.services).Keys)
    requires done <= ServicesOf(dep.services).Keys && IsOrder(services, done)
    requires Processed(d, w, dep, store, true, true, services).1.Done? ==> done == ServicesOf(dep.services).Keys
    ensures Processed(d, w, dep, store, true, true, services).1.Done? <==>
              && dep.id != "" && ServicesOf(dep.services) != map[]
              && forall name :: name in ServicesOf(dep.services) ==>
                   var svc := ServicesOf(dep.services)[name];
                   && EnvResolves(svc.environment, Some(store)) && svc.networks == []
                   && (svc.image != "" || svc.build.Some?)
                   && (svc.build.Some? ==> dep.source.Some? && dep.source.value.archiveUrl != "")
  {
    var spec := SpecOf(dep);
    if Compiles(Some(spec), Some(store)) {
      var g := Compiled(spec, Some(store));
      PayloadGraph(dep, store);
      CompletesExactly(d, w, g, [], services, done);
      forall name | name in spec.services
        ensures g.services[name].build == spec.services[name].build
        ensures HasArchive(g.services[name]) <==> dep.source.Some? && dep.source.value.archiveUrl != ""
      {
      }
    }
  }

  /** A job that reports success has left, under the name of each of its services, exactly one
      container, made for it, running or not. */
  lemma SuccessMeansContainers(d: Daemon, w: World, dep: PayloadDeployment, store: Store, runner: bool, ping: bool,
                               services: seq<string>, name: string)
    requires WellFormed(d) && Among(services, ServicesOf(dep.services).Keys)
    requires IsOrder(services, ServicesOf(dep.services).Keys) && name in ServicesOf(dep.services)
    requires Processed(d, w, dep, store, runner, ping, services).1.Done?
    ensures var e := Processed(d, w, dep, store, runner, ping, services).0;
            var wanted := Wanted(w, Compiled(SpecOf(dep), Some(store)), name);
            Serves(e, wanted) && wanted.name == ContainerName(dep.slug, name)
  {
    GraphKeys(dep, store);
    var g, built := Compiled(SpecOf(dep), Some(store)), HasBuild(ServicesOf(dep.services));
    LaunchedHas(d, w, g, built, runner, ping, services, name);
  }

  lemma LaunchedHas(d: Daemon, w: World, g: Graph, built: bool, runner: bool, ping: bool,
                    services: seq<string>, name: string)
    requires WellFormed(d) && Among(services, g.services.Keys) && IsOrder(services, g.services.Keys)
    requires name in g.services && Launched(d, w, g, built, runner, ping, services).1.Done?
    ensures Serves(Launched(d, w, g, built, runner, ping, services).0, Wanted(w, g, name))
    ensures Wanted(w, g, name).name == ContainerName(g.slug, name)
  {
    CompletedHas(d, w, g, services, name);
  }

  /** The container is there, running or not. */
  ghost predicate Serves(d: Daemon, wanted: Container) {
    WellFormed(d) && (Has(d, wanted) || Has(d, wanted.(running := true)))
  }

  lemma CompletedHas(d: Daemon, w: World, g: Graph, services: seq<string>, name: string)
    requires WellFormed(d) && Among(services, g.services.Keys) && IsOrder(services, g.services.Keys)
    requires name in g.services && Executed(d, w, g, [], services).1.status.Completed?
    ensures var e := Executed(d, w, g, [], services).0;
            var wanted := Wanted(w, g, name);
            Serves(e, wanted) && wanted.name == ContainerName(g.slug, name)
  {
    CompletedExactly(d, w, g, [], services, Wanted(w, g, name));
  }

  lemma {:induction false} NoBinds(g: Graph, mounts: seq<string>)
    requires g.volumes == map[]
    ensures Binds(g, mounts) == []
    decreases |mounts|
  {
    if mounts != [] {
      NoBinds(g, mounts[..|mounts| - 1]);
    }
  }

  lemma MountlessGraph(d: Daemon, w: World, g: Graph, services: seq<string>, done: set<string>, id: Id)
    requires WellFormed(d) && ValidGraph(g) && g.volumes == map[] && Among(services, g.services.Keys)
    requires IsOrder(services, done) && id in Executed(d, w, g, [], services).0.containers
    ensures var e := Executed(d, w, g, [], services).0;
            (id in d.containers && e.containers[id] == d.containers[id]) || e.containers[id].binds == []
  {
    var e := Executed(d, w, g, [], services).0;
    ExecuteMakes(d, w, g, [], services, done);
    if n :| n in g.services && e.containers[id].(running := false) == Wanted(w, g, n) {
      NoBinds(g, g.services[n].volumeMounts);
    }
  }

  /** No job creates or changes a volume, and no container it makes has one mounted, whatever
      the payload declares. */
  lemma VolumesNeverMounted(d: Daemon, w: World, dep: PayloadDeployment, store: Store, runner: bool, ping: bool,
                            services: seq<string>, done: set<string>)
    requires WellFormed(d) && Among(services, ServicesOf(dep.services).Keys)
    requires IsOrder(services, done)
    ensures var e := Processed(d, w, dep, store, runner, ping, services).0;
            && e.volumes == d.volumes
            && forall id :: id in e.containers ==>
                 (id in d.containers && e.containers[id] == d.containers[id]) || e.containers[id].binds == []
  {
    var spec := SpecOf(dep);
    var g := Compiled(spec, Some(store));
    if Compiles(Some(spec), Some(store)) && runner && ping && ValidGraph(g) {
      ExecuteKeepsVolumes(d, w, g, services, done);
      forall id | id in Executed(d, w, g, [], services).0.containers {
        MountlessGraph(d, w, g, services, done, id);
      }
    }
  }

  lemma ExecuteKeepsVolumes(d: Daemon, w: World, g: Graph, services: seq<string>, done: set<string>)
    requires WellFormed(d) && ValidGraph(g) && Among(services, g.services.Keys) && IsOrder(services, done)
    ensures Executed(d, w, g, [], services).0.volumes == d.volumes
  {
    OrderFacts(services, done);
    LoopKeepsFrame(d, w, g, services);
  }
}
