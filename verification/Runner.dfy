/** Executing a compiled graph, stopping a deployment, and restarting what has stopped
    (internal/runner/runner.go:27-314, 334-440, 568-690). */
module Runner {
  import opened Basics
  import opened Wrappers
  import opened Compiler
  import opened Docker

  // ---------------------------------------------------------------- what a service becomes

  function ContainerName(slug: string, service: string): string {
    slug + "-" + service
  }

  function VolumeName(slug: string, volume: string): string {
    slug + "_" + volume
  }

  /** strings.SplitN(s, ":", 2) when it gives two parts. */
  function SplitColon(s: string): Option<(string, string)> {
    if s == "" then None
    else if s[0] == ':' then Some(("", s[1..]))
    else
      var rest := SplitColon(s[1..]);
      if rest.None? then None else Some(([s[0]] + rest.value.0, rest.value.1))
  }

  /** Container port to host port on the loopback address; a later mapping of a port wins. */
  function PortBindings(w: World, ports: seq<string>): map<string, string> {
    if ports == [] then map[]
    else
      var earlier := PortBindings(w, ports[..|ports| - 1]);
      var parts := SplitColon(ports[|ports| - 1]);
      if parts.None? then earlier
      else
        var port := w.parsePort(parts.value.1 + "/tcp");
        if port.None? then earlier else earlier[port.value := parts.value.0]
  }

  /** Mounts of declared volumes, under their Docker names; anything else is dropped. */
  function Binds(g: Graph, mounts: seq<string>): seq<string> {
    if mounts == [] then []
    else
      var earlier := Binds(g, mounts[..|mounts| - 1]);
      var parts := SplitColon(mounts[|mounts| - 1]);
      if parts.None? || parts.value.0 !in g.volumes then earlier
      else earlier + [VolumeName(g.slug, parts.value.0) + ":" + parts.value.1]
  }

  function Labels(g: Graph, name: string): map<Label, string> {
    map[DeploymentIdLabel := g.deploymentId, SlugLabel := g.slug, ServiceLabel := name]
  }

  function Desired(w: World, g: Graph, name: string, image: string): Container
    requires name in g.services
  {
    var svc := g.services[name];
    Container(ContainerName(g.slug, name), [], image, svc.environment, PortBindings(w, svc.ports),
              Binds(g, svc.volumeMounts), Some(Labels(g, name)), false)
  }

  function ImageTag(slug: string, name: string, ref: string): string {
    slug + "/" + name + ":" + (if ref == "" then "local" else ref)
  }

  /** Whether buildImage gets as far as its first call. */
  predicate HasArchive(svc: ServiceNode) {
    svc.source.Some? && svc.source.value.archiveUrl != ""
  }

  function ImageOf(slug: string, name: string, svc: ServiceNode): string {
    if svc.build.Some? && svc.source.Some? then ImageTag(slug, name, svc.source.value.ref) else svc.image
  }

  // ---------------------------------------------------------------- one service

  datatype Failure =
    | BuildFailed
    | PullFailed(image: string)
    | CreateFailed(image: string)
    | StartFailed(image: string, id: Id)
    | ExitedAtOnce(image: string, id: Id, code: int)

  /** The Output entry of a service, with status "running" or "failed". */
  datatype Outcome = Running(image: string, id: Id) | Failed(failure: Failure)

  /** The image, or nothing if the build or the pull fails. */
  function Imaged(d: Daemon, w: World, svc: ServiceNode): (Daemon, bool) {
    if svc.build.Some? && !HasArchive(svc) then (d, false) else (Called(d), Good(w.answer(d.calls)))
  }

  /** Replacing whatever has the container's name, starting it and looking at it. */
  function Place(d: Daemon, w: World, c: Container): (Daemon, Outcome) {
    var d1 := RemovedByName(d, w, c.name);
    var (d2, id) := Created(d1, w, c);
    if id.None? then (d2, Failed(CreateFailed(c.image)))
    else
      var (d3, started) := StartedById(d2, w, id.value);
      if !started then (d3, Failed(StartFailed(c.image, id.value)))
      else
        var (d4, exited) := Inspected(d3, w, id.value);
        (d4, if exited.Some? then Failed(ExitedAtOnce(c.image, id.value, exited.value)) else Running(c.image, id.value))
  }

  function Wanted(w: World, g: Graph, name: string): Container
    requires name in g.services
  {
    Desired(w, g, name, ImageOf(g.slug, name, g.services[name]))
  }

  function Deploy(d: Daemon, w: World, g: Graph, name: string): (Daemon, Outcome)
    requires name in g.services
  {
    var svc := g.services[name];
    var (d1, imaged) := Imaged(d, w, svc);
    if imaged then Place(d1, w, Wanted(w, g, name))
    else (d1, Failed(if svc.build.Some? then BuildFailed else PullFailed(svc.image)))
  }

  // ---------------------------------------------------------------- a graph

  function VolumeOf(g: Graph, name: string): Volume
    requires name in g.volumes
  {
    Volume(if g.volumes[name].driver == "" then "local" else g.volumes[name].driver,
           map[DeploymentIdLabel := g.deploymentId, SlugLabel := g.slug])
  }

  predicate Among(order: seq<string>, names: set<string>) {
    forall i :: 0 <= i < |order| ==> order[i] in names
  }

  function VolumesMade(d: Daemon, w: World, g: Graph, order: seq<string>): Daemon
    requires Among(order, g.volumes.Keys)
  {
    if order == [] then d
    else
      var name := order[|order| - 1];
      VolumeCreated(VolumesMade(d, w, g, order[..|order| - 1]), w, VolumeName(g.slug, name), VolumeOf(g, name))
  }

  datatype Progress = Progress(daemon: Daemon, output: map<string, Outcome>, failed: bool)

  /** The loop over the services after `order`; it stops at the first failure. */
  function Deployed(d: Daemon, w: World, g: Graph, order: seq<string>): Progress
    requires Among(order, g.services.Keys)
  {
    if order == [] then Progress(d, map[], false)
    else
      var name := order[|order| - 1];
      var p := Deployed(d, w, g, order[..|order| - 1]);
      if p.failed then p
      else
        var (d', outcome) := Deploy(p.daemon, w, g, name);
        Progress(d', p.output[name := outcome], outcome.Failed?)
  }

  datatype Status = Completed | FailedStatus

  /** ExecutionResult; the output is absent when validation fails. */
  datatype ExecutionResult = ExecutionResult(deploymentId: string, status: Status, error: bool,
                                             output: Option<map<string, Outcome>>)

  function Executed(d: Daemon, w: World, g: Graph, volumes: seq<string>, services: seq<string>)
    : (Daemon, ExecutionResult)
    requires Among(volumes, g.volumes.Keys) && Among(services, g.services.Keys)
  {
    if !ValidGraph(g) then (d, ExecutionResult(g.deploymentId, FailedStatus, true, None))
    else
      var p := Deployed(VolumesMade(d, w, g, volumes), w, g, services);
      var status := if p.failed then FailedStatus else Completed;
      (p.daemon, ExecutionResult(g.deploymentId, status, p.failed, Some(p.output)))
  }

  /** The services visited are some of the names, each once, and all of them in a whole run. */
  ghost predicate Visits(names: set<string>, services: seq<string>, whole: bool) {
    && (exists done :: done <= names && IsOrder(services, done))
    && (whole ==> IsOrder(services, names))
  }

  lemma VisitsNone(names: set<string>)
    ensures Visits(names, [], false)
  {
    assert IsOrder<string>([], {});
  }

  // ---------------------------------------------------------------- stop and reconcile

  /** The names a listing shows. */
  function Names(c: Container): seq<string> {
    ["/" + c.name] + c.aliases
  }

  function Bare(name: string): string {
    if name != "" && name[0] == '/' then name[1..] else name
  }

  /** A missing label reads as the empty string. */
  function LabelOf(c: Container, key: Label): string {
    if c.labels.Some? && key in c.labels.value then c.labels.value[key] else ""
  }

  /** Whether Stop takes a container to belong to the slug. */
  predicate Matches(c: Container, slug: string) {
    || (c.labels.Some? && LabelOf(c, SlugLabel) == slug)
    || exists i :: 0 <= i < |Names(c)| && HasPrefix(Bare(Names(c)[i]), slug + "-")
  }

  function StoppedAndRemoved(d: Daemon, w: World, id: Id): (Daemon, bool) {
    var (d1, ok) := StoppedById(d, w, id);
    if !ok then (d1, false) else RemovedById(d1, w, id)
  }

  datatype Tally = Tally(daemon: Daemon, good: nat, bad: nat)

  /** The loop of Stop over a listing taken from `listed`. */
  function StopLoop(d: Daemon, w: World, listed: map<Id, Container>, slug: string, order: seq<Id>): Tally
    requires Lists(order, listed)
  {
    if order == [] then Tally(d, 0, 0)
    else
      var id := order[|order| - 1];
      var t := StopLoop(d, w, listed, slug, order[..|order| - 1]);
      if !Matches(listed[id], slug) then t
      else
        var (d', ok) := StoppedAndRemoved(t.daemon, w, id);
        if ok then Tally(d', t.good + 1, t.bad) else Tally(d', t.good, t.bad + 1)
  }

  predicate Managed(c: Container) {
    LabelOf(c, DeploymentIdLabel) != ""
  }

  /** The loop of ReconcileContainers over a listing taken from `listed`. */
  function RestartLoop(d: Daemon, w: World, listed: map<Id, Container>, order: seq<Id>): Tally
    requires Lists(order, listed)
  {
    if order == [] then Tally(d, 0, 0)
    else
      var id := order[|order| - 1];
      var t := RestartLoop(d, w, listed, order[..|order| - 1]);
      if !Managed(listed[id]) || listed[id].running then t
      else
        var (d', ok) := StartedById(t.daemon, w, id);
        if ok then Tally(d', t.good + 1, t.bad) else Tally(d', t.good, t.bad + 1)
  }

  /** Stop: the daemon, and the counts unless the listing fails. */
  function Stopped(d: Daemon, w: World, slug: string, order: seq<Id>): (Daemon, Option<Tally>)
    requires Lists(order, d.containers)
  {
    if !Good(w.answer(d.calls)) then (Called(d), None)
    else
      var t := StopLoop(Called(d), w, d.containers, slug, order);
      (t.daemon, Some(t))
  }

  /** ReconcileContainers: the daemon and the two counts. */
  function Reconciled(d: Daemon, w: World, order: seq<Id>): Tally
    requires Lists(order, d.containers)
  {
    if !Good(w.answer(d.calls)) then Tally(Called(d), 0, 1)
    else RestartLoop(Called(d), w, d.containers, order)
  }

  // ---------------------------------------------------------------- the code

  method MakePortBindings(w: World, ports: seq<string>) returns (bindings: map<string, string>)
    ensures bindings == PortBindings(w, ports)
  {
    bindings := map[];
    for i := 0 to |ports|
      invariant bindings == PortBindings(w, ports[..i])
    {
      assert ports[..i + 1][..i] == ports[..i];
      var parts := SplitColon(ports[i]);
      if parts.Some? {
        var port := w.parsePort(parts.value.1 + "/tcp");
        if port.Some? {
          bindings := bindings[port.value := parts.value.0];
        }
      }
    }
    assert ports[..|ports|] == ports;
  }

  method MakeBinds(g: Graph, mounts: seq<string>) returns (binds: seq<string>)
    ensures binds == Binds(g, mounts)
  {
    binds := [];
    for i := 0 to |mounts|
      invariant binds == Binds(g, mounts[..i])
    {
      assert mounts[..i + 1][..i] == mounts[..i];
      var parts := SplitColon(mounts[i]);
      if parts.Some? && parts.value.0 in g.volumes {
        binds := binds + [VolumeName(g.slug, parts.value.0) + ":" + parts.value.1];
      }
    }
    assert mounts[..|mounts|] == mounts;
  }

  /** The body of Execute's loop over the services. */
  method DeployService(engine: Engine, g: Graph, name: string) returns (outcome: Outcome)
    requires name in g.services
    modifies engine
    ensures (engine.View(), outcome) == Deploy(old(engine.View()), engine.world, g, name)
  {
    var svc := g.services[name];
    var containerName := ContainerName(g.slug, name);
    var imageRef := svc.image;
    if svc.build.Some? {
      if svc.source.None? || svc.source.value.archiveUrl == "" {
        return Failed(BuildFailed);
      }
      var built := engine.ImageCall();
      if !built {
        return Failed(BuildFailed);
      }
      imageRef := ImageTag(g.slug, name, svc.source.value.ref);
    } else {
      var pulled := engine.ImageCall();
      if !pulled {
        return Failed(PullFailed(imageRef));
      }
    }
    var portBindings := MakePortBindings(engine.world, svc.ports);
    var binds := MakeBinds(g, svc.volumeMounts);
    engine.ContainerRemoveForced(containerName);
    var id := engine.ContainerCreate(Container(containerName, [], imageRef, svc.environment, portBindings, binds,
                                               Some(Labels(g, name)), false));
    if id.None? {
      return Failed(CreateFailed(imageRef));
    }
    var started := engine.ContainerStart(id.value);
    if !started {
      return Failed(StartFailed(imageRef, id.value));
    }
    var exited := engine.ContainerInspect(id.value);
    if exited.Some? {
      return Failed(ExitedAtOnce(imageRef, id.value, exited.value));
    }
    return Running(imageRef, id.value);
  }

  method CreateVolumes(engine: Engine, g: Graph) returns (ghost order: seq<string>)
    modifies engine
    ensures IsOrder(order, g.volumes.Keys) && Among(order, g.volumes.Keys)
    ensures engine.View() == VolumesMade(old(engine.View()), engine.world, g, order)
  {
    order := [];
    var left := g.volumes.Keys;
    ghost var done: set<string> := {};
    while left != {}
      invariant left <= g.volumes.Keys && done == g.volumes.Keys - left
      invariant IsOrder(order, done) && Among(order, g.volumes.Keys)
      invariant engine.View() == VolumesMade(old(engine.View()), engine.world, g, order)
      decreases |left|
    {
      var name :| name in left;
      var driver := if g.volumes[name].driver == "" then "local" else g.volumes[name].driver;
      var _ := engine.VolumeCreate(VolumeName(g.slug, name),
        Volume(driver, map[DeploymentIdLabel := g.deploymentId, SlugLabel := g.slug]));
      assert (order + [name])[..|order|] == order;
      OrderAppend(order, done, name);
      order, done := order + [name], done + {name};
      left := left - {name};
    }
    assert done == g.volumes.Keys;
  }

  /** One turn of that loop: the service and its entry in the output. */
  method DeployNext(engine: Engine, g: Graph, name: string, output: map<string, Outcome>,
                    ghost start: Daemon, ghost order: seq<string>, ghost done: set<string>)
    returns (output': map<string, Outcome>, failed: bool)
    requires name in g.services && Among(order, g.services.Keys) && IsOrder(order, done) && name !in done
    requires Deployed(start, engine.world, g, order) == Progress(engine.View(), output, false)
    modifies engine
    ensures Among(order + [name], g.services.Keys) && IsOrder(order + [name], done + {name})
    ensures Deployed(start, engine.world, g, order + [name]) == Progress(engine.View(), output', failed)
  {
    OrderAppend(order, done, name);
    ghost var before := engine.View();
    var outcome := DeployService(engine, g, name);
    DeployedStep(start, engine.world, g, order, name, before, output);
    output' := output[name := outcome];
    failed := outcome.Failed?;
  }

  /** Execute's loop over the services, which stops at the first failure. */
  method DeployServices(engine: Engine, g: Graph)
    returns (output: map<string, Outcome>, failed: bool, ghost services: seq<string>, ghost done: set<string>)
    modifies engine
    ensures Among(services, g.services.Keys) && done <= g.services.Keys && IsOrder(services, done)
    ensures !failed ==> done == g.services.Keys
    ensures Deployed(old(engine.View()), engine.world, g, services) == Progress(engine.View(), output, failed)
  {
    ghost var start := engine.View();
    output, failed, services, done := map[], false, [], {};
    var left := g.services.Keys;
    while left != {} && !failed
      invariant left <= g.services.Keys && done == g.services.Keys - left
      invariant Among(services, g.services.Keys) && IsOrder(services, done)
      invariant Deployed(start, engine.world, g, services) == Progress(engine.View(), output, failed)
      decreases |left|
    {
      var name :| name in left;
      output, failed := DeployNext(engine, g, name, output, start, services, done);
      services, done := services + [name], done + {name};
      left := left - {name};
    }
  }

  /** Execute. `volumes` and `services` are the orders in which the maps were visited. */
  method Execute(engine: Engine, g: Graph)
    returns (result: ExecutionResult, err: bool, ghost volumes: seq<string>, ghost services: seq<string>)
    modifies engine
    ensures Among(volumes, g.volumes.Keys) && Among(services, g.services.Keys)
    ensures ValidGraph(g) ==> IsOrder(volumes, g.volumes.Keys)
    ensures Visits(g.services.Keys, services, result.status.Completed?)
    ensures (engine.View(), result) == Executed(old(engine.View()), engine.world, g, volumes, services)
    ensures err == result.error
  {
    var invalid := Validate(g);
    if invalid.Some? {
      VisitsNone(g.services.Keys);
      return ExecutionResult(g.deploymentId, FailedStatus, true, None), true, [], [];
    }
    volumes := CreateVolumes(engine, g);
    var output, failed;
    ghost var done;
    output, failed, services, done := DeployServices(engine, g);
    result := ExecutionResult(g.deploymentId, if failed then FailedStatus else Completed, failed, Some(output));
    err := failed;
  }

  lemma DeployedStep(start: Daemon, w: World, g: Graph, order: seq<string>, name: string,
                     d: Daemon, output: map<string, Outcome>)
    requires Among(order, g.services.Keys) && name in g.services
    requires Deployed(start, w, g, order) == Progress(d, output, false)
    ensures Among(order + [name], g.services.Keys)
    ensures var (e, outcome) := Deploy(d, w, g, name);
            Deployed(start, w, g, order + [name]) == Progress(e, output[name := outcome], outcome.Failed?)
  {
    assert (order + [name])[..|order|] == order;
  }

  method StopAndRemove(engine: Engine, id: Id) returns (ok: bool)
    modifies engine
    ensures (engine.View(), ok) == StoppedAndRemoved(old(engine.View()), engine.world, id)
  {
    var stopped := engine.ContainerStop(id);
    if !stopped {
      return false;
    }
    ok := engine.ContainerRemove(id);
  }

  /** The two tests of Stop's loop body: the label, then the names one by one. */
  method MatchesSlug(c: Container, slug: string) returns (matched: bool)
    ensures matched == Matches(c, slug)
  {
    if c.labels.Some? && LabelOf(c, SlugLabel) == slug {
      return true;
    }
    for i := 0 to |Names(c)|
      invariant forall j :: 0 <= j < i ==> !HasPrefix(Bare(Names(c)[j]), slug + "-")
    {
      if HasPrefix(Bare(Names(c)[i]), slug + "-") {
        return true;
      }
    }
    return false;
  }

  /** Stop; `order` is the order of the listing. */
  method Stop(engine: Engine, slug: string) returns (err: bool, stopped: nat, errors: nat, ghost order: seq<Id>)
    modifies engine
    ensures IsOrder(order, old(engine.containers).Keys) && Lists(order, old(engine.containers))
    ensures var (d, t) := Stopped(old(engine.View()), engine.world, slug, order);
            && engine.View() == d
            && err == (t.None? || t.value.bad > 0)
            && (t.Some? ==> stopped == t.value.good && errors == t.value.bad)
  {
    ghost var listed := engine.containers;
    ghost var start := Called(engine.View());
    stopped, errors := 0, 0;
    var items;
    items, order := engine.ContainerList();
    if items.None? {
      return true, 0, 0, order;
    }
    for i := 0 to |items.value|
      invariant StopLoop(start, engine.world, listed, slug, order[..i]) == Tally(engine.View(), stopped, errors)
    {
      assert order[..i + 1][..i] == order[..i];
      var (id, c) := items.value[i];
      var matched := MatchesSlug(c, slug);
      if matched {
        var ok := StopAndRemove(engine, id);
        if ok {
          stopped := stopped + 1;
        } else {
          errors := errors + 1;
        }
      }
    }
    assert order[..|order|] == order;
    err := errors > 0;
  }

  /** The body of ReconcileContainers' loop. */
  method ReconcileOne(engine: Engine, id: Id, c: Container) returns (restarted: nat, errors: nat)
    modifies engine
    ensures if !Managed(c) || c.running then engine.View() == old(engine.View()) && restarted == errors == 0
            else var (d, ok) := StartedById(old(engine.View()), engine.world, id);
                 engine.View() == d && restarted == (if ok then 1 else 0) && errors == 1 - restarted
  {
    if c.labels.None? || LabelOf(c, DeploymentIdLabel) == "" || c.running {
      return 0, 0;
    }
    var ok := engine.ContainerStart(id);
    return if ok then 1 else 0, if ok then 0 else 1;
  }

  /** ReconcileContainers; `order` is the order of the listing. */
  method ReconcileContainers(engine: Engine) returns (restarted: nat, errCount: nat, ghost order: seq<Id>)
    modifies engine
    ensures IsOrder(order, old(engine.containers).Keys) && Lists(order, old(engine.containers))
    ensures Reconciled(old(engine.View()), engine.world, order) == Tally(engine.View(), restarted, errCount)
  {
    ghost var listed := engine.containers;
    ghost var start := Called(engine.View());
    restarted, errCount := 0, 0;
    var items;
    items, order := engine.ContainerList();
    if items.None? {
      return 0, 1, order;
    }
    for i := 0 to |items.value|
      invariant RestartLoop(start, engine.world, listed, order[..i]) == Tally(engine.View(), restarted, errCount)
    {
      assert order[..i + 1][..i] == order[..i];
      var (id, c) := items.value[i];
      var good, bad := ReconcileOne(engine, id, c);
      restarted, errCount := restarted + good, errCount + bad;
    }
    assert order[..|order|] == order;
  }
}
