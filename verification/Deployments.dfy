/** What executing a graph changes and what it does not: results, frames, order
    independence and redeploys (internal/runner/runner.go:63-314). */
module Deployments {
  import opened Basics
  import opened Wrappers
  import opened Compiler
  import opened Docker
  import opened Runner

  // ---------------------------------------------------------------- names

  /** Container and volume names tell services and volumes of one slug apart. */
  lemma NamesInjective(slug: string, a: string, b: string)
    ensures ContainerName(slug, a) == ContainerName(slug, b) <==> a == b
    ensures VolumeName(slug, a) == VolumeName(slug, b) <==> a == b
  {
    var n := |slug| + 1;
    assert ContainerName(slug, a)[n..] == a && ContainerName(slug, b)[n..] == b;
    assert VolumeName(slug, a)[n..] == a && VolumeName(slug, b)[n..] == b;
  }

  lemma SharedStart(sep: char, a: string, b: string, x: string, y: string)
    requires a != b && a + [sep] + x == b + [sep] + y && |a| <= |b|
    ensures HasPrefix(b, a + [sep])
  {
    var full, n := b + [sep] + y, |a| + 1;
    assert full[..n] == a + [sep] && full[..|b|] == b;
    assert full[..n][..|a|] == a == full[..|a|];
    if |a| < |b| {
      assert b[..n] == full[..n];
    }
  }

  /** Names joined by a separator collide, for some pair of names, exactly when one of the two
      beginnings is the other with the separator and anything. */
  lemma JoinedNamesCollide(sep: char, a: string, b: string)
    requires a != b
    ensures (exists x: string, y: string :: a + [sep] + x == b + [sep] + y)
       <==> HasPrefix(a, b + [sep]) || HasPrefix(b, a + [sep])
  {
    if x: string, y: string :| a + [sep] + x == b + [sep] + y {
      if |a| <= |b| {
        SharedStart(sep, a, b, x, y);
      } else {
        SharedStart(sep, b, a, y, x);
      }
    }
    if HasPrefix(b, a + [sep]) {
      var x := b[|a| + 1..] + [sep];
      assert a + [sep] + x == b + [sep] + "";
    }
    if HasPrefix(a, b + [sep]) {
      var y := a[|b| + 1..] + [sep];
      assert a + [sep] + "" == b + [sep] + y;
    }
  }

  /** Different slugs can share the name of a container exactly when one is the other with a
      hyphen and anything, and of a volume exactly when it is with an underscore. */
  lemma SlugsShareNamesExactly(slug: string, theirs: string)
    requires slug != theirs
    ensures (exists a, b :: ContainerName(slug, a) == ContainerName(theirs, b))
       <==> HasPrefix(slug, theirs + "-") || HasPrefix(theirs, slug + "-")
    ensures (exists a, b :: VolumeName(slug, a) == VolumeName(theirs, b))
       <==> HasPrefix(slug, theirs + "_") || HasPrefix(theirs, slug + "_")
  {
    JoinedNamesCollide('-', slug, theirs);
    JoinedNamesCollide('_', slug, theirs);
    forall a, b
      ensures ContainerName(slug, a) == ContainerName(theirs, b) <==> slug + ['-'] + a == theirs + ['-'] + b
      ensures VolumeName(slug, a) == VolumeName(theirs, b) <==> slug + ['_'] + a == theirs + ['_'] + b
    {
    }
  }

  // ---------------------------------------------------------------- one service

  /** From `d` to `e` containers of other names than `c`'s are the same, and every container
      is an old one unchanged or a new one made as `c`, running or not. */
  ghost predicate Frame(d: Daemon, e: Daemon, c: Container) {
    && WellFormed(e) && e.volumes == d.volumes && d.nextId <= e.nextId
    && (forall id :: id in d.containers && d.containers[id].name != c.name ==> id in e.containers)
    && (forall id :: id in e.containers ==>
          if id < d.nextId then id in d.containers && e.containers[id] == d.containers[id]
          else e.containers[id].(running := false) == c)
  }

  lemma FrameCreate(d: Daemon, e: Daemon, w: World, c: Container)
    requires Frame(d, e, c) && !c.running
    ensures var (e', id) := Created(e, w, c);
            Frame(d, e', c) && (id.Some? ==> id.value in e'.containers && d.nextId <= id.value)
  {
  }

  lemma FrameStart(d: Daemon, e: Daemon, w: World, c: Container, id: Id)
    requires Frame(d, e, c) && id in e.containers && d.nextId <= id
    ensures var (e', _) := StartedById(e, w, id); Frame(d, e', c) && id in e'.containers
  {
  }

  lemma FrameInspect(d: Daemon, e: Daemon, w: World, c: Container, id: Id)
    requires Frame(d, e, c) && id in e.containers && d.nextId <= id
    ensures var (e', _) := Inspected(e, w, id); Frame(d, e', c) && id in e'.containers
  {
  }

  lemma PlaceFrame(d: Daemon, w: World, c: Container)
    requires WellFormed(d) && !c.running
    ensures var (e, outcome) := Place(d, w, c);
            && Frame(d, e, c) && GotImage(outcome)
            && (outcome.Running? ==> outcome.id in e.containers && d.nextId <= outcome.id)
  {
    var d1 := RemovedByName(d, w, c.name);
    assert Frame(d, d1, c);
    FrameCreate(d, d1, w, c);
    var (d2, id) := Created(d1, w, c);
    if id.Some? {
      FrameStart(d, d2, w, c, id.value);
      var (d3, started) := StartedById(d2, w, id.value);
      FrameInspect(d, d3, w, c, id.value);
    }
  }

  /** When a service is reported running: the old container was gone, create and start worked,
      and an inspection that worked did not show an exit. It then runs, unless it has exited
      and the inspection failed. */
  lemma PlaceRunsExactly(d: Daemon, w: World, c: Container)
    requires WellFormed(d) && !c.running
    ensures var k, (e, outcome) := d.calls, Place(d, w, c);
            && (outcome.Running? <==>
                  && (w.answer(k).effect || !Taken(d, c.name))
                  && Good(w.answer(k + 1)) && Good(w.answer(k + 2))
                  && !(w.answer(k + 3).reported && w.answer(k + 3).exited.Some?))
            && (outcome.Running? && outcome.id in e.containers ==>
                  (e.containers[outcome.id].running <==> w.answer(k + 3).exited.None?))
  {
    var d1 := RemovedByName(d, w, c.name);
    if w.answer(d.calls).effect {
      assert !Taken(d1, c.name);
    } else {
      assert Taken(d1, c.name) <==> Taken(d, c.name);
    }
  }

  predicate GotImage(outcome: Outcome) {
    outcome.Failed? ==> !outcome.failure.BuildFailed? && !outcome.failure.PullFailed?
  }

  /** Deploying a service, with any failures: only containers of its name are touched, what
      is new is made for it, and without an image nothing is touched. */
  lemma DeployFrame(d: Daemon, w: World, g: Graph, name: string)
    requires name in g.services && WellFormed(d)
    ensures var (e, outcome) := Deploy(d, w, g, name);
            && Frame(d, e, Wanted(w, g, name))
            && (outcome.Running? ==> outcome.id in e.containers && d.nextId <= outcome.id)
            && (!GotImage(outcome) ==> e.containers == d.containers)
  {
    var (d1, imaged) := Imaged(d, w, g.services[name]);
    if imaged {
      PlaceFrame(d1, w, Wanted(w, g, name));
    }
  }

  // ---------------------------------------------------------------- one service, by the answers

  /** The image a service runs: the one named, or the one built, tagged by slug, service and ref. */
  function ImageName(g: Graph, name: string): string
    requires name in g.services
  {
    var svc := g.services[name];
    if svc.build.Some? && svc.source.Some?
    then g.slug + "/" + name + ":" + (if svc.source.value.ref == "" then "local" else svc.source.value.ref)
    else svc.image
  }

  /** Every setting of the container that is wanted for a service. */
  lemma WantedFields(w: World, g: Graph, name: string)
    requires name in g.services
    ensures var c, svc := Wanted(w, g, name), g.services[name];
            && c.name == g.slug + "-" + name && c.aliases == [] && !c.running
            && c.image == ImageName(g, name) && c.env == svc.environment
            && c.ports == PortBindings(w, svc.ports) && c.binds == Binds(g, svc.volumeMounts)
            && c.labels.Some? && c.labels.value.Keys == {DeploymentIdLabel, SlugLabel, ServiceLabel}
            && c.labels.value[DeploymentIdLabel] == g.deploymentId
            && c.labels.value[SlugLabel] == g.slug && c.labels.value[ServiceLabel] == name
  {
  }

  /** Every setting of the volume that is made for a declared one. */
  lemma VolumeFields(g: Graph, name: string)
    requires name in g.volumes
    ensures var v := VolumeOf(g, name);
            && (g.volumes[name].driver != "" ==> v.driver == g.volumes[name].driver)
            && (g.volumes[name].driver == "" ==> v.driver == "local")
            && v.labels.Keys == {DeploymentIdLabel, SlugLabel}
            && v.labels[DeploymentIdLabel] == g.deploymentId && v.labels[SlugLabel] == g.slug
  {
  }

  /** The image can be had: a pull that works, or a build that has an archive and works. */
  predicate ImageHad(svc: ServiceNode, a: Answer) {
    (svc.build.Some? ==> svc.source.Some? && svc.source.value.archiveUrl != "") && a.effect && a.reported
  }

  /** A service whose image is not had fails and leaves containers and volumes as they are. */
  lemma DeployWithoutImage(d: Daemon, w: World, g: Graph, name: string)
    requires name in g.services && !ImageHad(g.services[name], w.answer(d.calls))
    ensures var (e, outcome) := Deploy(d, w, g, name);
            && outcome
               == Failed(if g.services[name].build.Some? then BuildFailed else PullFailed(g.services[name].image))
            && e.containers == d.containers && e.volumes == d.volumes && e.nextId == d.nextId
  {
  }

  predicate Creates(d: Daemon, w: World, name: string, k: nat) {
    (w.answer(k).effect || !Taken(d, name)) && w.answer(k + 1).effect && w.answer(k + 1).reported
  }

  predicate Starts(w: World, k: nat) {
    w.answer(k).effect && w.answer(k).reported
  }

  predicate SeenExited(w: World, k: nat) {
    w.answer(k).reported && w.answer(k).exited.Some?
  }

  /** What becomes of a service, by the answers to its five calls: image, removal of the old
      container, creation, start and inspection. */
  lemma DeployOutcome(d: Daemon, w: World, g: Graph, name: string)
    requires name in g.services && WellFormed(d)
    ensures var k, image, outcome := d.calls, ImageName(g, name), Deploy(d, w, g, name).1;
            var had := ImageHad(g.services[name], w.answer(k));
            var created := Creates(d, w, g.slug + "-" + name, k + 1);
            && (!had ==> outcome.Failed? && (outcome.failure.BuildFailed? || outcome.failure.PullFailed?))
            && (had && !created ==> outcome == Failed(CreateFailed(image)))
            && (had && created && !Starts(w, k + 3) ==> outcome == Failed(StartFailed(image, d.nextId)))
            && (had && created && Starts(w, k + 3) && SeenExited(w, k + 4) ==>
                  outcome == Failed(ExitedAtOnce(image, d.nextId, w.answer(k + 4).exited.value)))
            && (had && created && Starts(w, k + 3) && !SeenExited(w, k + 4) ==> outcome == Running(image, d.nextId))
  {
    if ImageHad(g.services[name], w.answer(d.calls)) {
      PlaceOutcome(Called(d), w, Wanted(w, g, name));
    } else {
      DeployWithoutImage(d, w, g, name);
    }
  }

  lemma PlaceOutcome(d: Daemon, w: World, c: Container)
    requires WellFormed(d)
    ensures var k, outcome := d.calls, Place(d, w, c).1;
            var created := Creates(d, w, c.name, k);
            && (!created ==> outcome == Failed(CreateFailed(c.image)))
            && (created && !Starts(w, k + 2) ==> outcome == Failed(StartFailed(c.image, d.nextId)))
            && (created && Starts(w, k + 2) && SeenExited(w, k + 3) ==>
                  outcome == Failed(ExitedAtOnce(c.image, d.nextId, w.answer(k + 3).exited.value)))
            && (created && Starts(w, k + 2) && !SeenExited(w, k + 3) ==> outcome == Running(c.image, d.nextId))
  {
    var d1 := RemovedByName(d, w, c.name);
    if w.answer(d.calls).effect {
      assert !Taken(d1, c.name);
    } else {
      assert Taken(d1, c.name) <==> Taken(d, c.name);
    }
  }

  // ---------------------------------------------------------------- the graph, with any failures

  /** The containers wanted for the services of a graph. */
  type Wants = map<string, Container>

  function WantsOf(w: World, g: Graph): Wants {
    map n | n in g.services :: Wanted(w, g, n)
  }

  ghost predicate DistinctNames(wants: Wants) {
    forall a, b :: a in wants && b in wants && wants[a].name == wants[b].name ==> a == b
  }

  lemma WantsDistinct(w: World, g: Graph)
    ensures DistinctNames(WantsOf(w, g))
  {
    forall a, b | a in g.services && b in g.services && Wanted(w, g, a).name == Wanted(w, g, b).name ensures a == b {
      NamesInjective(g.slug, a, b);
    }
  }

  /** A service got its image, so that the containers of this name were touched. */
  predicate Reached(wants: Wants, output: map<string, Outcome>, containerName: string) {
    exists n :: n in output && n in wants && GotImage(output[n]) && containerName == wants[n].name
  }

  predicate MadeFor(wants: Wants, output: map<string, Outcome>, c: Container) {
    exists n :: n in output && n in wants && c.(running := false) == wants[n]
  }

  /** From `d` to `e`: volumes are the same; a container whose name was not reached is the
      same; every container is an old one unchanged or one made for a service; a service
      reported running has the container made for it, under its name. */
  ghost predicate LoopFrame(d: Daemon, e: Daemon, wants: Wants, output: map<string, Outcome>) {
    && WellFormed(e) && e.volumes == d.volumes && d.nextId <= e.nextId
    && (forall id :: id in d.containers && !Reached(wants, output, d.containers[id].name) ==> id in e.containers)
    && (forall id :: id in e.containers ==>
          if id < d.nextId then id in d.containers && e.containers[id] == d.containers[id]
          else MadeFor(wants, output, e.containers[id]))
    && (forall n :: n in output && output[n].Running? ==>
          && output[n].id in e.containers && d.nextId <= output[n].id
          && n in wants && e.containers[output[n].id].(running := false) == wants[n])
  }

  lemma UnreachedStay(d: Daemon, e: Daemon, wants: Wants, output: map<string, Outcome>, name: string,
                      e': Daemon, outcome: Outcome, id: Id)
    requires LoopFrame(d, e, wants, output) && DistinctNames(wants) && name in wants && name !in output
    requires Frame(e, e', wants[name]) && (!GotImage(outcome) ==> e'.containers == e.containers)
    requires id in d.containers && !Reached(wants, output[name := outcome], d.containers[id].name)
    ensures id in e'.containers
  {
    if Reached(wants, output, d.containers[id].name) {
      ReachedGrows(wants, output, name, outcome, d.containers[id].name);
    }
    assert name in output[name := outcome];
  }

  lemma NewAreMade(d: Daemon, e: Daemon, wants: Wants, output: map<string, Outcome>, name: string,
                   e': Daemon, outcome: Outcome, id: Id)
    requires LoopFrame(d, e, wants, output) && name in wants && name !in output && Frame(e, e', wants[name])
    requires id in e'.containers && id >= d.nextId
    ensures MadeFor(wants, output[name := outcome], e'.containers[id])
  {
    var output' := output[name := outcome];
    if id < e.nextId {
      var n :| n in output && n in wants && e.containers[id].(running := false) == wants[n];
      assert n in output';
    } else {
      assert name in output';
    }
  }

  lemma LoopFrameStep(d: Daemon, e: Daemon, wants: Wants, output: map<string, Outcome>, name: string,
                      e': Daemon, outcome: Outcome)
    requires LoopFrame(d, e, wants, output) && DistinctNames(wants) && name in wants && name !in output
    requires Frame(e, e', wants[name])
    requires outcome.Running? ==> outcome.id in e'.containers && e.nextId <= outcome.id
    requires !GotImage(outcome) ==> e'.containers == e.containers
    ensures LoopFrame(d, e', wants, output[name := outcome])
  {
    forall id | id in d.containers && !Reached(wants, output[name := outcome], d.containers[id].name)
      ensures id in e'.containers
    {
      UnreachedStay(d, e, wants, output, name, e', outcome, id);
    }
    forall id | id in e'.containers && id >= d.nextId
      ensures MadeFor(wants, output[name := outcome], e'.containers[id])
    {
      NewAreMade(d, e, wants, output, name, e', outcome, id);
    }
    forall n | n in output && output[n].Running?
      ensures output[n].id in e'.containers && e'.containers[output[n].id] == e.containers[output[n].id]
    {
      assert e.containers[output[n].id].name == wants[n].name;
    }
  }

  lemma ReachedGrows(wants: Wants, output: map<string, Outcome>, name: string, outcome: Outcome, containerName: string)
    requires Reached(wants, output, containerName) && name !in output
    ensures Reached(wants, output[name := outcome], containerName)
  {
    var n :| n in output && n in wants && GotImage(output[n]) && containerName == wants[n].name;
    assert n in output[name := outcome];
  }

  /** What the loop reports after reaching the first `k` services of the order: all of these
      running, but for the last one if the loop failed. */
  ghost predicate Reports(p: Progress, order: seq<string>, k: nat) {
    && k <= |order|
    && (forall n :: n in p.output <==> n in order[..k])
    && (p.failed ==> k > 0 && order[k - 1] in p.output && p.output[order[k - 1]].Failed?)
    && (!p.failed ==> k == |order|)
    && (forall n :: n in p.output && !(p.failed && n == order[k - 1]) ==> p.output[n].Running?)
  }

  lemma ReportsMore(q: Progress, before: seq<string>, name: string, e: Daemon, outcome: Outcome)
    requires Reports(q, before, |before|) && !q.failed && name !in before
    ensures Reports(Progress(e, q.output[name := outcome], outcome.Failed?), before + [name], |before| + 1)
  {
    assert before[..|before|] == before && (before + [name])[..|before| + 1] == before + [name];
  }

  lemma ReportsLonger(q: Progress, before: seq<string>, name: string, k: nat)
    requires Reports(q, before, k) && q.failed
    ensures Reports(q, before + [name], k)
  {
    assert (before + [name])[..k] == before[..k];
  }

  lemma {:induction false} LoopReports(d: Daemon, w: World, g: Graph, order: seq<string>) returns (k: nat)
    requires Among(order, g.services.Keys) && Distinct(order)
    ensures Reports(Deployed(d, w, g, order), order, k)
    decreases |order|
  {
    if order == [] {
      k := 0;
    } else {
      var n := |order| - 1;
      var before, name := order[..n], order[n];
      var q := Deployed(d, w, g, before);
      k := LoopReports(d, w, g, before);
      assert order == before + [name];
      if q.failed {
        ReportsLonger(q, before, name, k);
      } else {
        var (e, outcome) := Deploy(q.daemon, w, g, name);
        ReportsMore(q, before, name, e, outcome);
        k := n + 1;
      }
    }
  }

  lemma {:induction false} LoopKeepsFrame(d: Daemon, w: World, g: Graph, order: seq<string>)
    requires Among(order, g.services.Keys) && Distinct(order) && WellFormed(d)
    ensures var p := Deployed(d, w, g, order);
            LoopFrame(d, p.daemon, WantsOf(w, g), p.output) && forall n :: n in p.output ==> n in order
    decreases |order|
  {
    if order != [] {
      var n := |order| - 1;
      var q := Deployed(d, w, g, order[..n]);
      LoopKeepsFrame(d, w, g, order[..n]);
      if !q.failed {
        var (e, outcome) := Deploy(q.daemon, w, g, order[n]);
        DeployFrame(q.daemon, w, g, order[n]);
        WantsDistinct(w, g);
        assert order[n] !in order[..n];
        LoopFrameStep(d, q.daemon, WantsOf(w, g), q.output, order[n], e, outcome);
      }
    }
  }

  /** Volumes are never lost or altered, only added, and containers are left alone. */
  lemma {:induction false} VolumesOnlyAdded(d: Daemon, w: World, g: Graph, order: seq<string>)
    requires Among(order, g.volumes.Keys)
    ensures var e := VolumesMade(d, w, g, order);
            && e.containers == d.containers && e.nextId == d.nextId
            && d.volumes.Keys <= e.volumes.Keys && forall v :: v in d.volumes ==> e.volumes[v] == d.volumes[v]
    decreases |order|
  {
    if order != [] {
      VolumesOnlyAdded(d, w, g, order[..|order| - 1]);
    }
  }

  /** A service whose image was not got, or that was not reached. */
  predicate Untouched(output: map<string, Outcome>, n: string) {
    n in output ==> !GotImage(output[n])
  }

  /** What Execute reports on a valid graph, whatever calls fail: the output holds the first
      `k` services it visited, all "running" but for the last one of a failed run; the status
      is "completed" exactly when no error is returned, and then every service is there. */
  lemma ExecuteReports(d: Daemon, w: World, g: Graph, volumes: seq<string>, services: seq<string>, done: set<string>)
    returns (k: nat)
    requires ValidGraph(g) && Among(volumes, g.volumes.Keys) && Among(services, g.services.Keys)
    requires done <= g.services.Keys && IsOrder(services, done)
    ensures var (e, result) := Executed(d, w, g, volumes, services);
            && result.deploymentId == g.deploymentId
            && result.output.Some? && (result.error <==> result.status != Completed)
            && Reports(Progress(e, result.output.value, result.error), services, k)
            && (!result.error && done == g.services.Keys ==>
                  && result.output.value.Keys == g.services.Keys
                  && forall n :: n in g.services ==> result.output.value[n].Running?)
  {
    OrderFacts(services, done);
    k := LoopReports(VolumesMade(d, w, g, volumes), w, g, services);
    assert services[..|services|] == services;
  }

  /** Both parts of Execute together. */
  lemma ExecuteFrame(d: Daemon, w: World, g: Graph, volumes: seq<string>, services: seq<string>, done: set<string>)
    requires WellFormed(d) && ValidGraph(g) && Among(volumes, g.volumes.Keys) && Among(services, g.services.Keys)
    requires IsOrder(services, done)
    ensures var (e, result) := Executed(d, w, g, volumes, services);
            && result.output.Some? && LoopFrame(d.(volumes := e.volumes), e, WantsOf(w, g), result.output.value)
            && (forall v :: v in d.volumes ==> v in e.volumes && e.volumes[v] == d.volumes[v])
  {
    OrderFacts(services, done);
    VolumesOnlyAdded(d, w, g, volumes);
    LoopKeepsFrame(VolumesMade(d, w, g, volumes), w, g, services);
  }

  /** A container no service of the graph reached with its image in hand, among them every
      container of a name outside the graph, survives Execute unchanged. */
  lemma ExecuteLeavesAlone(d: Daemon, w: World, g: Graph, volumes: seq<string>, services: seq<string>,
                           done: set<string>, id: Id)
    requires WellFormed(d) && ValidGraph(g) && Among(volumes, g.volumes.Keys) && Among(services, g.services.Keys)
    requires IsOrder(services, done) && id in d.containers
    requires var output := Executed(d, w, g, volumes, services).1.output.value;
             forall n :: n in g.services && d.containers[id].name == ContainerName(g.slug, n) ==> Untouched(output, n)
    ensures var e := Executed(d, w, g, volumes, services).0;
            id in e.containers && e.containers[id] == d.containers[id]
  {
    ExecuteFrame(d, w, g, volumes, services, done);
    var output := Executed(d, w, g, volumes, services).1.output.value;
    var wants := WantsOf(w, g);
    forall n | n in output && n in wants && GotImage(output[n]) ensures d.containers[id].name != wants[n].name {
      assert wants[n].name == ContainerName(g.slug, n);
    }
    assert !Reached(wants, output, d.containers[id].name);
  }

  /** Every container Execute adds was made for a service in the output, and a service
      reported running has the container made for it, under the reported ID. */
  lemma ExecuteMakes(d: Daemon, w: World, g: Graph, volumes: seq<string>, services: seq<string>, done: set<string>)
    requires WellFormed(d) && ValidGraph(g) && Among(volumes, g.volumes.Keys) && Among(services, g.services.Keys)
    requires IsOrder(services, done)
    ensures var (e, result) := Executed(d, w, g, volumes, services);
            var output := result.output.value;
            && WellFormed(e) && d.nextId <= e.nextId
            && (forall id :: id in e.containers ==>
                  || (id in d.containers && e.containers[id] == d.containers[id])
                  || exists n :: n in output && n in g.services
                                 && e.containers[id].(running := false) == Wanted(w, g, n))
            && (forall n :: n in output && output[n].Running? ==>
                  && n in g.services && output[n].id in e.containers && output[n].id !in d.containers
                  && e.containers[output[n].id].(running := false) == Wanted(w, g, n))
  {
    ExecuteFrame(d, w, g, volumes, services, done);
    var (e, result) := Executed(d, w, g, volumes, services);
    var wants, output := WantsOf(w, g), result.output.value;
    forall id | id in e.containers && !(id in d.containers && e.containers[id] == d.containers[id])
      ensures exists n :: n in output && n in g.services && e.containers[id].(running := false) == Wanted(w, g, n)
    {
      assert MadeFor(wants, output, e.containers[id]);
      var n :| n in output && n in wants && e.containers[id].(running := false) == wants[n];
    }
  }

  predicate InGraph(g: Graph, containerName: string) {
    exists n :: n in g.services && containerName == ContainerName(g.slug, n)
  }

  /** `x` is one of the daemon's containers, whatever its ID. */
  predicate Has(d: Daemon, x: Container) {
    exists id :: id in d.containers && d.containers[id] == x
  }

  /** A completed run of Execute, with whatever calls having failed on the way: outside the
      graph's names the containers are those before, and under each of the graph's names there
      is exactly one container, made for the service, running or not. */
  lemma CompletedExactly(d: Daemon, w: World, g: Graph, volumes: seq<string>, services: seq<string>, x: Container)
    requires WellFormed(d) && Among(volumes, g.volumes.Keys) && Among(services, g.services.Keys)
    requires IsOrder(services, g.services.Keys)
    requires Executed(d, w, g, volumes, services).1.status.Completed?
    ensures var e := Executed(d, w, g, volumes, services).0;
            && WellFormed(e)
            && (!InGraph(g, x.name) ==> (Has(e, x) <==> Has(d, x)))
            && (InGraph(g, x.name) && Has(e, x) ==>
                  exists n :: n in g.services && x.(running := false) == Wanted(w, g, n))
            && (forall n :: n in g.services ==>
                  Has(e, Wanted(w, g, n)) || Has(e, Wanted(w, g, n).(running := true)))
  {
    var (e, result) := Executed(d, w, g, volumes, services);
    var output := result.output.value;
    var _ := ExecuteReports(d, w, g, volumes, services, g.services.Keys);
    ExecuteFrame(d, w, g, volumes, services, g.services.Keys);
    var wants := WantsOf(w, g);
    if !InGraph(g, x.name) {
      CompletedOutside(d, w, g, volumes, services, x);
    }
    if id :| InGraph(g, x.name) && id in e.containers && e.containers[id] == x {
      CompletedInside(d.(volumes := e.volumes), e, w, g, output, id);
    }
    forall n | n in g.services ensures Has(e, Wanted(w, g, n)) || Has(e, Wanted(w, g, n).(running := true)) {
      var c := e.containers[output[n].id];
      assert Has(e, c) && c.(running := false) == wants[n];
    }
  }

  lemma CompletedOutside(d: Daemon, w: World, g: Graph, volumes: seq<string>, services: seq<string>, x: Container)
    requires WellFormed(d) && ValidGraph(g) && Among(volumes, g.volumes.Keys) && Among(services, g.services.Keys)
    requires IsOrder(services, g.services.Keys) && !InGraph(g, x.name)
    ensures Has(Executed(d, w, g, volumes, services).0, x) <==> Has(d, x)
  {
    var e := Executed(d, w, g, volumes, services).0;
    if id :| id in d.containers && d.containers[id] == x {
      ExecuteLeavesAlone(d, w, g, volumes, services, g.services.Keys, id);
    }
    if id :| id in e.containers && e.containers[id] == x {
      ExecuteMakes(d, w, g, volumes, services, g.services.Keys);
    }
  }

  lemma CompletedInside(d: Daemon, e: Daemon, w: World, g: Graph, output: map<string, Outcome>, id: Id)
    requires LoopFrame(d, e, WantsOf(w, g), output) && id in e.containers && InGraph(g, e.containers[id].name)
    requires output.Keys == g.services.Keys && forall n :: n in output ==> output[n].Running?
    ensures exists n :: n in g.services && e.containers[id].(running := false) == Wanted(w, g, n)
  {
    var n :| n in g.services && e.containers[id].name == ContainerName(g.slug, n);
    assert WantsOf(w, g)[n] == Wanted(w, g, n);
    assert id == output[n].id;
  }

  /** One more service leaves the outputs of the others, and a failed loop, as they are. */
  lemma OutputKept(d: Daemon, w: World, g: Graph, order: seq<string>, n: string)
    requires Among(order, g.services.Keys) && order != [] && order[|order| - 1] != n
    requires n in Deployed(d, w, g, order[..|order| - 1]).output
    ensures var q, p := Deployed(d, w, g, order[..|order| - 1]), Deployed(d, w, g, order);
            n in p.output && p.output[n] == q.output[n] && (q.failed ==> p == q)
  {
  }

  /** The output of a service is what deploying it gave when its turn came. */
  lemma {:induction false} OutputAt(d: Daemon, w: World, g: Graph, order: seq<string>, i: nat, q: Daemon,
                                    output: map<string, Outcome>)
    requires Among(order, g.services.Keys) && Distinct(order) && i < |order|
    requires Deployed(d, w, g, order[..i]) == Progress(q, output, false)
    ensures var p, (e, outcome) := Deployed(d, w, g, order), Deploy(q, w, g, order[i]);
            && order[i] in p.output && p.output[order[i]] == outcome
            && (outcome.Failed? ==> p.failed && p.daemon == e)
    decreases |order|
  {
    var last := |order| - 1;
    if i < last {
      assert order[..last][..i] == order[..i];
      OutputAt(d, w, g, order[..last], i, q, output);
      OutputKept(d, w, g, order, order[i]);
    }
  }

  /** Execute's loop reports a service running exactly when its turn came and the calls made for
      it worked: the image call, the creation over a name that was free or freed, and the start,
      and the inspection did not show an exit. If its image is not had, the loop fails there and
      touches no further container. */
  lemma LoopRunsExactly(d: Daemon, w: World, g: Graph, order: seq<string>, i: nat,
                        q: Daemon, output: map<string, Outcome>)
    requires WellFormed(q) && Among(order, g.services.Keys) && Distinct(order) && i < |order|
    requires Deployed(d, w, g, order[..i]) == Progress(q, output, false)
    ensures var p, name, k := Deployed(d, w, g, order), order[i], q.calls;
            && name in p.output
            && (p.output[name].Running? <==>
                  && ImageHad(g.services[name], w.answer(k)) && Creates(q, w, g.slug + "-" + name, k + 1)
                  && Starts(w, k + 3) && !SeenExited(w, k + 4))
            && (!ImageHad(g.services[name], w.answer(k)) ==> p.failed && p.daemon.containers == q.containers)
  {
    OutputAt(d, w, g, order, i, q, output);
    DeployOutcome(q, w, g, order[i]);
    if !ImageHad(g.services[order[i]], w.answer(q.calls)) {
      DeployWithoutImage(q, w, g, order[i]);
    }
  }

  lemma LoopWellFormed(d: Daemon, w: World, g: Graph, order: seq<string>, i: nat)
    requires WellFormed(d) && Among(order, g.services.Keys) && Distinct(order) && i <= |order|
    ensures WellFormed(Deployed(d, w, g, order[..i]).daemon)
  {
    assert forall x, y :: 0 <= x < y < i ==> order[..i][x] != order[..i][y];
    LoopKeepsFrame(d, w, g, order[..i]);
  }

  /** The same of Execute, with `q` the daemon when the turn of the service came. */
  lemma ExecuteRunsExactly(d: Daemon, w: World, g: Graph, volumes: seq<string>, services: seq<string>, i: nat,
                           q: Daemon)
    requires WellFormed(d) && ValidGraph(g) && Among(volumes, g.volumes.Keys) && Among(services, g.services.Keys)
    requires Distinct(services) && i < |services|
    requires var p := Deployed(VolumesMade(d, w, g, volumes), w, g, services[..i]); p.daemon == q && !p.failed
    ensures var (e, result) := Executed(d, w, g, volumes, services);
            var name, k := services[i], q.calls;
            && result.output.Some? && name in result.output.value
            && (result.output.value[name].Running? <==>
                  && ImageHad(g.services[name], w.answer(k)) && Creates(q, w, g.slug + "-" + name, k + 1)
                  && Starts(w, k + 3) && !SeenExited(w, k + 4))
            && (!ImageHad(g.services[name], w.answer(k)) ==>
                  result.error && result.status == FailedStatus && e.containers == q.containers)
  {
    var d1 := VolumesMade(d, w, g, volumes);
    VolumesOnlyAdded(d, w, g, volumes);
    LoopWellFormed(d1, w, g, services, i);
    LoopRunsExactly(d1, w, g, services, i, q, Deployed(d1, w, g, services[..i]).output);
  }

  /** A graph that is not valid is not executed at all. */
  lemma InvalidUntouched(d: Daemon, w: World, g: Graph, volumes: seq<string>, services: seq<string>)
    requires Among(volumes, g.volumes.Keys) && Among(services, g.services.Keys) && !ValidGraph(g)
    ensures var (e, result) := Executed(d, w, g, volumes, services);
            && e == d && result.deploymentId == g.deploymentId
            && result.error && result.status == FailedStatus && result.output.None?
  {
  }

  // ---------------------------------------------------------------- the graph, without failures

  ghost predicate AllGood(w: World) {
    forall k :: w.answer(k) == Answer(true, true, None)
  }

  function Up(c: Container): Container {
    c.(running := true)
  }

  lemma PlaceGood(d: Daemon, w: World, c: Container)
    requires WellFormed(d) && AllGood(w)
    ensures var (e, outcome) := Place(d, w, c);
            outcome == Running(c.image, d.nextId) && e.nextId == d.nextId + 1 && e.volumes == d.volumes
            && e.containers == (map id | id in d.containers && d.containers[id].name != c.name :: d.containers[id])
                               [d.nextId := Up(c)]
  {
  }

  lemma PlaceGoodValues(d: Daemon, w: World, c: Container, x: Container)
    requires WellFormed(d) && AllGood(w)
    ensures Has(Place(d, w, c).0, x) <==> (Has(d, x) && x.name != c.name) || x == Up(c)
  {
    PlaceGood(d, w, c);
    var (e, _) := Place(d, w, c);
    if Has(d, x) && x.name != c.name {
      var id :| id in d.containers && d.containers[id] == x;
      assert id in e.containers && e.containers[id] == x;
    }
    if x == Up(c) {
      assert d.nextId in e.containers && e.containers[d.nextId] == x;
    }
  }

  /** `x` is there after the services in `order` have replaced what had their names. */
  predicate Replaced(d: Daemon, wants: Wants, order: seq<string>, x: Container) {
    || (Has(d, x) && forall i :: 0 <= i < |order| && order[i] in wants ==> x.name != wants[order[i]].name)
    || exists i :: 0 <= i < |order| && order[i] in wants && x == Up(wants[order[i]])
  }

  lemma ReplacedStep(d: Daemon, wants: Wants, order: seq<string>, name: string, x: Container)
    requires DistinctNames(wants) && name in wants && name !in order
    ensures Replaced(d, wants, order + [name], x)
       <==> (Replaced(d, wants, order, x) && x.name != wants[name].name) || x == Up(wants[name])
  {
    var all := order + [name];
    assert all[|order|] == name && forall i :: 0 <= i < |order| ==> all[i] == order[i];
    if Replaced(d, wants, order, x) && x.name != wants[name].name {
      if i :| 0 <= i < |order| && order[i] in wants && x == Up(wants[order[i]]) {
        assert all[i] == order[i];
      }
    }
    if i :| 0 <= i < |all| && all[i] in wants && x == Up(wants[all[i]]) {
      assert i < |order| ==> order[i] != name;
    }
  }

  /** With every call succeeding a service fails only for want of an archive to build. */
  lemma DeployGood(d: Daemon, w: World, g: Graph, name: string, x: Container)
    requires WellFormed(d) && AllGood(w) && name in g.services
    ensures var (e, outcome) := Deploy(d, w, g, name);
            && WellFormed(e) && e.volumes == d.volumes
            && (outcome.Running? <==> !(g.services[name].build.Some? && !HasArchive(g.services[name])))
            && (outcome.Running? ==>
                  (Has(e, x) <==> (Has(d, x) && x.name != Wanted(w, g, name).name) || x == Up(Wanted(w, g, name))))
  {
    var (d1, imaged) := Imaged(d, w, g.services[name]);
    assert Has(d1, x) <==> Has(d, x);
    if imaged {
      PlaceGoodStep(d1, w, Wanted(w, g, name), x);
    }
  }

  lemma PlaceGoodStep(d: Daemon, w: World, c: Container, x: Container)
    requires WellFormed(d) && AllGood(w) && !c.running
    ensures var (e, outcome) := Place(d, w, c);
            && WellFormed(e) && e.volumes == d.volumes && outcome.Running?
            && (Has(e, x) <==> (Has(d, x) && x.name != c.name) || x == Up(c))
  {
    PlaceGood(d, w, c);
    PlaceFrame(d, w, c);
    PlaceGoodValues(d, w, c, x);
  }

  lemma {:induction false} GoodLoop(d: Daemon, w: World, g: Graph, order: seq<string>, x: Container)
    requires Among(order, g.services.Keys) && Distinct(order) && WellFormed(d) && AllGood(w)
    requires !Deployed(d, w, g, order).failed
    ensures var e := Deployed(d, w, g, order).daemon;
            WellFormed(e) && e.volumes == d.volumes && (Has(e, x) <==> Replaced(d, WantsOf(w, g), order, x))
    decreases |order|
  {
    if order != [] {
      var n := |order| - 1;
      var q := Deployed(d, w, g, order[..n]);
      GoodLoop(d, w, g, order[..n], x);
      DeployGood(q.daemon, w, g, order[n], x);
      GoodStep(d, q.daemon, Deploy(q.daemon, w, g, order[n]).0, w, g, order, x);
    }
  }

  lemma GoodStep(d: Daemon, q: Daemon, e: Daemon, w: World, g: Graph, order: seq<string>, x: Container)
    requires Among(order, g.services.Keys) && Distinct(order) && order != []
    requires var last, before := order[|order| - 1], order[..|order| - 1];
             && (Has(q, x) <==> Replaced(d, WantsOf(w, g), before, x))
             && (Has(e, x) <==> (Has(q, x) && x.name != Wanted(w, g, last).name) || x == Up(Wanted(w, g, last)))
    ensures Has(e, x) <==> Replaced(d, WantsOf(w, g), order, x)
  {
    var n := |order| - 1;
    WantsDistinct(w, g);
    ReplacedStep(d, WantsOf(w, g), order[..n], order[n], x);
    assert order == order[..n] + [order[n]];
  }

  lemma {:induction false} GoodVolumes(d: Daemon, w: World, g: Graph, order: seq<string>, v: string)
    requires Among(order, g.volumes.Keys) && AllGood(w)
    ensures var e := VolumesMade(d, w, g, order);
            && (v in e.volumes <==> v in d.volumes || exists n :: n in order && v == VolumeName(g.slug, n))
            && (v in e.volumes && v !in d.volumes ==>
                  exists n :: n in order && n in g.volumes && v == VolumeName(g.slug, n)
                              && e.volumes[v] == VolumeOf(g, n))
    decreases |order|
  {
    if order != [] {
      var last := |order| - 1;
      GoodVolumes(d, w, g, order[..last], v);
      assert order == order[..last] + [order[last]];
      var q := VolumesMade(d, w, g, order[..last]);
      if v in q.volumes && v !in d.volumes {
        var n :| n in order[..last] && n in g.volumes && v == VolumeName(g.slug, n) && q.volumes[v] == VolumeOf(g, n);
        assert n in order;
      }
    }
  }

  /** The containers of a daemon after every service of the graph has been deployed on `d`. */
  predicate Deployment(d: Daemon, w: World, g: Graph, x: Container) {
    || (Has(d, x) && !InGraph(g, x.name))
    || exists n :: n in g.services && x == Up(Wanted(w, g, n))
  }

  lemma ReplacedByAll(d: Daemon, w: World, g: Graph, order: seq<string>, x: Container)
    requires IsOrder(order, g.services.Keys)
    ensures Replaced(d, WantsOf(w, g), order, x) <==> Deployment(d, w, g, x)
  {
    OrderFacts(order, g.services.Keys);
    var wants := WantsOf(w, g);
    forall n | n in g.services ensures exists i :: 0 <= i < |order| && order[i] in wants && order[i] == n {
      assert n in order;
    }
  }

  /** A completed run of Execute in which every call succeeds ends with exactly these
      containers, whatever the order of the services. */
  lemma ExecuteGood(d: Daemon, w: World, g: Graph, volumes: seq<string>, services: seq<string>, x: Container)
    requires WellFormed(d) && AllGood(w) && Among(volumes, g.volumes.Keys) && Among(services, g.services.Keys)
    requires IsOrder(services, g.services.Keys)
    requires Executed(d, w, g, volumes, services).1.status.Completed?
    ensures var e := Executed(d, w, g, volumes, services).0;
            WellFormed(e) && e.volumes == VolumesMade(d, w, g, volumes).volumes
            && (Has(e, x) <==> Deployment(d, w, g, x))
  {
    VolumesOnlyAdded(d, w, g, volumes);
    OrderFacts(services, g.services.Keys);
    var d1 := VolumesMade(d, w, g, volumes);
    GoodLoop(d1, w, g, services, x);
    ReplacedByAll(d1, w, g, services, x);
    assert Has(d1, x) <==> Has(d, x);
  }

  /** The volumes afterwards: what there was, and the graph's volumes that were missing. */
  predicate VolumesDeployed(d: Daemon, g: Graph, volumes: map<string, Volume>) {
    && (forall v :: v in d.volumes ==> v in volumes && volumes[v] == d.volumes[v])
    && (forall v :: v in volumes && v !in d.volumes ==>
          exists n :: n in g.volumes && v == VolumeName(g.slug, n) && volumes[v] == VolumeOf(g, n))
    && (forall n :: n in g.volumes ==> VolumeName(g.slug, n) in volumes)
  }

  lemma AllVolumesDeployed(d: Daemon, w: World, g: Graph, order: seq<string>)
    requires AllGood(w) && Among(order, g.volumes.Keys) && IsOrder(order, g.volumes.Keys)
    ensures VolumesDeployed(d, g, VolumesMade(d, w, g, order).volumes)
  {
    OrderFacts(order, g.volumes.Keys);
    VolumesOnlyAdded(d, w, g, order);
    var e := VolumesMade(d, w, g, order);
    forall v | v in e.volumes && v !in d.volumes
      ensures exists n :: n in g.volumes && v == VolumeName(g.slug, n) && e.volumes[v] == VolumeOf(g, n)
    {
      GoodVolumes(d, w, g, order, v);
    }
    forall n | n in g.volumes ensures VolumeName(g.slug, n) in e.volumes {
      GoodVolumes(d, w, g, order, VolumeName(g.slug, n));
    }
  }

  lemma VolumesDeployedUnique(d: Daemon, g: Graph, a: map<string, Volume>, b: map<string, Volume>)
    requires VolumesDeployed(d, g, a) && VolumesDeployed(d, g, b)
    ensures a == b
  {
    forall v | v in a ensures v in b && a[v] == b[v] {
      VolumesDeployedAgree(d, g, a, b, v);
    }
    forall v | v in b ensures v in a {
      VolumesDeployedAgree(d, g, b, a, v);
    }
  }

  lemma VolumesDeployedAgree(d: Daemon, g: Graph, a: map<string, Volume>, b: map<string, Volume>, v: string)
    requires VolumesDeployed(d, g, a) && VolumesDeployed(d, g, b) && v in a
    ensures v in b && a[v] == b[v]
  {
    if v !in d.volumes {
      var n :| n in g.volumes && v == VolumeName(g.slug, n) && a[v] == VolumeOf(g, n);
      assert v in b;
      var m :| m in g.volumes && v == VolumeName(g.slug, m) && b[v] == VolumeOf(g, m);
      NamesInjective(g.slug, n, m);
    }
  }

  /** Order independence: if a run of a graph completes, every call succeeding, it completes in
      every order of the maps, and ends with the same containers, IDs apart, and the same
      volumes. */
  lemma OrderIndependent(d: Daemon, w: World, w': World, g: Graph,
                         volumes: seq<string>, services: seq<string>, volumes': seq<string>, services': seq<string>)
    requires WellFormed(d) && AllGood(w) && AllGood(w') && w.parsePort == w'.parsePort
    requires Among(volumes, g.volumes.Keys) && Among(services, g.services.Keys)
    requires Among(volumes', g.volumes.Keys) && Among(services', g.services.Keys)
    requires IsOrder(volumes, g.volumes.Keys) && IsOrder(services, g.services.Keys)
    requires IsOrder(volumes', g.volumes.Keys) && IsOrder(services', g.services.Keys)
    requires Executed(d, w, g, volumes, services).1.status.Completed?
    ensures var (e, e') := (Executed(d, w, g, volumes, services).0, Executed(d, w', g, volumes', services').0);
            && Executed(d, w', g, volumes', services').1.status.Completed?
            && WellFormed(e) && WellFormed(e') && e.volumes == e'.volumes && forall x :: Has(e, x) <==> Has(e', x)
  {
    CompletesExactly(d, w, g, volumes, services, g.services.Keys);
    CompletesExactly(d, w', g, volumes', services', g.services.Keys);
    var (e, e') := (Executed(d, w, g, volumes, services).0, Executed(d, w', g, volumes', services').0);
    forall x ensures Has(e, x) <==> Has(e', x) {
      ExecuteGood(d, w, g, volumes, services, x);
      ExecuteGood(d, w', g, volumes', services', x);
      SamePorts(d, w, w', g, x);
    }
    var x :| true;
    ExecuteGood(d, w, g, volumes, services, x);
    ExecuteGood(d, w', g, volumes', services', x);
    AllVolumesDeployed(d, w, g, volumes);
    AllVolumesDeployed(d, w', g, volumes');
    VolumesDeployedUnique(d, g, e.volumes, e'.volumes);
  }

  lemma {:induction false} SameBindings(w: World, w': World, ports: seq<string>)
    requires w.parsePort == w'.parsePort
    ensures PortBindings(w, ports) == PortBindings(w', ports)
    decreases |ports|
  {
    if ports != [] {
      SameBindings(w, w', ports[..|ports| - 1]);
    }
  }

  lemma SamePorts(d: Daemon, w: World, w': World, g: Graph, x: Container)
    requires w.parsePort == w'.parsePort
    ensures Deployment(d, w, g, x) <==> Deployment(d, w', g, x)
  {
    forall n | n in g.services ensures Wanted(w, g, n) == Wanted(w', g, n) {
      SameBindings(w, w', g.services[n].ports);
    }
  }

  /** Redeploying converges: a second run completes too, and leaves the containers, IDs apart, and the
      volumes as the first one made them. */
  lemma RedeployConverges(d: Daemon, e: Daemon, w: World, g: Graph,
                          volumes: seq<string>, services: seq<string>, volumes': seq<string>, services': seq<string>)
    requires WellFormed(d) && AllGood(w)
    requires Among(volumes, g.volumes.Keys) && Among(services, g.services.Keys)
    requires Among(volumes', g.volumes.Keys) && Among(services', g.services.Keys)
    requires IsOrder(volumes, g.volumes.Keys) && IsOrder(services, g.services.Keys)
    requires IsOrder(volumes', g.volumes.Keys) && IsOrder(services', g.services.Keys)
    requires Executed(d, w, g, volumes, services).0 == e && Executed(d, w, g, volumes, services).1.status.Completed?
    ensures var e' := Executed(e, w, g, volumes', services').0;
            && Executed(e, w, g, volumes', services').1.status.Completed?
            && WellFormed(e') && e'.volumes == e.volumes && forall x :: Has(e', x) <==> Has(e, x)
  {
    var x0 :| true;
    ExecuteGood(d, w, g, volumes, services, x0);
    CompletesExactly(d, w, g, volumes, services, g.services.Keys);
    CompletesExactly(e, w, g, volumes', services', g.services.Keys);
    ExecuteGood(e, w, g, volumes', services', x0);
    var e' := Executed(e, w, g, volumes', services').0;
    forall x ensures Has(e', x) <==> Has(e, x) {
      ExecuteGood(d, w, g, volumes, services, x);
      ExecuteGood(e, w, g, volumes', services', x);
      DeploymentTwice(d, e, w, g, x);
    }
    AllVolumesDeployed(d, w, g, volumes);
    AllVolumesDeployed(e, w, g, volumes');
    assert VolumesDeployed(e, g, e.volumes);
    VolumesDeployedUnique(e, g, e.volumes, e'.volumes);
  }

  lemma DeploymentTwice(d: Daemon, e: Daemon, w: World, g: Graph, x: Container)
    requires Has(e, x) <==> Deployment(d, w, g, x)
    ensures Deployment(e, w, g, x) <==> Deployment(d, w, g, x)
  {
    if n :| n in g.services && x == Up(Wanted(w, g, n)) {
      assert x.name == ContainerName(g.slug, n);
    }
  }

  /** With every call succeeding a run completes exactly when the graph is valid and every
      service to be built says where its source is. */
  lemma CompletesExactly(d: Daemon, w: World, g: Graph, volumes: seq<string>, services: seq<string>, done: set<string>)
    requires WellFormed(d) && AllGood(w) && Among(volumes, g.volumes.Keys) && Among(services, g.services.Keys)
    requires done <= g.services.Keys && IsOrder(services, done)
    requires ValidGraph(g) && Executed(d, w, g, volumes, services).1.status.Completed? ==> done == g.services.Keys
    ensures Executed(d, w, g, volumes, services).1.status.Completed? <==>
              ValidGraph(g) && forall n :: n in g.services && g.services[n].build.Some? ==> HasArchive(g.services[n])
  {
    OrderFacts(services, done);
    VolumesOnlyAdded(d, w, g, volumes);
    if ValidGraph(g) {
      GoodLoopFails(VolumesMade(d, w, g, volumes), w, g, services);
    }
  }

  lemma {:induction false} GoodLoopFails(d: Daemon, w: World, g: Graph, order: seq<string>)
    requires WellFormed(d) && AllGood(w) && Among(order, g.services.Keys) && Distinct(order)
    ensures Deployed(d, w, g, order).failed <==>
              exists n :: n in order && n in g.services && g.services[n].build.Some? && !HasArchive(g.services[n])
    decreases |order|
  {
    if order != [] {
      var last := |order| - 1;
      var q := Deployed(d, w, g, order[..last]);
      GoodLoopFails(d, w, g, order[..last]);
      assert order == order[..last] + [order[last]];
      assert order[last] in order && forall n :: n in order[..last] ==> n in order;
      if !q.failed {
        LoopKeepsFrame(d, w, g, order[..last]);
        var x :| true;
        DeployGood(q.daemon, w, g, order[last], x);
      }
    }
  }
}
