/** Stopping a deployment, restarting what has exited, and any sequence of the runner's
    operations (internal/runner/runner.go:64-314, 568-690). */
module Lifecycle {
  import opened Basics
  import opened Wrappers
  import opened Compiler
  import opened Docker
  import opened Runner
  import opened Deployments

  // ---------------------------------------------------------------- Stop

  /** The listed containers of `s` that Stop takes to belong to the slug. */
  function Belonging(listed: map<Id, Container>, slug: string, s: set<Id>): set<Id> {
    set id | id in s && id in listed && Matches(listed[id], slug)
  }

  predicate SameButRunning(a: Container, b: Container) {
    a.(running := b.running) == b
  }

  /** From `d` to `e` the containers of `hit` may be stopped or removed, and nothing else
      happens. */
  ghost predicate OnlyStopped(d: Daemon, e: Daemon, hit: set<Id>) {
    && e.volumes == d.volumes && e.nextId == d.nextId && e.containers.Keys <= d.containers.Keys
    && (forall id :: id in d.containers && id !in hit ==> id in e.containers && e.containers[id] == d.containers[id])
    && (forall id :: id in e.containers ==> SameButRunning(d.containers[id], e.containers[id]))
  }

  /** A container reported as stopped and removed is gone. */
  lemma StoppedAndRemovedFrame(d: Daemon, e: Daemon, w: World, hit: set<Id>, id: Id)
    requires OnlyStopped(d, e, hit)
    ensures var (e', ok) := StoppedAndRemoved(e, w, id);
            && OnlyStopped(d, e', hit + {id}) && e.containers.Keys - {id} <= e'.containers.Keys <= e.containers.Keys
            && (ok ==> id in e.containers && id !in e'.containers)
  {
  }

  lemma {:induction false} StopLoopFrame(d: Daemon, w: World, listed: map<Id, Container>, slug: string,
                                         order: seq<Id>, done: set<Id>)
    requires Lists(order, listed) && IsOrder(order, done) && listed == d.containers
    ensures var t := StopLoop(d, w, listed, slug, order);
            && OnlyStopped(d, t.daemon, Belonging(listed, slug, done))
            && t.good + t.bad == |Belonging(listed, slug, done)|
            && t.good + |t.daemon.containers.Keys| <= |d.containers.Keys|
            && (t.bad == 0 ==> t.daemon.containers.Keys !! Belonging(listed, slug, done))
    decreases |order|
  {
    if order != [] {
      var n := |order| - 1;
      var id, before := order[n], order[..n];
      var q := StopLoop(d, w, listed, slug, before);
      StopLoopFrame(d, w, listed, slug, before, done - {id});
      var hit := Belonging(listed, slug, done - {id});
      if Matches(listed[id], slug) {
        assert Belonging(listed, slug, done) == hit + {id};
        StoppedAndRemovedFrame(d, q.daemon, w, hit, id);
        var (e, ok) := StoppedAndRemoved(q.daemon, w, id);
        Shrinks(q.daemon.containers.Keys, e.containers.Keys, id, ok);
      } else {
        assert Belonging(listed, slug, done) == hit;
      }
    } else {
      assert Belonging(listed, slug, done) == {};
    }
  }

  lemma Shrinks(a: set<Id>, b: set<Id>, id: Id, gone: bool)
    requires a - {id} <= b <= a && (gone ==> id in a && id !in b)
    ensures |b| + (if gone then 1 else 0) <= |a|
  {
    if gone {
      assert b == a - {id};
    } else if id in b {
      assert b == a;
    } else {
      assert b == a - {id};
    }
  }

  /** Stop handles every matching container once, changes no other and no volume, and when it
      returns no error exactly the matching ones are gone. Whatever fails, at least as many
      are gone as it counts as stopped. */
  lemma StopExactly(d: Daemon, w: World, slug: string, order: seq<Id>)
    requires WellFormed(d) && Lists(order, d.containers) && IsOrder(order, d.containers.Keys)
    ensures var (e, t) := Stopped(d, w, slug, order);
            var hit := Belonging(d.containers, slug, d.containers.Keys);
            && WellFormed(e) && OnlyStopped(d, e, hit)
            && (t.None? ==> e.containers == d.containers)
            && (t.Some? ==> t.value.good + t.value.bad == |hit| && t.value.good + |e.containers| <= |d.containers|)
            && (t.Some? && t.value.bad == 0 ==> e.containers == d.containers - hit)
  {
    if Good(w.answer(d.calls)) {
      StopLoopFrame(Called(d), w, d.containers, slug, order, d.containers.Keys);
    }
  }

  /** What Execute makes belongs to the graph's slug, be it empty. */
  lemma MadeMatches(w: World, g: Graph, n: string, c: Container)
    requires n in g.services && c.(running := false) == Wanted(w, g, n)
    ensures Matches(c, g.slug)
  {
    assert LabelOf(c, SlugLabel) == g.slug;
  }

  /** Deploy, then delete: after Execute on a valid graph, completed or not, a Stop of its
      slug that returns no error leaves no container that Execute made, and every container
      that does not match the slug is as it was before both. */
  lemma DeployThenDelete(d: Daemon, w: World, g: Graph, volumes: seq<string>, services: seq<string>, done: set<string>,
                         order: seq<Id>)
    requires WellFormed(d) && ValidGraph(g) && Among(volumes, g.volumes.Keys) && Among(services, g.services.Keys)
    requires IsOrder(services, done)
    requires var e := Executed(d, w, g, volumes, services).0;
             Lists(order, e.containers) && IsOrder(order, e.containers.Keys)
    ensures var e := Executed(d, w, g, volumes, services).0;
            var (f, t) := Stopped(e, w, g.slug, order);
            t.Some? && t.value.bad == 0 ==>
              && (forall id :: id in f.containers ==> id in d.containers && f.containers[id] == d.containers[id])
              && (forall id :: id in d.containers ==>
                    (id in f.containers <==> !Matches(d.containers[id], g.slug)))
  {
    var e := Executed(d, w, g, volumes, services).0;
    ExecuteMakes(d, w, g, volumes, services, done);
    StopExactly(e, w, g.slug, order);
    forall id | id in e.containers && !Matches(e.containers[id], g.slug)
      ensures id in d.containers && e.containers[id] == d.containers[id]
    {
      if n :| n in g.services && e.containers[id].(running := false) == Wanted(w, g, n) {
        MadeMatches(w, g, n, e.containers[id]);
      }
    }
    forall id | id in d.containers && !Matches(d.containers[id], g.slug)
      ensures id in e.containers && e.containers[id] == d.containers[id]
    {
      forall n | n in g.services ensures d.containers[id].name != ContainerName(g.slug, n) {
        NameMatches(d.containers[id], g.slug, n);
      }
      ExecuteLeavesAlone(d, w, g, volumes, services, done, id);
    }
  }

  lemma NameMatches(c: Container, slug: string, n: string)
    ensures c.name == ContainerName(slug, n) ==> Matches(c, slug)
  {
    assert Names(c)[0] == "/" + c.name;
    assert Bare(Names(c)[0]) == c.name;
    if c.name == ContainerName(slug, n) {
      assert c.name == (slug + "-") + n;
      assert HasPrefix(Bare(Names(c)[0]), slug + "-");
    }
  }

  /** A container is stopped and removed exactly when it is there and both calls work. */
  lemma RemovedExactly(d: Daemon, w: World, id: Id)
    ensures var k, (e, ok) := d.calls, StoppedAndRemoved(d, w, id);
            && (ok <==> id in d.containers
                        && w.answer(k).effect && w.answer(k).reported
                        && w.answer(k + 1).effect && w.answer(k + 1).reported)
            && (ok ==> e.containers == d.containers - {id})
  {
  }

  lemma {:induction false} GoodStopLoop(d: Daemon, w: World, listed: map<Id, Container>, slug: string,
                                        order: seq<Id>, done: set<Id>)
    requires Lists(order, listed) && IsOrder(order, done) && listed == d.containers && AllGood(w)
    ensures StopLoop(d, w, listed, slug, order).bad == 0
    decreases |order|
  {
    if order != [] {
      var n := |order| - 1;
      var id, before := order[n], order[..n];
      GoodStopLoop(d, w, listed, slug, before, done - {id});
      StopLoopFrame(d, w, listed, slug, before, done - {id});
      RemovedExactly(StopLoop(d, w, listed, slug, before).daemon, w, id);
    }
  }

  /** With every call succeeding, Stop removes exactly the containers that match. */
  lemma StopGood(d: Daemon, w: World, slug: string, order: seq<Id>)
    requires WellFormed(d) && Lists(order, d.containers) && IsOrder(order, d.containers.Keys) && AllGood(w)
    ensures var (e, t) := Stopped(d, w, slug, order);
            && t.Some? && t.value.bad == 0
            && e.containers == d.containers - Belonging(d.containers, slug, d.containers.Keys)
  {
    StopExactly(d, w, slug, order);
    GoodStopLoop(Called(d), w, d.containers, slug, order, d.containers.Keys);
  }

  // ---------------------------------------------------------------- whose containers Stop takes

  /** A container as Execute makes it, running or not, for some service of a graph. */
  ghost predicate FromSlug(c: Container, slug: string) {
    exists w, g, n :: IsWanted(w, g, n, slug, c)
  }

  ghost predicate IsWanted(w: World, g: Graph, n: string, slug: string, c: Container) {
    g.slug == slug && n in g.services && c.(running := false) == Wanted(w, g, n)
  }

  lemma WantedMatches(w: World, g: Graph, n: string, theirs: string, c: Container, slug: string)
    requires IsWanted(w, g, n, theirs, c)
    ensures Matches(c, slug) <==> theirs == slug || HasPrefix(theirs + "-" + n, slug + "-")
  {
    assert LabelOf(c, SlugLabel) == theirs;
    assert Names(c)[0] == "/" + c.name && |Names(c)| == 1;
    assert Bare(Names(c)[0]) == c.name;
  }

  lemma PrefixOfName(slug: string, theirs: string, n: string)
    requires slug != theirs && HasPrefix(theirs + "-" + n, slug + "-")
    ensures HasPrefix(theirs, slug + "-") || HasPrefix(slug, theirs + "-")
  {
    var full := theirs + "-" + n;
    var prefix := full[..|slug| + 1];
    assert prefix == slug + "-";
    assert full[..|theirs|] == theirs && prefix[..|slug|] == full[..|slug|] == slug;
    if |slug| < |theirs| {
      assert theirs[..|slug| + 1] == full[..|slug| + 1];
    } else if |slug| > |theirs| {
      assert full[..|slug| + 1][..|theirs| + 1] == full[..|theirs| + 1] == theirs + "-";
      assert (slug + "-")[..|theirs| + 1] == slug[..|theirs| + 1];
    }
  }

  lemma NameWithPrefix(slug: string, theirs: string) returns (n: string)
    requires HasPrefix(theirs, slug + "-") || HasPrefix(slug, theirs + "-")
    ensures HasPrefix(theirs + "-" + n, slug + "-")
  {
    if HasPrefix(theirs, slug + "-") {
      n := "";
      assert (theirs + "-" + n)[..|slug| + 1] == theirs[..|slug| + 1];
    } else {
      n := slug[|theirs| + 1..] + "-";
      assert theirs + "-" + n == slug + "-";
    }
  }

  /** Stopping one slug takes some container made for another one exactly when one slug is the
      other followed by a hyphen and anything. */
  lemma SlugsInterfereExactly(slug: string, theirs: string)
    requires slug != theirs
    ensures (exists c :: FromSlug(c, theirs) && Matches(c, slug)) <==>
              HasPrefix(theirs, slug + "-") || HasPrefix(slug, theirs + "-")
  {
    if c :| FromSlug(c, theirs) && Matches(c, slug) {
      var w, g, n :| IsWanted(w, g, n, theirs, c);
      WantedMatches(w, g, n, theirs, c, slug);
      PrefixOfName(slug, theirs, n);
    }
    if HasPrefix(theirs, slug + "-") || HasPrefix(slug, theirs + "-") {
      var n := NameWithPrefix(slug, theirs);
      var svc := ServiceNode(n, "image", None, None, map[], [], [], []);
      var g := Graph("id", "1", theirs, map[n := svc], map[], map[]);
      var w := World(k => Answer(true, true, None), s => None);
      var c := Wanted(w, g, n);
      assert IsWanted(w, g, n, theirs, c);
      WantedMatches(w, g, n, theirs, c, slug);
    }
  }

  /** `name` as it is listed, without the slash in front if it has one. */
  predicate ListedAs(listed: string, name: string) {
    listed == "/" + name || (listed == name && (name == "" || name[0] != '/'))
  }

  /** Which containers Stop takes: those with the slug in their label, where a missing label in
      a container with labels reads as empty, and those one of whose names, without a slash in
      front, begins with the slug and a hyphen. */
  lemma MatchesExactly(c: Container, slug: string)
    ensures Matches(c, slug) <==>
              || (c.labels.Some? && SlugLabel in c.labels.value && c.labels.value[SlugLabel] == slug)
              || (c.labels.Some? && SlugLabel !in c.labels.value && slug == "")
              || HasPrefix(c.name, slug + "-")
              || exists i, name :: 0 <= i < |c.aliases| && ListedAs(c.aliases[i], name) && HasPrefix(name, slug + "-")
  {
    assert Names(c)[0] == "/" + c.name && Bare(Names(c)[0]) == c.name;
    forall i | 0 <= i < |c.aliases|
      ensures Names(c)[i + 1] == c.aliases[i] && ListedAs(c.aliases[i], Bare(c.aliases[i]))
      ensures forall name :: ListedAs(c.aliases[i], name) ==> name == Bare(c.aliases[i])
    {
      BareIsOnly(c.aliases[i]);
    }
    if i :| 0 <= i < |Names(c)| && HasPrefix(Bare(Names(c)[i]), slug + "-") {
      if i > 0 {
        assert ListedAs(c.aliases[i - 1], Bare(c.aliases[i - 1]));
      }
    }
    if i, name :| 0 <= i < |c.aliases| && ListedAs(c.aliases[i], name) && HasPrefix(name, slug + "-") {
      assert HasPrefix(Bare(Names(c)[i + 1]), slug + "-");
    }
  }

  lemma BareIsOnly(listed: string)
    ensures ListedAs(listed, Bare(listed)) && forall name :: ListedAs(listed, name) ==> name == Bare(listed)
  {
    if listed != "" && listed[0] == '/' {
      assert listed == "/" + listed[1..];
    }
    forall name | listed == "/" + name ensures name == Bare(listed) {
      assert ("/" + name)[1..] == name;
    }
  }

  /** With the empty slug, Stop would take every labelled container without a slug label; a
      delete event without a slug is therefore dropped before it gets here. */
  lemma EmptySlugTakesUnlabelled(c: Container)
    requires c.labels.Some? && SlugLabel !in c.labels.value
    ensures Matches(c, "")
    ensures forall slug :: slug != "" ==>
              (Matches(c, slug) <==> exists i :: 0 <= i < |Names(c)| && HasPrefix(Bare(Names(c)[i]), slug + "-"))
  {
  }

  // ---------------------------------------------------------------- ReconcileContainers

  /** The containers of `s` that ReconcileContainers is to restart. */
  function Idle(listed: map<Id, Container>, s: set<Id>): set<Id> {
    set id | id in s && id in listed && Managed(listed[id]) && !listed[id].running
  }

  /** From `d` to `e` some containers of `hit` have been started. */
  ghost predicate OnlyStarted(d: Daemon, e: Daemon, hit: set<Id>) {
    && e.volumes == d.volumes && e.nextId == d.nextId && e.containers.Keys == d.containers.Keys
    && (forall id :: id in d.containers ==>
          e.containers[id] == d.containers[id] || (id in hit && e.containers[id] == Up(d.containers[id])))
  }

  lemma StartedFrame(d: Daemon, e: Daemon, w: World, hit: set<Id>, id: Id)
    requires OnlyStarted(d, e, hit) && id in d.containers
    ensures var (e', ok) := StartedById(e, w, id);
            && OnlyStarted(d, e', hit + {id}) && (ok ==> e'.containers[id].running)
            && (forall x :: x in e.containers && e.containers[x].running ==> e'.containers[x].running)
  {
  }

  ghost predicate AllRun(d: Daemon, ids: set<Id>) {
    forall id :: id in ids ==> id in d.containers && d.containers[id].running
  }

  lemma {:induction false} RestartLoopFrame(d: Daemon, w: World, listed: map<Id, Container>,
                                            order: seq<Id>, done: set<Id>)
    requires Lists(order, listed) && IsOrder(order, done) && listed == d.containers
    ensures var t := RestartLoop(d, w, listed, order);
            && OnlyStarted(d, t.daemon, Idle(listed, done))
            && t.good + t.bad == |Idle(listed, done)|
            && (t.bad == 0 ==> AllRun(t.daemon, Idle(listed, done)))
    decreases |order|
  {
    if order == [] {
      assert Idle(listed, done) == {};
    } else {
      var n := |order| - 1;
      var id, before := order[n], order[..n];
      var q := RestartLoop(d, w, listed, before);
      RestartLoopFrame(d, w, listed, before, done - {id});
      var hit := Idle(listed, done - {id});
      if Managed(listed[id]) && !listed[id].running {
        assert Idle(listed, done) == hit + {id};
        StartedFrame(d, q.daemon, w, hit, id);
      } else {
        assert Idle(listed, done) == hit;
      }
    }
  }

  /** After a successful listing ReconcileContainers tries every managed container that is not
      running once, and touches nothing else; with no error all managed containers run. */
  lemma ReconcileExactly(d: Daemon, w: World, order: seq<Id>)
    requires WellFormed(d) && Lists(order, d.containers) && IsOrder(order, d.containers.Keys)
    ensures var t := Reconciled(d, w, order);
            var idle := Idle(d.containers, d.containers.Keys);
            && WellFormed(t.daemon) && OnlyStarted(d, t.daemon, idle)
            && (!Good(w.answer(d.calls)) ==> t.good == 0 && t.bad == 1 && t.daemon.containers == d.containers)
            && (Good(w.answer(d.calls)) ==> t.good + t.bad == |idle|)
            && (t.bad == 0 ==> Idle(t.daemon.containers, t.daemon.containers.Keys) == {})
  {
    if Good(w.answer(d.calls)) {
      RestartLoopFrame(Called(d), w, d.containers, order, d.containers.Keys);
      NoneIdle(d, RestartLoop(Called(d), w, d.containers, order));
    }
  }

  lemma NoneIdle(d: Daemon, t: Tally)
    requires OnlyStarted(d, t.daemon, Idle(d.containers, d.containers.Keys))
    ensures t.bad == 0 && AllRun(t.daemon, Idle(d.containers, d.containers.Keys)) ==>
              Idle(t.daemon.containers, t.daemon.containers.Keys) == {}
  {
    forall id | id in Idle(t.daemon.containers, t.daemon.containers.Keys)
      ensures id in Idle(d.containers, d.containers.Keys)
    {
      assert t.daemon.containers[id].labels == d.containers[id].labels;
    }
  }

  /** An immediate second pass restarts nothing and changes nothing. */
  lemma ReconcileTwice(d: Daemon, w: World, order: seq<Id>, order': seq<Id>)
    requires WellFormed(d) && Lists(order, d.containers) && IsOrder(order, d.containers.Keys)
    requires Reconciled(d, w, order).bad == 0
    requires var e := Reconciled(d, w, order).daemon;
             Lists(order', e.containers) && IsOrder(order', e.containers.Keys)
    ensures var e := Reconciled(d, w, order).daemon;
            var t := Reconciled(e, w, order');
            t.good == 0 && t.daemon.containers == e.containers && t.daemon.volumes == e.volumes
            && (Good(w.answer(e.calls)) ==> t.bad == 0)
  {
    ReconcileExactly(d, w, order);
    var e := Reconciled(d, w, order).daemon;
    ReconcileExactly(e, w, order');
    OnlyStartedNone(e, Reconciled(e, w, order').daemon);
  }

  lemma OnlyStartedNone(d: Daemon, e: Daemon)
    requires OnlyStarted(d, e, {})
    ensures e.containers == d.containers
  {
  }

  // ---------------------------------------------------------------- which containers it is about

  /** The container carries a deployment ID that is not empty. */
  predicate HasDeploymentId(c: Container) {
    c.labels.Some? && DeploymentIdLabel in c.labels.value && c.labels.value[DeploymentIdLabel] != ""
  }

  lemma ManagedByLabel(c: Container)
    ensures Managed(c) <==> HasDeploymentId(c)
  {
  }

  /** By the labels: a container without a deployment ID, and one that runs, is left exactly as
      it is; after a pass without errors every one with a deployment ID runs and is otherwise as
      before; and each of these that did not run was tried once. */
  lemma ReconcileByLabels(d: Daemon, w: World, order: seq<Id>)
    requires WellFormed(d) && Lists(order, d.containers) && IsOrder(order, d.containers.Keys)
    ensures var t := Reconciled(d, w, order);
            && t.daemon.containers.Keys == d.containers.Keys
            && (forall id :: id in d.containers && (!HasDeploymentId(d.containers[id]) || d.containers[id].running) ==>
                  t.daemon.containers[id] == d.containers[id])
            && (t.bad == 0 ==> forall id :: id in d.containers && HasDeploymentId(d.containers[id]) ==>
                  t.daemon.containers[id] == d.containers[id].(running := true))
            && (Good(w.answer(d.calls)) ==>
                  t.good + t.bad
                  == |set id | id in d.containers && HasDeploymentId(d.containers[id]) && !d.containers[id].running|)
  {
    var t, idle := Reconciled(d, w, order), Idle(d.containers, d.containers.Keys);
    ReconcileExactly(d, w, order);
    assert idle == set id | id in d.containers && HasDeploymentId(d.containers[id]) && !d.containers[id].running;
    if t.bad == 0 {
      AllUpByLabels(d, t.daemon, idle);
    }
  }

  lemma AllUpByLabels(d: Daemon, e: Daemon, idle: set<Id>)
    requires OnlyStarted(d, e, idle) && Idle(e.containers, e.containers.Keys) == {}
    ensures forall id :: id in d.containers && HasDeploymentId(d.containers[id]) ==>
              e.containers[id] == d.containers[id].(running := true)
  {
    forall id | id in d.containers && HasDeploymentId(d.containers[id])
      ensures e.containers[id] == d.containers[id].(running := true)
    {
      assert id !in Idle(e.containers, e.containers.Keys);
      assert e.containers[id].labels == d.containers[id].labels;
    }
  }

  /** A container that Execute made, for a graph with a deployment ID, runs after the next pass
      without errors. */
  lemma DeployedComesBack(d: Daemon, w: World, order: seq<Id>, made: World, g: Graph, n: string, id: Id)
    requires WellFormed(d) && Lists(order, d.containers) && IsOrder(order, d.containers.Keys)
    requires id in d.containers && IsWanted(made, g, n, g.slug, d.containers[id]) && g.deploymentId != ""
    requires Reconciled(d, w, order).bad == 0
    ensures var e := Reconciled(d, w, order).daemon;
            id in e.containers && e.containers[id] == Wanted(made, g, n).(running := true)
  {
    WantedFields(made, g, n);
    ReconcileByLabels(d, w, order);
  }

  lemma {:induction false} GoodRestartLoop(d: Daemon, w: World, listed: map<Id, Container>,
                                           order: seq<Id>, done: set<Id>)
    requires Lists(order, listed) && IsOrder(order, done) && listed == d.containers && AllGood(w)
    ensures RestartLoop(d, w, listed, order).bad == 0
    decreases |order|
  {
    if order != [] {
      var n := |order| - 1;
      GoodRestartLoop(d, w, listed, order[..n], done - {order[n]});
      RestartLoopFrame(d, w, listed, order[..n], done - {order[n]});
    }
  }

  /** With every call succeeding there are no errors. */
  lemma ReconcileGood(d: Daemon, w: World, order: seq<Id>)
    requires WellFormed(d) && Lists(order, d.containers) && IsOrder(order, d.containers.Keys) && AllGood(w)
    ensures Reconciled(d, w, order).bad == 0
  {
    GoodRestartLoop(Called(d), w, d.containers, order, d.containers.Keys);
  }

  // ---------------------------------------------------------------- any sequence of operations

  /** One operation of the runner, or a container exiting or coming up by itself. */
  datatype Op = Execute(graph: Graph) | Stop(slug: string) | Reconcile | Changes(id: Id, running: bool)

  ghost predicate After(d: Daemon, w: World, op: Op, e: Daemon) {
    match op
    case Execute(g) =>
      exists volumes, services, done :: Executes(d, w, g, volumes, services, done, e)
    case Stop(slug) =>
      exists order :: Stops(d, w, slug, order, e)
    case Reconcile =>
      exists order :: Reconciles(d, w, order, e)
    case Changes(id, running) =>
      id in d.containers && e == SetRunning(d, id, running)
  }

  ghost predicate Executes(d: Daemon, w: World, g: Graph, volumes: seq<string>, services: seq<string>,
                           done: set<string>, e: Daemon) {
    && Among(volumes, g.volumes.Keys) && Among(services, g.services.Keys) && IsOrder(services, done)
    && e == Executed(d, w, g, volumes, services).0
  }

  ghost predicate Stops(d: Daemon, w: World, slug: string, order: seq<Id>, e: Daemon) {
    Lists(order, d.containers) && IsOrder(order, d.containers.Keys) && e == Stopped(d, w, slug, order).0
  }

  ghost predicate Reconciles(d: Daemon, w: World, order: seq<Id>, e: Daemon) {
    Lists(order, d.containers) && IsOrder(order, d.containers.Keys) && e == Reconciled(d, w, order).daemon
  }

  /** A container an operation may remove. */
  predicate Threatens(op: Op, c: Container) {
    match op
    case Execute(g) => ValidGraph(g) && InGraph(g, c.name)
    case Stop(slug) => Matches(c, slug)
    case Reconcile => false
    case Changes(_, _) => false
  }

  /** What no operation does: lose or alter a volume, reuse an ID, or remove a container it
      does not threaten. */
  ghost predicate Keeps(d: Daemon, op: Op, e: Daemon) {
    && WellFormed(e) && d.nextId <= e.nextId && VolumesKept(d, e)
    && (forall id :: id in d.containers && !Threatens(op, d.containers[id]) ==>
          id in e.containers && SameButRunning(d.containers[id], e.containers[id]))
    && (forall id :: id in d.containers && id in e.containers ==> SameButRunning(d.containers[id], e.containers[id]))
  }

  ghost predicate VolumesKept(d: Daemon, e: Daemon) {
    forall v :: v in d.volumes ==> v in e.volumes && e.volumes[v] == d.volumes[v]
  }

  lemma ExecuteKeepsOld(d: Daemon, w: World, g: Graph, volumes: seq<string>, services: seq<string>, done: set<string>)
    requires WellFormed(d) && ValidGraph(g) && Among(volumes, g.volumes.Keys) && Among(services, g.services.Keys)
    requires IsOrder(services, done)
    ensures var e := Executed(d, w, g, volumes, services).0;
            && WellFormed(e) && d.nextId <= e.nextId && VolumesKept(d, e)
            && forall id :: id in d.containers && id in e.containers ==> e.containers[id] == d.containers[id]
  {
    ExecuteFrame(d, w, g, volumes, services, done);
  }

  lemma ExecuteKeeps(d: Daemon, w: World, g: Graph, volumes: seq<string>, services: seq<string>, done: set<string>)
    requires WellFormed(d) && Among(volumes, g.volumes.Keys) && Among(services, g.services.Keys)
    requires IsOrder(services, done)
    ensures Keeps(d, Execute(g), Executed(d, w, g, volumes, services).0)
  {
    if ValidGraph(g) {
      var e := Executed(d, w, g, volumes, services).0;
      ExecuteKeepsOld(d, w, g, volumes, services, done);
      forall id | id in d.containers && !InGraph(g, d.containers[id].name) ensures id in e.containers {
        ExecuteLeavesAlone(d, w, g, volumes, services, done, id);
      }
    }
  }

  lemma StopKeeps(d: Daemon, w: World, slug: string, order: seq<Id>)
    requires WellFormed(d) && Lists(order, d.containers) && IsOrder(order, d.containers.Keys)
    ensures Keeps(d, Stop(slug), Stopped(d, w, slug, order).0)
  {
    StopExactly(d, w, slug, order);
    OnlyStoppedKeeps(d, Stopped(d, w, slug, order).0, slug);
  }

  lemma OnlyStoppedKeeps(d: Daemon, e: Daemon, slug: string)
    requires WellFormed(e) && OnlyStopped(d, e, Belonging(d.containers, slug, d.containers.Keys))
    ensures Keeps(d, Stop(slug), e)
  {
  }

  lemma ReconcileKeeps(d: Daemon, w: World, order: seq<Id>)
    requires WellFormed(d) && Lists(order, d.containers) && IsOrder(order, d.containers.Keys)
    ensures Keeps(d, Reconcile, Reconciled(d, w, order).daemon)
  {
    ReconcileExactly(d, w, order);
    OnlyStartedKeeps(d, Reconciled(d, w, order).daemon, Idle(d.containers, d.containers.Keys));
  }

  lemma OnlyStartedKeeps(d: Daemon, e: Daemon, hit: set<Id>)
    requires WellFormed(e) && OnlyStarted(d, e, hit)
    ensures Keeps(d, Reconcile, e)
  {
  }

  lemma StepKeeps(d: Daemon, w: World, op: Op, e: Daemon)
    requires WellFormed(d) && After(d, w, op, e)
    ensures Keeps(d, op, e)
  {
    match op {
      case Execute(g) =>
        var volumes, services, done :| Executes(d, w, g, volumes, services, done, e);
        ExecuteKeeps(d, w, g, volumes, services, done);
      case Stop(slug) =>
        var order :| Stops(d, w, slug, order, e);
        StopKeeps(d, w, slug, order);
      case Reconcile =>
        var order :| Reconciles(d, w, order, e);
        ReconcileKeeps(d, w, order);
      case Changes(_, _) => {}
    }
  }

  /** `states` is a run of the operations, one after the other. */
  ghost predicate Run(w: World, ops: seq<Op>, states: seq<Daemon>) {
    |states| == |ops| + 1 && forall i :: 0 <= i < |ops| ==> After(states[i], w, ops[i], states[i + 1])
  }

  /** Over any sequence of operations, with any failures, no volume is removed or altered. */
  lemma {:induction false} VolumesOutliveEverything(w: World, ops: seq<Op>, states: seq<Daemon>, i: nat, j: nat)
    requires Run(w, ops, states) && WellFormed(states[0]) && i <= j < |states|
    ensures WellFormed(states[i]) && WellFormed(states[j]) && VolumesKept(states[i], states[j])
    decreases j
  {
    if i < j {
      VolumesOutliveEverything(w, ops, states, i, j - 1);
      StepKeeps(states[j - 1], w, ops[j - 1], states[j]);
    } else if 0 < j {
      VolumesOutliveEverything(w, ops, states, j - 1, j - 1);
      StepKeeps(states[j - 1], w, ops[j - 1], states[j]);
    }
  }

  lemma ThreatIgnoresRunning(op: Op, a: Container, b: Container)
    requires SameButRunning(a, b)
    ensures Threatens(op, a) <==> Threatens(op, b)
  {
    assert Names(a) == Names(b);
    assert a.labels == b.labels;
  }

  /** A container that no operation of the run threatens is still there at the end, the same
      but for running or not. */
  lemma {:induction false} UnthreatenedSurvive(w: World, ops: seq<Op>, states: seq<Daemon>, id: Id, j: nat)
    requires Run(w, ops, states) && WellFormed(states[0]) && j < |states|
    requires id in states[0].containers
    requires forall k :: 0 <= k < j ==> !Threatens(ops[k], states[0].containers[id])
    ensures id in states[j].containers && SameButRunning(states[0].containers[id], states[j].containers[id])
    decreases j
  {
    if 0 < j {
      UnthreatenedSurvive(w, ops, states, id, j - 1);
      VolumesOutliveEverything(w, ops, states, 0, j - 1);
      StepKeeps(states[j - 1], w, ops[j - 1], states[j]);
      ThreatIgnoresRunning(ops[j - 1], states[0].containers[id], states[j - 1].containers[id]);
    }
  }
}
