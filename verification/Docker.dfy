/** The Docker daemon as the runner sees it: containers by ID, volumes by name, and calls
    that may fail, with or without having taken effect. */
module Docker {
  import opened Wrappers

  type Id = nat

  /** Label keys: the three that the runner sets, and any other. */
  datatype Label = DeploymentIdLabel | SlugLabel | ServiceLabel | OtherLabel(key: string)

  /** `name` is the container's own name; `aliases` are further names a listing shows. */
  datatype Container = Container(name: string, aliases: seq<string>, image: string, env: map<string, string>,
                                 ports: map<string, string>, binds: seq<string>,
                                 labels: Option<map<Label, string>>, running: bool)

  datatype Volume = Volume(driver: string, labels: map<Label, string>)

  datatype Daemon = Daemon(containers: map<Id, Container>, volumes: map<string, Volume>, nextId: Id, calls: nat)

  /** How one call goes: whether it takes effect (when it can), whether the caller is told of
      success, and whether an inspected container turns out to have exited. */
  datatype Answer = Answer(effect: bool, reported: bool, exited: Option<int>)

  /** What the daemon does with the call of each number, and how port strings parse. */
  datatype World = World(answer: nat -> Answer, parsePort: string -> Option<string>)

  predicate Good(a: Answer) {
    a.effect && a.reported
  }

  /** IDs are fresh and names are taken once. */
  ghost predicate WellFormed(d: Daemon) {
    && (forall id :: id in d.containers ==> id < d.nextId)
    && (forall a, b ::
          a in d.containers && b in d.containers && d.containers[a].name == d.containers[b].name ==> a == b)
  }

  function Called(d: Daemon): Daemon {
    d.(calls := d.calls + 1)
  }

  function VolumeCreated(d: Daemon, w: World, name: string, v: Volume): Daemon {
    if w.answer(d.calls).effect && name !in d.volumes then Called(d).(volumes := d.volumes[name := v]) else Called(d)
  }

  predicate Taken(d: Daemon, name: string) {
    exists id :: id in d.containers && d.containers[id].name == name
  }

  function RemovedByName(d: Daemon, w: World, name: string): Daemon {
    if w.answer(d.calls).effect
    then Called(d).(containers := map id | id in d.containers && d.containers[id].name != name :: d.containers[id])
    else Called(d)
  }

  function Created(d: Daemon, w: World, c: Container): (Daemon, Option<Id>) {
    var a := w.answer(d.calls);
    if !a.effect || Taken(d, c.name) then (Called(d), None)
    else (Called(d).(containers := d.containers[d.nextId := c], nextId := d.nextId + 1),
          if a.reported then Some(d.nextId) else None)
  }

  function SetRunning(d: Daemon, id: Id, running: bool): Daemon
    requires id in d.containers
  {
    d.(containers := d.containers[id := d.containers[id].(running := running)])
  }

  function StartedById(d: Daemon, w: World, id: Id): (Daemon, bool) {
    var a := w.answer(d.calls);
    if !a.effect || id !in d.containers then (Called(d), false) else (SetRunning(Called(d), id, true), a.reported)
  }

  /** The exit code the caller is shown, if the container has exited and the call succeeds. */
  function Inspected(d: Daemon, w: World, id: Id): (Daemon, Option<int>) {
    var a := w.answer(d.calls);
    if id !in d.containers || a.exited.None? then (Called(d), None)
    else (SetRunning(Called(d), id, false), if a.reported then a.exited else None)
  }

  function StoppedById(d: Daemon, w: World, id: Id): (Daemon, bool) {
    var a := w.answer(d.calls);
    if !a.effect || id !in d.containers then (Called(d), false) else (SetRunning(Called(d), id, false), a.reported)
  }

  /** Removal without force: a running container stays. */
  function RemovedById(d: Daemon, w: World, id: Id): (Daemon, bool) {
    var a := w.answer(d.calls);
    if !a.effect || id !in d.containers || d.containers[id].running then (Called(d), false)
    else (Called(d).(containers := d.containers - {id}), a.reported)
  }

  /** `order` goes through `s`, each element once. */
  ghost predicate IsOrder<T(!new)>(order: seq<T>, s: set<T>)
    decreases |order|
  {
    if order == [] then s == {}
    else
      var x := order[|order| - 1];
      x in s && IsOrder(order[..|order| - 1], s - {x})
  }

  lemma OrderAppend<T(!new)>(order: seq<T>, s: set<T>, x: T)
    requires IsOrder(order, s) && x !in s
    ensures IsOrder(order + [x], s + {x})
  {
    assert (order + [x])[..|order|] == order;
    assert s + {x} - {x} == s;
  }

  ghost predicate Distinct<T(!new)>(order: seq<T>) {
    forall i, j :: 0 <= i < j < |order| ==> order[i] != order[j]
  }

  lemma {:induction false} OrderFacts<T(!new)>(order: seq<T>, s: set<T>)
    requires IsOrder(order, s)
    ensures Distinct(order) && forall x :: x in order <==> x in s
    decreases |order|
  {
    if order != [] {
      var n := |order| - 1;
      OrderFacts(order[..n], s - {order[n]});
      assert order == order[..n] + [order[n]];
    }
  }

  /** The daemon as the runner talks to it. */
  class Engine {
    var containers: map<Id, Container>
    var volumes: map<string, Volume>
    var nextId: Id
    var calls: nat
    const world: World

    ghost function View(): Daemon
      reads this
    {
      Daemon(containers, volumes, nextId, calls)
    }

    constructor (d: Daemon, world: World)
      ensures View() == d && this.world == world
    {
      containers, volumes, nextId, calls := d.containers, d.volumes, d.nextId, d.calls;
      this.world := world;
    }

    method VolumeCreate(name: string, v: Volume) returns (ok: bool)
      modifies this
      ensures View() == VolumeCreated(old(View()), world, name, v) && ok == Good(world.answer(old(calls)))
    {
      var a := world.answer(calls);
      calls := calls + 1;
      if a.effect && name !in volumes {
        volumes := volumes[name := v];
      }
      ok := Good(a);
    }

    /** A call that changes no container and no volume: pulling or building an image. */
    method ImageCall() returns (ok: bool)
      modifies this
      ensures View() == Called(old(View())) && ok == Good(world.answer(old(calls)))
    {
      var a := world.answer(calls);
      calls := calls + 1;
      ok := Good(a);
    }

    method ContainerRemoveForced(name: string)
      modifies this
      ensures View() == RemovedByName(old(View()), world, name)
    {
      var a := world.answer(calls);
      calls := calls + 1;
      if a.effect {
        containers := map id | id in containers && containers[id].name != name :: containers[id];
      }
    }

    method ContainerCreate(c: Container) returns (r: Option<Id>)
      modifies this
      ensures (View(), r) == Created(old(View()), world, c)
    {
      var a := world.answer(calls);
      calls := calls + 1;
      if !a.effect || exists id :: id in containers && containers[id].name == c.name {
        return None;
      }
      containers := containers[nextId := c];
      r := if a.reported then Some(nextId) else None;
      nextId := nextId + 1;
    }

    method ContainerStart(id: Id) returns (ok: bool)
      modifies this
      ensures (View(), ok) == StartedById(old(View()), world, id)
    {
      var a := world.answer(calls);
      calls := calls + 1;
      if !a.effect || id !in containers {
        return false;
      }
      containers := containers[id := containers[id].(running := true)];
      ok := a.reported;
    }

    method ContainerInspect(id: Id) returns (exited: Option<int>)
      modifies this
      ensures (View(), exited) == Inspected(old(View()), world, id)
    {
      var a := world.answer(calls);
      calls := calls + 1;
      if id !in containers || a.exited.None? {
        return None;
      }
      containers := containers[id := containers[id].(running := false)];
      exited := if a.reported then a.exited else None;
    }

    method ContainerStop(id: Id) returns (ok: bool)
      modifies this
      ensures (View(), ok) == StoppedById(old(View()), world, id)
    {
      var a := world.answer(calls);
      calls := calls + 1;
      if !a.effect || id !in containers {
        return false;
      }
      containers := containers[id := containers[id].(running := false)];
      ok := a.reported;
    }

    method ContainerRemove(id: Id) returns (ok: bool)
      modifies this
      ensures (View(), ok) == RemovedById(old(View()), world, id)
    {
      var a := world.answer(calls);
      calls := calls + 1;
      if !a.effect || id !in containers || containers[id].running {
        return false;
      }
      containers := containers - {id};
      ok := a.reported;
    }

    /** ContainerList with All set: every container once, in the daemon's order. */
    method ContainerList() returns (items: Option<seq<(Id, Container)>>, ghost order: seq<Id>)
      modifies this
      ensures View() == Called(old(View())) && IsOrder(order, old(containers).Keys)
      ensures Lists(order, old(containers))
      ensures items.Some? <==> Good(world.answer(old(calls)))
      ensures items.Some? ==> Shows(items.value, order, old(containers))
    {
      var shown;
      shown, order := Listing(containers);
      items := if Good(world.answer(calls)) then Some(shown) else None;
      calls := calls + 1;
    }
  }

  predicate Lists(order: seq<Id>, containers: map<Id, Container>) {
    forall i :: 0 <= i < |order| ==> order[i] in containers
  }

  predicate Shows(shown: seq<(Id, Container)>, order: seq<Id>, containers: map<Id, Container>)
    requires Lists(order, containers)
  {
    |shown| == |order| && forall i :: 0 <= i < |order| ==> shown[i] == (order[i], containers[order[i]])
  }

  method Listing(containers: map<Id, Container>) returns (shown: seq<(Id, Container)>, ghost order: seq<Id>)
    ensures IsOrder(order, containers.Keys) && Lists(order, containers) && Shows(shown, order, containers)
  {
    shown, order := [], [];
    var left := containers.Keys;
    ghost var done: set<Id> := {};
    while left != {}
      invariant done !! left && done + left == containers.Keys && IsOrder(order, done)
      invariant Lists(order, containers) && Shows(shown, order, containers)
      decreases |left|
    {
      var id :| id in left;
      left := left - {id};
      shown := shown + [(id, containers[id])];
      OrderAppend(order, done, id);
      order, done := order + [id], done + {id};
    }
  }
}
