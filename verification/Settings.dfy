/** What the port and volume settings of a service come to: the two string loops of Execute
    against what their entries mean (internal/runner/runner.go:159-203). */
module Settings {
  import opened Wrappers
  import opened Compiler
  import opened Docker
  import opened Runner

  /** Splitting at the first colon. */
  lemma {:induction false} SplitColonExactly(s: string, a: string, b: string)
    ensures SplitColon(s) == Some((a, b)) <==> s == a + ":" + b && ':' !in a
  {
    if s != "" && s[0] != ':' {
      if a != "" {
        SplitColonExactly(s[1..], a[1..], b);
        assert a == [a[0]] + a[1..] && s == [s[0]] + s[1..];
        assert a + ":" + b == [a[0]] + (a[1..] + ":" + b);
      }
    } else if s != "" {
      assert s == ":" + s[1..];
      if s == a + ":" + b && a != "" {
        assert s[0] == a[0];
      }
      if s == a + ":" + b && a == "" {
        assert b == s[1..];
      }
    }
  }

  /** A mount of a declared volume, and the bind it becomes. */
  predicate Mounts(g: Graph, mount: string, volume: string, target: string) {
    mount == volume + ":" + target && ':' !in volume && volume in g.volumes
  }

  function Bind(g: Graph, volume: string, target: string): string {
    VolumeName(g.slug, volume) + ":" + target
  }

  ghost predicate Yields(g: Graph, mount: string, bind: string) {
    exists volume, target :: Mounts(g, mount, volume, target) && bind == Bind(g, volume, target)
  }

  lemma YieldsBySplitting(g: Graph, mount: string, bind: string)
    ensures var parts := SplitColon(mount);
            Yields(g, mount, bind)
            <==> parts.Some? && parts.value.0 in g.volumes && bind == Bind(g, parts.value.0, parts.value.1)
  {
    var parts := SplitColon(mount);
    if parts.Some? {
      SplitColonExactly(mount, parts.value.0, parts.value.1);
    }
    if volume, target :| Mounts(g, mount, volume, target) && bind == Bind(g, volume, target) {
      SplitColonExactly(mount, volume, target);
    }
  }

  /** The binds are exactly those of the mounts of declared volumes: no host path is mounted. */
  lemma {:induction false} BindsExactly(g: Graph, mounts: seq<string>, bind: string)
    ensures bind in Binds(g, mounts) <==> exists i :: 0 <= i < |mounts| && Yields(g, mounts[i], bind)
    decreases |mounts|
  {
    if mounts != [] {
      var n := |mounts| - 1;
      var before := mounts[..n];
      BindsExactly(g, before, bind);
      YieldsBySplitting(g, mounts[n], bind);
      assert forall i :: 0 <= i < n ==> before[i] == mounts[i];
      if i :| 0 <= i < n && Yields(g, before[i], bind) {
        assert Yields(g, mounts[i], bind);
      }
    }
  }

  /** A port setting with a container port that parses. */
  predicate Publishes(w: World, setting: string, host: string, text: string, port: string) {
    setting == host + ":" + text && ':' !in host && w.parsePort(text + "/tcp") == Some(port)
  }

  predicate PublishesPort(w: World, setting: string, port: string) {
    var parts := SplitColon(setting);
    parts.Some? && w.parsePort(parts.value.1 + "/tcp") == Some(port)
  }

  lemma PublishesPortExactly(w: World, setting: string, port: string)
    ensures PublishesPort(w, setting, port) <==> exists host, text :: Publishes(w, setting, host, text, port)
  {
    var parts := SplitColon(setting);
    if PublishesPort(w, setting, port) {
      SplitColonExactly(setting, parts.value.0, parts.value.1);
      assert Publishes(w, setting, parts.value.0, parts.value.1, port);
    }
    if host, text :| Publishes(w, setting, host, text, port) {
      SplitColonExactly(setting, host, text);
    }
  }

  /** The ports bound are exactly those some setting publishes, each to the host port of the
      last setting that does. */
  lemma {:induction false} PortBindingsExactly(w: World, settings: seq<string>, port: string)
    ensures port in PortBindings(w, settings)
       <==> exists i :: 0 <= i < |settings| && PublishesPort(w, settings[i], port)
    ensures forall i, host, text ::
              (0 <= i < |settings| && Publishes(w, settings[i], host, text, port)
               && forall j :: i < j < |settings| ==> !PublishesPort(w, settings[j], port))
              ==> port in PortBindings(w, settings) && PortBindings(w, settings)[port] == host
    decreases |settings|
  {
    if settings != [] {
      var n := |settings| - 1;
      var before := settings[..n];
      PortBindingsExactly(w, before, port);
      assert forall i :: 0 <= i < n ==> before[i] == settings[i];
      if i :| 0 <= i < n && PublishesPort(w, before[i], port) {
        assert PublishesPort(w, settings[i], port);
      }
      forall i, host, text | 0 <= i < |settings| && Publishes(w, settings[i], host, text, port)
          && forall j :: i < j < |settings| ==> !PublishesPort(w, settings[j], port)
        ensures port in PortBindings(w, settings) && PortBindings(w, settings)[port] == host
      {
        SplitColonExactly(settings[i], host, text);
        if i < n {
          assert !PublishesPort(w, settings[n], port);
          assert forall j :: i < j < n ==> !PublishesPort(w, before[j], port);
        }
      }
    }
  }
}
