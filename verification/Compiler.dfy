/** Deployment specs, compiled graphs, and the two passes between them
    (internal/compiler/compiler.go:25-143, internal/deployment/handler.go:12-82). */
module Compiler {
  import opened Wrappers
  import opened Tiling
  import opened Secrets

  datatype BuildConfig = BuildConfig(context: string, dockerfile: string, args: map<string, string>)

  datatype SourceRef = SourceRef(kind: string, ref: string, archiveUrl: string, token: string)

  datatype ServiceSpec = ServiceSpec(image: string, build: Option<BuildConfig>, ports: seq<string>,
                                     environment: map<string, string>, volumes: seq<string>, networks: seq<string>)

  /** NetworkSpec and NetworkNode, VolumeSpec and VolumeNode carry the same two fields. */
  datatype Named = Named(name: string, driver: string)

  datatype Spec = Spec(id: string, slug: string, version: string, source: Option<SourceRef>,
                       services: map<string, ServiceSpec>, networks: map<string, Named>, volumes: map<string, Named>)

  datatype ServiceNode = ServiceNode(name: string, image: string, build: Option<BuildConfig>,
                                     source: Option<SourceRef>, environment: map<string, string>,
                                     ports: seq<string>, volumeMounts: seq<string>, networks: seq<string>)

  datatype Graph = Graph(deploymentId: string, version: string, slug: string, services: map<string, ServiceNode>,
                         networks: map<string, Named>, volumes: map<string, Named>)

  // ---------------------------------------------------------------- compiling

  datatype CompileError = NilSpec | MissingId | SecretsFailed(service: string, cause: Unresolved)

  function Node(spec: Spec, name: string, client: Option<Store>): ServiceNode
    requires name in spec.services
  {
    var svc := spec.services[name];
    ServiceNode(name, svc.image, svc.build, spec.source, ResolvedEnv(svc.environment, client),
                svc.ports, svc.volumes, svc.networks)
  }

  function Compiled(spec: Spec, client: Option<Store>): Graph {
    Graph(spec.id, spec.version, spec.slug, map name | name in spec.services :: Node(spec, name, client),
          spec.networks, spec.volumes)
  }

  predicate ServicesResolve(spec: Spec, client: Option<Store>) {
    forall name :: name in spec.services ==> EnvResolves(spec.services[name].environment, client)
  }

  predicate Compiles(spec: Option<Spec>, client: Option<Store>) {
    spec.Some? && spec.value.id != "" && ServicesResolve(spec.value, client)
  }

  /** Compile: all of the graph or an error, in whatever order the services are visited. */
  method Compile(spec: Option<Spec>, client: Option<Store>) returns (r: Result<Graph, CompileError>)
    ensures r.Ok? <==> Compiles(spec, client)
    ensures r.Ok? ==> r.value == Compiled(spec.value, client)
    ensures r.Err? ==>
              match r.error
              case NilSpec => spec.None?
              case MissingId => spec.Some? && spec.value.id == ""
              case SecretsFailed(service, cause) =>
                && spec.Some? && service in spec.value.services
                && !EnvResolves(spec.value.services[service].environment, client)
  {
    if spec.None? {
      return Err(NilSpec);
    }
    if spec.value.id == "" {
      return Err(MissingId);
    }
    var services := CompileServices(spec.value, client);
    if services.Err? {
      return Err(services.error);
    }
    var networks := CopyNamed(spec.value.networks);
    var volumes := CopyNamed(spec.value.volumes);
    return Ok(Graph(spec.value.id, spec.value.version, spec.value.slug, services.value, networks, volumes));
  }

  /** The first loop of Compile. */
  method CompileServices(spec: Spec, client: Option<Store>) returns (r: Result<map<string, ServiceNode>, CompileError>)
    ensures r.Ok? <==> ServicesResolve(spec, client)
    ensures r.Ok? ==> r.value == map name | name in spec.services :: Node(spec, name, client)
    ensures r.Err? ==>
              && r.error.SecretsFailed? && r.error.service in spec.services
              && !EnvResolves(spec.services[r.error.service].environment, client)
  {
    var services: map<string, ServiceNode> := map[];
    var left := spec.services.Keys;
    while left != {}
      invariant left <= spec.services.Keys && services.Keys == spec.services.Keys - left
      invariant forall n :: n in services ==> EnvResolves(spec.services[n].environment, client)
      invariant forall n :: n in services ==> services[n] == Node(spec, n, client)
      decreases |left|
    {
      var name :| name in left;
      left := left - {name};
      var svc := spec.services[name];
      var env := ResolveSecrets(svc.environment, client);
      if env.Err? {
        return Err(SecretsFailed(name, env.error));
      }
      services := services[name := ServiceNode(name, svc.image, svc.build, spec.source, env.value,
                                               svc.ports, svc.volumes, svc.networks)];
    }
    return Ok(services);
  }

  method CopyNamed(specs: map<string, Named>) returns (nodes: map<string, Named>)
    ensures nodes == specs
  {
    nodes := map[];
    var left := specs.Keys;
    while left != {}
      invariant left <= specs.Keys && nodes.Keys == specs.Keys - left
      invariant forall n :: n in nodes ==> nodes[n] == specs[n]
      decreases |left|
    {
      var name :| name in left;
      left := left - {name};
      nodes := nodes[name := Named(specs[name].name, specs[name].driver)];
    }
  }

  // ---------------------------------------------------------------- validating

  datatype GraphError =
    | NoDeploymentId
    | NoServices
    | NothingToRun(service: string)
    | UnknownNetwork(service: string, network: string)

  predicate ServiceValid(g: Graph, svc: ServiceNode) {
    (svc.image != "" || svc.build.Some?) && forall n :: n in svc.networks ==> n in g.networks
  }

  predicate ValidGraph(g: Graph) {
    && g.deploymentId != "" && g.services != map[]
    && forall name :: name in g.services ==> ServiceValid(g, g.services[name])
  }

  /** The inner loop of Validate. */
  method FirstUnknown(names: seq<string>, known: set<string>) returns (unknown: Option<string>)
    ensures unknown.None? <==> forall n :: n in names ==> n in known
    ensures unknown.Some? ==> unknown.value in names && unknown.value !in known
  {
    for i := 0 to |names|
      invariant forall j :: 0 <= j < i ==> names[j] in known
    {
      if names[i] !in known {
        return Some(names[i]);
      }
    }
    return None;
  }

  method Validate(g: Graph) returns (r: Option<GraphError>)
    ensures r.None? <==> ValidGraph(g)
    ensures r.Some? ==>
              match r.value
              case NoDeploymentId => g.deploymentId == ""
              case NoServices => g.services == map[]
              case NothingToRun(s) => s in g.services && g.services[s].image == "" && g.services[s].build.None?
              case UnknownNetwork(s, n) => s in g.services && n in g.services[s].networks && n !in g.networks
  {
    if g.deploymentId == "" {
      return Some(NoDeploymentId);
    }
    if |g.services| == 0 {
      return Some(NoServices);
    }
    var left := g.services.Keys;
    while left != {}
      invariant left <= g.services.Keys
      invariant forall name :: name in g.services && name !in left ==> ServiceValid(g, g.services[name])
      decreases |left|
    {
      var name :| name in left;
      var svc := g.services[name];
      if svc.image == "" && svc.build.None? {
        return Some(NothingToRun(name));
      }
      var unknown := FirstUnknown(svc.networks, g.networks.Keys);
      if unknown.Some? {
        return Some(UnknownNetwork(name, unknown.value));
      }
      left := left - {name};
    }
    return None;
  }

  // ---------------------------------------------------------------- the two passes together

  /** With a client, a spec with an ID compiles exactly when every placeholder that occurs in
      any variable of any service resolves. */
  lemma CompilesExactly(spec: Spec, store: Store)
    requires spec.id != ""
    ensures Compiles(Some(spec), Some(store))
       <==> forall name, variable, i: nat, key ::
              (name in spec.services && variable in spec.services[name].environment
               && Occurs(spec.services[name].environment[variable], i, key)) ==> store(key).Some?
  {
    forall name, variable | name in spec.services && variable in spec.services[name].environment
      ensures Resolves(spec.services[name].environment[variable], store)
         <==> forall i: nat, key :: Occurs(spec.services[name].environment[variable], i, key) ==> store(key).Some?
    {
      ResolvesExactly(spec.services[name].environment[variable], store);
    }
  }

  /** Compiling keeps every key set, whatever the secrets. */
  lemma CompileKeepsKeys(spec: Spec, client: Option<Store>)
    ensures var g := Compiled(spec, client);
            && g.services.Keys == spec.services.Keys
            && g.networks.Keys == spec.networks.Keys && g.volumes.Keys == spec.volumes.Keys
            && forall name :: name in g.services ==>
                 g.services[name].environment.Keys == spec.services[name].environment.Keys
  {
  }

  /** What a spec needs for its graph to be valid; secrets make no difference. */
  lemma CompiledGraphValidExactly(spec: Spec, client: Option<Store>)
    requires Compiles(Some(spec), client)
    ensures ValidGraph(Compiled(spec, client))
       <==> && spec.services != map[]
            && (forall name :: name in spec.services ==>
                  spec.services[name].image != "" || spec.services[name].build.Some?)
            && (forall name, network :: name in spec.services && network in spec.services[name].networks ==>
                  network in spec.networks)
  {
    var g := Compiled(spec, client);
    assert spec.services == map[] <==> spec.services.Keys == {};
    assert g.services == map[] <==> g.services.Keys == {};
    assert forall name :: name in spec.services ==>
        && g.services[name].networks == spec.services[name].networks
        && g.services[name].image == spec.services[name].image;
    if ValidGraph(g) {
      forall name | name in spec.services
        ensures spec.services[name].image != "" || spec.services[name].build.Some?
        ensures forall network :: network in spec.services[name].networks ==> network in spec.networks
      {
        assert ServiceValid(g, g.services[name]);
      }
    }
  }

  /** What a service is made of: the parts of the spec under its name, with the spec's source. */
  lemma CompiledCarries(spec: Spec, client: Option<Store>, name: string)
    requires name in spec.services
    ensures var g, svc := Compiled(spec, client), spec.services[name];
            && g.deploymentId == spec.id && g.slug == spec.slug && g.version == spec.version
            && g.networks == spec.networks && g.volumes == spec.volumes
            && name in g.services
            && g.services[name].name == name && g.services[name].image == svc.image
            && g.services[name].build == svc.build && g.services[name].source == spec.source
            && g.services[name].ports == svc.ports && g.services[name].volumeMounts == svc.volumes
            && g.services[name].networks == svc.networks
  {
  }

  /** The value of a variable in a graph compiled with a client: the spec's own where it has no
      placeholder; otherwise its text up to the first one, the secret of that one's key, and the
      value that what follows would have. */
  lemma CompiledValue(spec: Spec, store: Store, name: string, variable: string)
    requires Compiles(Some(spec), Some(store))
    requires name in spec.services && variable in spec.services[name].environment
    ensures var env := Compiled(spec, Some(store)).services[name].environment;
            var s := spec.services[name].environment[variable];
            && variable in env
            && (NoPlaceholder(s) ==> env[variable] == s)
            && (forall i: nat, key :: FirstPlaceholder(s, i, key) ==>
                  && store(key).Some?
                  && env[variable] == s[..i] + store(key).value + Substituted(s[i + |Text(key)|..], store))
  {
    var s := spec.services[name].environment[variable];
    assert EnvResolves(spec.services[name].environment, Some(store));
    ResolvesExactly(s, store);
    if NoPlaceholder(s) {
      NoPlaceholderUnchanged(s, store);
    }
    forall i: nat, key | FirstPlaceholder(s, i, key)
      ensures store(key).Some?
      ensures Substituted(s, store) == s[..i] + store(key).value + Substituted(s[i + |Text(key)|..], store)
    {
      SubstitutesFirst(s, i, key, store);
    }
  }

  ghost predicate FirstPlaceholder(s: string, i: nat, key: string) {
    Occurs(s, i, key) && forall j: nat, other :: j < i ==> !Occurs(s, j, other)
  }

  /** Without a client the environment is the spec's own text. */
  lemma CompiledWithoutClient(spec: Spec, name: string)
    requires name in spec.services
    ensures Compiled(spec, None).services[name].environment == spec.services[name].environment
  {
  }
}
