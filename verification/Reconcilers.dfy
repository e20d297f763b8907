/** The cluster register, the backend reconcilers that keep it in step with the base routes, and what
    the interleaving of two reconcilers on the same tables can do. */
module Reconcilers {
  import opened Options
  import opened RouteTable

  class Register {
    var clusters: map<string, string>
    var clustersDetails: map<string, string>

    /** The clusters and their configurations are always those of the same names. */
    ghost predicate Valid()
      reads this
    {
      clusters.Keys == clustersDetails.Keys
    }

    constructor ()
      ensures Valid() && clusters == map[]
    {
      clusters, clustersDetails := map[], map[];
    }

    method DeleteCluster(name: string)
      requires Valid()
      modifies this
      ensures Valid() && clusters == old(clusters) - {name} && clustersDetails == old(clustersDetails) - {name}
    {
      clusters := clusters - {name};
      clustersDetails := clustersDetails - {name};
    }

    method FindClusterByName(name: string) returns (c: Option<string>)
      ensures c == if name in clusters then Some(clusters[name]) else None
    {
      if name in clusters { c := Some(clusters[name]); } else { c := None; }
    }

    /** `built` is the cluster made from the configuration, or none when that fails. */
    method UpsertAndRegisterCluster(name: string, cfg: string, built: Option<string>) returns (ok: bool)
      requires Valid()
      modifies this
      ensures Valid() && ok == built.Some?
      ensures clusters == if ok then old(clusters)[name := built.value] else old(clusters)
      ensures clustersDetails == if ok then old(clustersDetails)[name := cfg] else old(clustersDetails)
    {
      if built.None? {
        return false;
      }
      clustersDetails := clustersDetails[name := cfg];
      clusters := clusters[name := built.value];
      return true;
    }
  }

  // ----- One reconciliation at a time

  datatype ClusterConfig = Invalid | NoConfig | Config(cfg: string)

  /** What a reconciliation meets outside: outcomes of Kubernetes calls and of building objects. */
  datatype World = World(
    configOk: bool,
    validatorOk: bool,
    clusterConfig: ClusterConfig,
    cluster: Option<string>,
    routeBuilt: bool,
    updateOk: bool,
    pastGracePeriod: bool)

  /** A backend resource, as far as its name goes; the model name may be left out. */
  datatype Backend = Backend(namespace: string, name: string, modelName: Option<string>)

  /** `modelNameOrNamespacedName`: only an explicit empty model name is an empty name. */
  function ModelName(b: Backend): (n: string)
    ensures n == "" <==> b.modelName == Some("")
  {
    if b.modelName.Some? then b.modelName.value else b.namespace + "/" + b.name
  }

  function FirstSlash(s: string): nat {
    if s == "" || s[0] == '/' then 0 else 1 + FirstSlash(s[1..])
  }

  lemma {:induction false} FirstSlashIs(a: string, b: string)
    requires '/' !in a
    ensures FirstSlash(a + "/" + b) == |a|
  {
    if a == "" {
      assert (a + "/" + b)[0] == '/';
    } else {
      assert a[0] in a && (a + "/" + b)[0] == a[0] && (a + "/" + b)[1..] == a[1..] + "/" + b;
      FirstSlashIs(a[1..], b);
    }
  }

  lemma SlashSplits(a: string, b: string, c: string, d: string)
    requires '/' !in a && '/' !in c && a + "/" + b == c + "/" + d
    ensures a == c && b == d
  {
    var s, t := a + "/" + b, c + "/" + d;
    FirstSlashIs(a, b);
    FirstSlashIs(c, d);
    assert s[..|a|] == a && t[..|c|] == c;
    assert s[|a| + 1..] == b && t[|c| + 1..] == d;
  }

  /** When two backends share a name, on the fields of the resources: explicit names must be equal, left
      out ones come from the same namespace and name, and a left out one never meets an explicit one
      without a slash.  (Namespaces hold no slash.) */
  lemma NamesMeet(a: Backend, b: Backend)
    requires '/' !in a.namespace && '/' !in b.namespace
    ensures a.modelName.Some? && b.modelName.Some? ==> (ModelName(a) == ModelName(b) <==> a.modelName.value == b.modelName.value)
    ensures a.modelName.None? && b.modelName.None? ==>
              (ModelName(a) == ModelName(b) <==> a.namespace == b.namespace && a.name == b.name)
    ensures a.modelName.None? && b.modelName.Some? && '/' !in b.modelName.value ==> ModelName(a) != ModelName(b)
  {
    if a.modelName.None? && b.modelName.None? && ModelName(a) == ModelName(b) {
      SlashSplits(a.namespace, a.name, b.namespace, b.name);
    }
    if a.modelName.None? { assert ModelName(a)[|a.namespace|] == '/'; }
  }

  datatype Condition = Condition(typ: string, ready: bool)

  const DELETE_COND_PREFIX := "delete-"

  predicate Holds(s: string, part: string) { exists i | 0 <= i <= |s| :: part <= s[i..] }

  /** A delete condition that is not ready keeps the finalizer. */
  predicate Blocks(c: Condition) { Holds(c.typ, DELETE_COND_PREFIX) && !c.ready }

  /** A pass over a backend, under the name that it has at that time. */
  datatype Pass = Pass(name: string, deleted: bool, world: World)

  /** The pass puts its name into both tables. */
  predicate Adds(p: Pass) {
    && !p.deleted && p.world.configOk && p.name != "" && p.world.validatorOk
    && p.world.clusterConfig.Config? && p.world.cluster.Some? && p.world.routeBuilt
  }

  /** The pass takes its name out of both tables: a deletion, or a registration that fails halfway. */
  predicate Drops(p: Pass) {
    if p.deleted then p.world.configOk || p.world.pastGracePeriod
    else p.world.configOk && p.name != "" && p.world.validatorOk && p.world.clusterConfig.Config? && !Adds(p)
  }

  /** The registered names after a pass. */
  function Registered(names: set<string>, p: Pass): set<string> {
    if Adds(p) then names + {p.name} else if Drops(p) then names - {p.name} else names
  }

  function AfterPasses(ps: seq<Pass>): set<string> {
    if ps == [] then {} else Registered(AfterPasses(ps[..|ps| - 1]), ps[|ps| - 1])
  }

  predicate AddsName(p: Pass, n: string) { Adds(p) && p.name == n }

  predicate DropsName(p: Pass, n: string) { Drops(p) && p.name == n }

  /** The pass at `i` is the last word on a name, and adds it. */
  predicate AddedAt(ps: seq<Pass>, n: string, i: nat)
    requires i < |ps|
  {
    AddsName(ps[i], n) && forall j | i < j < |ps| :: !DropsName(ps[j], n)
  }

  lemma PassOnName(names: set<string>, p: Pass, n: string)
    ensures n in Registered(names, p) <==> AddsName(p, n) || (n in names && !DropsName(p, n))
  {
  }

  /** A name stays registered exactly when some pass added it and none after that dropped it; a pass
      only ever drops the name that its backend has at that time. */
  lemma {:induction false} LeftBehind(ps: seq<Pass>, n: string)
    ensures n in AfterPasses(ps) <==> exists i :: 0 <= i < |ps| && AddedAt(ps, n, i)
  {
    if ps != [] {
      var pre, last := ps[..|ps| - 1], ps[|ps| - 1];
      LeftBehind(pre, n);
      PassOnName(AfterPasses(pre), last, n);
      hide Registered, AddsName, DropsName;
      assert forall i | 0 <= i < |pre| :: pre[i] == ps[i];
      assert AddedAt(ps, n, |ps| - 1) <==> AddsName(last, n);
      forall i | 0 <= i < |pre| ensures AddedAt(ps, n, i) <==> AddedAt(pre, n, i) && !DropsName(last, n) {
        assert forall j | i < j < |ps| :: j < |pre| || ps[j] == last;
      }
    }
  }

  /** A backend that is deleted leaves nothing behind if and only if every name that it was registered
      under, and that no later pass dropped, is its name at the deletion.  One whose model name was
      changed after its registration leaves the old name in both tables. */
  lemma CleanDeletion(ps: seq<Pass>, last: Pass)
    requires last.deleted && Drops(last)
    ensures AfterPasses(ps + [last]) == {} <==> forall n | n in AfterPasses(ps) :: n == last.name
    ensures forall n | n in AfterPasses(ps) && n != last.name :: n in AfterPasses(ps + [last])
  {
    assert (ps + [last])[..|ps + [last]| - 1] == ps;
    assert AfterPasses(ps + [last]) == AfterPasses(ps) - {last.name};
    if AfterPasses(ps + [last]) == {} {
      forall n | n in AfterPasses(ps) ensures n == last.name {
        assert n !in AfterPasses(ps) - {last.name};
      }
    }
  }

  class BackendReconciler {
    const clusters: Register
    const routes: RouteManager

    /** Lockstep: a name is in the cluster register exactly when it has a base route, no backend is
        registered without a name, and every base route leads to the cluster of its name. */
    ghost predicate Lockstep()
      reads clusters, routes
    {
      && clusters.Valid() && routes.Valid()
      && clusters.clusters.Keys == routes.routeRegistry.Keys
      && "" !in clusters.clusters
      && forall k | k in routes.routeRegistry :: routes.routeRegistry[k] == InitDirectModelRoute(k)
    }

    /** Everything about other names is as it was. */
    twostate predicate OthersKept(name: string)
      reads clusters, routes
    {
      && clusters.clusters - {name} == old(clusters.clusters) - {name}
      && clusters.clustersDetails - {name} == old(clusters.clustersDetails) - {name}
      && routes.routeRegistry - {name} == old(routes.routeRegistry) - {name}
      && routes.matchRouteRegistry == old(routes.matchRouteRegistry)
    }

    ghost predicate Absent(name: string)
      reads clusters, routes
    {
      name !in clusters.clusters && name !in routes.routeRegistry
    }

    /** Lockstep depends on the one name that a step works on. */
    twostate lemma LockstepKept(name: string)
      requires old(Lockstep()) && OthersKept(name) && clusters.Valid() && routes.Valid()
      requires name in clusters.clusters <==> name in routes.routeRegistry
      requires name == "" ==> name !in clusters.clusters
      requires name in routes.routeRegistry ==> routes.routeRegistry[name] == InitDirectModelRoute(name)
      ensures Lockstep()
    {
      forall k | k != name
        ensures k in clusters.clusters <==> k in routes.routeRegistry
        ensures k in routes.routeRegistry ==> routes.routeRegistry[k] == InitDirectModelRoute(k)
      {
        assert k in clusters.clusters <==> k in clusters.clusters - {name};
        assert k in old(clusters.clusters) <==> k in old(clusters.clusters) - {name};
        assert k in routes.routeRegistry <==> k in routes.routeRegistry - {name};
        assert k in old(routes.routeRegistry) <==> k in old(routes.routeRegistry) - {name};
        if k in routes.routeRegistry { assert routes.routeRegistry[k] == (routes.routeRegistry - {name})[k] == old(routes.routeRegistry)[k]; }
      }
      assert name != "" ==> ("" in clusters.clusters <==> "" in clusters.clusters - {name});
    }

    /** The names after a step that keeps all others. */
    twostate lemma NamesAfter(name: string)
      requires OthersKept(name)
      ensures clusters.clusters.Keys ==
              if name in clusters.clusters then old(clusters.clusters.Keys) + {name} else old(clusters.clusters.Keys) - {name}
    {
      forall k | k != name ensures k in clusters.clusters <==> k in old(clusters.clusters) {
        assert k in clusters.clusters <==> k in clusters.clusters - {name};
        assert k in old(clusters.clusters) <==> k in old(clusters.clusters) - {name};
      }
    }

    constructor (clusters: Register, routes: RouteManager)
      ensures this.clusters == clusters && this.routes == routes
    {
      this.clusters, this.routes := clusters, routes;
    }

    method RemoveBackend(name: string)
      requires clusters.Valid() && routes.Valid()
      modifies clusters, routes
      ensures clusters.Valid() && routes.Valid()
      ensures var gone := if name == "" then {} else {name};
              && clusters.clusters == old(clusters.clusters) - gone
              && clusters.clustersDetails == old(clusters.clustersDetails) - gone
              && routes.routeRegistry == old(routes.routeRegistry) - gone
      ensures OthersKept(name)
      ensures name != "" ==> Absent(name)
    {
      if name != "" {
        clusters.DeleteCluster(name);
        routes.RemoveBaseRoute(name);
      }
    }

    /** The two registrations of `reconcileRegister`; the second is tried even if the first fails. */
    method RegisterBackend(name: string, world: World) returns (ok: bool)
      requires clusters.Valid() && routes.Valid() && world.clusterConfig.Config?
      modifies clusters, routes
      ensures clusters.Valid() && routes.Valid() && OthersKept(name)
      ensures ok <==> world.cluster.Some? && world.routeBuilt
      ensures world.cluster.Some? ==>
                && name in clusters.clusters && clusters.clusters[name] == world.cluster.value
                && clusters.clustersDetails[name] == world.clusterConfig.cfg
      ensures world.routeBuilt ==> name in routes.routeRegistry && routes.routeRegistry[name] == InitDirectModelRoute(name)
    {
      hide Lists, MatchesModel;
      var routeCfg := InitDirectModelRoute(name);
      var upserted := clusters.UpsertAndRegisterCluster(name, world.clusterConfig.cfg, world.cluster);
      var routed := routes.RegisterBaseRoute(routeCfg, world.routeBuilt);
      return upserted && routed;
    }

    /** `reconcileRegister`, the same for LLM and image backends. */
    method ReconcileRegister(name: string, deleted: bool, world: World) returns (ok: bool)
      requires Lockstep()
      modifies clusters, routes
      ensures clusters.Valid() && routes.Valid()
      ensures deleted || name != "" ==> Lockstep()
      ensures deleted ==> ok && Absent(name)
      ensures !deleted ==>
                (ok <==> match world.clusterConfig
                         case Invalid => false
                         case NoConfig => true
                         case Config(_) => world.cluster.Some? && world.routeBuilt)
      ensures !deleted && !world.clusterConfig.Config? ==>
                clusters.clusters == old(clusters.clusters) && routes.routeRegistry == old(routes.routeRegistry)
      ensures !deleted && ok && world.clusterConfig.Config? ==>
                && name in clusters.clusters && clusters.clusters[name] == world.cluster.value
                && name in routes.routeRegistry && routes.routeRegistry[name] == InitDirectModelRoute(name)
      ensures !deleted && !ok && !world.clusterConfig.Invalid? && name != "" ==> Absent(name)
      ensures OthersKept(name)
    {
      hide Lists, MatchesModel;
      if deleted {
        RemoveBackend(name);
        return true;
      }
      if world.clusterConfig.Invalid? {
        return false;
      }
      if world.clusterConfig.NoConfig? {
        return true;
      }
      ok := RegisterBackend(name, world);
      if !ok {
        RemoveBackend(name);
      }
      if name != "" { LockstepKept(name); }
    }

    /** `reconcileFinalDelete`: whether the finalizer was cleared. */
    method ReconcileFinalDelete(conditions: seq<Condition>, world: World) returns (ok: bool, cleared: bool)
      ensures ok == cleared
      ensures cleared <==> world.updateOk && (world.pastGracePeriod || forall c | c in conditions :: c.ready || !Holds(c.typ, "delete-"))
    {
      var canDelete := true;
      for i := 0 to |conditions|
        invariant canDelete <==> forall k | 0 <= k < i :: !Blocks(conditions[k])
      {
        if Blocks(conditions[i]) {
          canDelete := false;
        }
      }
      if !canDelete && !world.pastGracePeriod {
        return false, false;
      }
      return world.updateOk, world.updateOk;
    }

    /** `reconcileValidator`; the checks of the upstream and of other backends are the world's. */
    method ReconcileValidator(backend: Backend, world: World) returns (ok: bool)
      ensures ok <==> ModelName(backend) != "" && world.validatorOk
    {
      if backend.modelName.Some? && backend.modelName.value == "" {
        return false;
      }
      return world.validatorOk;
    }

    /** One pass over the handlers of a backend, in their order; a handler that fails ends the pass,
        unless the backend is being deleted and its grace period is over.  A pass that reaches the
        registration, `registered`, never does so with an empty name. */
    method Reconcile(backend: Backend, deleted: bool, world: World) returns (cleared: bool, registered: bool)
      requires Lockstep()
      modifies clusters, routes
      ensures Lockstep()
      ensures registered <==> !deleted && world.configOk && ModelName(backend) != "" && world.validatorOk
      ensures !deleted && !registered ==>
                clusters.clusters == old(clusters.clusters) && routes.routeRegistry == old(routes.routeRegistry)
      ensures clusters.clusters.Keys == Registered(old(clusters.clusters.Keys), Pass(ModelName(backend), deleted, world))
      ensures registered && world.clusterConfig.Config? && world.cluster.Some? && world.routeBuilt ==>
                var m := if backend.modelName.Some? then backend.modelName.value else backend.namespace + "/" + backend.name;
                && m in clusters.clusters && clusters.clusters[m] == world.cluster.value
                && m in routes.routeRegistry && Direct(routes.routeRegistry[m], m) && routes.routeRegistry[m].targets == [m]
      ensures cleared ==> Absent(ModelName(backend))
      ensures cleared <==> deleted && (world.configOk || world.pastGracePeriod) && world.updateOk
      ensures OthersKept(ModelName(backend))
    {
      cleared, registered := false, false;
      var name := ModelName(backend);
      var conditions: seq<Condition> := [];
      if !world.configOk && !(deleted && world.pastGracePeriod) {
        return;
      }
      if world.configOk {
        conditions := conditions + [Condition("config", true)];
      }
      var ok;
      if !deleted {
        ok := ReconcileValidator(backend, world);
        if !ok {
          return;
        }
        registered := true;
        ok := ReconcileRegister(name, false, world);
        NamesAfter(name);
        return;
      }
      ok := ReconcileRegister(name, true, world);
      NamesAfter(name);
      conditions := conditions + [Condition("deleteRegister", ok)];
      ok, cleared := ReconcileFinalDelete(conditions, world);
    }

    /** Routing a request when there are no routes but those of backends: the matching route, and the
        cluster that its first target names.  In lockstep a route never leads nowhere. */
    method Dispatch(model: string) returns (c: Option<string>)
      requires Lockstep() && routes.matchRouteRegistry == map[]
      ensures c.Some? <==> model != "" && model in clusters.clusters
      ensures c.Some? ==> c.value == clusters.clusters[model]
    {
      c := None;
      var r := routes.MatchRoute(model);
      assert routes.Table() == routes.routeRegistry;
      MatchIsLookup(routes.order, routes.routes, routes.Table(), model);
      if r.Some? {
        c := clusters.FindClusterByName(r.value.targets[0]);
      }
    }
  }

  // ----- Two reconcilers on the same tables, table operation by table operation

  /** Where a reconciler is inside `reconcileRegister`. */
  datatype Pc =
    | Idle
    | Upserted(name: string, ok: bool)
    | Dropping(name: string)
    | DroppingRoute(name: string)

  /** The names in the cluster register and in the base registry, and the two reconcilers. */
  datatype Tables = Tables(clusters: set<string>, bases: set<string>, llm: Pc, image: Pc)

  predicate Busy(pc: Pc, name: string) { !pc.Idle? && pc.name == name }

  /** One table operation of a reconciler at `pc`.  No name is ever empty: a pass that reaches the
      registration has a name (`Reconcile`), and a removal of the empty name touches nothing. */
  ghost predicate Moves(c: set<string>, b: set<string>, pc: Pc, c': set<string>, b': set<string>, pc': Pc) {
    match pc
    case Idle =>
      // A deletion starts, or a registration upserts its cluster.
      && b' == b && !pc'.Idle? && pc'.name != ""
      && ((pc'.Dropping? && c' == c) || (pc'.Upserted? && c' == if pc'.ok then c + {pc'.name} else c))
    case Upserted(name, ok) =>
      // The base route is registered or not; any failure leads to the removal of both.
      && c' == c
      && ((b' == b + {name} && pc' == if ok then Idle else Dropping(name)) || (b' == b && pc' == Dropping(name)))
    case Dropping(name) => c' == c - {name} && b' == b && pc' == DroppingRoute(name)
    case DroppingRoute(name) => c' == c && b' == b - {name} && pc' == Idle
  }

  ghost predicate Step(t: Tables, t': Tables) {
    || (t'.image == t.image && Moves(t.clusters, t.bases, t.llm, t'.clusters, t'.bases, t'.llm))
    || (t'.llm == t.llm && Moves(t.clusters, t.bases, t.image, t'.clusters, t'.bases, t'.image))
  }

  /** Every interleaving from empty tables. */
  ghost predicate Run(ts: seq<Tables>) {
    && ts != []
    && ts[0] == Tables({}, {}, Idle, Idle)
    && forall i | 0 <= i < |ts| - 1 :: Step(ts[i], ts[i + 1])
  }

  /** Lockstep between table operations: every name that no reconciler is working on is in the
      cluster register exactly when it has a base route. */
  ghost predicate InLockstep(t: Tables) {
    forall n | !Busy(t.llm, n) && !Busy(t.image, n) :: n in t.clusters <==> n in t.bases
  }

  /** The two reconcilers do not work on one name at a time. */
  ghost predicate Apart(t: Tables) { t.llm.Idle? || t.image.Idle? || t.llm.name != t.image.name }

  ghost predicate InStep(t: Tables) { InLockstep(t) && PcHolds(t, t.llm) && PcHolds(t, t.image) }

  ghost predicate PcHolds(t: Tables, pc: Pc) {
    && (pc.Upserted? && pc.ok ==> pc.name in t.clusters)
    && (pc.DroppingRoute? ==> pc.name !in t.clusters)
  }

  /** Lockstep over every interleaving in which the reconcilers stay apart. */
  lemma {:induction false} LockstepInterleaved(ts: seq<Tables>)
    requires Run(ts) && forall t | t in ts :: Apart(t)
    ensures InStep(ts[|ts| - 1])
  {
    if |ts| > 1 {
      var pre := ts[..|ts| - 1];
      assert Run(pre);
      LockstepInterleaved(pre);
      assert Step(ts[|ts| - 2], ts[|ts| - 2 + 1]);
      assert ts[|ts| - 2] in ts && ts[|ts| - 1] in ts;
      StepInStep(ts[|ts| - 2], ts[|ts| - 1]);
    }
  }

  lemma StepInStep(t: Tables, t': Tables)
    requires InStep(t) && Apart(t) && Apart(t') && Step(t, t')
    ensures InStep(t')
  {
  }

  /** An LLM and an image backend of one name, reconciled at the same time, can leave a route to a
      cluster that is gone. */
  lemma SharedNameBreaks(n: string) returns (ts: seq<Tables>)
    requires n != ""
    ensures Run(ts) && ts[|ts| - 1] == Tables({}, {n}, Idle, Idle)
    ensures forall t | t in ts :: (t.llm.Idle? || t.llm.name == n) && (t.image.Idle? || t.image.name == n)
  {
    ts := [Tables({}, {}, Idle, Idle),
           Tables({n}, {}, Upserted(n, true), Idle),
           Tables({n}, {}, Upserted(n, true), Dropping(n)),
           Tables({}, {}, Upserted(n, true), DroppingRoute(n)),
           Tables({}, {}, Upserted(n, true), Idle),
           Tables({}, {n}, Idle, Idle)];
    assert {n} - {n} == {} && {} + {n} == {n};
  }

  /** The LLM backends have their names in `llm`, the image backends theirs in `image`. */
  ghost predicate NamesFrom(ts: seq<Tables>, llm: iset<string>, image: iset<string>) {
    forall t | t in ts :: (t.llm.Idle? || t.llm.name in llm) && (t.image.Idle? || t.image.name in image)
  }

  /** The exact condition, on the names of the backends: the tables are in lockstep at every point of
      every interleaving if and only if no LLM backend and image backend share a name. */
  lemma LockstepIff(llm: iset<string>, image: iset<string>)
    requires "" !in llm && "" !in image
    ensures (forall ts | Run(ts) && NamesFrom(ts, llm, image) :: InLockstep(ts[|ts| - 1])) <==> llm !! image
  {
    if llm !! image {
      forall ts | Run(ts) && NamesFrom(ts, llm, image) ensures InLockstep(ts[|ts| - 1]) {
        LockstepInterleaved(ts);
      }
    } else {
      var n :| n in llm && n in image;
      var ts := SharedNameBreaks(n);
      assert NamesFrom(ts, llm, image) && !InLockstep(ts[|ts| - 1]);
    }
  }
}
