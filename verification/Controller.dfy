/** One reconcile of one bundle: finalizer, deletion, dependency gate, values, and the applier by kind. */
module Controller {
  import opened Trees
  import opened ValuesField
  import opened Api
  import opened Ledger
  import opened Native
  import opened Resolve

  /** A bundle as stored on the API server. */
  datatype Rec = Rec(deleting: bool, finalizer: bool, spec: Spec, status: Status)

  datatype Action = AddFinalizer | DropFinalizer | Uninstall | Install

  /** Which way a reconcile goes. */
  function Decide(rec: Rec): Action {
    if !rec.deleting && !rec.finalizer then AddFinalizer
    else if rec.deleting && rec.finalizer && (rec.status.phase == Failed || rec.status.phase == Disabled) then
      DropFinalizer
    else if rec.spec.disabled || rec.deleting then Uninstall
    else Install
  }

  // ---------- the dependency gate ----------

  const BUNDLE_API := "bundle.kubegems.io/v1beta1"
  const BUNDLE_KIND := "Bundle"

  /** What reading a dependency gives; the phase counts for bundles only. */
  datatype Seen = Gone | Unreadable | There(phase: Phase)

  datatype Obstacle = NotFoundDependency | ReadError | NotInstalled

  predicate NamesBundle(dep: Dependency) {
    dep.name != "" && (dep.kind == "" || (dep.kind == BUNDLE_KIND && dep.apiVersion == BUNDLE_API))
  }

  function DependencyKey(own: string, dep: Dependency): Key {
    Key(if dep.namespace == "" then own else dep.namespace, dep.name)
  }

  /** The object that is read: a missing namespace is the bundle's own, a missing kind means a bundle. */
  function Completed(own: string, dep: Dependency): Dependency {
    var key := DependencyKey(own, dep);
    if dep.kind == "" then Dependency(BUNDLE_API, BUNDLE_KIND, key.namespace, key.name)
    else dep.(namespace := key.namespace)
  }

  /** What one dependency, as seen, holds against installing. Only bundles need to be Installed; anything else
      only has to exist. */
  function ObstacleOf(dep: Dependency, seen: Seen): Option<Obstacle> {
    if dep.name == "" then None
    else
      match seen
      case Gone => Some(NotFoundDependency)
      case Unreadable => Some(ReadError)
      case There(phase) => if NamesBundle(dep) && phase != Installed then Some(NotInstalled) else None
  }

  /** The i-th read of one reconcile, of the object named. */
  type Look = (nat, Dependency) -> Seen

  function ObstacleAt(own: string, deps: seq<Dependency>, look: Look, i: nat): Option<Obstacle>
    requires i < |deps|
  {
    ObstacleOf(deps[i], look(i, Completed(own, deps[i])))
  }

  // ---------- what the gate asks for, field by field ----------

  /** `target` is the object the dependency stands for. */
  ghost predicate StandsFor(own: string, dep: Dependency, target: Dependency) {
    && target.name == dep.name
    && (dep.namespace != "" ==> target.namespace == dep.namespace)
    && (dep.namespace == "" ==> target.namespace == own)
    && (dep.kind != "" ==> target.kind == dep.kind && target.apiVersion == dep.apiVersion)
    && (dep.kind == "" ==> target.kind == "Bundle" && target.apiVersion == "bundle.kubegems.io/v1beta1")
  }

  ghost predicate IsBundle(target: Dependency) {
    target.kind == "Bundle" && target.apiVersion == "bundle.kubegems.io/v1beta1"
  }

  /** The i-th dependency names nothing, or its object exists and, if it is a bundle, is Installed. */
  ghost predicate InOrder(own: string, deps: seq<Dependency>, look: Look, i: nat)
    requires i < |deps|
  {
    deps[i].name == "" ||
    exists target :: StandsFor(own, deps[i], target) && look(i, target).There?
      && (IsBundle(target) ==> look(i, target) == There(Installed))
  }

  /** The error the i-th dependency stands for when it is not in order. */
  ghost predicate Explains(own: string, deps: seq<Dependency>, look: Look, i: nat, obstacle: Obstacle)
    requires i < |deps|
  {
    exists target :: StandsFor(own, deps[i], target) &&
      match look(i, target)
      case Gone => obstacle == NotFoundDependency
      case Unreadable => obstacle == ReadError
      case There(_) => obstacle == NotInstalled
  }

  lemma CompletedStandsFor(own: string, dep: Dependency, target: Dependency)
    ensures StandsFor(own, dep, target) <==> target == Completed(own, dep)
    ensures dep.name != "" ==> (NamesBundle(dep) <==> IsBundle(Completed(own, dep)))
  {
  }

  lemma ObstacleMeans(own: string, deps: seq<Dependency>, look: Look, i: nat)
    requires i < |deps|
    ensures ObstacleAt(own, deps, look, i) == None <==> InOrder(own, deps, look, i)
    ensures ObstacleAt(own, deps, look, i).Some? ==>
              Explains(own, deps, look, i, ObstacleAt(own, deps, look, i).value)
  {
    var target := Completed(own, deps[i]);
    CompletedStandsFor(own, deps[i], target);
    if other :| StandsFor(own, deps[i], other) {
      CompletedStandsFor(own, deps[i], other);
    }
    assert StandsFor(own, deps[i], target);
  }

  /** The error reported: that of the first dependency out of order. */
  ghost predicate Reports(own: string, deps: seq<Dependency>, look: Look, obstacle: Obstacle) {
    exists i: nat | i < |deps| ::
      && !InOrder(own, deps, look, i) && Explains(own, deps, look, i, obstacle)
      && forall j: nat | j < i :: InOrder(own, deps, look, j)
  }

  /** `checkDepenency`: it passes exactly if every dependency is in order, and else reports the first that is not. */
  method CheckDependency(own: string, deps: seq<Dependency>, look: Look) returns (obstacle: Option<Obstacle>)
    ensures obstacle == None <==> forall i: nat | i < |deps| :: InOrder(own, deps, look, i)
    ensures obstacle.Some? ==> Reports(own, deps, look, obstacle.value)
  {
    for i := 0 to |deps|
      invariant forall j: nat | j < i :: InOrder(own, deps, look, j)
    {
      var dep := deps[i];
      if dep.name == "" {
        continue;
      }
      if dep.namespace == "" {
        dep := dep.(namespace := own);
      }
      if dep.kind == "" {
        dep := dep.(apiVersion := BUNDLE_API);
        dep := dep.(kind := BUNDLE_KIND);
      }
      CompletedStandsFor(own, deps[i], dep);
      ObstacleMeans(own, deps, look, i);
      match look(i, dep) {
        case Gone => return Some(NotFoundDependency);
        case Unreadable => return Some(ReadError);
        case There(phase) =>
          if dep.kind == BUNDLE_KIND && dep.apiVersion == BUNDLE_API && phase != Installed {
            return Some(NotInstalled);
          }
      }
    }
    return None;
  }

  // ---------- the Helm applier's effect on the status ----------

  datatype Release = Release(resources: seq<Ref>, deployed: bool, config: Dict, version: string, namespace: string)

  /** How `ApplyChart` can end: with an error, leaving a release in storage or none, or with a release. */
  datatype ChartResult = ChartError(left: bool) | Charted(release: Release)

  function Leaves(result: ChartResult): bool {
    result.Charted? || result.left
  }

  /** `helm.Apply`: the resources are recorded even when the release is not deployed yet. */
  function HelmApply(st: Status, result: ChartResult): (Status, bool) {
    match result
    case ChartError(_) => (st, false)
    case Charted(r) =>
      if !r.deployed then (st.(resources := r.resources), false)
      else (Status(Installed, r.resources, Values(None, Some(r.config)), r.version, r.namespace), true)
  }

  /** `helm.Remove`; nothing is uninstalled in phase Disabled, else `fate` is that of the uninstall. */
  function HelmRemove(st: Status, fate: Fault): (Status, bool) {
    if st.phase == Disabled then (st, true)
    else if fate != Fine then (st, false)
    else (st.(phase := Disabled), true)
  }

  function HelmRemoveWorld(w: World, key: (string, string), st: Status, fate: Fault): World {
    if st.phase == Disabled || fate == Lost then w else WithRelease(w, key, false)
  }

  // ---------- one reconcile ----------

  const HELM := "helm"

  predicate IsNative(kind: string) {
    kind == "kustomize" || kind == "template"
  }

  /** What a bundle's reconciles share; `own` and `name` are its namespace and name. */
  datatype Context = Context(env: Env, lib: Library, own: string, name: string)

  /** What one reconcile meets: dependencies, configurations, how reading them goes, the download, and Helm. */
  datatype Inputs = Inputs(look: Look, configs: Configs, reading: Reads, downloaded: bool,
                           chart: ChartResult, uninstall: Fault)

  /** Where Helm keeps the bundle's release. */
  function ReleaseKey(c: Context, spec: Spec): (string, string) {
    (InstallNamespace(c.own, spec), c.name)
  }

  /** The spec the applier gets, if dependencies, values and download let it come to that. */
  ghost function Gate(c: Context, inputs: Inputs, spec: Spec): Option<Spec>
  {
    if exists i: nat | i < |spec.dependencies| :: ObstacleAt(c.own, spec.dependencies, inputs.look, i) != None then None
    else
      match Resolved(c.lib, inputs.reading, inputs.configs, c.own, spec)
      case Rejected(_) => None
      case Merged(d) =>
        if inputs.downloaded then Some(spec.(values := FullFill(c.env.codec, Values(None, Some(d))))) else None
  }

  lemma GateObstacles(c: Context, inputs: Inputs, spec: Spec)
    ensures (exists i: nat | i < |spec.dependencies| ::
               ObstacleAt(c.own, spec.dependencies, inputs.look, i) != None)
        <==> !forall i: nat | i < |spec.dependencies| :: InOrder(c.own, spec.dependencies, inputs.look, i)
  {
    forall i: nat | i < |spec.dependencies|
      ensures ObstacleAt(c.own, spec.dependencies, inputs.look, i) == None
          <==> InOrder(c.own, spec.dependencies, inputs.look, i)
    {
      ObstacleMeans(c.own, spec.dependencies, inputs.look, i);
    }
  }

  /** `BundleApplier.Remove`: by kind, an error for an unknown one. */
  ghost predicate RemovedByKind(c: Context, inputs: Inputs, spec: Spec, st: Status, w: World,
                                st': Status, w': World, ok: bool)
  {
    if IsNative(spec.kind) then Removed(c.env.server, st, w, st', w', ok)
    else if spec.kind == HELM then
      && (st', ok) == HelmRemove(st, inputs.uninstall)
      && w' == HelmRemoveWorld(w, ReleaseKey(c, spec), st, inputs.uninstall)
    else !ok && st' == st && w' == w
  }

  /** `BundleApplier.Apply` after the download: by kind, an error for an unknown one. */
  ghost predicate AppliedByKind(c: Context, inputs: Inputs, spec: Spec, st: Status, w: World,
                                st': Status, w': World, ok: bool)
  {
    if IsNative(spec.kind) then Applied(c.env, c.own, spec, st, w, st', w', ok)
    else if spec.kind == HELM then
      && (st', ok) == HelmApply(st, inputs.chart)
      && w' == WithRelease(w, ReleaseKey(c, spec), Leaves(inputs.chart))
    else !ok && st' == st && w' == w
  }

  /** `Sync`: the new in-memory status, the new cluster, and whether it succeeded. */
  ghost predicate SyncedTo(c: Context, inputs: Inputs, rec: Rec, w: World, st: Status, w': World, ok: bool)
  {
    if rec.spec.disabled || rec.deleting then
      RemovedByKind(c, inputs, rec.spec, rec.status, w, st, w', ok)
    else
      match Gate(c, inputs, rec.spec)
      case None => st == rec.status && w' == w && !ok
      case Some(spec) => AppliedByKind(c, inputs, spec, rec.status, w, st, w', ok)
  }

  /** `Reconcile`; `written` says whether its one write to the bundle took effect. */
  ghost predicate Reconciled(c: Context, inputs: Inputs, rec: Rec, w: World, rec': Rec, w': World, written: bool)
  {
    match Decide(rec)
    case AddFinalizer => w' == w && rec' == if written then rec.(finalizer := true) else rec
    case DropFinalizer => w' == w && rec' == if written then rec.(finalizer := false) else rec
    case _ =>
      exists st, ok :: SyncedTo(c, inputs, rec, w, st, w', ok) &&
        rec' == if written then rec.(status := Stored(c, st, ok)) else rec
  }

  /** What the next reconcile reads after the status was written. */
  function Stored(c: Context, st: Status, ok: bool): Status {
    Reloaded(c.env.codec, if ok then st else st.(phase := Failed))
  }

  /** The bundle on the API server; `writable(t)` says whether the t-th write takes effect. */
  class BundleApi {
    const writable: nat -> bool
    var rec: Rec
    var writes: nat

    constructor (rec: Rec, writable: nat -> bool)
      ensures this.rec == rec && this.writable == writable && writes == 0
    {
      this.rec, this.writable, writes := rec, writable, 0;
    }

    method Update(finalizer: bool) returns (ok: bool)
      modifies this
      ensures ok == writable(old(writes)) && writes == old(writes) + 1
      ensures rec == if ok then old(rec).(finalizer := finalizer) else old(rec)
    {
      ok := writable(writes);
      writes := writes + 1;
      if ok {
        rec := rec.(finalizer := finalizer);
      }
    }

    method UpdateStatus(c: Codec, status: Status) returns (ok: bool)
      modifies this
      ensures ok == writable(old(writes)) && writes == old(writes) + 1
      ensures rec == if ok then old(rec).(status := Reloaded(c, status)) else old(rec)
    {
      ok := writable(writes);
      writes := writes + 1;
      if ok {
        rec := rec.(status := Reloaded(c, status));
      }
    }
  }

  class BundleReconciler {
    const key: Key
    const api: BundleApi
    const native: Applier
    const resolver: Resolver

    constructor (key: Key, api: BundleApi, native: Applier, resolver: Resolver)
      requires native.Valid() && resolver.codec == native.env.codec
      ensures Valid() && this.key == key && this.api == api && this.native == native && this.resolver == resolver
    {
      this.key, this.api, this.native, this.resolver := key, api, native, resolver;
    }

    ghost predicate Valid() {
      native.Valid() && resolver.codec == native.env.codec
    }

    function Ctx(): Context {
      Context(native.env, resolver.lib, key.namespace, key.name)
    }

    method RemoveByKind(app: Bundle, inputs: Inputs) returns (ok: bool)
      requires Valid()
      modifies app`status, native.syncer.client
      ensures app.spec == old(app.spec)
      ensures RemovedByKind(Ctx(), inputs, app.spec, old(app.status), old(native.syncer.client.world),
                            app.status, native.syncer.client.world, ok)
    {
      if IsNative(app.spec.kind) {
        ok := native.Remove(app);
      } else if app.spec.kind == HELM {
        if app.status.phase != Disabled && inputs.uninstall != Lost {
          native.syncer.client.SetRelease(ReleaseKey(Ctx(), app.spec), false);
        }
        var (st, done) := HelmRemove(app.status, inputs.uninstall);
        app.status, ok := st, done;
      } else {
        ok := false;
      }
    }

    method ApplyByKind(app: Bundle, inputs: Inputs) returns (ok: bool)
      requires Valid() && app.namespace == key.namespace
      modifies app`status, native.syncer.client
      ensures app.spec == old(app.spec)
      ensures !inputs.downloaded ==>
        app.status == old(app.status) && native.syncer.client.world == old(native.syncer.client.world) && !ok
      ensures inputs.downloaded ==>
        AppliedByKind(Ctx(), inputs, app.spec, old(app.status), old(native.syncer.client.world),
                      app.status, native.syncer.client.world, ok)
    {
      if !inputs.downloaded {
        return false;
      }
      if IsNative(app.spec.kind) {
        ok := native.Apply(app);
      } else if app.spec.kind == HELM {
        native.syncer.client.SetRelease(ReleaseKey(Ctx(), app.spec), Leaves(inputs.chart));
        var (st, done) := HelmApply(app.status, inputs.chart);
        app.status, ok := st, done;
      } else {
        ok := false;
      }
    }

    method Sync(app: Bundle, deleting: bool, ghost rec: Rec, inputs: Inputs) returns (ok: bool)
      requires Valid() && app.namespace == key.namespace
      requires rec.spec == app.spec && rec.status == app.status && rec.deleting == deleting
      modifies app`spec, app`status, native.syncer.client
      ensures SyncedTo(Ctx(), inputs, rec, old(native.syncer.client.world),
                       app.status, native.syncer.client.world, ok)
    {
      if app.spec.disabled || deleting {
        ok := RemoveByKind(app, inputs);
        return;
      }
      var obstacle := CheckDependency(key.namespace, app.spec.dependencies, inputs.look);
      GateObstacles(Ctx(), inputs, app.spec);
      if obstacle != None {
        return false;
      }
      var failure := resolver.ResolveValuesRef(inputs.reading, inputs.configs, app);
      if failure != None {
        return false;
      }
      ok := ApplyByKind(app, inputs);
    }

    method Reconcile(inputs: Inputs)
      requires Valid() && api != native.syncer.client as object
      modifies api, native.syncer.client
      ensures Reconciled(Ctx(), inputs, old(api.rec), old(native.syncer.client.world),
                         api.rec, native.syncer.client.world, api.writable(old(api.writes)))
    {
      ghost var rec := api.rec;
      var finalizer, deleting := api.rec.finalizer, api.rec.deleting;
      var app := new Bundle(key.namespace, key.name, api.rec.spec, api.rec.status);
      if !deleting && !finalizer {
        var _ := api.Update(true);
        return;
      }
      if deleting && finalizer && (app.status.phase == Failed || app.status.phase == Disabled) {
        var _ := api.Update(false);
        return;
      }
      var ok := Sync(app, deleting, rec, inputs);
      ghost var st := app.status;
      if !ok {
        app.status := app.status.(phase := Failed);
      }
      assert SyncedTo(Ctx(), inputs, rec, old(native.syncer.client.world), st, native.syncer.client.world, ok);
      var _ := api.UpdateStatus(native.env.codec, app.status);
    }
  }
}
