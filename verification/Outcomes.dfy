/** What one reconcile leaves, read off the bundle, field by field: who is served by which applier, what stops an
    installation, what a disabled bundle loses, and what a helm release puts on record. */
module Outcomes {
  import opened Trees
  import opened ValuesField
  import opened Api
  import opened Ledger
  import opened LedgerLaws
  import opened Native
  import opened Resolve
  import opened Controller
  import opened Reconciles

  /** The bundle is there to be installed. */
  predicate Wanted(rec: Rec) {
    !rec.deleting && rec.finalizer && !rec.spec.disabled
  }

  /** The finalizer comes before everything else and goes when removal was tried; such a reconcile does nothing
      else. Every other reconcile leaves it alone. */
  lemma FinalizerMoves(c: Context, inputs: Inputs, rec: Rec, w: World, rec': Rec, w': World)
    requires Reconciled(c, inputs, rec, w, rec', w', true)
    ensures !rec.deleting && !rec.finalizer ==> rec' == rec.(finalizer := true) && w' == w
    ensures rec.deleting && rec.finalizer && (rec.status.phase == Failed || rec.status.phase == Disabled) ==>
              rec' == rec.(finalizer := false) && w' == w
    ensures (rec.deleting || rec.finalizer)
            && !(rec.deleting && rec.finalizer && (rec.status.phase == Failed || rec.status.phase == Disabled)) ==>
              rec'.finalizer == rec.finalizer && rec'.deleting == rec.deleting && rec'.spec == rec.spec
  {
  }

  // ---------- the gate ----------

  /** What has to hold before an applier is asked. */
  ghost predicate Ready(c: Context, inputs: Inputs, spec: Spec) {
    && (forall i: nat | i < |spec.dependencies| :: InOrder(c.own, spec.dependencies, inputs.look, i))
    && Resolved(c.lib, inputs.reading, inputs.configs, c.own, spec).Merged?
    && inputs.downloaded
  }

  /** The applier is asked exactly then, and gets the spec with the resolved values in both their forms. */
  lemma GateMeans(c: Context, inputs: Inputs, spec: Spec)
    ensures Gate(c, inputs, spec).Some? <==> Ready(c, inputs, spec)
    ensures Ready(c, inputs, spec) ==>
              var d := Resolved(c.lib, inputs.reading, inputs.configs, c.own, spec).values;
              Gate(c, inputs, spec) == Some(spec.(values := Values(Some(c.env.codec.encode(d)), Some(d))))
  {
    GateObstacles(c, inputs, spec);
  }

  /** A reconcile that is stopped before the applier leaves the cluster alone and stores Failed, whatever stopped it
      and whatever the kind; the ledger stays on record. */
  lemma StoppedReconcile(c: Context, inputs: Inputs, rec: Rec, w: World, rec': Rec, w': World)
    requires Reconciled(c, inputs, rec, w, rec', w', true) && Wanted(rec) && !Ready(c, inputs, rec.spec)
    ensures w' == w && rec'.status.phase == Failed && rec'.status.resources == rec.status.resources
  {
    GateMeans(c, inputs, rec.spec);
  }

  lemma OutOfOrder(own: string, deps: seq<Dependency>, look: Look, i: nat, target: Dependency)
    requires i < |deps| && deps[i].name != "" && StandsFor(own, deps[i], target)
    requires var seen := look(i, target);
      seen == Gone || seen == Unreadable || (IsBundle(target) && seen != There(Installed))
    ensures !InOrder(own, deps, look, i)
  {
    CompletedStandsFor(own, deps[i], target);
    forall other | StandsFor(own, deps[i], other) ensures other == target {
      CompletedStandsFor(own, deps[i], other);
    }
  }

  /** In particular a dependency of any kind that is missing, cannot be read, or is a bundle that is not Installed. */
  lemma MissingDependencyStops(c: Context, inputs: Inputs, rec: Rec, w: World, rec': Rec, w': World,
                               i: nat, target: Dependency)
    requires Reconciled(c, inputs, rec, w, rec', w', true) && Wanted(rec)
    requires i < |rec.spec.dependencies| && rec.spec.dependencies[i].name != ""
    requires StandsFor(c.own, rec.spec.dependencies[i], target)
    requires var seen := inputs.look(i, target);
      seen == Gone || seen == Unreadable || (IsBundle(target) && seen != There(Installed))
    ensures w' == w && rec'.status.phase == Failed && rec'.status.resources == rec.status.resources
  {
    OutOfOrder(c.own, rec.spec.dependencies, inputs.look, i, target);
    StoppedReconcile(c, inputs, rec, w, rec', w');
  }

  // ---------- kinds ----------

  /** Kustomize and template bundles that are ready and render are Installed when no call fails, with the places
      where their manifests belong on record. */
  lemma NativeInstalls(c: Context, inputs: Inputs, rec: Rec, w: World, rec': Rec, w': World, spec: Spec, list: seq<Obj>)
    requires Reconciled(c, inputs, rec, w, rec', w', true) && Wanted(rec)
    requires rec.spec.kind == "kustomize" || rec.spec.kind == "template"
    requires Gate(c, inputs, rec.spec) == Some(spec) && c.env.template(spec) == Some(list)
    requires FaultFreeFrom(c.env.server, w.clock)
    ensures rec'.status.phase == Installed
    ensures forall r :: r in rec'.status.resources <==> exists o :: o in list && Belongs(c.env, c.own, rec.spec, o, r)
  {
    var st, ok :| SyncedTo(c, inputs, rec, w, st, w', ok) && rec' == rec.(status := Stored(c, st, ok));
    AppliedFaultFree(c.env, c.own, spec, rec.status, w, st, w', ok);
    AppliedPlaces(c.env, c.own, spec, list, rec.status, w, st, w', ok);
    AppliedRecordsRender(c.env, c.own, spec, rec.status, w, st, w', ok);
    forall o, r ensures Belongs(c.env, c.own, rec.spec, o, r) <==> Belongs(c.env, c.own, spec, o, r) {
      PlacedBelongs(c.env, c.own, spec, o, r);
    }
    forall r ensures r in rec'.status.resources <==> exists o :: o in list && Belongs(c.env, c.own, rec.spec, o, r) {
      if r in rec'.status.resources {
        var o :| o in list && Belongs(c.env, c.own, spec, o, r);
        assert Belongs(c.env, c.own, rec.spec, o, r);
      }
    }
  }

  /** What a ready helm bundle stores: nothing new but Failed if the chart could not be applied; the resources of the
      release in any case, and Failed, if it is not deployed; else all its data and Installed. */
  ghost predicate HelmStored(c: Context, chart: ChartResult, before: Status, after: Status) {
    match chart
    case ChartError(_) => after.phase == Failed && after.resources == before.resources
    case Charted(release) =>
      && after.resources == release.resources
      && if !release.deployed then after.phase == Failed
         else
           && after.phase == Installed && after.version == release.version && after.namespace == release.namespace
           && after.values == StoreAndLoad(c.env.codec, Values(None, Some(release.config)))
  }

  lemma HelmInstalls(c: Context, inputs: Inputs, rec: Rec, w: World, rec': Rec, w': World, key: (string, string))
    requires Reconciled(c, inputs, rec, w, rec', w', true) && Wanted(rec)
    requires rec.spec.kind == "helm" && Ready(c, inputs, rec.spec)
    requires Chosen(c.own, rec.spec, key.0) && key.1 == c.name
    ensures HelmStored(c, inputs.chart, rec.status, rec'.status)
    ensures w'.objs == w.objs && w'.clock == w.clock
    ensures key in w'.releases <==> inputs.chart.Charted? || inputs.chart.left
    ensures forall other | other != key :: other in w'.releases <==> other in w.releases
  {
    GateMeans(c, inputs, rec.spec);
  }

  /** A bundle of any other kind is Failed, and nothing happens for it, to install or to remove. */
  lemma OtherKindsFail(c: Context, inputs: Inputs, rec: Rec, w: World, rec': Rec, w': World)
    requires Reconciled(c, inputs, rec, w, rec', w', true)
    requires rec.spec.kind !in {"kustomize", "template", "helm"}
    ensures w' == w && rec'.status.resources == rec.status.resources
    ensures rec'.status != rec.status ==> rec'.status.phase == Failed
    ensures Wanted(rec) ==> rec'.status.phase == Failed
  {
  }

  // ---------- disabled bundles ----------

  /** Disabling a kustomize or template bundle removes what it recorded: without failures all of it, and nothing else
      is touched; with failures nothing is created or changed, and the ledger stays on record. */
  lemma DisabledNativeGoes(c: Context, inputs: Inputs, rec: Rec, w: World, rec': Rec, w': World)
    requires Reconciled(c, inputs, rec, w, rec', w', true)
    requires rec.spec.disabled && rec.finalizer && !rec.deleting
    requires rec.spec.kind == "kustomize" || rec.spec.kind == "template"
    ensures FaultFreeFrom(c.env.server, w.clock) ==> rec'.status.phase == Disabled
    ensures rec'.status.phase == Disabled || rec'.status.phase == Failed
    ensures rec'.status.phase == Disabled ==>
              rec'.status.resources == [] && w'.objs == w.objs - Elements(rec.status.resources)
    ensures rec'.status.phase == Failed ==> rec'.status.resources == rec.status.resources
    ensures forall r | r in w'.objs :: r in w.objs && w'.objs[r] == w.objs[r]
  {
    var st, ok :| SyncedTo(c, inputs, rec, w, st, w', ok) && rec' == rec.(status := Stored(c, st, ok));
    RemovedClears(c.env.server, rec.status, w, st, w', ok);
  }

  /** Disabling a helm bundle uninstalls its release once. */
  lemma DisabledHelmGoes(c: Context, inputs: Inputs, rec: Rec, w: World, rec': Rec, w': World, key: (string, string))
    requires Reconciled(c, inputs, rec, w, rec', w', true)
    requires rec.spec.disabled && rec.finalizer && !rec.deleting && rec.spec.kind == "helm"
    requires Chosen(c.own, rec.spec, key.0) && key.1 == c.name
    ensures rec.status.phase == Disabled ==> w' == w && rec'.status.phase == Disabled
    ensures rec.status.phase != Disabled ==>
              (rec'.status.phase == if inputs.uninstall == Fine then Disabled else Failed)
              && (key in w'.releases <==> key in w.releases && inputs.uninstall == Lost)
    ensures w'.objs == w.objs && forall other | other != key :: other in w'.releases <==> other in w.releases
  {
  }
}
