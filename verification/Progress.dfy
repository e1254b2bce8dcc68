/** With nothing failing, bundles whose dependencies form no cycle become Installed and stay so. */
module Progress {
  import opened Trees
  import opened Api
  import opened Ledger
  import opened Native
  import opened Resolve
  import opened Controller
  import opened Dependencies

  type Bundles = map<Key, Rec>

  /** What reading a dependency gives when nothing fails and all other objects exist. */
  function See(recs: Bundles, own: string, dep: Dependency): Seen {
    var k := DependencyKey(own, dep);
    if !NamesBundle(dep) then There(Unset)
    else if k in recs then There(recs[k].status.phase)
    else Gone
  }

  predicate GateOpen(recs: Bundles, k: Key)
    requires k in recs
  {
    forall i | 0 <= i < |recs[k].spec.dependencies| ::
      ObstacleOf(recs[k].spec.dependencies[i], See(recs, k.namespace, recs[k].spec.dependencies[i])) == None
  }

  /** One undisturbed reconcile of an enabled bundle with an applier that succeeds. */
  function Visit(recs: Bundles, k: Key): Bundles {
    if k !in recs then recs
    else
      var rec := recs[k];
      match Decide(rec)
      case AddFinalizer => recs[k := rec.(finalizer := true)]
      case Install =>
        recs[k := rec.(status := rec.status.(phase := if GateOpen(recs, k) then Installed else Failed))]
      case _ => recs
  }

  // ---------- real reconciles, undisturbed ----------

  /** Reads see the present, the values resolve, the bundle downloads, and it renders or its release gets
      deployed, according to its kind. */
  ghost predicate Undisturbed(c: Context, inputs: Inputs, recs: Bundles, k: Key)
    requires k in recs
  {
    var spec := recs[k].spec;
    && c.own == k.namespace
    && (forall i: nat | i < |spec.dependencies| ::
          inputs.look(i, Completed(c.own, spec.dependencies[i])) == See(recs, c.own, spec.dependencies[i]))
    && Resolved(c.lib, inputs.reading, inputs.configs, c.own, spec).Merged? && inputs.downloaded
    && (IsNative(spec.kind) || (spec.kind == HELM && inputs.chart.Charted? && inputs.chart.release.deployed))
    && (IsNative(spec.kind) && Gate(c, inputs, spec).Some? ==> Render(c.env, c.own, Gate(c, inputs, spec).value).Some?)
  }

  /** What matters of a stored bundle here. */
  predicate Alike(a: Rec, b: Rec) {
    && a.deleting == b.deleting && a.finalizer == b.finalizer && a.spec == b.spec
    && a.status.phase == b.status.phase
  }

  ghost predicate AllAlike(a: Bundles, b: Bundles) {
    a.Keys == b.Keys && forall k | k in a :: Alike(a[k], b[k])
  }

  lemma GateIsOpen(c: Context, inputs: Inputs, recs: Bundles, k: Key)
    requires k in recs && Undisturbed(c, inputs, recs, k)
    ensures Gate(c, inputs, recs[k].spec).Some? <==> GateOpen(recs, k)
  {
    var deps := recs[k].spec.dependencies;
    forall i: nat | i < |deps|
      ensures ObstacleAt(c.own, deps, inputs.look, i) == ObstacleOf(deps[i], See(recs, k.namespace, deps[i]))
    {
    }
    if !GateOpen(recs, k) {
      var i: nat :| i < |deps| && ObstacleOf(deps[i], See(recs, k.namespace, deps[i])) != None;
      assert ObstacleAt(c.own, deps, inputs.look, i) != None;
    }
  }

  /** `Visit` is what `Reconcile` does when it is undisturbed and no call or write fails. */
  lemma VisitIsReconcile(c: Context, inputs: Inputs, recs: Bundles, k: Key, w: World, rec: Rec, w': World)
    requires k in recs && !recs[k].deleting && !recs[k].spec.disabled && Undisturbed(c, inputs, recs, k)
    requires FaultFreeFrom(c.env.server, w.clock)
    requires Reconciled(c, inputs, recs[k], w, rec, w', true)
    ensures Alike(rec, Visit(recs, k)[k])
  {
    if Decide(recs[k]) == Install {
      var gate := Gate(c, inputs, recs[k].spec);
      GateIsOpen(c, inputs, recs, k);
      var st, ok :| SyncedTo(c, inputs, recs[k], w, st, w', ok) && rec == recs[k].(status := Stored(c, st, ok));
      if gate.Some? && IsNative(recs[k].spec.kind) {
        AppliedFaultFree(c.env, c.own, gate.value, recs[k].status, w, st, w', ok);
        AppliedRecordsRender(c.env, c.own, gate.value, recs[k].status, w, st, w', ok);
      }
    }
  }

  function Sweep(recs: Bundles, order: seq<Key>): Bundles
    decreases |order|
  {
    if order == [] then recs else Sweep(Visit(recs, order[0]), order[1..])
  }

  function Sweeps(recs: Bundles, orders: seq<seq<Key>>): Bundles
    decreases |orders|
  {
    if orders == [] then recs else Sweeps(Sweep(recs, orders[0]), orders[1..])
  }

  /** The order visits every bundle, some perhaps more than once. */
  ghost predicate Covers(order: seq<Key>, recs: Bundles) {
    forall k | k in recs :: k in order
  }

  /** Bundles that exist, are enabled and not being deleted; each depends only on bundles of lower depth. */
  ghost predicate Acyclic(recs: Bundles, depth: Key -> nat) {
    forall k | k in recs ::
      && !recs[k].deleting && !recs[k].spec.disabled
      && forall i | 0 <= i < |recs[k].spec.dependencies| && NamesBundle(recs[k].spec.dependencies[i]) ::
           var d := DependencyKey(k.namespace, recs[k].spec.dependencies[i]);
           d in recs && depth(d) < depth(k)
  }

  /** A bundle that is up to date with its n-th sweep. */
  predicate Current(rec: Rec, depth: nat, n: nat) {
    (n >= 1 ==> rec.finalizer) && (depth + 2 <= n ==> rec.status.phase == Installed)
  }

  ghost predicate AllCurrent(recs: Bundles, depth: Key -> nat, n: nat) {
    forall k | k in recs :: Current(recs[k], depth(k), n)
  }

  lemma VisitInstalls(recs: Bundles, depth: Key -> nat, n: nat, k: Key)
    requires Acyclic(recs, depth) && AllCurrent(recs, depth, n)
    ensures var out := Visit(recs, k);
      && Acyclic(out, depth) && AllCurrent(out, depth, n) && out.Keys == recs.Keys
      && (k in recs ==> Current(out[k], depth(k), n + 1))
      && forall j | j in recs && j != k :: out[j] == recs[j]
  {
    if k !in recs {
      return;
    }
    var out, deps := Visit(recs, k), recs[k].spec.dependencies;
    if recs[k].finalizer && depth(k) + 2 <= n + 1 {
      forall i | 0 <= i < |deps| ensures ObstacleOf(deps[i], See(recs, k.namespace, deps[i])) == None {
        if NamesBundle(deps[i]) {
          var d := DependencyKey(k.namespace, deps[i]);
          assert depth(d) + 2 <= n && Current(recs[d], depth(d), n);
        }
      }
      assert GateOpen(recs, k);
    }
    assert forall j | j in recs :: out[j].spec == recs[j].spec && out[j].deleting == recs[j].deleting;
  }

  /** During a sweep, the bundles already visited are ahead of the others. */
  lemma {:induction false} SweepAdvances(recs: Bundles, depth: Key -> nat, n: nat, order: seq<Key>, done: set<Key>)
    requires Acyclic(recs, depth) && AllCurrent(recs, depth, n)
    requires forall k | k in recs && k in done :: Current(recs[k], depth(k), n + 1)
    ensures var out := Sweep(recs, order);
      && Acyclic(out, depth) && out.Keys == recs.Keys && AllCurrent(out, depth, n)
      && forall k | k in recs && (k in done || k in order) :: Current(out[k], depth(k), n + 1)
    decreases |order|
  {
    if order != [] {
      var k := order[0];
      VisitInstalls(recs, depth, n, k);
      SweepAdvances(Visit(recs, k), depth, n, order[1..], done + {k});
    }
  }

  /** After n sweeps in any orders, every bundle of depth at most n - 2 is Installed; so a bundle of depth d is
      Installed from sweep d + 2 on, and later sweeps leave it so. */
  lemma {:induction false} SweepsInstall(recs: Bundles, depth: Key -> nat, n: nat, orders: seq<seq<Key>>, k: Key)
    requires Acyclic(recs, depth) && AllCurrent(recs, depth, n) && k in recs
    requires forall i | 0 <= i < |orders| :: Covers(orders[i], recs)
    ensures k in Sweeps(recs, orders)
    ensures depth(k) + 2 <= n + |orders| ==> Sweeps(recs, orders)[k].status.phase == Installed
    decreases |orders|
  {
    if orders == [] {
      assert Current(recs[k], depth(k), n);
    } else {
      SweepAdvances(recs, depth, n, orders[0], {});
      var out := Sweep(recs, orders[0]);
      assert forall j | j in recs :: j in orders[0];
      assert AllCurrent(out, depth, n + 1);
      SweepsInstall(out, depth, n + 1, orders[1..], k);
    }
  }

  // ---------- sweeps of real reconciles ----------

  /** The stored bundles and the cluster they share. */
  datatype Cluster = Cluster(recs: Bundles, w: World)

  /** One undisturbed reconcile. */
  ghost predicate Visited(ctx: Key -> Context, a: Cluster, b: Cluster, k: Key) {
    if k !in a.recs then b == a
    else
      exists inputs, rec ::
        VisitedBy(ctx(k), a, b, k, inputs, rec) && b.recs == a.recs[k := rec]
  }

  ghost predicate VisitedBy(c: Context, a: Cluster, b: Cluster, k: Key, inputs: Inputs, rec: Rec)
    requires k in a.recs
  {
    Undisturbed(c, inputs, a.recs, k) && Reconciled(c, inputs, a.recs[k], a.w, rec, b.w, true)
  }

  ghost predicate Swept(ctx: Key -> Context, a: Cluster, b: Cluster, order: seq<Key>)
    decreases |order|
  {
    if order == [] then b == a
    else exists mid :: Visited(ctx, a, mid, order[0]) && Swept(ctx, mid, b, order[1..])
  }

  ghost predicate SweptAll(ctx: Key -> Context, a: Cluster, b: Cluster, orders: seq<seq<Key>>)
    decreases |orders|
  {
    if orders == [] then b == a
    else exists mid :: Swept(ctx, a, mid, orders[0]) && SweptAll(ctx, mid, b, orders[1..])
  }

  /** All bundles live on one server, on which nothing fails any more. */
  ghost predicate Calm(ctx: Key -> Context, w: World) {
    forall k: Key :: FaultFreeFrom(ctx(k).env.server, w.clock)
  }

  ghost predicate AllWanted(recs: Bundles) {
    forall k | k in recs :: !recs[k].deleting && !recs[k].spec.disabled
  }

  lemma {:induction false} ExecClock(s: Server, p: Ledger.Progress, steps: seq<Step>)
    ensures Exec(s, p, steps).w.clock >= p.w.clock
    decreases |steps|
  {
    if steps != [] {
      assert Do(s, p, steps[0]).w.clock >= p.w.clock;
      ExecClock(s, Do(s, p, steps[0]), steps[1..]);
    }
  }

  lemma ReconcileClock(c: Context, inputs: Inputs, rec: Rec, w: World, rec': Rec, w': World)
    requires Reconciled(c, inputs, rec, w, rec', w', true) && !rec.deleting && !rec.spec.disabled
    ensures w'.clock >= w.clock
  {
    if Decide(rec) == Install {
      var st, ok :| SyncedTo(c, inputs, rec, w, st, w', ok) && rec' == rec.(status := Stored(c, st, ok));
      var gate := Gate(c, inputs, rec.spec);
      if gate.Some? && IsNative(rec.spec.kind) {
        var d, managed :| AppliedBy(c.env, c.own, gate.value, d, managed, rec.status, w, st, w', ok);
        ExecClock(c.env.server, Ledger.Progress(w, [], false), Plan(d));
      }
    }
  }

  lemma VisitAlike(recs: Bundles, like: Bundles, k: Key)
    requires AllAlike(recs, like)
    ensures AllAlike(Visit(recs, k), Visit(like, k))
  {
    if k in recs {
      forall i | 0 <= i < |recs[k].spec.dependencies|
        ensures See(recs, k.namespace, recs[k].spec.dependencies[i])
             == See(like, k.namespace, recs[k].spec.dependencies[i])
      {
      }
      assert GateOpen(recs, k) <==> GateOpen(like, k);
    }
  }

  /** One real visit follows the abstract one. */
  lemma VisitedAlike(ctx: Key -> Context, a: Cluster, b: Cluster, k: Key)
    requires Visited(ctx, a, b, k) && Calm(ctx, a.w) && AllWanted(a.recs)
    ensures AllAlike(b.recs, Visit(a.recs, k)) && Calm(ctx, b.w) && AllWanted(b.recs)
  {
    if k in a.recs {
      var inputs, rec :| VisitedBy(ctx(k), a, b, k, inputs, rec) && b.recs == a.recs[k := rec];
      VisitIsReconcile(ctx(k), inputs, a.recs, k, a.w, rec, b.w);
      ReconcileClock(ctx(k), inputs, a.recs[k], a.w, rec, b.w);
    }
  }

  lemma {:induction false} SweptAlike(ctx: Key -> Context, a: Cluster, b: Cluster, order: seq<Key>, like: Bundles)
    requires Swept(ctx, a, b, order) && Calm(ctx, a.w) && AllWanted(a.recs) && AllAlike(a.recs, like)
    ensures AllAlike(b.recs, Sweep(like, order)) && Calm(ctx, b.w) && AllWanted(b.recs)
    decreases |order|
  {
    if order != [] {
      var mid :| Visited(ctx, a, mid, order[0]) && Swept(ctx, mid, b, order[1..]);
      VisitedAlike(ctx, a, mid, order[0]);
      VisitAlike(a.recs, like, order[0]);
      SweptAlike(ctx, mid, b, order[1..], Visit(like, order[0]));
    }
  }

  lemma {:induction false} SweptAllAlike(ctx: Key -> Context, a: Cluster, b: Cluster, orders: seq<seq<Key>>,
                                         like: Bundles)
    requires SweptAll(ctx, a, b, orders) && Calm(ctx, a.w) && AllWanted(a.recs) && AllAlike(a.recs, like)
    ensures AllAlike(b.recs, Sweeps(like, orders))
    decreases |orders|
  {
    if orders != [] {
      var mid :| Swept(ctx, a, mid, orders[0]) && SweptAll(ctx, mid, b, orders[1..]);
      SweptAlike(ctx, a, mid, orders[0], like);
      SweptAllAlike(ctx, mid, b, orders[1..], Sweep(like, orders[0]));
    }
  }

  /** Sweeps of undisturbed reconciles on a shared cluster, helm bundles among them, install every bundle that
      depends on no cycle: one of depth d within d + 2 sweeps, and further sweeps leave it Installed. */
  lemma {:induction false} ReconcilesInstall(ctx: Key -> Context, a: Cluster, b: Cluster, depth: Key -> nat,
                                             orders: seq<seq<Key>>, k: Key)
    requires SweptAll(ctx, a, b, orders) && Calm(ctx, a.w)
    requires Acyclic(a.recs, depth) && k in a.recs
    requires (forall i | 0 <= i < |orders| :: Covers(orders[i], a.recs)) && |orders| >= depth(k) + 2
    ensures k in b.recs && b.recs[k].status.phase == Installed
  {
    SweptAllAlike(ctx, a, b, orders, a.recs);
    SweepsInstall(a.recs, depth, 0, orders, k);
  }

  // ---------- such sweeps exist ----------

  function Specs(recs: Bundles): map<Key, Spec> {
    map k | k in recs :: recs[k].spec
  }

  /** A way to choose the inputs so that no reconcile of bundles with these specs is disturbed. */
  ghost predicate Supplies(ctx: Key -> Context, specs: map<Key, Spec>, supply: (Bundles, Key) -> Inputs) {
    forall recs: Bundles, k {:trigger supply(recs, k)} | Specs(recs) == specs && AllWanted(recs) && k in recs ::
      Undisturbed(ctx(k), supply(recs, k), recs, k)
  }

  lemma ReconcileExists(c: Context, inputs: Inputs, rec: Rec, w: World) returns (rec': Rec, w': World)
    requires !rec.deleting && !rec.spec.disabled
    ensures Reconciled(c, inputs, rec, w, rec', w', true)
  {
    rec', w' := rec.(finalizer := true), w;
    if Decide(rec) == Install {
      var gate, st, ok := Gate(c, inputs, rec.spec), rec.status, false;
      if gate.Some? && IsNative(rec.spec.kind) {
        st, w', ok := AppliedTotal(c.env, c.own, gate.value, rec.status, w);
      } else if gate.Some? && rec.spec.kind == HELM {
        st, ok := HelmApply(rec.status, inputs.chart).0, HelmApply(rec.status, inputs.chart).1;
        w' := WithRelease(w, ReleaseKey(c, gate.value), Leaves(inputs.chart));
      }
      assert SyncedTo(c, inputs, rec, w, st, w', ok);
      rec' := rec.(status := Stored(c, st, ok));
    }
  }

  lemma VisitedKeepsSpecs(ctx: Key -> Context, a: Cluster, b: Cluster, k: Key)
    requires Visited(ctx, a, b, k) && Calm(ctx, a.w) && AllWanted(a.recs)
    ensures Specs(b.recs) == Specs(a.recs)
  {
    VisitedAlike(ctx, a, b, k);
    VisitKeepsSpecs(a.recs, k);
    AlikeSpecs(b.recs, Visit(a.recs, k));
  }

  lemma VisitKeepsSpecs(recs: Bundles, k: Key)
    ensures Specs(Visit(recs, k)) == Specs(recs)
  {
    assert forall j | j in recs :: Visit(recs, k)[j].spec == recs[j].spec;
  }

  lemma AlikeSpecs(a: Bundles, b: Bundles)
    requires AllAlike(a, b)
    ensures Specs(a) == Specs(b)
  {
    assert forall j | j in a :: Alike(a[j], b[j]);
  }

  lemma VisitExists(ctx: Key -> Context, a: Cluster, k: Key, supply: (Bundles, Key) -> Inputs) returns (b: Cluster)
    requires AllWanted(a.recs) && Supplies(ctx, Specs(a.recs), supply)
    ensures Visited(ctx, a, b, k)
  {
    b := a;
    if k in a.recs {
      var inputs := supply(a.recs, k);
      var rec, w := ReconcileExists(ctx(k), inputs, a.recs[k], a.w);
      b := Cluster(a.recs[k := rec], w);
      assert VisitedBy(ctx(k), a, b, k, inputs, rec);
    }
  }

  lemma {:induction false} SweepExists(ctx: Key -> Context, a: Cluster, order: seq<Key>,
                                       supply: (Bundles, Key) -> Inputs) returns (b: Cluster)
    requires Calm(ctx, a.w) && AllWanted(a.recs) && Supplies(ctx, Specs(a.recs), supply)
    ensures Swept(ctx, a, b, order) && Calm(ctx, b.w) && AllWanted(b.recs) && Specs(b.recs) == Specs(a.recs)
    decreases |order|
  {
    b := a;
    if order != [] {
      var mid := VisitExists(ctx, a, order[0], supply);
      VisitedAlike(ctx, a, mid, order[0]);
      VisitedKeepsSpecs(ctx, a, mid, order[0]);
      b := SweepExists(ctx, mid, order[1..], supply);
    }
  }

  /** Whatever the orders, sweeps as in `ReconcilesInstall` can be carried out to the end. */
  lemma {:induction false} SweepsExist(ctx: Key -> Context, a: Cluster, orders: seq<seq<Key>>,
                                       supply: (Bundles, Key) -> Inputs) returns (b: Cluster)
    requires Calm(ctx, a.w) && AllWanted(a.recs) && Supplies(ctx, Specs(a.recs), supply)
    ensures SweptAll(ctx, a, b, orders)
    decreases |orders|
  {
    b := a;
    if orders != [] {
      var mid := SweepExists(ctx, a, orders[0], supply);
      b := SweepsExist(ctx, mid, orders[1..], supply);
    }
  }
}
