/** The applier behind kustomize and template bundles: what one `Apply` or `Remove` does to the bundle's
    status and to the cluster. */
module Native {
  import opened Trees
  import opened ValuesField
  import opened Api
  import opened Ledger
  import opened LedgerLaws
  import opened LedgerGaps

  datatype Phase = Unset | Installed | Failed | Disabled

  datatype Status = Status(phase: Phase, resources: seq<Ref>, values: Values, version: string, namespace: string)

  /** A reference to another bundle or object in `spec.dependencies`. */
  datatype Dependency = Dependency(apiVersion: string, kind: string, namespace: string, name: string)

  datatype ValuesFrom = ValuesFrom(kind: string, name: string, prefix: string, optional: bool)

  datatype Spec = Spec(disabled: bool, kind: string, version: string, installNamespace: string,
                       dependencies: seq<Dependency>, values: Values, valuesFrom: seq<ValuesFrom>)

  /** The surroundings of one bundle. `template` renders and splits the manifests (`None` when that fails);
      `namespaced` says which kinds live in namespaces. */
  datatype Env = Env(server: Server, codec: Codec, template: Spec -> Option<seq<Obj>>, namespaced: Ref -> bool)

  class Bundle {
    const namespace: string
    const name: string
    var spec: Spec
    var status: Status

    constructor (namespace: string, name: string, spec: Spec, status: Status)
      ensures this.namespace == namespace && this.name == name && this.spec == spec && this.status == status
    {
      this.namespace, this.name, this.spec, this.status := namespace, name, spec, status;
    }
  }

  // ---------- rendering ----------

  function InstallNamespace(own: string, spec: Spec): string {
    if spec.installNamespace == "" then own else spec.installNamespace
  }

  function Placed(env: Env, ns: string, o: Obj): Obj {
    if o.ref.namespace == "" && env.namespaced(o.ref) then o.(ref := o.ref.(namespace := ns)) else o
  }

  function AllPlaced(env: Env, ns: string, list: seq<Obj>): seq<Obj> {
    seq(|list|, i requires 0 <= i < |list| => Placed(env, ns, list[i]))
  }

  /** What the bundle wants in the cluster. */
  function Render(env: Env, own: string, spec: Spec): Option<seq<Obj>> {
    match env.template(spec)
    case None => None
    case Some(list) => Some(AllPlaced(env, InstallNamespace(own, spec), list))
  }

  // ---------- Apply ----------

  /** The phase, the values and the references say there is nothing to do. */
  predicate FastPath(st: Status, spec: Spec, d: DiffResult) {
    && st.phase == Installed
    && EqualMapValues(st.values.obj, spec.values.obj)
    && d.creats == [] && d.removes == []
  }

  function InstalledStatus(env: Env, own: string, spec: Spec, managed: seq<Ref>): Status {
    Status(Installed, managed, FullFill(env.codec, Values(None, spec.values.obj)), spec.version,
           InstallNamespace(own, spec))
  }

  /** What one `Apply` may do, given the split `d` and the sorted ledger it computed. */
  ghost predicate AppliedBy(env: Env, own: string, spec: Spec, d: DiffResult, managed: seq<Ref>,
                            st: Status, w: World, st': Status, w': World, ok: bool)
  {
    match Render(env, own, spec)
    case None => !ok && st' == st && w' == w
    case Some(list) =>
      && IsDiff(st.resources, list, d)
      && if FastPath(st, spec, d) then ok && st' == st && w' == w
         else
           && Synced(env.server, w, d, w', managed, ok)
           && st' == if ok then InstalledStatus(env, own, spec, managed) else st
  }

  ghost predicate Applied(env: Env, own: string, spec: Spec, st: Status, w: World, st': Status, w': World, ok: bool) {
    exists d, managed :: AppliedBy(env, own, spec, d, managed, st, w, st', w', ok)
  }

  // ---------- Remove ----------

  ghost predicate Removed(s: Server, st: Status, w: World, st': Status, w': World, ok: bool) {
    exists d, managed :: RemovedBy(s, d, managed, st, w, st', w', ok)
  }

  ghost predicate RemovedBy(s: Server, d: DiffResult, managed: seq<Ref>,
                            st: Status, w: World, st': Status, w': World, ok: bool)
  {
    && IsDiff(st.resources, [], d) && Synced(s, w, d, w', managed, ok)
    && st' == if ok then st.(resources := managed, phase := Disabled) else st
  }

  class Applier {
    const env: Env
    const syncer: Syncer

    ghost predicate Valid() {
      syncer.client.server == env.server
    }

    constructor (env: Env, client: Client)
      requires client.server == env.server
      ensures Valid() && this.env == env && syncer.client == client
    {
      this.env := env;
      syncer := new Syncer(client);
    }

    method SetNamespaceIfNotSet(ns: string, list: array<Obj>)
      modifies list
      ensures list[..] == AllPlaced(env, ns, old(list[..]))
    {
      for i := 0 to list.Length
        invariant list[..i] == AllPlaced(env, ns, old(list[..])[..i])
        invariant list[i..] == old(list[..])[i..]
      {
        if list[i].ref.namespace != "" {
          continue;
        }
        if env.namespaced(list[i].ref) {
          list[i] := list[i].(ref := list[i].ref.(namespace := ns));
        }
      }
      assert list[..list.Length] == list[..] && old(list[..])[..list.Length] == old(list[..]);
    }

    method Apply(bundle: Bundle) returns (ok: bool)
      requires Valid()
      modifies bundle`status, syncer.client
      ensures Applied(env, bundle.namespace, bundle.spec, old(bundle.status), old(syncer.client.world),
                      bundle.status, syncer.client.world, ok)
    {
      ghost var st, w := bundle.status, syncer.client.world;
      var rendered := env.template(bundle.spec);
      if rendered == None {
        assert AppliedBy(env, bundle.namespace, bundle.spec, DiffResult([], [], []), [], st, w, st, w, false);
        return false;
      }
      var list := rendered.value;
      var resources := new Obj[|list|](i requires 0 <= i < |list| => list[i]);
      assert resources[..] == list;
      var ns := bundle.spec.installNamespace;
      if ns == "" {
        ns := bundle.namespace;
      }
      SetNamespaceIfNotSet(ns, resources);
      var d := Diff(bundle.status.resources, resources[..]);
      if bundle.status.phase == Installed && EqualMapValues(bundle.status.values.obj, bundle.spec.values.obj)
         && |d.creats| == 0 && |d.removes| == 0
      {
        assert AppliedBy(env, bundle.namespace, bundle.spec, d, [], st, w, st, w, true);
        return true;
      }
      var managed;
      managed, ok := syncer.SyncDiff(d);
      if ok {
        bundle.status := bundle.status.(resources := managed);
        bundle.status := bundle.status.(values := FullFill(env.codec, Values(None, bundle.spec.values.obj)));
        bundle.status := bundle.status.(phase := Installed);
        bundle.status := bundle.status.(version := bundle.spec.version);
        bundle.status := bundle.status.(namespace := ns);
      }
      assert AppliedBy(env, bundle.namespace, bundle.spec, d, managed, st, w,
                       bundle.status, syncer.client.world, ok);
    }

    method Remove(bundle: Bundle) returns (ok: bool)
      requires Valid()
      modifies bundle`status, syncer.client
      ensures Removed(env.server, old(bundle.status), old(syncer.client.world),
                      bundle.status, syncer.client.world, ok)
    {
      ghost var st, w := bundle.status, syncer.client.world;
      var managed;
      managed, ok := syncer.Sync(bundle.status.resources, []);
      ghost var d :| IsDiff(st.resources, [], d) && Synced(env.server, w, d, syncer.client.world, managed, ok);
      if ok {
        bundle.status := bundle.status.(resources := managed);
        bundle.status := bundle.status.(phase := Disabled);
      }
      assert RemovedBy(env.server, d, managed, st, w, bundle.status, syncer.client.world, ok);
    }
  }

  // ---------- what a nil return means ----------

  /** Every call has an outcome, whatever the state and the failures. */
  lemma AppliedTotal(env: Env, own: string, spec: Spec, st: Status, w: World)
    returns (st': Status, w': World, ok: bool)
    ensures Applied(env, own, spec, st, w, st', w', ok)
  {
    st', w', ok := st, w, false;
    if Render(env, own, spec) == None {
      assert AppliedBy(env, own, spec, DiffResult([], [], []), [], st, w, st, w, false);
    } else {
      var list := Render(env, own, spec).value;
      var removes := RemovesExist(Elements(st.resources) - Refs(list));
      var d := DiffResult(Pick(st.resources, list, true), Pick(st.resources, list, false), removes);
      var p := Run(env.server, w, d);
      var managed := SortedExists(p.managed);
      if FastPath(st, spec, d) {
        ok := true;
      } else {
        w', ok := p.w, !p.failed;
        st' := if ok then InstalledStatus(env, own, spec, managed) else st;
      }
      assert AppliedBy(env, own, spec, d, managed, st, w, st', w', ok);
    }
  }

  /** Whichever way `Apply` succeeded, the bundle is Installed and the ledger lists exactly the render. */
  lemma AppliedRecordsRender(env: Env, own: string, spec: Spec, st: Status, w: World, st': Status, w': World, ok: bool)
    requires Applied(env, own, spec, st, w, st', w', ok) && ok
    ensures Render(env, own, spec).Some? && st'.phase == Installed
    ensures Elements(st'.resources) == Refs(Render(env, own, spec).value)
    ensures (st' == st && w' == w)
         || (multiset(st'.resources) == multiset(RefSeq(Render(env, own, spec).value)) && Descending(st'.resources)
             && st'.values.obj == spec.values.obj && st'.version == spec.version
             && st'.namespace == InstallNamespace(own, spec))
  {
    var d, managed :| AppliedBy(env, own, spec, d, managed, st, w, st', w', ok);
    var list := Render(env, own, spec).value;
    DiffExact(st.resources, list, d);
    if !FastPath(st, spec, d) {
      SyncedLedger(env.server, w, st.resources, list, d, w', managed, ok);
    }
  }

  /** Without failures, whatever renders installs. */
  lemma AppliedFaultFree(env: Env, own: string, spec: Spec, st: Status, w: World, st': Status, w': World, ok: bool)
    requires Applied(env, own, spec, st, w, st', w', ok) && Render(env, own, spec).Some?
    requires FaultFreeFrom(env.server, w.clock)
    ensures ok
  {
    var d, managed :| AppliedBy(env, own, spec, d, managed, st, w, st', w', ok);
    if !FastPath(st, spec, d) {
      SyncFaultFree(env.server, w, st.resources, Render(env, own, spec).value, d, w', managed, ok);
    }
  }

  /** Whether the fast path is taken does not depend on the order of the split. */
  lemma FastPathMeans(st: Status, spec: Spec, list: seq<Obj>, d: DiffResult)
    requires IsDiff(st.resources, list, d)
    ensures FastPath(st, spec, d) <==>
      st.phase == Installed && AsMap(st.values.obj) == AsMap(spec.values.obj)
      && Elements(st.resources) == Refs(list)
  {
    DiffExact(st.resources, list, d);
    EqualMeans(st.values.obj, spec.values.obj);
  }

  /** The namespace a bundle asks for, else its own. */
  ghost predicate Chosen(own: string, spec: Spec, ns: string) {
    (spec.installNamespace != "" ==> ns == spec.installNamespace) && (spec.installNamespace == "" ==> ns == own)
  }

  /** Where a rendered object belongs: in the chosen namespace if it lives in one and names none, else where it
      says. */
  ghost predicate Belongs(env: Env, own: string, spec: Spec, o: Obj, r: Ref) {
    && r.apiVersion == o.ref.apiVersion && r.kind == o.ref.kind && r.name == o.ref.name
    && if o.ref.namespace == "" && env.namespaced(o.ref) then Chosen(own, spec, r.namespace)
       else r.namespace == o.ref.namespace
  }

  lemma PlacedBelongs(env: Env, own: string, spec: Spec, o: Obj, r: Ref)
    ensures var p := Placed(env, InstallNamespace(own, spec), o);
      && (Belongs(env, own, spec, o, r) <==> r == p.ref)
      && p.annotations == o.annotations && p.content == o.content
  {
  }

  /** After a nil return the ledger lists the place where each manifest belongs, and nothing else; unless there was
      nothing to do, the namespace on record is the chosen one. Either way the values on record are those asked
      for. */
  lemma AppliedPlaces(env: Env, own: string, spec: Spec, list: seq<Obj>, st: Status, w: World,
                      st': Status, w': World, ok: bool)
    requires Applied(env, own, spec, st, w, st', w', ok) && ok && env.template(spec) == Some(list)
    ensures forall o, r | o in list && Belongs(env, own, spec, o, r) :: r in st'.resources
    ensures forall r | r in st'.resources :: exists o :: o in list && Belongs(env, own, spec, o, r)
    ensures AsMap(st'.values.obj) == AsMap(spec.values.obj)
    ensures (st' == st && w' == w) || Chosen(own, spec, st'.namespace)
  {
    AppliedRecordsRender(env, own, spec, st, w, st', w', ok);
    AppliedValues(env, own, spec, st, w, st', w', ok);
    var placed := Render(env, own, spec).value;
    forall o, r | o in list && Belongs(env, own, spec, o, r) ensures r in st'.resources {
      PlacedBelongs(env, own, spec, o, r);
      var i :| 0 <= i < |list| && list[i] == o;
      assert placed[i].ref in Elements(st'.resources);
    }
    forall r | r in st'.resources ensures exists o :: o in list && Belongs(env, own, spec, o, r) {
      assert r in Elements(st'.resources);
      var i :| 0 <= i < |placed| && placed[i].ref == r;
      PlacedBelongs(env, own, spec, list[i], r);
    }
  }

  lemma AppliedValues(env: Env, own: string, spec: Spec, st: Status, w: World, st': Status, w': World, ok: bool)
    requires Applied(env, own, spec, st, w, st', w', ok) && ok
    ensures AsMap(st'.values.obj) == AsMap(spec.values.obj)
  {
    var d, managed :| AppliedBy(env, own, spec, d, managed, st, w, st', w', ok);
    EqualMeans(st.values.obj, spec.values.obj);
  }

  /** No two manifests belong in the same place. */
  ghost predicate PlacesDiffer(env: Env, own: string, spec: Spec, list: seq<Obj>) {
    forall i, j, r | 0 <= i < j < |list| ::
      !(Belongs(env, own, spec, list[i], r) && Belongs(env, own, spec, list[j], r))
  }

  /** The status alone shows that the object at `r` has to be written: the last success was on something else. */
  ghost predicate Stale(st: Status, spec: Spec, r: Ref) {
    st.phase != Installed || AsMap(st.values.obj) != AsMap(spec.values.obj) || r !in st.resources
  }

  /** After a nil return every manifest the status did not account for is in the cluster, where it belongs: created
      as it is, or server-side applied to what was there; only recorded objects that list OnUpdate are excepted. */
  lemma AppliedContents(env: Env, own: string, spec: Spec, list: seq<Obj>, st: Status, w: World,
                        st': Status, w': World, ok: bool, o: Obj, r: Ref)
    requires Lawful(env.server.patch) && PlacesDiffer(env, own, spec, list)
    requires Applied(env, own, spec, st, w, st', w', ok) && ok && env.template(spec) == Some(list)
    requires o in list && Belongs(env, own, spec, o, r) && Stale(st, spec, r)
    requires r in st.resources && "bundle.kubegems.io/ignore-options" in o.annotations ==>
               !Listed(o.annotations["bundle.kubegems.io/ignore-options"], "OnUpdate")
    ensures r in w'.objs
    ensures w'.objs[r] == if r in w.objs then env.server.patch(w.objs[r], o.content) else o.content
  {
    var d, managed :| AppliedBy(env, own, spec, d, managed, st, w, st', w', ok);
    var placed, i := Render(env, own, spec).value, IndexOfObj(list, o);
    PlacedBelongs(env, own, spec, o, r);
    PlacedDistinct(env, own, spec, list);
    SkippedMeans(placed[i], "OnUpdate");
    assert placed[i].ref == r && r in Refs(placed);
    assert r in st.resources <==> r in Elements(st.resources);
    FastPathMeans(st, spec, placed, d);
    SyncReachesGoal(env.server, w, st.resources, placed, d, w', managed, ok);
    GoalHasRender(env.server.patch, st.resources, placed, w.objs, placed[i]);
  }

  ghost function IndexOfObj(list: seq<Obj>, o: Obj): (i: nat)
    requires o in list
    ensures i < |list| && list[i] == o
  {
    var i :| 0 <= i < |list| && list[i] == o;
    i
  }

  lemma PlacedDistinct(env: Env, own: string, spec: Spec, list: seq<Obj>)
    requires PlacesDiffer(env, own, spec, list)
    ensures Distinct(RefSeq(AllPlaced(env, InstallNamespace(own, spec), list)))
  {
    var placed := AllPlaced(env, InstallNamespace(own, spec), list);
    forall i, j | 0 <= i < j < |placed| ensures RefSeq(placed)[i] != RefSeq(placed)[j] {
      PlacedBelongs(env, own, spec, list[i], placed[i].ref);
      PlacedBelongs(env, own, spec, list[j], placed[i].ref);
    }
  }

  /** Removing touches nothing outside the ledger and creates nothing, under any failures; success means
      that every recorded object is gone and nothing is recorded any more. */
  lemma RemovedClears(s: Server, st: Status, w: World, st': Status, w': World, ok: bool)
    requires Removed(s, st, w, st', w', ok)
    ensures forall r | r in w'.objs :: r in w.objs && w'.objs[r] == w.objs[r]
    ensures forall r | r in w.objs && r !in st.resources :: r in w'.objs
    ensures ok ==> st' == st.(phase := Disabled, resources := []) && w'.objs == w.objs - Elements(st.resources)
    ensures !ok ==> st' == st
    ensures FaultFreeFrom(s, w.clock) ==> ok
  {
    var d, managed :| RemovedBy(s, d, managed, st, w, st', w', ok);
    var p := Progress(w, [], false);
    DiffExact(st.resources, [], d);
    RunIsUpsThenDrops(s, w, st.resources, [], d);
    assert Ups(st.resources, []) == [];
    DropsEffect(s, p, d.removes);
    assert forall r | r in w.objs && r !in st.resources :: r !in Elements(st.resources);
    if ok {
      SyncedLedger(s, w, st.resources, [], d, w', managed, ok);
      assert |multiset(managed)| == 0;
    }
    if FaultFreeFrom(s, w.clock) {
      SyncFaultFree(s, w, st.resources, [], d, w', managed, ok);
    }
  }

  /** Object by object: in some order of the ledger, the i-th object survives removal exactly when it was there
      and the i-th call is lost, and removal succeeds exactly when all these calls work. */
  lemma RemovedExactly(s: Server, st: Status, w: World, st': Status, w': World, ok: bool) returns (order: seq<Ref>)
    requires Removed(s, st, w, st', w', ok)
    ensures Distinct(order) && Elements(order) == Elements(st.resources)
    ensures forall i | 0 <= i < |order| :: order[i] in w'.objs <==> order[i] in w.objs && s.fault(w.clock + i) == Lost
    ensures ok <==> CallsWork(s, w.clock, |order|)
  {
    var d, managed :| RemovedBy(s, d, managed, st, w, st', w', ok);
    var p := Progress(w, [], false);
    DiffExact(st.resources, [], d);
    RunIsUpsThenDrops(s, w, st.resources, [], d);
    assert Ups(st.resources, []) == [];
    DropsFail(s, p, d.removes);
    order := RefSeq(d.removes);
    ElementsRefSeq(d.removes);
    forall i | 0 <= i < |order| ensures order[i] in w'.objs <==> order[i] in w.objs && s.fault(w.clock + i) == Lost {
      DropsExactly(s, p, d.removes, i);
    }
  }

  // ---------- steady state ----------

  /** Writing the status to the API server and reading it back. */
  function Reloaded(c: Codec, st: Status): Status {
    st.(values := StoreAndLoad(c, st.values))
  }

  /** After a successful `Apply` and a reload of the status, the next one on the same input takes the fast
      path, leaving cluster and status alone, exactly when the resolved values are in normal form and hold
      no integers. */
  lemma SteadyState(env: Env, own: string, spec: Spec, st: Status, w: World, st1: Status, w1: World, d: DiffResult)
    requires Faithful(env.codec)
    requires st.phase == Installed ==> Reloaded(env.codec, st) == st
    requires Applied(env, own, spec, st, w, st1, w1, true) && spec.values.obj.Some?
    requires IsDiff(st1.resources, Render(env, own, spec).value, d)
    ensures var values := Node(spec.values.obj.value);
      FastPath(Reloaded(env.codec, st1), spec, d) <==> Normal(values) && JsonStable(values)
  {
    AppliedRecordsRender(env, own, spec, st, w, st1, w1, true);
    var d0, managed :| AppliedBy(env, own, spec, d0, managed, st, w, st1, w1, true);
    var list := Render(env, own, spec).value;
    FastPathMeans(Reloaded(env.codec, st1), spec, list, d);
    var dict := spec.values.obj.value;
    EqualMeans(Reloaded(env.codec, st1).values.obj, Some(dict));
    if FastPath(st, spec, d0) {
      if st.values.obj == Some(dict) {
        LoadedIsNormal(env.codec, st.values);
      }
    } else {
      StoreKeeps(env.codec, dict);
    }
  }

  /** Otherwise every sync is carried out again. */
  lemma UnsteadyState(env: Env, own: string, spec: Spec, st: Status, w: World, st1: Status, w1: World)
    requires Faithful(env.codec)
    requires st.phase == Installed ==> Reloaded(env.codec, st) == st
    requires Applied(env, own, spec, st, w, st1, w1, true) && spec.values.obj.Some?
    requires !Normal(Node(spec.values.obj.value)) || !JsonStable(Node(spec.values.obj.value))
    ensures Render(env, own, spec).Some?
    ensures forall d | IsDiff(st1.resources, Render(env, own, spec).value, d) ::
              !FastPath(Reloaded(env.codec, st1), spec, d)
  {
    AppliedRecordsRender(env, own, spec, st, w, st1, w1, true);
    forall d | IsDiff(st1.resources, Render(env, own, spec).value, d)
      ensures !FastPath(Reloaded(env.codec, st1), spec, d)
    {
      SteadyState(env, own, spec, st, w, st1, w1, d);
    }
  }

  /** A loaded map is normal and holds no integers. */
  lemma LoadedIsNormal(c: Codec, v: Values)
    requires Faithful(c) && v.obj.Some? && StoreAndLoad(c, v) == v
    ensures Normal(Node(v.obj.value)) && JsonStable(Node(v.obj.value))
  {
    var d := c.decode(MarshalJSON(c, v)).value;
    PruneIsNormal(Node(d));
    PruneKeepsStable(Node(d));
  }

  /** The second reconcile itself: whatever fails or not, nothing changes. */
  lemma SteadyStateKeeps(env: Env, own: string, spec: Spec, st: Status, w: World, st1: Status, w1: World)
    requires Faithful(env.codec)
    requires st.phase == Installed ==> Reloaded(env.codec, st) == st
    requires Applied(env, own, spec, st, w, st1, w1, true) && spec.values.obj.Some?
    requires Normal(Node(spec.values.obj.value)) && JsonStable(Node(spec.values.obj.value))
    ensures forall st2, w2, ok | Applied(env, own, spec, Reloaded(env.codec, st1), w1, st2, w2, ok) ::
              ok && st2 == Reloaded(env.codec, st1) && w2 == w1
  {
    AppliedRecordsRender(env, own, spec, st, w, st1, w1, true);
    forall st2, w2, ok | Applied(env, own, spec, Reloaded(env.codec, st1), w1, st2, w2, ok)
      ensures ok && st2 == Reloaded(env.codec, st1) && w2 == w1
    {
      var d, managed :| AppliedBy(env, own, spec, d, managed, Reloaded(env.codec, st1), w1, st2, w2, ok);
      SteadyState(env, own, spec, st, w, st1, w1, d);
    }
  }
}
