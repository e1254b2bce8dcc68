/** Single reconciles of one bundle, from the copy it reads to its write: what they do to the status, how deletion
    ends, and how they relate to retries and to the steady state. */
module Reconciles {
  import opened Trees
  import opened ValuesField
  import opened Api
  import opened Ledger
  import opened LedgerLaws
  import opened LedgerGaps
  import opened Native
  import opened Resolve
  import opened Controller
  import opened Retry

  /** With deletion requested and no finalizer left the API server drops the bundle. */
  predicate Released(rec: Rec) {
    rec.deleting && !rec.finalizer
  }

  /** A bundle without a phase or in phase Disabled has recorded nothing. */
  predicate Idle(rec: Rec) {
    rec.status.phase == Disabled || rec.status.phase == Unset ==> rec.status.resources == []
  }

  /** What a reconcile can do to the status of a native bundle. */
  lemma StatusMoves(c: Context, inputs: Inputs, rec: Rec, w: World, rec': Rec, w': World, written: bool)
    requires Reconciled(c, inputs, rec, w, rec', w', written) && IsNative(rec.spec.kind)
    ensures rec'.spec == rec.spec && rec'.deleting == rec.deleting
    ensures rec'.status.phase == Unset ==> rec'.status == rec.status
    ensures rec'.status != rec.status ==> (rec.finalizer || rec.deleting) && rec'.finalizer == rec.finalizer
    ensures rec.finalizer && !rec.deleting ==> rec'.finalizer
    ensures rec'.status.phase == Disabled && rec.status.phase != Disabled ==>
              rec'.status.resources == [] && w'.objs == w.objs - Elements(rec.status.resources)
    ensures rec'.status.phase == Disabled && rec.status.phase == Disabled ==>
              rec'.status.resources == [] || rec'.status == rec.status
  {
    var act := Decide(rec);
    if act == Uninstall || act == Install {
      var st, ok :| SyncedTo(c, inputs, rec, w, st, w', ok) &&
        rec' == if written then rec.(status := Stored(c, st, ok)) else rec;
      if act == Uninstall {
        RemovedClears(c.env.server, rec.status, w, st, w', ok);
      } else if ok {
        AppliedRecordsRender(c.env, c.own, Gate(c, inputs, rec.spec).value, rec.status, w, st, w', ok);
      }
    }
  }

  /** Working on a bundle that is being deleted neither creates nor changes an object, namespaces included. */
  lemma DeletionOnlyRemoves(c: Context, inputs: Inputs, rec: Rec, w: World, st: Status, w': World, ok: bool)
    requires SyncedTo(c, inputs, rec, w, st, w', ok) && rec.deleting
    ensures forall r | r in w'.objs :: r in w.objs && w'.objs[r] == w.objs[r]
  {
    if IsNative(rec.spec.kind) {
      RemovedClears(c.env.server, rec.status, w, st, w', ok);
    }
  }

  // ---------- deletion ----------

  /** Two reconciles whose writes took effect, the second only if the first did not end it. */
  ghost predicate ReconciledTwice(c: Context, inputs: Inputs, again: Inputs, rec: Rec, w: World,
                                  mid: Rec, w1: World, end: Rec, w2: World)
  {
    && Reconciled(c, inputs, rec, w, mid, w1, true)
    && if mid.finalizer then Reconciled(c, again, mid, w1, end, w2, true) else end == mid && w2 == w1
  }

  /** They release a bundle that is being deleted: for every kind, unknown ones too, and whatever removing it
      yields. Only the first works on the cluster. */
  lemma DeletionTerminates(c: Context, inputs: Inputs, again: Inputs, rec: Rec, w: World,
                           mid: Rec, w1: World, end: Rec, w2: World)
    requires rec.deleting && rec.finalizer && ReconciledTwice(c, inputs, again, rec, w, mid, w1, end, w2)
    ensures Released(end) && w2 == w1
  {
    if Decide(rec) == Uninstall {
      var st, ok :| SyncedTo(c, inputs, rec, w, st, w1, ok) && mid == rec.(status := Stored(c, st, ok));
      if ok && IsNative(rec.spec.kind) {
        RemovedClears(c.env.server, rec.status, w, st, w1, ok);
      }
      assert mid.status.phase == Disabled || mid.status.phase == Failed;
    }
  }

  lemma SomeOrder(rs: set<Ref>) returns (order: seq<Ref>)
    ensures Distinct(order) && Elements(order) == rs
  {
    var objs := RemovesExist(rs);
    ElementsRefSeq(objs);
    order := RefSeq(objs);
    forall i, j | 0 <= i < j < |order| ensures order[i] != order[j] {
      assert objs[i] == Bare(objs[i].ref) && objs[j] == Bare(objs[j].ref);
    }
  }

  /** The bundle is released without removing anything, or the i-th call does not reach the server. */
  predicate Spared(c: Context, rec: Rec, w: World, i: nat) {
    rec.status.phase == Failed || c.env.server.fault(w.clock + i) == Lost
  }

  lemma UninstallExactly(c: Context, inputs: Inputs, rec: Rec, w: World, mid: Rec, w1: World)
    returns (order: seq<Ref>)
    requires Decide(rec) == Uninstall && IsNative(rec.spec.kind) && Reconciled(c, inputs, rec, w, mid, w1, true)
    ensures Distinct(order) && Elements(order) == Elements(rec.status.resources)
    ensures forall i | 0 <= i < |order| ::
              order[i] in w1.objs <==> order[i] in w.objs && c.env.server.fault(w.clock + i) == Lost
  {
    var st, ok :| SyncedTo(c, inputs, rec, w, st, w1, ok) && mid == rec.(status := Stored(c, st, ok));
    order := RemovedExactly(c.env.server, rec.status, w, st, w1, ok);
  }

  /** The documentation says that deleting a bundle removes what it installed. With any server: in some order of
      the ledger, the i-th object is still there at the release exactly when it was there and the bundle was in
      phase Failed, which is released without removing anything, or the i-th delete call was lost. */
  lemma DeletionCleansUp(c: Context, inputs: Inputs, again: Inputs, rec: Rec, w: World,
                         mid: Rec, w1: World, end: Rec, w2: World) returns (order: seq<Ref>)
    requires rec.deleting && rec.finalizer && ReconciledTwice(c, inputs, again, rec, w, mid, w1, end, w2)
    requires IsNative(rec.spec.kind) && Idle(rec)
    ensures Distinct(order) && Elements(order) == Elements(rec.status.resources)
    ensures forall i | 0 <= i < |order| :: order[i] in w2.objs <==> order[i] in w.objs && Spared(c, rec, w, i)
  {
    DeletionTerminates(c, inputs, again, rec, w, mid, w1, end, w2);
    if Decide(rec) == Uninstall {
      order := UninstallExactly(c, inputs, rec, w, mid, w1);
    } else {
      order := SomeOrder(Elements(rec.status.resources));
      assert forall i | 0 <= i < |order| :: order[i] in Elements(order);
    }
  }

  /** The same for helm bundles: the release under the bundle's name is still in storage exactly when it was, and
      the phase was Failed or Disabled, or the uninstall was lost. */
  lemma HelmDeletionCleansUp(c: Context, inputs: Inputs, again: Inputs, rec: Rec, w: World,
                             mid: Rec, w1: World, end: Rec, w2: World, key: (string, string))
    requires rec.deleting && rec.finalizer && ReconciledTwice(c, inputs, again, rec, w, mid, w1, end, w2)
    requires rec.spec.kind == "helm" && Chosen(c.own, rec.spec, key.0) && key.1 == c.name
    ensures var phase := rec.status.phase;
      && Released(end)
      && (key in w2.releases
          <==> key in w.releases && (phase == Failed || phase == Disabled || inputs.uninstall == Lost))
      && forall other | other != key :: other in w2.releases <==> other in w.releases
  {
    DeletionTerminates(c, inputs, again, rec, w, mid, w1, end, w2);
  }

  // ---------- installing ----------

  /** A reconcile that gets through the gate is one of the attempts that converge when retried. */
  lemma ReconcileIsAttempt(c: Context, inputs: Inputs, rec: Rec, w: World, rec': Rec, w': World, written: bool,
                           spec: Spec)
    requires Reconciled(c, inputs, rec, w, rec', w', written)
    requires Decide(rec) == Install && IsNative(rec.spec.kind) && Gate(c, inputs, rec.spec) == Some(spec)
    ensures Attempt(c.env, c.own, spec, Saved(rec.status, w), Saved(rec'.status, w'))
  {
    var st, ok :| SyncedTo(c, inputs, rec, w, st, w', ok) &&
      rec' == if written then rec.(status := Stored(c, st, ok)) else rec;
    assert Applied(c.env, c.own, spec, rec.status, w, st, w', ok);
  }

  /** After a reconcile that installed, every next one with the same resolved values leaves the stored bundle
      and the cluster as they are, if these values are in normal form and hold no integers. */
  lemma {:induction false} SecondReconcileIsIdle(c: Context, inputs: Inputs, rec: Rec, w: World,
                                                 rec': Rec, w': World, spec: Spec)
    requires Faithful(c.env.codec)
    requires rec.status.phase == Installed ==> Reloaded(c.env.codec, rec.status) == rec.status
    requires Decide(rec) == Install && IsNative(rec.spec.kind) && Gate(c, inputs, rec.spec) == Some(spec)
    requires Normal(Node(spec.values.obj.value)) && JsonStable(Node(spec.values.obj.value))
    requires Reconciled(c, inputs, rec, w, rec', w', true) && rec'.status.phase == Installed
    ensures forall again, rec'', w'', written
              | Gate(c, again, rec.spec) == Some(spec) && Reconciled(c, again, rec', w', rec'', w'', written) ::
              rec'' == rec' && w'' == w'
  {
    var st := Installation(c, inputs, rec, w, rec', w', spec);
    SteadyStateKeeps(c.env, c.own, spec, rec.status, w, st, w');
    InstalledReloads(c, spec, rec.status, w, st, w');
    forall again, rec'', w'', written
      | Gate(c, again, rec.spec) == Some(spec) && Reconciled(c, again, rec', w', rec'', w'', written)
      ensures rec'' == rec' && w'' == w'
    {
      var st2, ok2 :| SyncedTo(c, again, rec', w', st2, w'', ok2) &&
        rec'' == if written then rec'.(status := Stored(c, st2, ok2)) else rec';
    }
  }

  /** The in-memory status behind a reconcile that stored Installed. */
  lemma Installation(c: Context, inputs: Inputs, rec: Rec, w: World, rec': Rec, w': World, spec: Spec)
    returns (st: Status)
    requires Reconciled(c, inputs, rec, w, rec', w', true)
    requires Decide(rec) == Install && IsNative(rec.spec.kind) && Gate(c, inputs, rec.spec) == Some(spec)
    requires rec'.status.phase == Installed
    ensures Applied(c.env, c.own, spec, rec.status, w, st, w', true)
    ensures rec' == rec.(status := Reloaded(c.env.codec, st)) && Decide(rec') == Install
  {
    var ok;
    st, ok :| SyncedTo(c, inputs, rec, w, st, w', ok) && rec' == rec.(status := Stored(c, st, ok));
  }

  /** The status an installation leaves is loaded the same way every time. */
  lemma InstalledReloads(c: Context, spec: Spec, st: Status, w: World, st1: Status, w1: World)
    requires Faithful(c.env.codec) && Applied(c.env, c.own, spec, st, w, st1, w1, true)
    requires st.phase == Installed ==> Reloaded(c.env.codec, st) == st
    requires spec.values.obj.Some?
    ensures Reloaded(c.env.codec, Reloaded(c.env.codec, st1)) == Reloaded(c.env.codec, st1)
  {
    var d, managed :| AppliedBy(c.env, c.own, spec, d, managed, st, w, st1, w1, true);
    if !FastPath(st, spec, d) {
      assert st1.values.raw != Some("null");
      LoadTwice(c.env.codec, st1.values);
    }
  }

  // ---------- an input on which the steady state is never reached ----------

  /** One ConfigMap with one entry, which `--set` parses to an integer. */
  ghost predicate OneInteger(c: Context, inputs: Inputs, spec: Spec, ref: ValuesFrom, entry: string, text: string,
                             field: string, n: int)
  {
    && spec.valuesFrom == [ref] && IsConfigMap(ref.kind) && spec.values.obj.None? && inputs.reading.reachable(0)
    && Key(c.own, ref.name) in inputs.configs.maps
    && inputs.configs.maps[Key(c.own, ref.name)] == ConfigMap(map[entry := text], map[])
    && c.lib.assign(ref.prefix + entry, text, map[]) == Some(map[field := Leaf(Int(n))])
  }

  lemma OneIntegerResolved(c: Context, inputs: Inputs, spec: Spec, ref: ValuesFrom, entry: string, text: string,
                           field: string, n: int)
    requires OneInteger(c, inputs, spec, ref, entry, text, field, n)
    ensures Resolved(c.lib, inputs.reading, inputs.configs, c.own, spec) == Merged(map[field := Leaf(Int(n))])
  {
    var cm, r := inputs.configs.maps[Key(c.own, ref.name)], inputs.reading;
    var values: Dict := map[field := Leaf(Int(n))];
    KnownKinds();
    assert cm.data.Keys == {entry} && cm.binaryData.Keys == {};
    assert |multiset(r.order(0, {}))| == 0;
    assert |multiset(r.order(1, {entry}))| == 1 && entry in multiset(r.order(1, {entry}));
    assert r.order(1, {entry}) == [entry];
    assert SetAll(c.lib, ref.prefix, cm.data, [entry], map[]) == Merged(values);
    assert ApplyRef(c.lib, r, inputs.configs, c.own, 0, ref, map[]) == Merged(values);
    assert ApplyRefs(c.lib, r, inputs.configs, c.own, [ref], 1, values) == Merged(values);
    MergeIdentity(values);
  }

  lemma OneIntegerGate(c: Context, inputs: Inputs, spec: Spec, ref: ValuesFrom, entry: string, text: string,
                       field: string, n: int)
    requires OneInteger(c, inputs, spec, ref, entry, text, field, n) && Gate(c, inputs, spec).Some?
    ensures var values := Gate(c, inputs, spec).value.values.obj;
      values.Some? && !JsonStable(Node(values.value))
  {
    OneIntegerResolved(c, inputs, spec, ref, entry, text, field, n);
    assert !JsonStable(map[field := Leaf(Int(n))][field]);
  }

  /** Whether the next sync of an installed bundle would be carried out, however it is split. */
  ghost predicate Reapplies(c: Context, rec: Rec, spec: Spec) {
    && Render(c.env, c.own, spec).Some?
    && forall d | IsDiff(rec.status.resources, Render(c.env, c.own, spec).value, d) :: !FastPath(rec.status, spec, d)
  }

  /** However often it was installed and stored: the next reconcile applies everything again. */
  lemma {:induction false} IntegerEntryReapplies(c: Context, inputs: Inputs, rec: Rec, w: World, rec': Rec, w': World,
                              ref: ValuesFrom, entry: string, text: string, field: string, n: int)
    requires Faithful(c.env.codec) && OneInteger(c, inputs, rec.spec, ref, entry, text, field, n)
    requires rec.status.phase == Installed ==> Reloaded(c.env.codec, rec.status) == rec.status
    requires Decide(rec) == Install && IsNative(rec.spec.kind) && Gate(c, inputs, rec.spec).Some?
    requires Reconciled(c, inputs, rec, w, rec', w', true) && rec'.status.phase == Installed
    ensures Reapplies(c, rec', Gate(c, inputs, rec.spec).value)
  {
    var spec := Gate(c, inputs, rec.spec).value;
    OneIntegerGate(c, inputs, rec.spec, ref, entry, text, field, n);
    var st := Installation(c, inputs, rec, w, rec', w', spec);
    UnsteadyState(c.env, c.own, spec, rec.status, w, st, w');
  }
}
