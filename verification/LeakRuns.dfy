/** Runs that end with the bundle released and its objects still in the cluster. */
module LeakRuns {
  import opened Trees
  import opened ValuesField
  import opened Api
  import opened Ledger
  import opened LedgerLaws
  import opened Native
  import opened Resolve
  import opened Controller
  import opened Reconciles
  import opened Lifecycle

  function Last(tr: seq<Life>): Life
    requires tr != []
  {
    tr[|tr| - 1]
  }

  // ---------- building runs ----------

  lemma Extend(c: Context, tr: seq<Life>, b: Life, e: Event)
    requires LifeRun(c, tr) && !Released(Last(tr).rec) && Happens(c, tr, Last(tr), b, e)
    ensures LifeRun(c, tr + [b])
  {
    var longer, n := tr + [b], |tr|;
    forall i: nat | 0 < i < |longer| ensures StepAt(c, longer, i) {
      if i < n {
        assert longer[..i] == tr[..i] && StepAt(c, tr, i);
      } else {
        assert longer[..n] == tr;
      }
    }
  }

  /** The controller reads the bundle as it is. */
  lemma BeginNow(c: Context, tr: seq<Life>) returns (b: Life)
    requires LifeRun(c, tr) && !Released(Last(tr).rec) && Last(tr).job.None?
    ensures b == Last(tr).(job := Some(Begun(Last(tr).rec, Last(tr).version))) && LifeRun(c, tr + [b])
  {
    b := Last(tr).(job := Some(Begun(Last(tr).rec, Last(tr).version)));
    Extend(c, tr, b, Begin(Last(tr)));
  }

  lemma WorkNow(c: Context, tr: seq<Life>, inputs: Inputs, st: Status, w: World, ok: bool) returns (b: Life)
    requires LifeRun(c, tr) && !Released(Last(tr).rec)
    requires Last(tr).job.Some? && Last(tr).job.value.Begun? && Syncs(Last(tr).job.value.copy)
    requires SyncedTo(c, inputs, Last(tr).job.value.copy, Last(tr).w, st, w, ok)
    ensures b == Done(Last(tr), w, inputs, st, ok, true) && LifeRun(c, tr + [b])
  {
    b := Done(Last(tr), w, inputs, st, ok, true);
    assert WorksTo(CutAt(c, None), Last(tr), w, inputs, st, ok);
    Extend(c, tr, b, Work(inputs, None));
  }

  lemma LandNow(c: Context, tr: seq<Life>) returns (b: Life)
    requires LifeRun(c, tr) && !Released(Last(tr).rec)
    requires var a := Last(tr);
      a.job.Some? && Writing(c, a.job.value).Some? && a.job.value.version == a.version
    ensures var a := Last(tr);
      b == Life(Writing(c, a.job.value).value, a.version + 1, a.w, None) && LifeRun(c, tr + [b])
  {
    var a := Last(tr);
    b := Life(Writing(c, a.job.value).value, a.version + 1, a.w, None);
    Extend(c, tr, b, Land);
  }

  /** A reconcile that only changes the finalizer. */
  lemma FinalizerRound(c: Context, tr: seq<Life>, finalizer: bool) returns (more: seq<Life>)
    requires LifeRun(c, tr) && !Released(Last(tr).rec) && Last(tr).job.None?
    requires Decide(Last(tr).rec) == if finalizer then AddFinalizer else DropFinalizer
    ensures LifeRun(c, tr + more) && more != [] && Last(more).job.None?
    ensures Last(more).rec == Last(tr).rec.(finalizer := finalizer) && Last(more).w == Last(tr).w
  {
    var b := BeginNow(c, tr);
    var d := LandNow(c, tr + [b]);
    more := [b, d];
    assert tr + more == tr + [b] + [d];
  }

  /** A reconcile that works on the cluster, nothing interfering. */
  lemma SyncRound(c: Context, tr: seq<Life>, inputs: Inputs, st: Status, w: World, ok: bool) returns (more: seq<Life>)
    requires LifeRun(c, tr) && !Released(Last(tr).rec) && Last(tr).job.None? && Syncs(Last(tr).rec)
    requires SyncedTo(c, inputs, Last(tr).rec, Last(tr).w, st, w, ok)
    ensures LifeRun(c, tr + more) && more != [] && Last(more).job.None?
    ensures Last(more).rec == Last(tr).rec.(status := Stored(c, st, ok)) && Last(more).w == w
  {
    var b := BeginNow(c, tr);
    var d := WorkNow(c, tr + [b], inputs, st, w, ok);
    var e := LandNow(c, tr + [b] + [d]);
    more := [b, d, e];
    assert tr + more == tr + [b] + [d] + [e];
  }

  lemma AskNow(c: Context, tr: seq<Life>) returns (b: Life)
    requires LifeRun(c, tr) && !Released(Last(tr).rec) && !Last(tr).rec.deleting
    ensures b == Last(tr).(rec := Last(tr).rec.(deleting := true), version := Last(tr).version + 1)
    ensures LifeRun(c, tr + [b])
  {
    b := Last(tr).(rec := Last(tr).rec.(deleting := true), version := Last(tr).version + 1);
    Extend(c, tr, b, Ask);
  }

  /** A fresh bundle up to the point where it carries the finalizer. */
  lemma Opening(c: Context, rec: Rec, w: World) returns (tr: seq<Life>)
    requires New(rec)
    ensures LifeRun(c, tr) && tr[0] == Life(rec, 0, w, None) && Last(tr).job.None?
    ensures Last(tr).rec == rec.(finalizer := true) && Last(tr).w == w
  {
    tr := [Life(rec, 0, w, None)];
    var more := FinalizerRound(c, tr, true);
    tr := tr + more;
  }

  // ---------- a first installation ----------

  /** A bundle that renders `list` where nothing fails. */
  ghost predicate Installable(c: Context, inputs: Inputs, rec: Rec, list: seq<Obj>, w: World) {
    && New(rec) && IsNative(rec.spec.kind) && !rec.spec.disabled
    && Gate(c, inputs, rec.spec).Some? && Render(c.env, c.own, Gate(c, inputs, rec.spec).value) == Some(list)
    && Distinct(RefSeq(list)) && Lawful(c.env.server.patch) && FaultFreeFrom(c.env.server, w.clock)
  }

  /** Its first sync puts everything it renders into the cluster. */
  lemma FirstSync(c: Context, inputs: Inputs, rec: Rec, list: seq<Obj>, w: World)
    returns (st: Status, w': World)
    requires Installable(c, inputs, rec, list, w)
    ensures SyncedTo(c, inputs, rec.(finalizer := true), w, st, w', true)
    ensures st.phase == Installed && forall r | r in Refs(list) :: r in st.resources && r in w'.objs
  {
    var spec, ok := Gate(c, inputs, rec.spec).value, true;
    st, w', ok := AppliedTotal(c.env, c.own, spec, rec.status, w);
    AppliedFaultFree(c.env, c.own, spec, rec.status, w, st, w', ok);
    AppliedRecordsRender(c.env, c.own, spec, rec.status, w, st, w', ok);
    var d, managed :| AppliedBy(c.env, c.own, spec, d, managed, rec.status, w, st, w', ok);
    SyncReachesGoal(c.env.server, w, [], list, d, w', managed, ok);
    forall r | r in Refs(list) ensures r in st.resources && r in w'.objs {
      var o :| o in list && o.ref == r;
      GoalHasRender(c.env.server.patch, [], list, w.objs, o);
      assert r in Elements(st.resources);
    }
  }

  // ---------- released in phase Failed ----------

  /** A run up to Installed. */
  lemma InstalledRun(c: Context, inputs: Inputs, rec: Rec, list: seq<Obj>, w: World) returns (tr: seq<Life>)
    requires Installable(c, inputs, rec, list, w)
    ensures LifeRun(c, tr) && tr[0] == Life(rec, 0, w, None) && Last(tr).job.None?
    ensures var a := Last(tr);
      && a.rec.status.phase == Installed && !a.rec.deleting && a.rec.finalizer
      && forall r | r in Refs(list) :: r in a.rec.status.resources && r in a.w.objs
  {
    tr := Opening(c, rec, w);
    var st, w' := FirstSync(c, inputs, rec, list, w);
    var more := SyncRound(c, tr, inputs, st, w', true);
    tr := tr + more;
  }

  /** An edit, and a reconcile whose download fails. */
  lemma FailingRound(c: Context, inputs: Inputs, tr: seq<Life>, edited: Spec) returns (more: seq<Life>)
    requires LifeRun(c, tr) && Last(tr).job.None? && !Last(tr).rec.deleting && Last(tr).rec.finalizer
    requires !edited.disabled
    ensures LifeRun(c, tr + more) && more != [] && Last(more).job.None? && Last(more).w == Last(tr).w
    ensures !Last(more).rec.deleting && Last(more).rec.finalizer && Last(more).rec.status.phase == Failed
  {
    var a := Last(tr);
    var b := a.(rec := a.rec.(spec := edited), version := a.version + 1);
    Extend(c, tr, b, Edit(edited));
    var failed := SyncRound(c, tr + [b], inputs.(downloaded := false), b.rec.status, b.w, false);
    more := [b] + failed;
    assert tr + more == tr + [b] + failed;
  }

  /** Nothing fails but one download, after an edit: the bundle is Installed, becomes Failed, is deleted and
      released, and everything it installed and recorded is left behind. */
  lemma FailedBundleLeaks(c: Context, inputs: Inputs, rec: Rec, list: seq<Obj>, w: World, edited: Spec)
    returns (tr: seq<Life>, i: nat)
    requires Installable(c, inputs, rec, list, w) && !edited.disabled
    ensures LifeRun(c, tr) && tr[0] == Life(rec, 0, w, None)
    ensures i < |tr| && tr[i].rec.status.phase == Installed && !tr[i].rec.deleting
    ensures Released(Last(tr).rec) && Last(tr).w == tr[i].w
    ensures forall r | r in Refs(list) :: r in tr[i].rec.status.resources && r in Last(tr).w.objs
  {
    tr := InstalledRun(c, inputs, rec, list, w);
    i := |tr| - 1;
    var failed := FailingRound(c, inputs, tr, edited);
    assert Last(tr + failed) == Last(failed);
    var rest := Deleted(c, tr + failed);
    tr := tr + failed + rest;
  }

  /** Asking for deletion of a Failed bundle, and its release. */
  lemma Deleted(c: Context, tr: seq<Life>) returns (more: seq<Life>)
    requires LifeRun(c, tr) && Last(tr).job.None? && !Last(tr).rec.deleting
    requires Last(tr).rec.finalizer && Last(tr).rec.status.phase == Failed
    ensures LifeRun(c, tr + more) && more != [] && Released(Last(more).rec) && Last(more).w == Last(tr).w
  {
    var b := AskNow(c, tr);
    var rest := FinalizerRound(c, tr + [b], false);
    more := [b] + rest;
    assert tr + more == tr + [b] + rest;
  }

  // ---------- a reconcile that outlives the request for deletion ----------

  /** Removing a bundle that has recorded nothing. */
  lemma NothingToRemove(c: Context, inputs: Inputs, rec: Rec, w: World)
    requires rec.deleting && IsNative(rec.spec.kind) && rec.status.resources == []
    ensures SyncedTo(c, inputs, rec, w, rec.status.(phase := Disabled), w, true)
  {
    var d := DiffResult([], [], []);
    assert Plan(d) == [];
    assert RemovedBy(c.env.server, d, [], rec.status, w, rec.status.(phase := Disabled), w, true);
  }

  /** With no call failing at all: a reconcile reads the bundle, the user asks for its deletion, and only then the
      reconcile does its work. Everything it renders appears after the request; its write conflicts, so nothing is
      recorded, and the next reconciles release the bundle with all of it left behind. */
  lemma LateWorkLeaks(c: Context, inputs: Inputs, rec: Rec, list: seq<Obj>, w: World)
    returns (tr: seq<Life>, i: nat)
    requires Installable(c, inputs, rec, list, w)
    ensures LifeRun(c, tr) && tr[0] == Life(rec, 0, w, None)
    ensures i < |tr| && tr[i].rec.deleting && tr[i].w == w
    ensures Released(Last(tr).rec) && Last(tr).rec.status.resources == []
    ensures forall r | r in Refs(list) :: r in Last(tr).w.objs
  {
    tr := Opening(c, rec, w);
    var st, w' := FirstSync(c, inputs, rec, list, w);
    var begun := BeginNow(c, tr);
    tr := tr + [begun];
    var asked := AskNow(c, tr);
    tr := tr + [asked];
    i := |tr| - 1;
    var worked := WorkNow(c, tr, inputs, st, w', true);
    var ended := worked.(job := None);
    Extend(c, tr + [worked], ended, End);
    var more := LastRounds(c, inputs, tr + [worked] + [ended]);
    tr := tr + [worked] + [ended] + more;
  }

  ghost predicate Ending(l: Life) {
    && l.job.None? && l.rec.deleting && l.rec.finalizer && IsNative(l.rec.spec.kind) && l.rec.status.resources == []
  }

  lemma RemovalRound(c: Context, inputs: Inputs, tr: seq<Life>) returns (more: seq<Life>)
    requires LifeRun(c, tr) && Ending(Last(tr)) && Last(tr).rec.status.phase == Unset
    ensures LifeRun(c, tr + more) && more != [] && Ending(Last(more))
    ensures Last(more).rec.status.phase == Disabled && Last(more).w == Last(tr).w
  {
    NothingToRemove(c, inputs, Last(tr).rec, Last(tr).w);
    more := SyncRound(c, tr, inputs, Last(tr).rec.status.(phase := Disabled), Last(tr).w, true);
  }

  /** The last reconciles of a bundle that is being deleted and has recorded nothing. */
  lemma LastRounds(c: Context, inputs: Inputs, tr: seq<Life>) returns (more: seq<Life>)
    requires LifeRun(c, tr) && Ending(Last(tr)) && Last(tr).rec.status.phase == Unset
    ensures LifeRun(c, tr + more) && more != [] && Released(Last(more).rec)
    ensures Last(more).w == Last(tr).w && Last(more).rec.status.resources == []
  {
    var removed := RemovalRound(c, inputs, tr);
    assert Last(tr + removed) == Last(removed);
    var dropped := FinalizerRound(c, tr + removed, false);
    more := removed + dropped;
    assert tr + more == tr + removed + dropped;
  }
}
