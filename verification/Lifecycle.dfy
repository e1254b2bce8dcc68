/** Whole runs of one bundle. A reconcile reads the bundle, works on the cluster and writes the bundle back, each at
    its own time; in between users edit the bundle or ask for its deletion, and the controller may crash. */
module Lifecycle {
  import opened Trees
  import opened ValuesField
  import opened Api
  import opened Ledger
  import opened LedgerLaws
  import opened Native
  import opened Resolve
  import opened Controller
  import opened Reconciles

  /** A running reconcile: the copy it read, at which version, and once its work is done what it met and reached. */
  datatype Job =
    | Begun(copy: Rec, version: nat)
    | Worked(copy: Rec, version: nat, inputs: Inputs, before: World, st: Status, ok: bool)

  /** The stored bundle with its resource version, the cluster, and the reconcile that is running: at most one, as
      the work queue hands out a key only once at a time. */
  datatype Life = Life(rec: Rec, version: nat, w: World, job: Option<Job>)

  // ---------- steps ----------

  ghost predicate Edits(a: Life, b: Life, spec: Spec) {
    b == a.(rec := a.rec.(spec := spec), version := a.version + 1)
  }

  ghost predicate AsksDeletion(a: Life, b: Life) {
    !a.rec.deleting && b == a.(rec := a.rec.(deleting := true), version := a.version + 1)
  }

  /** The read comes from a cache: it shows the bundle as it is or as it was at some time before. */
  ghost predicate Begins(past: seq<Life>, a: Life, b: Life, seen: Life) {
    a.job.None? && seen in past && b == a.(job := Some(Begun(seen.rec, seen.version)))
  }

  predicate Syncs(rec: Rec) {
    Decide(rec) == Uninstall || Decide(rec) == Install
  }

  /** From `cut` on, if given, no call gets through: the controller crashed. */
  function CutAt(c: Context, cut: Option<nat>): Context {
    if cut == None then c
    else
      var s := c.env.server;
      c.(env := c.env.(server := s.(fault := (t: nat) => if t < cut.value then s.fault(t) else Lost)))
  }

  /** The work on the cluster, which never looks at the stored bundle again. A crash in the middle ends the job. */
  ghost predicate Works(c: Context, a: Life, b: Life, inputs: Inputs, cut: Option<nat>) {
    && a.job.Some? && a.job.value.Begun? && Syncs(a.job.value.copy)
    && exists st, ok ::
         WorksTo(CutAt(c, cut), a, b.w, inputs, st, ok) && b == Done(a, b.w, inputs, st, ok, cut == None)
  }

  ghost predicate WorksTo(c: Context, a: Life, w: World, inputs: Inputs, st: Status, ok: bool)
    requires a.job.Some?
  {
    SyncedTo(c, inputs, a.job.value.copy, a.w, st, w, ok)
  }

  function Done(a: Life, w: World, inputs: Inputs, st: Status, ok: bool, alive: bool): Life
    requires a.job.Some?
  {
    var job := Worked(a.job.value.copy, a.job.value.version, inputs, a.w, st, ok);
    a.(w := w, job := if alive then Some(job) else None)
  }

  /** What a job is going to write, if anything. */
  function Writing(c: Context, job: Job): Option<Rec> {
    match job
    case Begun(copy, _) =>
      if Decide(copy) == AddFinalizer then Some(copy.(finalizer := true))
      else if Decide(copy) == DropFinalizer then Some(copy.(finalizer := false))
      else None
    case Worked(copy, _, _, _, st, ok) => Some(copy.(status := Stored(c, st, ok)))
  }

  /** A write of the whole bundle that takes effect: the version is still the one that was read. */
  ghost predicate WriteLands(c: Context, a: Life, b: Life) {
    && a.job.Some? && Writing(c, a.job.value).Some? && a.job.value.version == a.version
    && b == Life(Writing(c, a.job.value).value, a.version + 1, a.w, None)
  }

  /** A conflict, a failed write, or a crash outside the work. */
  ghost predicate Ends(a: Life, b: Life) {
    b == a.(job := None)
  }

  datatype Event = Edit(spec: Spec) | Ask | Begin(seen: Life) | Work(inputs: Inputs, cut: Option<nat>) | Land | End

  ghost predicate Happens(c: Context, past: seq<Life>, a: Life, b: Life, e: Event) {
    match e
    case Edit(spec) => Edits(a, b, spec)
    case Ask => AsksDeletion(a, b)
    case Begin(seen) => Begins(past, a, b, seen)
    case Work(inputs, cut) => Works(c, a, b, inputs, cut)
    case Land => WriteLands(c, a, b)
    case End => Ends(a, b)
  }

  /** A step; `past` holds all states up to the present one, `a`. Nothing follows the release. */
  ghost predicate Next(c: Context, past: seq<Life>, a: Life, b: Life) {
    !Released(a.rec) && exists e :: Happens(c, past, a, b, e)
  }

  ghost predicate StepAt(c: Context, tr: seq<Life>, i: nat)
    requires 0 < i < |tr|
  {
    Next(c, tr[..i], tr[i - 1], tr[i])
  }

  /** A bundle as a user creates it. */
  predicate New(rec: Rec) {
    !rec.deleting && !rec.finalizer && rec.status == Status(Unset, [], NO_VALUES, "", "")
  }

  ghost predicate LifeRun(c: Context, tr: seq<Life>) {
    tr != [] && New(tr[0].rec) && tr[0].job.None? && forall i: nat | 0 < i < |tr| :: StepAt(c, tr, i)
  }

  // ---------- versions and jobs ----------

  /** The version tells what was stored. */
  lemma {:induction false} VersionsTell(c: Context, tr: seq<Life>, i: nat, j: nat)
    requires LifeRun(c, tr) && i <= j < |tr|
    ensures tr[i].version <= tr[j].version
    ensures tr[i].version == tr[j].version ==> tr[i].rec == tr[j].rec
    decreases j - i
  {
    if i < j {
      VersionsTell(c, tr, i, j - 1);
      assert StepAt(c, tr, j);
    }
  }

  /** A job works on the bundle as it was at some time. */
  ghost predicate CopyOf(tr: seq<Life>, i: int, job: Job) {
    exists m | 0 <= m <= i && m < |tr| :: tr[m].rec == job.copy && tr[m].version == job.version
  }

  lemma {:induction false} JobsCopy(c: Context, tr: seq<Life>, i: nat)
    requires LifeRun(c, tr) && i < |tr| && tr[i].job.Some?
    ensures CopyOf(tr, i, tr[i].job.value)
  {
    assert i > 0;
    assert StepAt(c, tr, i);
    var e :| Happens(c, tr[..i], tr[i - 1], tr[i], e);
    if e.Begin? {
      var m :| 0 <= m < i && tr[m] == e.seen;
    } else {
      JobsCopy(c, tr, i - 1);
    }
  }

  /** So a write lands only on the bundle that was read. */
  lemma LandsOnCopy(c: Context, tr: seq<Life>, i: nat)
    requires LifeRun(c, tr) && i < |tr| && tr[i].job.Some? && tr[i].job.value.version == tr[i].version
    ensures tr[i].job.value.copy == tr[i].rec
  {
    JobsCopy(c, tr, i);
    var m :| 0 <= m <= i && tr[m].rec == tr[i].job.value.copy && tr[m].version == tr[i].job.value.version;
    VersionsTell(c, tr, m, i);
  }

  /** What a job that is done with its work has done: nothing has touched the cluster since. */
  ghost predicate Honest(c: Context, a: Life) {
    a.job.Some? && a.job.value.Worked? ==>
      var job := a.job.value;
      Syncs(job.copy) && SyncedTo(c, job.inputs, job.copy, job.before, job.st, a.w, job.ok)
  }

  lemma {:induction false} JobsAreHonest(c: Context, tr: seq<Life>, i: nat)
    requires LifeRun(c, tr) && i < |tr|
    ensures Honest(c, tr[i])
  {
    if i > 0 {
      JobsAreHonest(c, tr, i - 1);
      assert StepAt(c, tr, i);
      var e :| Happens(c, tr[..i], tr[i - 1], tr[i], e);
      if e.Work? {
        var st, ok :| WorksTo(CutAt(c, e.cut), tr[i - 1], tr[i].w, e.inputs, st, ok) &&
          tr[i] == Done(tr[i - 1], tr[i].w, e.inputs, st, ok, e.cut == None);
      }
    }
  }

  /** In every run a write that lands completes a reconcile of the stored bundle as the atomic relation describes
      it, whatever users tried in between. */
  lemma LandedIsReconciled(c: Context, tr: seq<Life>, i: nat, inputs: Inputs)
    requires LifeRun(c, tr) && i + 1 < |tr| && WriteLands(c, tr[i], tr[i + 1])
    ensures var job := tr[i].job.value;
      if job.Worked? then Reconciled(c, job.inputs, tr[i].rec, job.before, tr[i + 1].rec, tr[i + 1].w, true)
      else Reconciled(c, inputs, tr[i].rec, tr[i].w, tr[i + 1].rec, tr[i + 1].w, true)
  {
    LandsOnCopy(c, tr, i);
    JobsAreHonest(c, tr, i);
  }

  // ---------- invariants over runs ----------

  /** A bundle with a phase that is not being deleted carries the finalizer. */
  predicate Guarded(rec: Rec) {
    !rec.deleting && rec.status.phase != Unset ==> rec.finalizer
  }

  ghost predicate NativeUpTo(tr: seq<Life>, i: int) {
    forall j | 0 <= j <= i && j < |tr| :: IsNative(tr[j].rec.spec.kind)
  }

  /** A landing write in terms of the reconcile it completes. */
  lemma LandingMoves(c: Context, tr: seq<Life>, i: nat)
    requires LifeRun(c, tr) && i + 1 < |tr| && WriteLands(c, tr[i], tr[i + 1])
    ensures var a, b := tr[i].rec, tr[i + 1].rec;
      && b.spec == a.spec && b.deleting == a.deleting
      && (Guarded(a) ==> Guarded(b))
      && (IsNative(a.spec.kind) && Idle(a) ==> Idle(b))
      && (IsNative(a.spec.kind) && b.status.phase == Disabled && a.status.phase != Disabled ==>
            b.status.resources == [] && forall r | r in a.status.resources :: r !in tr[i + 1].w.objs)
  {
    var a, b, job := tr[i], tr[i + 1], tr[i].job.value;
    LandsOnCopy(c, tr, i);
    JobsAreHonest(c, tr, i);
    if IsNative(a.rec.spec.kind) && job.Worked? {
      StatusMoves(c, job.inputs, a.rec, job.before, b.rec, b.w, true);
      assert forall r | r in a.rec.status.resources :: r in Elements(a.rec.status.resources);
    }
  }

  /** At every point of every run: a bundle of any kind with a phase that is not being deleted carries the
      finalizer; and as long as a run keeps to native kinds, a Disabled bundle records nothing. */
  lemma {:induction false} RunIsSound(c: Context, tr: seq<Life>, i: nat)
    requires LifeRun(c, tr) && i < |tr|
    ensures Guarded(tr[i].rec)
    ensures NativeUpTo(tr, i) ==> Idle(tr[i].rec)
  {
    if i > 0 {
      RunIsSound(c, tr, i - 1);
      assert StepAt(c, tr, i);
      var e :| Happens(c, tr[..i], tr[i - 1], tr[i], e);
      if e.Land? {
        LandingMoves(c, tr, i - 1);
      }
    }
  }

  /** Whenever a native bundle enters Disabled, everything recorded before that step is out of the cluster. */
  lemma EnteringDisabledCleans(c: Context, tr: seq<Life>, i: nat, r: Ref)
    requires LifeRun(c, tr) && i + 1 < |tr| && IsNative(tr[i].rec.spec.kind)
    requires tr[i].rec.status.phase != Disabled && tr[i + 1].rec.status.phase == Disabled
    requires r in tr[i].rec.status.resources
    ensures r !in tr[i + 1].w.objs && tr[i + 1].rec.status.resources == []
  {
    assert StepAt(c, tr, i + 1);
    var e :| Happens(c, tr[..i + 1], tr[i], tr[i + 1], e);
    assert e.Land?;
    LandingMoves(c, tr, i);
  }

  // ---------- after the request for deletion ----------

  lemma {:induction false} StaysDeleting(c: Context, tr: seq<Life>, i: nat, j: nat)
    requires LifeRun(c, tr) && i <= j < |tr| && tr[i].rec.deleting
    ensures tr[j].rec.deleting
    decreases j - i
  {
    if i < j {
      StaysDeleting(c, tr, i, j - 1);
      assert StepAt(c, tr, j);
      var e :| Happens(c, tr[..j], tr[j - 1], tr[j], e);
      if e.Land? {
        LandingMoves(c, tr, j - 1);
      }
    }
  }

  /** A job that does not know of the request works on a version from before it. */
  lemma UnawareIsOld(c: Context, tr: seq<Life>, i: nat, n: nat)
    requires LifeRun(c, tr) && i <= n < |tr| && tr[i].rec.deleting
    requires tr[n].job.Some? && !tr[n].job.value.copy.deleting
    ensures tr[n].job.value.version < tr[i].version
  {
    JobsCopy(c, tr, n);
    var m :| 0 <= m <= n && tr[m].rec == tr[n].job.value.copy && tr[m].version == tr[n].job.value.version;
    if m < i {
      VersionsTell(c, tr, m, i);
    } else {
      StaysDeleting(c, tr, i, m);
    }
  }

  /** At `n` a job works on the cluster with a copy of a version older than `version`. */
  predicate WorksOnOld(tr: seq<Life>, n: int, version: nat) {
    && 0 <= n < |tr| - 1 && tr[n].job.Some? && tr[n].job.value.Begun?
    && !tr[n].job.value.copy.deleting && tr[n].job.value.version < version
    && tr[n + 1].w.objs != tr[n].w.objs
  }

  /** One step after the request. */
  lemma StepRemovesOnly(c: Context, tr: seq<Life>, i: nat, n: nat, r: Ref)
    requires LifeRun(c, tr) && i <= n && n + 1 < |tr| && tr[i].rec.deleting
    requires r in tr[n + 1].w.objs && !WorksOnOld(tr, n, tr[i].version)
    ensures r in tr[n].w.objs && tr[n + 1].w.objs[r] == tr[n].w.objs[r]
  {
    assert StepAt(c, tr, n + 1);
    var a, b := tr[n], tr[n + 1];
    var e :| Happens(c, tr[..n + 1], a, b, e);
    if e.Work? {
      var st, ok :| WorksTo(CutAt(c, e.cut), a, b.w, e.inputs, st, ok) &&
        b == Done(a, b.w, e.inputs, st, ok, e.cut == None);
      if a.job.value.copy.deleting {
        DeletionOnlyRemoves(CutAt(c, e.cut), e.inputs, a.job.value.copy, a.w, st, b.w, ok);
      } else {
        UnawareIsOld(c, tr, i, n);
      }
    }
  }

  /** From the request for deletion on, for bundles of every kind, a run creates and changes no object, unless a
      reconcile that read the bundle as it was before the request does its work after it. */
  lemma {:induction false} NothingComesBack(c: Context, tr: seq<Life>, i: nat, j: nat, r: Ref)
    requires LifeRun(c, tr) && i <= j < |tr| && tr[i].rec.deleting && r in tr[j].w.objs
    ensures (r in tr[i].w.objs && tr[j].w.objs[r] == tr[i].w.objs[r])
         || exists n :: i <= n < j && WorksOnOld(tr, n, tr[i].version)
    decreases j - i
  {
    if i < j && !WorksOnOld(tr, j - 1, tr[i].version) {
      StepRemovesOnly(c, tr, i, j - 1, r);
      NothingComesBack(c, tr, i, j - 1, r);
    }
  }

  // ---------- what is recorded of what exists ----------

  /** At `n` the write of a successful installation lands whose render contains `r`. */
  ghost predicate RecordsAt(c: Context, tr: seq<Life>, n: int, r: Ref) {
    && 0 <= n < |tr| - 1 && WriteLands(c, tr[n], tr[n + 1])
    && tr[n].job.value.Worked? && tr[n].job.value.ok && Decide(tr[n].job.value.copy) == Install
    && Wants(c, tr[n].job.value.inputs, tr[n].job.value.copy.spec, r)
  }

  ghost predicate Wants(c: Context, inputs: Inputs, spec: Spec, r: Ref) {
    && Gate(c, inputs, spec).Some? && Render(c.env, c.own, Gate(c, inputs, spec).value).Some?
    && r in Refs(Render(c.env, c.own, Gate(c, inputs, spec).value).value)
  }

  /** What a native reconcile does to the record of an object that exists when it is done. */
  lemma RecordMoves(c: Context, inputs: Inputs, rec: Rec, w: World, st: Status, w': World, ok: bool, r: Ref)
    requires SyncedTo(c, inputs, rec, w, st, w', ok) && Syncs(rec) && IsNative(rec.spec.kind) && r in w'.objs
    ensures r in st.resources
        <==> r in rec.status.resources || (ok && Decide(rec) == Install && Wants(c, inputs, rec.spec, r))
  {
    if Decide(rec) == Uninstall {
      RemovedClears(c.env.server, rec.status, w, st, w', ok);
      assert r in Elements(rec.status.resources) <==> r in rec.status.resources;
    } else if Gate(c, inputs, rec.spec).Some? {
      var spec := Gate(c, inputs, rec.spec).value;
      if Render(c.env, c.own, spec).Some? {
        AppliedRecord(c.env, c.own, spec, rec.status, w, st, w', ok, r);
      }
    }
  }

  lemma AppliedRecord(env: Env, own: string, spec: Spec, st: Status, w: World, st': Status, w': World, ok: bool, r: Ref)
    requires Applied(env, own, spec, st, w, st', w', ok) && Render(env, own, spec).Some? && r in w'.objs
    ensures r in st'.resources <==> r in st.resources || (ok && r in Refs(Render(env, own, spec).value))
  {
    var list := Render(env, own, spec).value;
    var d, managed :| AppliedBy(env, own, spec, d, managed, st, w, st', w', ok);
    if ok {
      AppliedRecordsRender(env, own, spec, st, w, st', w', ok);
      assert r in Elements(st'.resources) <==> r in st'.resources;
      if r in st.resources && r !in st'.resources {
        LedgerDropsOnlyAbsent(env.server, w, st.resources, list, d, w', managed, ok, r);
      }
    }
  }

  /** One step of a native run at an object that exists after it. */
  lemma RecordStep(c: Context, tr: seq<Life>, n: nat, r: Ref)
    requires LifeRun(c, tr) && n + 1 < |tr| && IsNative(tr[n].rec.spec.kind) && r in tr[n + 1].w.objs
    ensures r in tr[n + 1].rec.status.resources <==> r in tr[n].rec.status.resources || RecordsAt(c, tr, n, r)
  {
    assert StepAt(c, tr, n + 1);
    var a, b := tr[n], tr[n + 1];
    var e :| Happens(c, tr[..n + 1], a, b, e);
    if e.Land? {
      LandsOnCopy(c, tr, n);
      JobsAreHonest(c, tr, n);
      if a.job.value.Worked? {
        var job := a.job.value;
        RecordMoves(c, job.inputs, a.rec, job.before, job.st, a.w, job.ok, r);
      }
    } else {
      assert b.rec.status == a.rec.status;
    }
  }

  ghost predicate RecordsWithin(c: Context, tr: seq<Life>, m: int, j: int, r: Ref) {
    exists n :: m <= n < j && RecordsAt(c, tr, n, r)
  }

  /** Recorded at `j` exactly if recorded at `m` or by an installation since. */
  ghost predicate Accounted(c: Context, tr: seq<Life>, m: int, j: int, r: Ref)
    requires 0 <= m <= j < |tr|
  {
    r in tr[j].rec.status.resources <==> r in tr[m].rec.status.resources || RecordsWithin(c, tr, m, j, r)
  }

  lemma StaysAccounted(c: Context, tr: seq<Life>, m: nat, j: nat, r: Ref)
    requires m <= j && j + 1 < |tr| && Accounted(c, tr, m, j, r)
    requires r in tr[j + 1].rec.status.resources <==> r in tr[j].rec.status.resources || RecordsAt(c, tr, j, r)
    ensures Accounted(c, tr, m, j + 1, r)
  {
    if RecordsWithin(c, tr, m, j + 1, r) && !RecordsAt(c, tr, j, r) {
      var n :| m <= n < j + 1 && RecordsAt(c, tr, n, r);
      assert m <= n < j;
    }
  }

  /** The object is in the cluster at every time from `m` to `j`. */
  ghost predicate Exists(tr: seq<Life>, m: int, j: int, r: Ref) {
    forall n | m <= n <= j && 0 <= n < |tr| :: r in tr[n].w.objs
  }

  /** Whether an object that exists from `m` to `j` is recorded at `j`: exactly when it was recorded at `m` already,
      or the write of a successful installation that renders it landed in between. Failed and crashed syncs,
      whatever they created, record nothing; nor does a success whose write is lost. */
  lemma {:induction false} RecordedExactly(c: Context, tr: seq<Life>, m: nat, j: nat, r: Ref)
    requires LifeRun(c, tr) && NativeUpTo(tr, j) && m <= j < |tr|
    requires Exists(tr, m, j, r)
    ensures Accounted(c, tr, m, j, r)
    decreases j - m
  {
    if m < j {
      RecordedExactly(c, tr, m, j - 1, r);
      RecordStep(c, tr, j - 1, r);
      StaysAccounted(c, tr, m, j - 1, r);
    }
  }
}
