/** Many bundles at once: which can become Installed when reconciles interleave, and that all of them do. */
module Dependencies {
  import opened Trees
  import opened ValuesField
  import opened Ledger
  import opened Native
  import opened Resolve
  import opened Controller

  const MAX_CONCURRENT := 5

  /** A running reconcile: the copy of the bundle it works on, and how far it is. */
  datatype Job = Checking(rec: Rec, next: nat) | Finished(rec: Rec, phase: Phase)

  datatype System = System(recs: map<Key, Rec>, jobs: map<Key, Job>)

  predicate InstalledIn(s: System, k: Key) {
    k in s.recs && s.recs[k].status.phase == Installed
  }

  /** What a read of a dependency may give. Reads of bundles come from a cache that may lag behind: they show
      some state of the past, or fail. Reads of other objects are not predicted. */
  ghost predicate CanSee(past: seq<System>, own: string, dep: Dependency, seen: Seen) {
    seen == Unreadable ||
    if NamesBundle(dep) then
      exists s | s in past ::
        var k := DependencyKey(own, dep);
        seen == if k in s.recs then There(s.recs[k].status.phase) else Gone
    else seen == Gone || seen.There?
  }

  /** Reading the bundle and deciding; finalizer changes are written at once, and that may fail. */
  ghost predicate Starts(past: seq<System>, s: System, s': System, k: Key, rec: Rec) {
    && k !in s.jobs && |s.jobs| < MAX_CONCURRENT
    && (exists p | p in past :: k in p.recs && p.recs[k] == rec)
    && match Decide(rec)
       case AddFinalizer =>
         s' == s || (k in s.recs && s' == s.(recs := s.recs[k := s.recs[k].(finalizer := true)]))
       case DropFinalizer => s' == s || s' == s.(recs := s.recs - {k})
       case Uninstall =>
         exists phase :: (phase == Disabled || phase == Failed) && s' == s.(jobs := s.jobs[k := Finished(rec, phase)])
       case Install => s' == s.(jobs := s.jobs[k := Checking(rec, 0)])
  }

  /** One iteration of the dependency loop. */
  ghost predicate Checks(past: seq<System>, s: System, s': System, k: Key, seen: Seen) {
    && k in s.jobs && s.jobs[k].Checking?
    && var job := s.jobs[k];
       var deps := job.rec.spec.dependencies;
       && job.next < |deps| && CanSee(past, k.namespace, deps[job.next], seen)
       && s' == s.(jobs := s.jobs[k :=
            if ObstacleOf(deps[job.next], seen) == None then job.(next := job.next + 1)
            else Finished(job.rec, Failed)])
  }

  /** Behind the gate: values, download and applier succeed or fail. */
  predicate Applies(s: System, s': System, k: Key, phase: Phase) {
    && k in s.jobs && s.jobs[k].Checking? && s.jobs[k].next == |s.jobs[k].rec.spec.dependencies|
    && (phase == Installed || phase == Failed)
    && s' == s.(jobs := s.jobs[k := Finished(s.jobs[k].rec, phase)])
  }

  /** Writing the status, which may fail. */
  predicate Writes(s: System, s': System, k: Key) {
    && k in s.jobs && s.jobs[k].Finished?
    && (|| s' == s.(jobs := s.jobs - {k})
        || (k in s.recs && s' == System(
              s.recs[k := s.recs[k].(status := s.recs[k].status.(phase := s.jobs[k].phase))], s.jobs - {k})))
  }

  /** A user creates a bundle, perhaps again under a name that was there before. */
  predicate Creates(specs: map<Key, Spec>, s: System, s': System, k: Key) {
    && k !in s.recs && k in specs
    && s' == s.(recs := s.recs[k := Rec(false, false, specs[k], Status(Unset, [], NO_VALUES, "", ""))])
  }

  predicate AsksDeletion(s: System, s': System, k: Key) {
    k in s.recs && s' == s.(recs := s.recs[k := s.recs[k].(deleting := true)])
  }

  /** The controller restarts and forgets its running reconciles. */
  predicate Restarts(s: System, s': System) {
    s' == s.(jobs := map[])
  }

  datatype Event =
    | Restart
    | Creation(k: Key)
    | Deletion(k: Key)
    | Start(k: Key, rec: Rec)
    | Check(k: Key, seen: Seen)
    | Apply(k: Key, phase: Phase)
    | Write(k: Key)

  ghost predicate Happens(specs: map<Key, Spec>, past: seq<System>, s: System, s': System, e: Event) {
    match e
    case Restart => Restarts(s, s')
    case Creation(k) => Creates(specs, s, s', k)
    case Deletion(k) => AsksDeletion(s, s', k)
    case Start(k, rec) => Starts(past, s, s', k, rec)
    case Check(k, seen) => Checks(past, s, s', k, seen)
    case Apply(k, phase) => Applies(s, s', k, phase)
    case Write(k) => Writes(s, s', k)
  }

  /** A step of the system; `past` holds all its states up to the present one, `s`. */
  ghost predicate Next(specs: map<Key, Spec>, past: seq<System>, s: System, s': System) {
    exists e :: Happens(specs, past, s, s', e)
  }

  /** Runs from a system in which nothing is Installed and nothing is running; every bundle that is there or comes
      later has the given spec. */
  ghost predicate Run(specs: map<Key, Spec>, tr: seq<System>) {
    && tr != [] && tr[0].jobs == map[]
    && (forall k | k in tr[0].recs :: k in specs && tr[0].recs[k].spec == specs[k] && !InstalledIn(tr[0], k))
    && forall i | 0 < i < |tr| :: Next(specs, tr[..i], tr[i - 1], tr[i])
  }

  ghost predicate InstalledBy(tr: seq<System>, i: int, k: Key) {
    exists j | 0 <= j <= i && j < |tr| :: InstalledIn(tr[j], k)
  }

  /** The bundles among the first `n` dependencies were all Installed at some point up to `i`. */
  ghost predicate Met(tr: seq<System>, i: int, k: Key, deps: seq<Dependency>, n: nat) {
    forall m | 0 <= m < n && m < |deps| && NamesBundle(deps[m]) ::
      InstalledBy(tr, i, DependencyKey(k.namespace, deps[m]))
  }

  ghost predicate SpecsFixed(specs: map<Key, Spec>, s: System) {
    && (forall k | k in s.recs :: k in specs && s.recs[k].spec == specs[k])
    && (forall k | k in s.jobs :: k in specs && s.jobs[k].rec.spec == specs[k])
  }

  lemma MetLater(tr: seq<System>, i: int, j: int, k: Key, deps: seq<Dependency>, n: nat)
    requires i <= j && Met(tr, i, k, deps, n)
    ensures Met(tr, j, k, deps, n)
  {
  }

  /** A dependency that passed the check was Installed in the past. */
  lemma PassedMeansInstalled(tr: seq<System>, i: nat, own: string, dep: Dependency, seen: Seen)
    requires 0 < i < |tr| && CanSee(tr[..i], own, dep, seen) && NamesBundle(dep) && ObstacleOf(dep, seen) == None
    ensures InstalledBy(tr, i - 1, DependencyKey(own, dep))
  {
    var s :| s in tr[..i] && var k := DependencyKey(own, dep);
      seen == if k in s.recs then There(s.recs[k].status.phase) else Gone;
    var j :| 0 <= j < i && tr[j] == s;
    assert InstalledIn(tr[j], DependencyKey(own, dep));
  }

  lemma StartKeepsSpecs(specs: map<Key, Spec>, past: seq<System>, s: System, s': System, k: Key, rec: Rec)
    requires Starts(past, s, s', k, rec) && SpecsFixed(specs, s) && forall p | p in past :: SpecsFixed(specs, p)
    ensures SpecsFixed(specs, s')
  {
    assert k in specs && rec.spec == specs[k];
  }

  /** A step leaves specs alone, and a job works on the spec it started with. */
  lemma StepKeepsSpecs(specs: map<Key, Spec>, past: seq<System>, s: System, s': System, e: Event)
    requires Happens(specs, past, s, s', e) && SpecsFixed(specs, s) && forall p | p in past :: SpecsFixed(specs, p)
    ensures SpecsFixed(specs, s')
  {
    match e
    case Restart =>
    case Creation(k) =>
    case Deletion(k) =>
    case Start(k, rec) => StartKeepsSpecs(specs, past, s, s', k, rec);
    case Check(k, seen) =>
    case Apply(k, phase) =>
    case Write(k) =>
  }

  /** What a job has to have seen. */
  ghost predicate JobHonest(tr: seq<System>, i: int, k: Key, deps: seq<Dependency>, job: Job) {
    match job
    case Checking(_, n) => Met(tr, i, k, deps, n)
    case Finished(_, phase) => phase == Installed ==> Met(tr, i, k, deps, |deps|)
  }

  lemma HonestLater(tr: seq<System>, i: int, k: Key, deps: seq<Dependency>, job: Job)
    requires JobHonest(tr, i, k, deps, job)
    ensures JobHonest(tr, i + 1, k, deps, job)
  {
    match job
    case Checking(_, n) => MetLater(tr, i, i + 1, k, deps, n);
    case Finished(_, phase) => if phase == Installed { MetLater(tr, i, i + 1, k, deps, |deps|); }
  }

  /** The jobs a step does not touch are those of the step before; a fresh one has seen nothing. */
  lemma OtherJobs(specs: map<Key, Spec>, past: seq<System>, s: System, s': System, e: Event, k: Key)
    requires Happens(specs, past, s, s', e) && k in s'.jobs && !e.Check? && !e.Apply?
    ensures (k in s.jobs && s'.jobs[k] == s.jobs[k])
         || (s'.jobs[k].Checking? && s'.jobs[k].next == 0)
         || (s'.jobs[k].Finished? && s'.jobs[k].phase != Installed)
  {
    match e
    case Restart =>
    case Creation(_) =>
    case Deletion(_) =>
    case Start(_, _) =>
    case Write(_) =>
  }

  lemma StepKeepsHonest(specs: map<Key, Spec>, tr: seq<System>, i: nat, e: Event, k: Key)
    requires i + 1 < |tr| && Happens(specs, tr[..i + 1], tr[i], tr[i + 1], e) && k in tr[i + 1].jobs
    requires k in specs
    requires k in tr[i].jobs ==> tr[i].jobs[k].rec.spec == specs[k]
    requires k in tr[i].jobs ==> JobHonest(tr, i, k, specs[k].dependencies, tr[i].jobs[k])
    ensures JobHonest(tr, i + 1, k, specs[k].dependencies, tr[i + 1].jobs[k])
  {
    var s, s', deps := tr[i], tr[i + 1], specs[k].dependencies;
    if !e.Check? && !e.Apply? {
      OtherJobs(specs, tr[..i + 1], s, s', e, k);
    }
    if k in s.jobs {
      HonestLater(tr, i, k, deps, s.jobs[k]);
      if s'.jobs[k] != s.jobs[k] && e.Check? {
        var n := s.jobs[k].next;
        if ObstacleOf(deps[n], e.seen) == None && NamesBundle(deps[n]) {
          PassedMeansInstalled(tr, i + 1, k.namespace, deps[n], e.seen);
        }
      }
    }
  }

  lemma {:induction false} RunKeepsSpecs(specs: map<Key, Spec>, tr: seq<System>, i: nat)
    requires Run(specs, tr) && i < |tr|
    ensures forall j | 0 <= j <= i :: SpecsFixed(specs, tr[j])
  {
    if i > 0 {
      RunKeepsSpecs(specs, tr, i - 1);
      var e :| Happens(specs, tr[..i], tr[i - 1], tr[i], e);
      forall s | s in tr[..i] ensures SpecsFixed(specs, s) {
        var j :| 0 <= j < i && tr[j] == s;
      }
      StepKeepsSpecs(specs, tr[..i], tr[i - 1], tr[i], e);
    }
  }

  /** Every job has seen what it needed to get where it is. */
  lemma {:induction false} RunIsHonest(specs: map<Key, Spec>, tr: seq<System>, i: nat, k: Key)
    requires Run(specs, tr) && i < |tr| && k in tr[i].jobs
    ensures k in specs && JobHonest(tr, i, k, specs[k].dependencies, tr[i].jobs[k])
  {
    RunKeepsSpecs(specs, tr, i);
    if i > 0 {
      var e :| Happens(specs, tr[..i], tr[i - 1], tr[i], e);
      if k in tr[i - 1].jobs {
        RunIsHonest(specs, tr, i - 1, k);
      }
      StepKeepsHonest(specs, tr, i - 1, e, k);
    }
  }

  /** Only a finished job makes its bundle Installed. */
  lemma BecomesInstalled(specs: map<Key, Spec>, past: seq<System>, s: System, s': System, e: Event, k: Key)
    requires Happens(specs, past, s, s', e) && InstalledIn(s', k) && !InstalledIn(s, k)
    ensures k in s.jobs && s.jobs[k].Finished? && s.jobs[k].phase == Installed
  {
  }

  lemma {:induction false} InstalledJustNow(specs: map<Key, Spec>, tr: seq<System>, i: nat, k: Key)
    requires Run(specs, tr) && 0 < i < |tr| && InstalledIn(tr[i], k) && !InstalledIn(tr[i - 1], k)
    ensures k in specs && Met(tr, i - 1, k, specs[k].dependencies, |specs[k].dependencies|)
  {
    var e :| Happens(specs, tr[..i], tr[i - 1], tr[i], e);
    BecomesInstalled(specs, tr[..i], tr[i - 1], tr[i], e, k);
    RunIsHonest(specs, tr, i - 1, k);
  }

  /** The last time the bundle became Installed. */
  lemma {:induction false} LastRise(tr: seq<System>, i: nat, k: Key) returns (j: nat)
    requires i < |tr| && InstalledIn(tr[i], k) && !InstalledIn(tr[0], k)
    ensures 0 < j <= i && InstalledIn(tr[j], k) && !InstalledIn(tr[j - 1], k)
  {
    if InstalledIn(tr[i - 1], k) {
      j := LastRise(tr, i - 1, k);
    } else {
      j := i;
    }
  }

  /** In every run, however the reconciles interleave and whatever fails: before a bundle is Installed, every
      bundle it depends on has been Installed. */
  lemma DependenciesComeFirst(specs: map<Key, Spec>, tr: seq<System>, i: nat, k: Key)
    requires Run(specs, tr) && i < |tr| && InstalledIn(tr[i], k)
    ensures k in specs && Met(tr, i - 1, k, specs[k].dependencies, |specs[k].dependencies|)
  {
    var j := LastRise(tr, i, k);
    InstalledJustNow(specs, tr, j, k);
    MetLater(tr, j - 1, i - 1, k, specs[k].dependencies, |specs[k].dependencies|);
  }

  /** The same for one dependency, field by field: it names a bundle if it says so or says nothing of its kind, and
      the bundle is looked for in the namespace it names, else next to the bundle that depends on it. */
  lemma DependencyComesFirst(specs: map<Key, Spec>, tr: seq<System>, i: nat, k: Key, m: nat, target: Dependency)
    requires Run(specs, tr) && i < |tr| && InstalledIn(tr[i], k)
    requires k in specs && m < |specs[k].dependencies| && specs[k].dependencies[m].name != ""
    requires StandsFor(k.namespace, specs[k].dependencies[m], target) && IsBundle(target)
    ensures exists j: nat :: j < i && InstalledIn(tr[j], Key(target.namespace, target.name))
  {
    var dep := specs[k].dependencies[m];
    DependenciesComeFirst(specs, tr, i, k);
    CompletedStandsFor(k.namespace, dep, target);
    assert DependencyKey(k.namespace, dep) == Key(target.namespace, target.name);
    var j: nat :| j <= i - 1 && j < |tr| && InstalledIn(tr[j], DependencyKey(k.namespace, dep));
  }

  ghost predicate DependsOn(specs: map<Key, Spec>, k: Key, d: Key) {
    k in specs && exists m | 0 <= m < |specs[k].dependencies| ::
      NamesBundle(specs[k].dependencies[m]) && DependencyKey(k.namespace, specs[k].dependencies[m]) == d
  }

  /** Every bundle of the set depends on one of the set, which `need` names. */
  ghost predicate Knotted(specs: map<Key, Spec>, knot: set<Key>, need: Key -> Key) {
    forall k {:trigger need(k)} | k in knot :: need(k) in knot && DependsOn(specs, k, need(k))
  }

  lemma DependedOnFirst(specs: map<Key, Spec>, tr: seq<System>, i: nat, k: Key, d: Key) returns (j: nat)
    requires Run(specs, tr) && i < |tr| && InstalledIn(tr[i], k) && DependsOn(specs, k, d)
    ensures j < i && InstalledIn(tr[j], d)
  {
    var m: nat :| m < |specs[k].dependencies| && NamesBundle(specs[k].dependencies[m]) &&
      DependencyKey(k.namespace, specs[k].dependencies[m]) == d;
    DependenciesComeFirst(specs, tr, i, k);
    j :| 0 <= j <= i - 1 && j < |tr| && InstalledIn(tr[j], d);
  }

  /** A set of bundles each of which depends on one of the set: none of them is ever Installed. */
  lemma {:induction false} ClosedSetsStayOut(specs: map<Key, Spec>, tr: seq<System>, i: nat,
                                             knot: set<Key>, need: Key -> Key, k: Key)
    requires Run(specs, tr) && i < |tr| && k in knot && Knotted(specs, knot, need)
    ensures !InstalledIn(tr[i], k)
  {
    if InstalledIn(tr[i], k) {
      var j := DependedOnFirst(specs, tr, i, k, need(k));
      ClosedSetsStayOut(specs, tr, j, knot, need, need(k));
    }
  }

  function Wrap(n: nat, size: nat): nat {
    if n + 1 == size then 0 else n + 1
  }

  /** Each bundle of the sequence depends on the next, and the last on the first. */
  ghost predicate IsCycle(specs: map<Key, Spec>, cycle: seq<Key>) {
    forall n: nat | n < |cycle| :: DependsOn(specs, cycle[n], cycle[Wrap(n, |cycle|)])
  }

  function IndexOf(s: seq<Key>, x: Key): (n: nat)
    requires x in s
    ensures n < |s| && s[n] == x
  {
    if s[0] == x then 0 else 1 + IndexOf(s[1..], x)
  }

  function Following(cycle: seq<Key>): Key -> Key {
    x => if x in cycle then cycle[Wrap(IndexOf(cycle, x), |cycle|)] else x
  }

  lemma CycleIsKnot(specs: map<Key, Spec>, cycle: seq<Key>)
    requires IsCycle(specs, cycle)
    ensures Knotted(specs, (set x | x in cycle), Following(cycle))
  {
  }

  /** No bundle on a cycle of dependencies, itself alone included, is ever Installed. */
  lemma CyclesStayOut(specs: map<Key, Spec>, tr: seq<System>, i: nat, cycle: seq<Key>, k: Key)
    requires Run(specs, tr) && i < |tr| && k in cycle && IsCycle(specs, cycle)
    ensures !InstalledIn(tr[i], k)
  {
    CycleIsKnot(specs, cycle);
    ClosedSetsStayOut(specs, tr, i, (set x | x in cycle), Following(cycle), k);
  }
}
