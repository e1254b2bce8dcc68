/** What `SyncDiff` achieves under failures: a goal state that no failure moves, reached by any run that
    reports no error, and a ledger that forgets nothing. */
module LedgerLaws {
  import opened Trees
  import opened Api
  import opened Ledger

  type Patcher = (Dict, Dict) -> Dict

  // ---------- the goal of a list of create and apply steps ----------

  predicate Writes(step: Step) {
    match step
    case Make(_) => true
    case Update(o) => !Skipped(o, ON_UPDATE)
    case Drop(_) => false
  }

  /** The content each step list wants written. */
  function Written(steps: seq<Step>): map<Ref, Dict> {
    if steps == [] then map[]
    else
      var rest := Written(steps[1..]);
      if Writes(steps[0]) then rest[steps[0].o.ref := steps[0].o.content] else rest
  }

  /** The namespace an object needs. */
  function HousingOf(r: Ref): set<Ref> {
    if r.namespace == "" then {} else {NamespaceRef(r.namespace)}
  }

  ghost predicate AddsNamespace(objs: map<Ref, Dict>, mid: map<Ref, Dict>, name: string) {
    name != "" && NamespaceRef(name) !in objs && mid == objs[NamespaceRef(name) := map[]]
  }

  /** The namespaces created on the way. */
  function Housing(steps: seq<Step>): set<Ref> {
    set st | st in steps && Writes(st) && st.o.ref.namespace != "" :: NamespaceRef(st.o.ref.namespace)
  }

  function Overlay(patch: Patcher, objs: map<Ref, Dict>, r: Ref, content: Dict): Dict {
    if r in objs then patch(objs[r], content) else content
  }

  /** The contents `writes` overlaid on `objs`, the missing namespaces among `housing` added, `gone` removed. */
  function Outcome(patch: Patcher, writes: map<Ref, Dict>, housing: set<Ref>, gone: set<Ref>,
                   objs: map<Ref, Dict>): map<Ref, Dict>
  {
    map r | r in objs.Keys + writes.Keys + housing && r !in gone ::
      if r in writes then Overlay(patch, objs, r, writes[r]) else if r in objs then objs[r] else map[]
  }

  /** The objects a failure-free run of `steps` followed by the deletion of `gone` leaves, in closed form. */
  function Goal(patch: Patcher, steps: seq<Step>, gone: set<Ref>, objs: map<Ref, Dict>): map<Ref, Dict> {
    Outcome(patch, Written(steps), Housing(steps), gone, objs)
  }

  ghost predicate DistinctSteps(steps: seq<Step>) {
    forall i, j | 0 <= i < j < |steps| :: steps[i].o.ref != steps[j].o.ref
  }

  // ---------- the effect of single calls ----------

  lemma EnsureEffect(s: Server, w: World, name: string)
    ensures var w' := EnsureNamespace(s, w, name);
      && w'.clock >= w.clock
      && (w'.objs == w.objs || AddsNamespace(w.objs, w'.objs, name))
      && (FaultFreeFrom(s, w.clock) && name != "" ==> NamespaceRef(name) in w'.objs)
  {
  }

  lemma ApplyEffect(s: Server, w: World, o: Obj)
    ensures var (w', ok) := ApplyResource(s, w, o);
      && w'.clock >= w.clock
      && (w'.objs == w.objs || w'.objs == w.objs[o.ref := Overlay(s.patch, w.objs, o.ref, o.content)])
      && (ok ==> w'.objs == w.objs[o.ref := Overlay(s.patch, w.objs, o.ref, o.content)] && Housed(w.objs, o.ref))
      && (FaultFreeFrom(s, w.clock) && Housed(w.objs, o.ref) ==> ok)
      && (NeverAmbiguous(s) && !ok ==> w'.objs == w.objs)
  {
  }

  /** A create or apply step either skips, or prepares the namespace and then the object. */
  lemma UpEffect(s: Server, p: Progress, step: Step) returns (mid: map<Ref, Dict>)
    requires !step.Drop?
    ensures var q, o := Do(s, p, step), step.o;
      var after := mid[o.ref := Overlay(s.patch, mid, o.ref, o.content)];
      && q.w.clock >= p.w.clock && (p.failed ==> q.failed)
      && (!q.failed ==> q.managed == p.managed + [o.ref])
      && (!Writes(step) ==> q.w == p.w && q.failed == p.failed && mid == p.w.objs)
      && (mid == p.w.objs
          || (Writes(step) && AddsNamespace(p.w.objs, mid, o.ref.namespace)))
      && (q.w.objs == mid || (Writes(step) && q.w.objs == after))
      && (Writes(step) && !q.failed ==> q.w.objs == after)
      && (Writes(step) && !q.failed ==> Housed(mid, o.ref))
      && (FaultFreeFrom(s, p.w.clock) ==> q.failed == p.failed)
      && (NeverAmbiguous(s) && o.ref !in q.managed ==> q.w.objs == mid)
  {
    if Writes(step) {
      var w := EnsureNamespace(s, p.w, step.o.ref.namespace);
      EnsureEffect(s, p.w, step.o.ref.namespace);
      ApplyEffect(s, w, step.o);
      mid := w.objs;
    } else {
      mid := p.w.objs;
    }
  }

  // ---------- no step moves the goal ----------

  lemma {:induction false} WrittenAt(steps: seq<Step>, step: Step)
    requires DistinctSteps(steps) && step in steps && Writes(step)
    ensures step.o.ref in Written(steps) && Written(steps)[step.o.ref] == step.o.content
  {
    if step != steps[0] {
      assert steps == [steps[0]] + steps[1..];
      WrittenAt(steps[1..], step);
    }
  }

  lemma {:induction false} NotWritten(steps: seq<Step>, r: Ref)
    requires forall st | st in steps :: st.o.ref != r
    ensures r !in Written(steps)
  {
    if steps != [] {
      NotWritten(steps[1..], r);
    }
  }

  /** Executed or not, failed or not: a step of the plan leaves the goal where it was. */
  lemma StepKeepsGoal(s: Server, p: Progress, steps: seq<Step>, gone: set<Ref>, step: Step)
    requires Lawful(s.patch) && DistinctSteps(steps)
    requires if step.Drop? then step.o.ref in gone else step in steps
    ensures Goal(s.patch, steps, gone, Do(s, p, step).w.objs) == Goal(s.patch, steps, gone, p.w.objs)
  {
    if !step.Drop? {
      var mid := UpEffect(s, p, step);
      var w := Written(steps);
      if Writes(step) {
        WrittenAt(steps, step);
        if mid != p.w.objs {
          assert NamespaceRef(step.o.ref.namespace) in Housing(steps);
          BareKeepsGoal(s.patch, steps, gone, p.w.objs, NamespaceRef(step.o.ref.namespace));
        }
        WriteKeepsGoal(s.patch, steps, gone, mid, step.o.ref);
      }
    } else {
      assert Goal(s.patch, steps, gone, p.w.objs - {step.o.ref}) == Goal(s.patch, steps, gone, p.w.objs);
    }
  }

  lemma BareKeepsGoal(patch: Patcher, steps: seq<Step>, gone: set<Ref>, objs: map<Ref, Dict>, r: Ref)
    requires Lawful(patch) && r !in objs && r in Housing(steps)
    ensures Goal(patch, steps, gone, objs[r := map[]]) == Goal(patch, steps, gone, objs)
  {
  }

  lemma WriteKeepsGoal(patch: Patcher, steps: seq<Step>, gone: set<Ref>, objs: map<Ref, Dict>, r: Ref)
    requires Lawful(patch) && r in Written(steps)
    ensures var d := Written(steps)[r];
      Goal(patch, steps, gone, objs[r := Overlay(patch, objs, r, d)]) == Goal(patch, steps, gone, objs)
  {
    var d := Written(steps)[r];
    if r in objs {
      assert patch(patch(objs[r], d), d) == patch(objs[r], d);
    } else {
      assert patch(d, d) == d;
    }
  }

  lemma {:induction false} ExecKeepsGoal(
      s: Server, p: Progress, steps: seq<Step>, gone: set<Ref>, part: seq<Step>)
    requires Lawful(s.patch) && DistinctSteps(steps)
    requires forall st | st in part :: if st.Drop? then st.o.ref in gone else st in steps
    ensures Goal(s.patch, steps, gone, Exec(s, p, part).w.objs) == Goal(s.patch, steps, gone, p.w.objs)
    decreases |part|
  {
    if part != [] {
      StepKeepsGoal(s, p, steps, gone, part[0]);
      ExecKeepsGoal(s, Do(s, p, part[0]), steps, gone, part[1..]);
    }
  }

  // ---------- a run without an error reaches the goal ----------

  lemma {:induction false} FailureIsKept(s: Server, p: Progress, steps: seq<Step>)
    requires p.failed
    ensures Exec(s, p, steps).failed
    decreases |steps|
  {
    if steps != [] {
      FailureIsKept(s, Do(s, p, steps[0]), steps[1..]);
    }
  }

  lemma {:induction false} UpsReachGoal(s: Server, p: Progress, steps: seq<Step>)
    requires Lawful(s.patch) && DistinctSteps(steps) && (forall st | st in steps :: !st.Drop?)
    requires !Exec(s, p, steps).failed
    ensures Exec(s, p, steps).w.objs == Goal(s.patch, steps, {}, p.w.objs)
    decreases |steps|
  {
    if steps != [] {
      var st, rest := steps[0], steps[1..];
      var q := Do(s, p, st);
      if q.failed {
        FailureIsKept(s, q, rest);
      }
      UpsReachGoal(s, q, rest);
      assert steps == [st] + rest;
      OneUp(s, p, st, rest);
    }
  }

  lemma OutcomeConsAt(patch: Patcher, writes: map<Ref, Dict>, housing: set<Ref>, o: Obj,
                      objs: map<Ref, Dict>, mid: map<Ref, Dict>, r: Ref)
    requires Lawful(patch) && o.ref !in writes && Housed(mid, o.ref)
    requires mid == objs || AddsNamespace(objs, mid, o.ref.namespace)
    ensures var a := Outcome(patch, writes, housing, {}, mid[o.ref := Overlay(patch, mid, o.ref, o.content)]);
      var b := Outcome(patch, writes[o.ref := o.content], housing + HousingOf(o.ref), {}, objs);
      (r in a <==> r in b) && (r in a ==> a[r] == b[r])
  {
    if r in writes {
      assert patch(map[], writes[r]) == writes[r];
    }
  }

  /** Writing one object and then aiming for the rest is aiming for all of it. */
  lemma OutcomeCons(patch: Patcher, writes: map<Ref, Dict>, housing: set<Ref>, o: Obj,
                    objs: map<Ref, Dict>, mid: map<Ref, Dict>)
    requires Lawful(patch) && o.ref !in writes && Housed(mid, o.ref)
    requires mid == objs || AddsNamespace(objs, mid, o.ref.namespace)
    ensures Outcome(patch, writes, housing, {}, mid[o.ref := Overlay(patch, mid, o.ref, o.content)])
      == Outcome(patch, writes[o.ref := o.content], housing + HousingOf(o.ref), {}, objs)
  {
    var a := Outcome(patch, writes, housing, {}, mid[o.ref := Overlay(patch, mid, o.ref, o.content)]);
    var b := Outcome(patch, writes[o.ref := o.content], housing + HousingOf(o.ref), {}, objs);
    forall r ensures (r in a <==> r in b) && (r in a ==> a[r] == b[r]) {
      OutcomeConsAt(patch, writes, housing, o, objs, mid, r);
    }
  }

  lemma HousingCons(st: Step, rest: seq<Step>)
    ensures Housing([st] + rest) == Housing(rest) + (if Writes(st) then HousingOf(st.o.ref) else {})
  {
  }

  lemma WrittenOnce(st: Step, rest: seq<Step>)
    requires DistinctSteps([st] + rest)
    ensures st.o.ref !in Written(rest)
  {
    forall other | other in rest ensures other.o.ref != st.o.ref {
      var i :| 0 <= i < |rest| && rest[i] == other;
      assert ([st] + rest)[i + 1] == other && ([st] + rest)[0] == st;
    }
    NotWritten(rest, st.o.ref);
  }

  /** The induction step: one successful create or apply, then the goal of the rest. */
  lemma OneUp(s: Server, p: Progress, st: Step, rest: seq<Step>)
    requires Lawful(s.patch) && !st.Drop? && !Do(s, p, st).failed && DistinctSteps([st] + rest)
    ensures Goal(s.patch, rest, {}, Do(s, p, st).w.objs) == Goal(s.patch, [st] + rest, {}, p.w.objs)
  {
    var mid := UpEffect(s, p, st);
    assert ([st] + rest)[1..] == rest;
    HousingCons(st, rest);
    if Writes(st) {
      WrittenOnce(st, rest);
      OutcomeCons(s.patch, Written(rest), Housing(rest), st.o, p.w.objs, mid);
    }
  }

  /** Deleting: what is not deleted stays recorded; with no error nothing is left. */
  lemma {:induction false} DropsEffect(s: Server, p: Progress, items: seq<Obj>)
    requires forall o | o in items :: !Skipped(o, ON_DELETE)
    ensures var q := Exec(s, p, Drops(items));
      && (forall r | r in q.w.objs :: r in p.w.objs && q.w.objs[r] == p.w.objs[r])
      && (forall r | r in p.w.objs && r !in Refs(items) :: r in q.w.objs)
      && (forall r | r in p.managed :: r in q.managed)
      && (forall r | r in Refs(items) && r !in q.managed :: r !in q.w.objs)
      && (!q.failed ==> q.managed == p.managed && q.w.objs == p.w.objs - Refs(items))
      && (p.failed ==> q.failed)
      && (FaultFreeFrom(s, p.w.clock) ==> q.failed == p.failed)
    decreases |items|
  {
    if items != [] {
      var q := Do(s, p, Drop(items[0]));
      assert Drops(items)[0] == Drop(items[0]) && Drops(items)[1..] == Drops(items[1..]);
      assert items == [items[0]] + items[1..];
      assert Refs(items) == {items[0].ref} + Refs(items[1..]);
      DropsEffect(s, q, items[1..]);
    }
  }

  // ---------- whole runs of SyncDiff ----------

  /** The create and apply steps for a record and a render; the order of removals does not enter. */
  function Ups(managed: seq<Ref>, resources: seq<Obj>): seq<Step> {
    Makes(Pick(managed, resources, true)) + Updates(Pick(managed, resources, false))
  }

  function Gone(managed: seq<Ref>, resources: seq<Obj>): set<Ref> {
    Elements(managed) - Refs(resources)
  }

  /** Where a record and a render want the cluster to go. */
  function SyncGoal(patch: Patcher, managed: seq<Ref>, resources: seq<Obj>, objs: map<Ref, Dict>): map<Ref, Dict> {
    Goal(patch, Ups(managed, resources), Gone(managed, resources), objs)
  }

  function StepRefs(steps: seq<Step>): seq<Ref> {
    seq(|steps|, i requires 0 <= i < |steps| => steps[i].o.ref)
  }

  lemma RunIsUpsThenDrops(s: Server, w: World, managed: seq<Ref>, resources: seq<Obj>, d: DiffResult)
    requires IsDiff(managed, resources, d)
    ensures Run(s, w, d) == Exec(s, Exec(s, Progress(w, [], false), Ups(managed, resources)), Drops(d.removes))
    ensures forall st | st in Ups(managed, resources) :: !st.Drop?
    ensures StepRefs(Ups(managed, resources)) == RefSeq(d.creats) + RefSeq(d.applys)
    ensures forall o | o in d.removes :: !Skipped(o, ON_DELETE)
  {
    RunInParts(s, w, d);
    ExecConcat(s, Progress(w, [], false), Makes(d.creats), Updates(d.applys));
  }

  /** A sequence has no repetition exactly when no element counts twice. */
  lemma {:induction false} DistinctCounts<T>(s: seq<T>)
    ensures Distinct(s) <==> forall x :: multiset(s)[x] <= 1
  {
    if s != [] {
      var rest := s[1..];
      DistinctCounts(rest);
      assert s == [s[0]] + rest;
      assert multiset(s) == multiset{s[0]} + multiset(rest);
      assert forall x :: multiset(rest)[x] <= multiset(s)[x];
      assert forall i | 0 <= i < |rest| :: rest[i] == s[i + 1];
      if Distinct(s) {
        assert Distinct(rest) && s[0] !in rest;
      }
      if forall x :: multiset(s)[x] <= 1 {
        assert multiset(s)[s[0]] <= 1 && s[0] !in multiset(rest);
        forall i, j | 0 <= i < j < |s| ensures s[i] != s[j] {
          assert s[j] == rest[j - 1] && s[j] in multiset(rest);
          if i > 0 {
            assert s[i] == rest[i - 1];
          }
        }
      }
    }
  }

  lemma PickSplitsRefs(managed: seq<Ref>, resources: seq<Obj>)
    ensures var a, b := Pick(managed, resources, true), Pick(managed, resources, false);
      && multiset(RefSeq(a) + RefSeq(b)) == multiset(RefSeq(resources))
      && Refs(a) + Refs(b) == Refs(resources)
  {
    PickInterleaves(managed, resources);
    InterleavesAll(Pick(managed, resources, true), Pick(managed, resources, false), resources);
  }

  lemma DistinctRefsDistinctSteps(steps: seq<Step>)
    requires Distinct(StepRefs(steps))
    ensures DistinctSteps(steps)
  {
    forall i, j | 0 <= i < j < |steps| ensures steps[i].o.ref != steps[j].o.ref {
      assert StepRefs(steps)[i] != StepRefs(steps)[j];
    }
  }

  lemma SameDistinct(a: seq<Ref>, b: seq<Ref>)
    requires multiset(a) == multiset(b) && Distinct(a)
    ensures Distinct(b)
  {
    DistinctCounts(a);
    DistinctCounts(b);
  }

  lemma UpsAreDistinct(managed: seq<Ref>, resources: seq<Obj>)
    requires Distinct(RefSeq(resources))
    ensures DistinctSteps(Ups(managed, resources))
  {
    var a, b := Pick(managed, resources, true), Pick(managed, resources, false);
    PickSplitsRefs(managed, resources);
    assert StepRefs(Ups(managed, resources)) == RefSeq(a) + RefSeq(b);
    SameDistinct(RefSeq(resources), RefSeq(a) + RefSeq(b));
    DistinctRefsDistinctSteps(Ups(managed, resources));
  }

  /** No attempt, however it fails, moves the goal. */
  lemma SyncKeepsGoal(s: Server, before: World, managed: seq<Ref>, resources: seq<Obj>, d: DiffResult,
                      after: World, ledger: seq<Ref>, ok: bool)
    requires Lawful(s.patch) && Distinct(RefSeq(resources))
    requires IsDiff(managed, resources, d) && Synced(s, before, d, after, ledger, ok)
    ensures SyncGoal(s.patch, managed, resources, after.objs) == SyncGoal(s.patch, managed, resources, before.objs)
  {
    var ups, gone := Ups(managed, resources), Gone(managed, resources);
    var p := Progress(before, [], false);
    UpsAreDistinct(managed, resources);
    RunIsUpsThenDrops(s, before, managed, resources, d);
    ExecKeepsGoal(s, p, ups, gone, ups);
    forall st | st in Drops(d.removes) ensures st.Drop? && st.o.ref in gone {
      assert st.o in d.removes;
    }
    ExecKeepsGoal(s, Exec(s, p, ups), ups, gone, Drops(d.removes));
  }

  // ---------- what the goal means ----------

  lemma {:induction false} PickedEither(managed: seq<Ref>, list: seq<Obj>, o: Obj)
    requires o in list
    ensures o in Pick(managed, list, true) || o in Pick(managed, list, false)
  {
    var n := |list| - 1;
    if o in list[..n] {
      PickedEither(managed, list[..n], o);
    } else {
      assert list == list[..n] + [list[n]];
    }
  }

  lemma StepFor(managed: seq<Ref>, list: seq<Obj>, o: Obj) returns (st: Step)
    requires o in list
    ensures st in Ups(managed, list) && st.o == o && (!Skipped(o, ON_UPDATE) ==> Writes(st))
  {
    var a, b := Pick(managed, list, true), Pick(managed, list, false);
    PickedEither(managed, list, o);
    if i :| 0 <= i < |a| && a[i] == o {
      st := Make(o);
      assert Ups(managed, list)[i] == st;
    } else {
      var j :| 0 <= j < |b| && b[j] == o;
      st := Update(o);
      assert Ups(managed, list)[|a| + j] == st;
    }
  }

  lemma {:induction false} WrittenAreSteps(steps: seq<Step>, r: Ref)
    requires r in Written(steps)
    ensures exists st :: st in steps && st.o.ref == r
  {
    if steps[0].o.ref != r {
      WrittenAreSteps(steps[1..], r);
    }
  }

  /** What is written is rendered, so it is never among what is to be removed. */
  lemma WrittenIsNotGone(managed: seq<Ref>, list: seq<Obj>)
    ensures Written(Ups(managed, list)).Keys !! Gone(managed, list)
  {
    PickFrom(managed, list, true);
    PickFrom(managed, list, false);
    forall r | r in Written(Ups(managed, list)) ensures r in Refs(list) {
      WrittenAreSteps(Ups(managed, list), r);
    }
  }

  /** A rendered object is written, created or patched, unless it is recorded already and asks to be skipped
      on updates. */
  lemma GoalHasRender(patch: Patcher, managed: seq<Ref>, list: seq<Obj>, objs: map<Ref, Dict>, o: Obj)
    requires Distinct(RefSeq(list)) && o in list
    ensures var goal := SyncGoal(patch, managed, list, objs);
      if Skipped(o, ON_UPDATE) && o.ref in managed then
        o.ref !in ImplicitNamespaces(list) ==>
          (o.ref in goal <==> o.ref in objs) && (o.ref in goal ==> goal[o.ref] == objs[o.ref])
      else o.ref in goal && goal[o.ref] == Overlay(patch, objs, o.ref, o.content)
  {
    var ups := Ups(managed, list);
    UpsAreDistinct(managed, list);
    HousingIsImplicit(managed, list);
    var st := StepFor(managed, list, o);
    if Writes(st) {
      WrittenAt(ups, st);
    } else {
      SkippedNotWritten(ups, st);
    }
    MakesAreNew(managed, list, st);
  }

  lemma MakesAreNew(managed: seq<Ref>, list: seq<Obj>, st: Step)
    requires st in Ups(managed, list)
    ensures st.Make? ==> st.o.ref !in managed
    ensures st.Update? && Distinct(RefSeq(list)) ==> st.o.ref in managed
  {
    PickCreates(managed, list);
    if st.Make? {
      assert st.o.ref in Refs(Pick(managed, list, true));
      assert st.o.ref !in Elements(managed);
    } else if Distinct(RefSeq(list)) {
      KnownAreManaged(managed, list, st.o);
    }
  }

  lemma {:induction false} KnownAreManaged(managed: seq<Ref>, list: seq<Obj>, o: Obj)
    requires Distinct(RefSeq(list)) && o in Pick(managed, list, false)
    ensures o.ref in managed
  {
    var n := |list| - 1;
    assert forall i | 0 <= i < |list| :: RefSeq(list)[i] == list[i].ref;
    assert list[n].ref !in Refs(list[..n]);
    if o in Pick(managed, list[..n], false) {
      assert RefSeq(list[..n]) == RefSeq(list)[..n];
      KnownAreManaged(managed, list[..n], o);
    }
  }

  lemma {:induction false} SkippedNotWritten(steps: seq<Step>, st: Step)
    requires DistinctSteps(steps) && st in steps && !Writes(st)
    ensures st.o.ref !in Written(steps)
  {
    var rest := steps[1..];
    assert steps == [steps[0]] + rest;
    if st in rest {
      var i :| 0 <= i < |rest| && rest[i] == st;
      assert steps[0].o.ref != steps[i + 1].o.ref;
      SkippedNotWritten(rest, st);
    } else {
      WrittenOnce(st, rest);
    }
  }

  /** What is recorded and not rendered goes; what is neither, and no namespace needed on the way, stays. */
  lemma GoalElsewhere(patch: Patcher, managed: seq<Ref>, list: seq<Obj>, objs: map<Ref, Dict>, r: Ref)
    requires r !in Refs(list)
    ensures var goal := SyncGoal(patch, managed, list, objs);
      && (r in managed ==> r !in goal)
      && (r !in managed && r in objs ==> r in goal && goal[r] == objs[r])
      && (r !in managed && r in goal ==> r in objs || r in ImplicitNamespaces(list))
  {
    HousingIsImplicit(managed, list);
    PickFrom(managed, list, true);
    PickFrom(managed, list, false);
    if r in Written(Ups(managed, list)) {
      WrittenAreSteps(Ups(managed, list), r);
    }
    assert r in managed ==> r in Elements(managed);
  }

  lemma {:induction false} UpsFaultFree(s: Server, p: Progress, steps: seq<Step>)
    requires forall st | st in steps :: !st.Drop?
    requires FaultFreeFrom(s, p.w.clock) && !p.failed
    ensures !Exec(s, p, steps).failed && FaultFreeFrom(s, Exec(s, p, steps).w.clock)
    decreases |steps|
  {
    if steps != [] {
      var _ := UpEffect(s, p, steps[0]);
      UpsFaultFree(s, Do(s, p, steps[0]), steps[1..]);
    }
  }

  lemma {:induction false} UpsManaged(s: Server, p: Progress, steps: seq<Step>)
    requires forall st | st in steps :: !st.Drop?
    requires !Exec(s, p, steps).failed
    ensures Exec(s, p, steps).managed == p.managed + StepRefs(steps)
    decreases |steps|
  {
    if steps != [] {
      var q := Do(s, p, steps[0]);
      if q.failed {
        FailureIsKept(s, q, steps[1..]);
      }
      var _ := UpEffect(s, p, steps[0]);
      UpsManaged(s, q, steps[1..]);
      assert StepRefs(steps) == [steps[0].o.ref] + StepRefs(steps[1..]);
    }
  }

  /** A run that reports no error has reached the goal. */
  lemma SyncReachesGoal(s: Server, before: World, managed: seq<Ref>, resources: seq<Obj>, d: DiffResult,
                        after: World, ledger: seq<Ref>, ok: bool)
    requires Lawful(s.patch) && Distinct(RefSeq(resources))
    requires IsDiff(managed, resources, d) && Synced(s, before, d, after, ledger, ok) && ok
    ensures after.objs == SyncGoal(s.patch, managed, resources, before.objs)
  {
    var ups, p := Ups(managed, resources), Progress(before, [], false);
    UpsAreDistinct(managed, resources);
    RunIsUpsThenDrops(s, before, managed, resources, d);
    DropsEffect(s, Exec(s, p, ups), d.removes);
    UpsReachGoal(s, p, ups);
  }

  /** Without failures no error is reported. */
  lemma SyncFaultFree(s: Server, before: World, managed: seq<Ref>, resources: seq<Obj>, d: DiffResult,
                      after: World, ledger: seq<Ref>, ok: bool)
    requires FaultFreeFrom(s, before.clock)
    requires IsDiff(managed, resources, d) && Synced(s, before, d, after, ledger, ok)
    ensures ok
  {
    var ups, p := Ups(managed, resources), Progress(before, [], false);
    RunIsUpsThenDrops(s, before, managed, resources, d);
    UpsFaultFree(s, p, ups);
    DropsEffect(s, Exec(s, p, ups), d.removes);
  }

  lemma RunManaged(s: Server, w: World, managed: seq<Ref>, resources: seq<Obj>, d: DiffResult)
    requires IsDiff(managed, resources, d) && !Run(s, w, d).failed
    ensures Run(s, w, d).managed == RefSeq(d.creats) + RefSeq(d.applys)
  {
    var ups, p := Ups(managed, resources), Progress(w, [], false);
    RunIsUpsThenDrops(s, w, managed, resources, d);
    DropsEffect(s, Exec(s, p, ups), d.removes);
    UpsManaged(s, p, ups);
  }

  /** The ledger of a run without an error: every rendered reference as often as rendered, sorted. */
  lemma SyncedLedger(s: Server, before: World, managed: seq<Ref>, resources: seq<Obj>, d: DiffResult,
                     after: World, ledger: seq<Ref>, ok: bool)
    requires IsDiff(managed, resources, d) && Synced(s, before, d, after, ledger, ok) && ok
    ensures multiset(ledger) == multiset(RefSeq(resources)) && Descending(ledger)
    ensures Elements(ledger) == Refs(resources)
  {
    RunManaged(s, before, managed, resources, d);
    PickSplitsRefs(managed, resources);
    assert multiset(ledger) == multiset(Run(s, before, d).managed);
    SameElements(ledger, RefSeq(resources));
    ElementsRefSeq(resources);
  }

  lemma ElementsRefSeq(objs: seq<Obj>)
    ensures Elements(RefSeq(objs)) == Refs(objs)
  {
    forall o | o in objs ensures o.ref in RefSeq(objs) {
      var i :| 0 <= i < |objs| && objs[i] == o;
      assert RefSeq(objs)[i] == o.ref;
    }
  }

  lemma SameElements(a: seq<Ref>, b: seq<Ref>)
    requires multiset(a) == multiset(b)
    ensures Elements(a) == Elements(b)
  {
    forall r ensures r in a <==> r in b {
      assert r in a <==> r in multiset(a);
    }
  }

  // ---------- the ledger forgets nothing ----------

  function ImplicitNamespaces(resources: seq<Obj>): set<Ref> {
    set o | o in resources && o.ref.namespace != "" :: NamespaceRef(o.ref.namespace)
  }

  /** Creates and applies: whatever exists afterwards existed before, or is recorded, or is a namespace. */
  lemma {:induction false} UpsConserve(s: Server, p: Progress, steps: seq<Step>, r: Ref)
    requires NeverAmbiguous(s) && (forall st | st in steps :: !st.Drop?)
    requires r !in Housing(steps)
    ensures var q := Exec(s, p, steps);
      && (r in q.w.objs ==> r in p.w.objs || r in q.managed)
      && (r in p.managed ==> r in q.managed)
    decreases |steps|
  {
    if steps != [] {
      assert steps == [steps[0]] + steps[1..];
      HousingCons(steps[0], steps[1..]);
      var _ := UpEffect(s, p, steps[0]);
      UpsConserve(s, Do(s, p, steps[0]), steps[1..], r);
    }
  }

  lemma {:induction false} AppliesAreRecorded(s: Server, p: Progress, items: seq<Obj>)
    ensures forall r | r in Refs(items) || r in p.managed :: r in Exec(s, p, Updates(items)).managed
    decreases |items|
  {
    if items != [] {
      assert Updates(items)[0] == Update(items[0]) && Updates(items)[1..] == Updates(items[1..]);
      assert items == [items[0]] + items[1..];
      assert Refs(items) == {items[0].ref} + Refs(items[1..]);
      AppliesAreRecorded(s, Do(s, p, Update(items[0])), items[1..]);
    }
  }

  /** Whatever the failures, a reference dropped from the ledger is not in the cluster. */
  lemma LedgerDropsOnlyAbsent(s: Server, before: World, managed: seq<Ref>, resources: seq<Obj>, d: DiffResult,
                              after: World, ledger: seq<Ref>, ok: bool, r: Ref)
    requires IsDiff(managed, resources, d) && Synced(s, before, d, after, ledger, ok)
    requires r in managed && r !in ledger
    ensures r !in after.objs && r !in Refs(resources)
  {
    var p := Exec(s, Progress(before, [], false), Makes(d.creats));
    var q := Exec(s, p, Updates(d.applys));
    RunIsUpsThenDrops(s, before, managed, resources, d);
    RunInParts(s, before, d);
    AppliesAreRecorded(s, p, d.applys);
    DropsEffect(s, q, d.removes);
    SameElements(ledger, Run(s, before, d).managed);
    assert r in Elements(ledger) <==> r in ledger;
    PickSplitsRefs(managed, resources);
    PickCreates(managed, resources);
    assert r in Elements(managed);
    assert r in Elements(Run(s, before, d).managed) <==> r in Run(s, before, d).managed;
  }

  /** If a failed call has no effect and everything rendered that exists was recorded, then everything
      recorded or rendered that exists afterwards is recorded afterwards. */
  lemma LedgerConserved(s: Server, before: World, managed: seq<Ref>, resources: seq<Obj>, d: DiffResult,
                        after: World, ledger: seq<Ref>, ok: bool, r: Ref)
    requires NeverAmbiguous(s)
    requires IsDiff(managed, resources, d) && Synced(s, before, d, after, ledger, ok)
    requires r in before.objs && r in Refs(resources) ==> r in managed
    requires r in managed || r in Refs(resources)
    requires r !in ImplicitNamespaces(resources)
    ensures r in after.objs ==> r in ledger
  {
    if r in managed {
      if r !in ledger {
        LedgerDropsOnlyAbsent(s, before, managed, resources, d, after, ledger, ok, r);
      }
    } else {
      var p, ups := Progress(before, [], false), Ups(managed, resources);
      RunIsUpsThenDrops(s, before, managed, resources, d);
      HousingIsImplicit(managed, resources);
      UpsConserve(s, p, ups, r);
      DropsEffect(s, Exec(s, p, ups), d.removes);
      SameElements(ledger, Run(s, before, d).managed);
      assert r in Elements(ledger) <==> r in ledger;
    }
  }

  lemma {:induction false} PickFrom(managed: seq<Ref>, resources: seq<Obj>, unseen: bool)
    ensures forall o | o in Pick(managed, resources, unseen) :: o in resources
  {
    if resources != [] {
      PickFrom(managed, resources[..|resources| - 1], unseen);
    }
  }

  lemma HousingIsImplicit(managed: seq<Ref>, resources: seq<Obj>)
    ensures Housing(Ups(managed, resources)) <= ImplicitNamespaces(resources)
  {
    PickFrom(managed, resources, true);
    PickFrom(managed, resources, false);
    forall st | st in Ups(managed, resources) ensures st.o in resources {
    }
  }
}
