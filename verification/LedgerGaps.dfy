/** Where the ledger and the skip annotation fall short of what one might expect of them, exactly. */
module LedgerGaps {
  import opened Trees
  import opened Api
  import opened Ledger
  import opened LedgerLaws

  // ---------- steps on other objects ----------

  /** Neither the object of the step nor the namespace it may create. */
  predicate Concerns(st: Step, r: Ref) {
    st.o.ref == r || (!st.Drop? && r in HousingOf(st.o.ref))
  }

  ghost predicate Apart(steps: seq<Step>, r: Ref) {
    forall st | st in steps :: !Concerns(st, r)
  }

  /** Two states of a run agree on an object and on whether it is recorded. */
  ghost predicate SameAt(p: Progress, q: Progress, r: Ref) {
    && (r in q.w.objs <==> r in p.w.objs) && (r in p.w.objs ==> q.w.objs[r] == p.w.objs[r])
    && (r in q.managed <==> r in p.managed)
  }

  lemma DoElsewhere(s: Server, p: Progress, st: Step, r: Ref)
    requires !Concerns(st, r)
    ensures SameAt(p, Do(s, p, st), r)
  {
    assert r in p.managed + [st.o.ref] <==> r in p.managed by {
      assert r !in [st.o.ref];
    }
    if !st.Drop? && Writes(st) {
      EnsureEffect(s, p.w, st.o.ref.namespace);
      ApplyEffect(s, EnsureNamespace(s, p.w, st.o.ref.namespace), st.o);
    }
  }

  /** Steps on other objects neither touch an object nor record it. */
  lemma {:induction false} ExecElsewhere(s: Server, p: Progress, steps: seq<Step>, r: Ref)
    requires Apart(steps, r)
    ensures SameAt(p, Exec(s, p, steps), r)
    decreases |steps|
  {
    if steps != [] {
      DoElsewhere(s, p, steps[0], r);
      ExecElsewhere(s, Do(s, p, steps[0]), steps[1..], r);
    }
  }

  // ---------- objects that are left unrecorded ----------

  /** The create call of `o` takes effect and still reports an error. */
  predicate CreateMisreported(s: Server, w: World, o: Obj) {
    var housed := EnsureNamespace(s, w, o.ref.namespace);
    Housed(housed.objs, o.ref) && s.fault(housed.clock) == Fine && s.fault(housed.clock + 1) == Ambiguous
  }

  /** A create step leaves a new object unrecorded exactly when its create call is misreported. */
  lemma MakeForgets(s: Server, p: Progress, o: Obj)
    requires o.ref !in p.w.objs && o.ref !in p.managed
    ensures var q := Do(s, p, Make(o));
      o.ref in q.w.objs && o.ref !in q.managed <==> CreateMisreported(s, p.w, o)
  {
    EnsureEffect(s, p.w, o.ref.namespace);
  }

  /** The state in which `SyncDiff` turns to the i-th object it creates. */
  function Reaching(s: Server, before: World, d: DiffResult, i: nat): Progress
    requires i < |d.creats|
  {
    Exec(s, Progress(before, [], false), Makes(d.creats)[..i])
  }

  /** A step of a plan, and the steps before and after it. */
  lemma ExecAround(s: Server, p: Progress, plan: seq<Step>, i: nat)
    requires i < |plan|
    ensures Exec(s, p, plan) == Exec(s, Do(s, Exec(s, p, plan[..i]), plan[i]), plan[i + 1..])
  {
    assert plan == plan[..i] + ([plan[i]] + plan[i + 1..]);
    ExecConcat(s, p, plan[..i], [plan[i]] + plan[i + 1..]);
    assert ([plan[i]] + plan[i + 1..])[1..] == plan[i + 1..];
  }

  lemma DropRefs(managed: seq<Ref>, resources: seq<Obj>, d: DiffResult, o: Obj)
    requires IsDiff(managed, resources, d) && o in d.removes
    ensures o.ref !in Refs(resources)
  {
    assert o.ref in Refs(d.removes);
  }

  lemma UpsFrom(managed: seq<Ref>, resources: seq<Obj>)
    ensures forall st | st in Ups(managed, resources) :: st.o in resources
  {
    PickFrom(managed, resources, true);
    PickFrom(managed, resources, false);
  }

  /** Every other step of the plan is about another object. */
  lemma OthersApart(managed: seq<Ref>, resources: seq<Obj>, d: DiffResult, i: nat)
    requires IsDiff(managed, resources, d) && Distinct(RefSeq(resources)) && i < |Ups(managed, resources)|
    requires Ups(managed, resources)[i].o.ref !in ImplicitNamespaces(resources)
    ensures Plan(d) == Ups(managed, resources) + Drops(d.removes)
    ensures Apart(Plan(d)[..i], Plan(d)[i].o.ref) && Apart(Plan(d)[i + 1..], Plan(d)[i].o.ref)
  {
    var ups, r := Ups(managed, resources), Ups(managed, resources)[i].o.ref;
    UpsAreDistinct(managed, resources);
    UpsFrom(managed, resources);
    assert ups[i].o in resources;
    assert Plan(d)[i] == ups[i];
    forall j | 0 <= j < |Plan(d)| && j != i
      ensures !Concerns(Plan(d)[j], r)
    {
      if j < |ups| {
        assert Plan(d)[j] == ups[j] && ups[j].o in resources;
      } else {
        assert Plan(d)[j].o in d.removes;
        DropRefs(managed, resources, d, Plan(d)[j].o);
      }
    }
  }

  lemma SameLedger(s: Server, before: World, d: DiffResult, after: World, ledger: seq<Ref>, ok: bool, r: Ref)
    requires Synced(s, before, d, after, ledger, ok)
    ensures r in ledger <==> r in Run(s, before, d).managed
  {
    SameElements(ledger, Run(s, before, d).managed);
    assert r in Elements(ledger) <==> r in ledger;
    assert r in Elements(Run(s, before, d).managed) <==> r in Run(s, before, d).managed;
  }

  /** Of the new objects a run creates, those stay behind unrecorded whose create call is misreported, and no
      others, whatever else fails. */
  lemma ForgottenExactly(s: Server, before: World, managed: seq<Ref>, resources: seq<Obj>, d: DiffResult,
                         after: World, ledger: seq<Ref>, ok: bool, i: nat)
    requires IsDiff(managed, resources, d) && Synced(s, before, d, after, ledger, ok)
    requires Distinct(RefSeq(resources)) && i < |d.creats|
    requires d.creats[i].ref !in before.objs && d.creats[i].ref !in ImplicitNamespaces(resources)
    ensures d.creats[i].ref in after.objs && d.creats[i].ref !in ledger
        <==> CreateMisreported(s, Reaching(s, before, d, i).w, d.creats[i])
  {
    var o, start := d.creats[i], Progress(before, [], false);
    var p := Reaching(s, before, d, i);
    OthersApart(managed, resources, d, i);
    assert Plan(d)[i] == Make(o) && Plan(d)[..i] == Makes(d.creats)[..i];
    ExecAround(s, start, Plan(d), i);
    ExecElsewhere(s, start, Plan(d)[..i], o.ref);
    MakeForgets(s, p, o);
    ExecElsewhere(s, Do(s, p, Make(o)), Plan(d)[i + 1..], o.ref);
    SameLedger(s, before, d, after, ledger, ok, o.ref);
  }

  /** The smallest case: one object, one misreported create. */
  lemma AmbiguousCreateIsForgotten(o: Obj, patch: Patcher)
    requires o.ref.namespace == ""
    ensures var s := Server(t => if t == 1 then Ambiguous else Fine, patch);
      var p := Run(s, World(map[], {}, 0), DiffResult([o], [], []));
      o.ref in p.w.objs && p.managed == [] && p.failed
  {
    var s := Server(t => if t == 1 then Ambiguous else Fine, patch);
    var p := Progress(World(map[], {}, 0), [], false);
    assert Makes([o]) == [Make(o)];
    assert Makes([o])[1..] == [];
    assert Exec(s, p, Makes([o])) == Do(s, p, Make(o));
  }

  // ---------- updates ----------

  /** A recorded object that is rendered and lists OnUpdate anywhere among its ignore options: whatever fails, a
      sync leaves it as it is, there or not, and keeps it recorded. */
  lemma OnUpdateIsHonoured(s: Server, before: World, managed: seq<Ref>, resources: seq<Obj>, d: DiffResult,
                           after: World, ledger: seq<Ref>, ok: bool, o: Obj)
    requires IsDiff(managed, resources, d) && Synced(s, before, d, after, ledger, ok)
    requires Distinct(RefSeq(resources)) && o in resources && o.ref in managed
    requires "bundle.kubegems.io/ignore-options" in o.annotations
    requires Listed(o.annotations["bundle.kubegems.io/ignore-options"], "OnUpdate")
    requires o.ref !in ImplicitNamespaces(resources)
    ensures o.ref in ledger
    ensures (o.ref in after.objs <==> o.ref in before.objs)
         && (o.ref in before.objs ==> after.objs[o.ref] == before.objs[o.ref])
  {
    SkippedMeans(o, "OnUpdate");
    var st := StepFor(managed, resources, o);
    MakesAreNew(managed, resources, st);
    var i: nat :| i < |Ups(managed, resources)| && Ups(managed, resources)[i] == st;
    OthersApart(managed, resources, d, i);
    var start := Progress(before, [], false);
    var p := Exec(s, start, Plan(d)[..i]);
    ExecAround(s, start, Plan(d), i);
    ExecElsewhere(s, start, Plan(d)[..i], o.ref);
    ExecElsewhere(s, Do(s, p, Update(o)), Plan(d)[i + 1..], o.ref);
    SameLedger(s, before, d, after, ledger, ok, o.ref);
  }

  // ---------- deletions ----------

  /** The loop of deletions honours the annotation: without an error, an object survives exactly when each of
      its entries asks to be skipped. */
  lemma {:induction false} DropsHonourSkips(s: Server, p: Progress, items: seq<Obj>, r: Ref)
    requires !Exec(s, p, Drops(items)).failed
    ensures r in Exec(s, p, Drops(items)).w.objs
        <==> r in p.w.objs && forall o | o in items && o.ref == r :: Skipped(o, ON_DELETE)
    decreases |items|
  {
    if items != [] {
      var q := Do(s, p, Drop(items[0]));
      assert Drops(items)[0] == Drop(items[0]) && Drops(items)[1..] == Drops(items[1..]);
      assert items == [items[0]] + items[1..];
      if q.failed {
        FailureIsKept(s, q, Drops(items[1..]));
      }
      DropsHonourSkips(s, q, items[1..], r);
    }
  }

  /** OnDelete is one of the ignore options. */
  ghost predicate AsksToStay(o: Obj) {
    && "bundle.kubegems.io/ignore-options" in o.annotations
    && Listed(o.annotations["bundle.kubegems.io/ignore-options"], "OnDelete")
  }

  /** For any split at all, not only one that `Diff` computes: after a run without an error, an object that was
      not to be created or applied exists exactly when it did before and is not removed, or is removed only with
      the annotation set. */
  lemma SkipsAreHonoured(s: Server, before: World, d: DiffResult, after: World, ledger: seq<Ref>, ok: bool, r: Ref)
    requires Synced(s, before, d, after, ledger, ok) && ok
    requires Apart(Makes(d.creats) + Updates(d.applys), r)
    ensures r in after.objs
        <==> r in before.objs && forall o | o in d.removes && o.ref == r :: AsksToStay(o)
  {
    forall o | o in d.removes ensures Skipped(o, ON_DELETE) <==> AsksToStay(o) {
      SkippedMeans(o, ON_DELETE);
    }
    var p, ups := Progress(before, [], false), Makes(d.creats) + Updates(d.applys);
    ExecConcat(s, p, ups, Drops(d.removes));
    ExecElsewhere(s, p, ups, r);
    DropsHonourSkips(s, Exec(s, p, ups), d.removes, r);
  }

  /** But `Diff` never yields such an entry, so in a sync the annotation does nothing: an object that is not
      rendered survives exactly when it is not recorded. */
  lemma OnDeleteNeverFires(s: Server, before: World, managed: seq<Ref>, resources: seq<Obj>, d: DiffResult,
                           after: World, ledger: seq<Ref>, ok: bool, r: Ref)
    requires IsDiff(managed, resources, d)
    requires Synced(s, before, d, after, ledger, ok) && ok
    requires r !in Refs(resources) && r !in ImplicitNamespaces(resources)
    ensures forall o | o in d.removes :: !AsksToStay(o)
    ensures r in after.objs <==> r in before.objs && r !in managed
  {
    var ups := Ups(managed, resources);
    PickFrom(managed, resources, true);
    PickFrom(managed, resources, false);
    forall st | st in ups ensures st.o in resources {
    }
    SkipsAreHonoured(s, before, d, after, ledger, ok, r);
    assert r in managed <==> r in Refs(d.removes);
    assert r in Refs(d.removes) <==> exists o :: o in d.removes && o.ref == r;
  }

  /** The i-th deletion of a loop without skipped or repeated entries, under any failures. */
  lemma {:induction false} DropsExactly(s: Server, p: Progress, items: seq<Obj>, i: nat)
    requires (forall o | o in items :: !Skipped(o, ON_DELETE)) && Distinct(RefSeq(items)) && i < |items|
    ensures items[i].ref in Exec(s, p, Drops(items)).w.objs
        <==> items[i].ref in p.w.objs && s.fault(p.w.clock + i) == Lost
    decreases |items|
  {
    var q, rest := Do(s, p, Drop(items[0])), items[1..];
    assert Drops(items)[0] == Drop(items[0]) && Drops(items)[1..] == Drops(rest);
    forall j | 0 <= j < |rest| ensures rest[j].ref == RefSeq(items)[j + 1] && RefSeq(rest)[j] == RefSeq(items)[j + 1] {
    }
    assert RefSeq(items)[0] == items[0].ref;
    if i == 0 {
      ExecElsewhere(s, q, Drops(rest), items[0].ref);
    } else {
      DropsExactly(s, q, rest, i - 1);
    }
  }

  ghost predicate CallsWork(s: Server, from: nat, count: nat) {
    forall t: nat | from <= t < from + count :: s.fault(t) == Fine
  }

  /** Such a loop reports an error exactly when one of its calls does. */
  lemma {:induction false} DropsFail(s: Server, p: Progress, items: seq<Obj>)
    requires forall o | o in items :: !Skipped(o, ON_DELETE)
    ensures Exec(s, p, Drops(items)).failed <==> p.failed || !CallsWork(s, p.w.clock, |items|)
    decreases |items|
  {
    if items != [] {
      var q, rest := Do(s, p, Drop(items[0])), items[1..];
      assert Drops(items)[0] == Drop(items[0]) && Drops(items)[1..] == Drops(rest);
      assert q.failed <==> p.failed || s.fault(p.w.clock) != Fine;
      DropsFail(s, q, rest);
    }
  }
}
