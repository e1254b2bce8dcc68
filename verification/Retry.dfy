/** Retrying `Apply` after failures converges on what one failure-free first attempt would have produced. */
module Retry {
  import opened Trees
  import opened ValuesField
  import opened Api
  import opened Ledger
  import opened LedgerLaws
  import opened Native

  /** What survives between two attempts: the status on the API server, and the cluster. */
  datatype Saved = Saved(st: Status, w: World)

  /** One attempt on a fixed input. After an error the reconciler sets the phase to Failed; writing the
      status back may fail too, and then the old one stays. */
  ghost predicate Attempt(env: Env, own: string, spec: Spec, a: Saved, b: Saved) {
    exists st, ok :: Applied(env, own, spec, a.st, a.w, st, b.w, ok) &&
      (b.st == a.st || b.st == Reloaded(env.codec, if ok then st else st.(phase := Failed)))
  }

  ghost predicate AttemptAt(env: Env, own: string, spec: Spec, tr: seq<Saved>, i: nat)
    requires i + 1 < |tr|
  {
    Attempt(env, own, spec, tr[i], tr[i + 1])
  }

  ghost predicate Attempts(env: Env, own: string, spec: Spec, tr: seq<Saved>) {
    tr != [] && forall i: nat | i + 1 < |tr| :: AttemptAt(env, own, spec, tr, i)
  }

  /** Namespaces the first sync removes although objects that stay need them: recorded, no longer rendered. Later
      syncs bring them back in passing. */
  function Incidental(managed: seq<Ref>, list: seq<Obj>): set<Ref> {
    Housing(Ups(managed, list)) * Gone(managed, list)
  }

  ghost predicate AgreeOff(off: set<Ref>, a: map<Ref, Dict>, b: map<Ref, Dict>) {
    forall r | r !in off :: (r in a <==> r in b) && (r in a ==> a[r] == b[r])
  }

  /** No attempt has recorded an installation yet, and the goal has not moved. */
  ghost predicate Pending(env: Env, list: seq<Obj>, start: Saved, now: Saved) {
    && now.st.resources == start.st.resources
    && (now.st == start.st || now.st.phase == Failed)
    && SyncGoal(env.server.patch, start.st.resources, list, now.w.objs)
       == SyncGoal(env.server.patch, start.st.resources, list, start.w.objs)
  }

  /** An installation was recorded, and the cluster is at the goal, incidental namespaces aside. */
  ghost predicate Settled(env: Env, list: seq<Obj>, start: Saved, now: Saved) {
    && Elements(now.st.resources) == Refs(list)
    && AgreeOff(Incidental(start.st.resources, list), now.w.objs,
                SyncGoal(env.server.patch, start.st.resources, list, start.w.objs))
  }

  /** The status alone says that there is nothing to do. */
  ghost predicate UpToDate(st: Status, spec: Spec, list: seq<Obj>) {
    st.phase == Installed && EqualMapValues(st.values.obj, spec.values.obj) && Elements(st.resources) == Refs(list)
  }

  ghost predicate Ready(env: Env, own: string, spec: Spec, list: seq<Obj>, start: Saved) {
    && Lawful(env.server.patch)
    && Render(env, own, spec) == Some(list) && Distinct(RefSeq(list))
    && !UpToDate(start.st, spec, list)
  }

  /** From a pending state, a successful attempt arrives at the goal. */
  lemma PendingArrives(env: Env, own: string, spec: Spec, list: seq<Obj>, start: Saved, a: Saved,
                       st: Status, w: World, ok: bool)
    requires Ready(env, own, spec, list, start) && Pending(env, list, start, a)
    requires Applied(env, own, spec, a.st, a.w, st, w, ok)
    ensures !ok ==> st == a.st && Pending(env, list, start, Saved(a.st, w))
    ensures ok ==> Settled(env, list, start, Saved(st, w)) && Pending(env, list, start, Saved(a.st, w))
    ensures FaultFreeFrom(env.server, a.w.clock) ==> ok
    ensures ok ==> w.objs == SyncGoal(env.server.patch, start.st.resources, list, start.w.objs)
  {
    var d, managed :| AppliedBy(env, own, spec, d, managed, a.st, a.w, st, w, ok);
    var s, l0 := env.server, start.st.resources;
    FastPathMeans(a.st, spec, list, d);
    SyncKeepsGoal(s, a.w, l0, list, d, w, managed, ok);
    if FaultFreeFrom(s, a.w.clock) {
      SyncFaultFree(s, a.w, l0, list, d, w, managed, ok);
    }
    if ok {
      SyncReachesGoal(s, a.w, l0, list, d, w, managed, ok);
      SyncedLedger(s, a.w, l0, list, d, w, managed, ok);
    }
  }

  /** `goal` is a place where rewriting the rendered objects changes nothing, `off` aside. */
  ghost predicate AtRest(patch: Patcher, list: seq<Obj>, off: set<Ref>, goal: map<Ref, Dict>) {
    forall o | o in list && !Skipped(o, ON_UPDATE) ::
      && o.ref !in off && o.ref in goal && patch(goal[o.ref], o.content) == goal[o.ref]
      && (o.ref.namespace != "" ==> NamespaceRef(o.ref.namespace) in off + goal.Keys)
  }

  lemma GoalIsAtRest(patch: Patcher, managed: seq<Ref>, list: seq<Obj>, objs: map<Ref, Dict>)
    requires Lawful(patch) && Distinct(RefSeq(list))
    ensures AtRest(patch, list, Incidental(managed, list), SyncGoal(patch, managed, list, objs))
  {
    var ups, goal := Ups(managed, list), SyncGoal(patch, managed, list, objs);
    UpsAreDistinct(managed, list);
    WrittenIsNotGone(managed, list);
    forall o | o in list && !Skipped(o, ON_UPDATE)
      ensures o.ref in Written(ups) && patch(goal[o.ref], o.content) == goal[o.ref]
      ensures o.ref.namespace != "" ==> NamespaceRef(o.ref.namespace) in Housing(ups)
    {
      var st := StepFor(managed, list, o);
      WrittenAt(ups, st);
      if o.ref in objs {
        assert patch(patch(objs[o.ref], o.content), o.content) == patch(objs[o.ref], o.content);
      } else {
        assert patch(o.content, o.content) == o.content;
      }
    }
  }

  lemma {:induction false} UpdatesAtRest(s: Server, p: Progress, items: seq<Obj>, list: seq<Obj>,
                                         off: set<Ref>, goal: map<Ref, Dict>)
    requires AtRest(s.patch, list, off, goal) && AgreeOff(off, p.w.objs, goal)
    requires forall o | o in items :: o in list
    ensures AgreeOff(off, Exec(s, p, Updates(items)).w.objs, goal)
    decreases |items|
  {
    if items != [] {
      var st := Update(items[0]);
      assert Updates(items)[0] == st && Updates(items)[1..] == Updates(items[1..]);
      var mid := UpEffect(s, p, st);
      assert AgreeOff(off, mid, goal);
      assert AgreeOff(off, Do(s, p, st).w.objs, goal);
      UpdatesAtRest(s, Do(s, p, st), items[1..], list, off, goal);
    }
  }

  /** A settled state stays settled, whatever fails. */
  lemma SettledStays(env: Env, own: string, spec: Spec, list: seq<Obj>, start: Saved, a: Saved,
                     st: Status, w: World, ok: bool)
    requires Render(env, own, spec) == Some(list) && Settled(env, list, start, a)
    requires AtRest(env.server.patch, list, Incidental(start.st.resources, list),
                    SyncGoal(env.server.patch, start.st.resources, list, start.w.objs))
    requires Applied(env, own, spec, a.st, a.w, st, w, ok)
    ensures Elements(st.resources) == Refs(list) && Settled(env, list, start, Saved(a.st, w))
    ensures !ok ==> st == a.st
    ensures FaultFreeFrom(env.server, a.w.clock) ==> ok
  {
    var d, managed :| AppliedBy(env, own, spec, d, managed, a.st, a.w, st, w, ok);
    var s, off := env.server, Incidental(start.st.resources, list);
    var goal := SyncGoal(s.patch, start.st.resources, list, start.w.objs);
    DiffExact(a.st.resources, list, d);
    PickFrom(a.st.resources, list, false);
    if !FastPath(a.st, spec, d) {
      var p := Progress(a.w, [], false);
      UpdatesAtRest(s, p, d.applys, list, off, goal);
      assert Makes(d.creats) == [] && Drops(d.removes) == [];
      RunInParts(s, a.w, d);
      if ok {
        SyncedLedger(s, a.w, a.st.resources, list, d, w, managed, ok);
      }
      if FaultFreeFrom(s, a.w.clock) {
        SyncFaultFree(s, a.w, a.st.resources, list, d, w, managed, ok);
      }
    }
  }

  // ---------- runs ----------

  lemma AttemptKeeps(env: Env, own: string, spec: Spec, list: seq<Obj>, start: Saved, a: Saved, b: Saved)
    requires Ready(env, own, spec, list, start) && Attempt(env, own, spec, a, b)
    requires Pending(env, list, start, a) || Settled(env, list, start, a)
    ensures Pending(env, list, start, b) || Settled(env, list, start, b)
    ensures Pending(env, list, start, a) && (b.st.phase != Installed || b.st == start.st) ==>
              Pending(env, list, start, b)
  {
    var st, ok :| Applied(env, own, spec, a.st, a.w, st, b.w, ok) &&
      (b.st == a.st || b.st == Reloaded(env.codec, if ok then st else st.(phase := Failed)));
    if Pending(env, list, start, a) {
      PendingArrives(env, own, spec, list, start, a, st, b.w, ok);
      if ok {
        AppliedRecordsRender(env, own, spec, a.st, a.w, st, b.w, ok);
      }
    } else {
      GoalIsAtRest(env.server.patch, start.st.resources, list, start.w.objs);
      SettledStays(env, own, spec, list, start, a, st, b.w, ok);
    }
  }

  /** No attempt has recorded an installation that was not there from the start. */
  ghost predicate NoneRecorded(tr: seq<Saved>) {
    forall i | 0 < i < |tr| :: tr[i].st.phase != Installed || tr[i].st == tr[0].st
  }

  /** Either nothing was recorded in between, or there are no incidental namespaces. */
  ghost predicate Exact(tr: seq<Saved>, list: seq<Obj>)
    requires tr != []
  {
    NoneRecorded(tr) || Incidental(tr[0].st.resources, list) == {}
  }

  lemma AttemptsBefore(env: Env, own: string, spec: Spec, tr: seq<Saved>, n: nat)
    requires Attempts(env, own, spec, tr) && n + 1 == |tr| && n > 0
    ensures Attempts(env, own, spec, tr[..n]) && Attempt(env, own, spec, tr[n - 1], tr[n])
  {
    forall i: nat | i + 1 < n ensures AttemptAt(env, own, spec, tr[..n], i) {
      assert AttemptAt(env, own, spec, tr, i);
    }
    assert AttemptAt(env, own, spec, tr, n - 1);
  }

  lemma {:induction false} AttemptsKeep(env: Env, own: string, spec: Spec, list: seq<Obj>, tr: seq<Saved>)
    requires Attempts(env, own, spec, tr) && Ready(env, own, spec, list, tr[0])
    ensures var last := tr[|tr| - 1];
      && (Pending(env, list, tr[0], last) || Settled(env, list, tr[0], last))
      && (NoneRecorded(tr) ==> Pending(env, list, tr[0], last))
    decreases |tr|
  {
    if |tr| > 1 {
      var n := |tr| - 1;
      AttemptsBefore(env, own, spec, tr, n);
      AttemptsKeep(env, own, spec, list, tr[..n]);
      AttemptKeeps(env, own, spec, list, tr[0], tr[n - 1], tr[n]);
    }
  }

  lemma {:induction false} FastRunsStay(env: Env, own: string, spec: Spec, list: seq<Obj>, tr: seq<Saved>)
    requires Attempts(env, own, spec, tr) && Render(env, own, spec) == Some(list)
    requires UpToDate(tr[0].st, spec, list) && Reloaded(env.codec, tr[0].st) == tr[0].st
    ensures tr[|tr| - 1] == tr[0]
    decreases |tr|
  {
    if |tr| > 1 {
      var n := |tr| - 1;
      var before := tr[..n];
      AttemptsBefore(env, own, spec, tr, n);
      assert before[0] == tr[0] && before[|before| - 1] == tr[n - 1];
      FastRunsStay(env, own, spec, list, before);
      FastAttempt(env, own, spec, list, tr[n - 1], tr[n]);
    }
  }

  lemma FastAttempt(env: Env, own: string, spec: Spec, list: seq<Obj>, a: Saved, b: Saved)
    requires Attempt(env, own, spec, a, b) && Render(env, own, spec) == Some(list)
    requires UpToDate(a.st, spec, list) && Reloaded(env.codec, a.st) == a.st
    ensures b == a
  {
    var st, ok :| Applied(env, own, spec, a.st, a.w, st, b.w, ok) &&
      (b.st == a.st || b.st == Reloaded(env.codec, if ok then st else st.(phase := Failed)));
    FastOnce(env, own, spec, list, a.st, a.w, st, b.w, ok);
  }

  lemma FastOnce(env: Env, own: string, spec: Spec, list: seq<Obj>, st: Status, w: World, st': Status, w': World,
                 ok: bool)
    requires Applied(env, own, spec, st, w, st', w', ok) && Render(env, own, spec) == Some(list)
    requires UpToDate(st, spec, list)
    ensures ok && st' == st && w' == w
  {
    var d, managed :| AppliedBy(env, own, spec, d, managed, st, w, st', w', ok);
    FastPathMeans(st, spec, list, d);
  }

  lemma {:induction false} FinalAttempt(env: Env, own: string, spec: Spec, list: seq<Obj>, start: Saved, last: Saved,
                     st: Status, w: World, ok: bool)
    requires Ready(env, own, spec, list, start) && FaultFreeFrom(env.server, last.w.clock)
    requires Pending(env, list, start, last) || Settled(env, list, start, last)
    requires Applied(env, own, spec, last.st, last.w, st, w, ok)
    ensures var goal := SyncGoal(env.server.patch, start.st.resources, list, start.w.objs);
      && ok && AgreeOff(Incidental(start.st.resources, list), w.objs, goal)
      && (Pending(env, list, start, last) || Incidental(start.st.resources, list) == {} ==> w.objs == goal)
      && st.phase == Installed && Elements(st.resources) == Refs(list)
  {
    if Pending(env, list, start, last) {
      PendingArrives(env, own, spec, list, start, last, st, w, ok);
    } else {
      GoalIsAtRest(env.server.patch, start.st.resources, list, start.w.objs);
      SettledStays(env, own, spec, list, start, last, st, w, ok);
    }
    AppliedRecordsRender(env, own, spec, last.st, last.w, st, w, ok);
  }

  lemma FirstAttempt(env: Env, own: string, spec: Spec, list: seq<Obj>, start: Saved,
                     calm: Env, st: Status, w: World, ok: bool)
    requires Ready(env, own, spec, list, start)
    requires Render(calm, own, spec) == Some(list) && calm.server.patch == env.server.patch
    requires FaultFreeFrom(calm.server, start.w.clock)
    requires Applied(calm, own, spec, start.st, start.w, st, w, ok)
    ensures ok && st.phase == Installed && Elements(st.resources) == Refs(list)
    ensures w.objs == SyncGoal(env.server.patch, start.st.resources, list, start.w.objs)
  {
    FinalAttempt(calm, own, spec, list, start, start, st, w, ok);
  }

  /** Two successful outcomes record the same references and leave the same objects; `off` is excepted unless
      `exact`. */
  ghost predicate SameOutcome(st: Status, w: World, st1: Status, w1: World, off: set<Ref>, exact: bool) {
    && st.phase == st1.phase == Installed
    && Elements(st.resources) == Elements(st1.resources)
    && AgreeOff(off, w.objs, w1.objs)
    && (exact ==> w.objs == w1.objs)
  }

  lemma {:induction false} LastMatchesFirst(env: Env, own: string, spec: Spec, list: seq<Obj>, tr: seq<Saved>,
                         st: Status, w: World, ok: bool, calm: Env, st1: Status, w1: World, ok1: bool)
    requires Lawful(env.server.patch) && calm.server.patch == env.server.patch
    requires Render(env, own, spec) == Some(list) == Render(calm, own, spec) && Distinct(RefSeq(list))
    requires Attempts(env, own, spec, tr)
    requires tr[0].st.phase == Installed ==> Reloaded(env.codec, tr[0].st) == tr[0].st
    requires FaultFreeFrom(env.server, tr[|tr| - 1].w.clock) && FaultFreeFrom(calm.server, tr[0].w.clock)
    requires Applied(env, own, spec, tr[|tr| - 1].st, tr[|tr| - 1].w, st, w, ok)
    requires Applied(calm, own, spec, tr[0].st, tr[0].w, st1, w1, ok1)
    ensures ok && ok1 && SameOutcome(st, w, st1, w1, Incidental(tr[0].st.resources, list), Exact(tr, list))
  {
    var start, last := tr[0], tr[|tr| - 1];
    if UpToDate(start.st, spec, list) {
      FastRunsStay(env, own, spec, list, tr);
      FastOnce(env, own, spec, list, start.st, start.w, st, w, ok);
      FastOnce(calm, own, spec, list, start.st, start.w, st1, w1, ok1);
    } else {
      AttemptsKeep(env, own, spec, list, tr);
      FirstAttempt(env, own, spec, list, start, calm, st1, w1, ok1);
      FinalAttempt(env, own, spec, list, start, last, st, w, ok);
    }
  }

  /** After any attempts with any failures, every failure-free attempt succeeds and leaves the objects and the
      recorded references that a failure-free first attempt would have left. Once an installation was recorded,
      namespaces that it removed while something still needs them may differ; nothing else ever does. */
  lemma {:induction false} RetriesConverge(env: Env, own: string, spec: Spec, list: seq<Obj>, tr: seq<Saved>,
                        first: Saved, last: Saved, calm: Env)
    requires Lawful(env.server.patch) && calm.server.patch == env.server.patch
    requires Render(env, own, spec) == Some(list) == Render(calm, own, spec) && Distinct(RefSeq(list))
    requires Attempts(env, own, spec, tr) && first == tr[0] && last == tr[|tr| - 1]
    requires first.st.phase == Installed ==> Reloaded(env.codec, first.st) == first.st
    requires FaultFreeFrom(env.server, last.w.clock) && FaultFreeFrom(calm.server, first.w.clock)
    ensures forall st, w, ok, st1, w1, ok1
              | Applied(env, own, spec, last.st, last.w, st, w, ok)
                && Applied(calm, own, spec, first.st, first.w, st1, w1, ok1) ::
              ok && ok1 && SameOutcome(st, w, st1, w1, Incidental(first.st.resources, list), Exact(tr, list))
  {
    forall st, w, ok, st1, w1, ok1
      | Applied(env, own, spec, last.st, last.w, st, w, ok)
        && Applied(calm, own, spec, first.st, first.w, st1, w1, ok1)
      ensures ok && ok1 && SameOutcome(st, w, st1, w1, Incidental(first.st.resources, list), Exact(tr, list))
    {
      LastMatchesFirst(env, own, spec, list, tr, st, w, ok, calm, st1, w1, ok1);
    }
  }
}
