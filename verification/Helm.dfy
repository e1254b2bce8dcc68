/** Helm release histories: what `removeHistories` keeps, and how long a history can get over many calls of
    `ApplyChart`. */
module Helm {
  import opened Trees
  import opened ValuesField

  datatype ReleaseStatus = Deployed | NotDeployed

  datatype Rel = Rel(status: ReleaseStatus, config: Dict)

  datatype Record = Record(version: int, rel: Rel)

  /** The stored releases of one name, by version. */
  type History = map<int, Rel>

  ghost predicate IsListing(h: History, rs: seq<Record>) {
    && (forall r | r in rs :: r.version in h && h[r.version] == r.rel)
    && (forall v | v in h :: Record(v, h[v]) in rs)
    && (forall i, j | 0 <= i < j < |rs| :: rs[i].version != rs[j].version)
  }

  ghost predicate NewestFirst(rs: seq<Record>) {
    forall i, j | 0 <= i < j < |rs| :: rs[i].version > rs[j].version
  }

  function Versions(rs: seq<Record>): set<int> {
    set r | r in rs :: r.version
  }

  predicate AnyDeployed(rs: seq<Record>) {
    exists r | r in rs :: r.rel.status == Deployed
  }

  /** All records but the first deployed one. */
  function Others(rs: seq<Record>): seq<Record> {
    if rs == [] then []
    else
      var n := |rs| - 1;
      Others(rs[..n]) + (if rs[n].rel.status == Deployed && !AnyDeployed(rs[..n]) then [] else [rs[n]])
  }

  function Limit(max: int): int {
    if max <= 0 then 1 else max
  }

  /** The records to delete from a list sorted newest first. */
  function Doomed(rs: seq<Record>, max: int): seq<Record> {
    var others := Others(rs);
    if Limit(max) <= |rs| && |rs| - Limit(max) <= |others| then others[..|rs| - Limit(max)] else others
  }

  lemma {:induction false} OthersCount(rs: seq<Record>)
    ensures |Others(rs)| == |rs| - (if AnyDeployed(rs) then 1 else 0)
    ensures forall r | r in Others(rs) :: r in rs
  {
    if rs != [] {
      var n := |rs| - 1;
      OthersCount(rs[..n]);
      assert rs == rs[..n] + [rs[n]];
      assert rs[n] in rs;
    }
  }

  lemma {:induction false} OthersPrefix(rs: seq<Record>, i: nat)
    requires i <= |rs|
    ensures Others(rs[..i]) <= Others(rs)
  {
    if i == |rs| {
      assert rs[..i] == rs;
    } else {
      var n := |rs| - 1;
      OthersPrefix(rs[..n], i);
      assert rs[..n][..i] == rs[..i];
    }
  }

  /** One turn of the loop that decides what goes. */
  lemma OthersSnoc(rs: seq<Record>, i: nat)
    requires i < |rs|
    ensures Others(rs[..i + 1]) == Others(rs[..i]) +
      (if rs[i].rel.status == Deployed && !AnyDeployed(rs[..i]) then [] else [rs[i]])
    ensures AnyDeployed(rs[..i + 1]) <==> AnyDeployed(rs[..i]) || rs[i].rel.status == Deployed
  {
    assert rs[..i + 1] == rs[..i] + [rs[i]] && rs[..i + 1][..i] == rs[..i];
    assert rs[i] in rs[..i + 1];
  }

  /** The loop stops early as soon as enough records were chosen. */
  lemma DoomedEarly(rs: seq<Record>, i: nat, max: int)
    requires i <= |rs| && |rs| - |Others(rs[..i])| == Limit(max)
    ensures Others(rs[..i]) == Doomed(rs, max)
  {
    OthersPrefix(rs, i);
  }

  /** Or it takes all it can get. */
  lemma DoomedLate(rs: seq<Record>, max: int)
    requires Limit(max) <= |rs| ==> |Others(rs)| <= |rs| - Limit(max)
    ensures Others(rs) == Doomed(rs, max)
  {
    OthersCount(rs);
  }

  // ---------- removeHistories ----------

  /** What a call leaves of a history: the first `done` of the doomed records are gone, all if it succeeds. */
  ghost predicate PrunedBy(before: History, after: History, max: int, ok: bool, rs: seq<Record>, done: nat) {
    && IsListing(before, rs) && NewestFirst(rs)
    && done <= |Doomed(rs, max)| && (ok ==> done == |Doomed(rs, max)|)
    && after == before - Versions(Doomed(rs, max)[..done])
  }

  ghost predicate Pruned(before: History, after: History, max: int, ok: bool) {
    exists rs, done: nat :: PrunedBy(before, after, max, ok, rs, done)
  }

  function InsertRecord(r: Record, rs: seq<Record>): (out: seq<Record>)
    ensures multiset(out) == multiset(rs) + multiset{r}
  {
    if rs == [] || r.version > rs[0].version then [r] + rs
    else
      assert rs == [rs[0]] + rs[1..];
      [rs[0]] + InsertRecord(r, rs[1..])
  }

  ghost predicate NotRising(rs: seq<Record>) {
    forall i, j | 0 <= i < j < |rs| :: rs[i].version >= rs[j].version
  }

  lemma {:induction false} InsertKeepsOrder(r: Record, rs: seq<Record>)
    requires NotRising(rs)
    ensures NotRising(InsertRecord(r, rs))
  {
    if rs != [] && r.version <= rs[0].version {
      InsertKeepsOrder(r, rs[1..]);
      var out := InsertRecord(r, rs[1..]);
      forall x | x in out ensures x.version <= rs[0].version {
        assert x in multiset(out);
      }
    }
  }

  /** The next key of a range loop: any of those left. */
  method Next<T>(s: set<T>) returns (x: T)
    requires s != {}
    ensures x in s
  {
    x :| x in s;
  }

  /** `slices.SortFunc` by descending version, in place. */
  method SortByVersion(a: array<Record>)
    modifies a
    ensures multiset(a[..]) == multiset(old(a[..])) && NotRising(a[..])
  {
    var sorted: seq<Record> := [];
    for i := 0 to a.Length
      invariant multiset(sorted) == multiset(a[..i]) && NotRising(sorted)
      invariant a[..] == old(a[..])
    {
      assert a[..i + 1] == a[..i] + [a[i]];
      InsertKeepsOrder(a[i], sorted);
      sorted := InsertRecord(a[i], sorted);
    }
    assert a[..a.Length] == a[..];
    assert |sorted| == |multiset(sorted)| == |multiset(a[..])| == a.Length;
    forall i | 0 <= i < a.Length {
      a[i] := sorted[i];
    }
    assert a[..] == sorted;
  }

  /** Release storage. `deletable(t)` says whether the t-th deletion works. */
  class Storage {
    const deletable: nat -> bool
    const listable: bool
    var history: History
    var deletions: nat

    constructor (history: History, deletable: nat -> bool, listable: bool)
      ensures this.history == history && this.deletable == deletable && this.listable == listable
    {
      this.history, this.deletable, this.listable, deletions := history, deletable, listable, 0;
    }

    /** `History`: the records in no particular order, or an error. */
    method List() returns (ok: bool, rlss: array<Record>)
      ensures ok == listable
      ensures fresh(rlss) && IsListing(history, rlss[..])
    {
      ok := listable;
      var rs: seq<Record> := [];
      var todo := history.Keys;
      while todo != {}
        invariant todo <= history.Keys
        invariant forall r | r in rs :: r.version in history && r.version !in todo && history[r.version] == r.rel
        invariant forall v | v in history && v !in todo :: Record(v, history[v]) in rs
        invariant forall i, j | 0 <= i < j < |rs| :: rs[i].version != rs[j].version
        decreases todo
      {
        var v := Next(todo);
        todo := todo - {v};
        rs := rs + [Record(v, history[v])];
      }
      rlss := new Record[|rs|](i requires 0 <= i < |rs| => rs[i]);
      assert rlss[..] == rs;
    }

    method Delete(version: int) returns (ok: bool)
      modifies this
      ensures ok == deletable(old(deletions))
      ensures history == if ok then old(history) - {version} else old(history)
    {
      ok := deletable(deletions);
      deletions := deletions + 1;
      if ok {
        history := history - {version};
      }
    }

    /** The loop that decides what goes, over the records newest first. */
    method ChooseDoomed(rlss: array<Record>, max: int) returns (toDelete: seq<Record>)
      ensures toDelete == Doomed(rlss[..], max)
    {
      ghost var rs := rlss[..];
      var limit := if max <= 0 then 1 else max;
      var lastDeployed: Option<Record> := None;
      toDelete := [];
      var i := 0;
      while i < rlss.Length
        invariant 0 <= i <= rlss.Length
        invariant toDelete == Others(rs[..i])
        invariant lastDeployed == None <==> !AnyDeployed(rs[..i])
        invariant limit <= |rs| ==> |toDelete| <= |rs| - limit
      {
        var rls := rlss[i];
        OthersSnoc(rs, i);
        i := i + 1;
        if rls.rel.status == Deployed && lastDeployed == None {
          lastDeployed := Some(rls);
          continue;
        }
        if rlss.Length - |toDelete| == limit {
          DoomedEarly(rs, i - 1, max);
          return;
        }
        toDelete := toDelete + [rls];
      }
      assert rs[..|rs|] == rs;
      DoomedLate(rs, max);
    }

    method RemoveHistories(max: int) returns (ok: bool)
      modifies this
      ensures Pruned(old(history), history, max, ok)
      ensures listable && (forall t :: deletable(t)) ==> ok
    {
      ghost var before := history;
      var listed, rlss := List();
      ghost var unsorted := rlss[..];
      SortByVersion(rlss);
      ghost var rs := rlss[..];
      ListingSorted(before, unsorted, rs);
      if !listed {
        assert PrunedBy(before, history, max, false, rs, 0);
        return false;
      }
      var toDelete := ChooseDoomed(rlss, max);
      for k := 0 to |toDelete|
        invariant history == before - Versions(toDelete[..k])
      {
        var done := Delete(toDelete[k].version);
        if !done {
          assert PrunedBy(before, history, max, false, rs, k);
          return false;
        }
        VersionsSnoc(toDelete, k);
      }
      assert PrunedBy(before, history, max, true, rs, |toDelete|);
      return true;
    }
  }

  lemma VersionsSnoc(rs: seq<Record>, k: nat)
    requires k < |rs|
    ensures Versions(rs[..k + 1]) == Versions(rs[..k]) + {rs[k].version}
  {
    assert rs[..k + 1] == rs[..k] + [rs[k]];
  }

  lemma ListingSorted(h: History, a: seq<Record>, b: seq<Record>)
    requires IsListing(h, a) && multiset(a) == multiset(b) && NotRising(b)
    ensures IsListing(h, b) && NewestFirst(b)
  {
    assert forall r :: r in b <==> r in multiset(b);
    assert forall r :: r in a <==> r in multiset(a);
    forall i, j | 0 <= i < j < |b| ensures b[i].version != b[j].version {
      if b[i].version == b[j].version {
        assert b[i] == b[j];
        TwiceInBag(b, i, j);
        OnceInBag(a, b[i]);
      }
    }
  }

  lemma TwiceInBag(s: seq<Record>, i: nat, j: nat)
    requires i < j < |s| && s[i] == s[j]
    ensures multiset(s)[s[i]] >= 2
  {
    assert s == s[..i] + [s[i]] + s[i + 1..];
    assert s[j] in s[i + 1..];
  }

  lemma {:induction false} OnceInBag(s: seq<Record>, r: Record)
    requires forall i, j | 0 <= i < j < |s| :: s[i].version != s[j].version
    ensures multiset(s)[r] <= 1
  {
    if s != [] {
      assert s == [s[0]] + s[1..];
      OnceInBag(s[1..], r);
      if r == s[0] {
        assert r !in s[1..];
      }
    }
  }

  // ---------- what is kept ----------

  lemma ListingCount(h: History, rs: seq<Record>)
    requires IsListing(h, rs)
    ensures |h| == |rs|
  {
    VersionsCount(rs);
    assert h.Keys == Versions(rs) by {
      forall v | v in h ensures v in Versions(rs) {
        assert Record(v, h[v]) in rs;
      }
    }
    assert |h| == |h.Keys|;
  }

  lemma {:induction false} VersionsCount(rs: seq<Record>)
    requires forall i, j | 0 <= i < j < |rs| :: rs[i].version != rs[j].version
    ensures |Versions(rs)| == |rs|
  {
    if rs != [] {
      var n := |rs| - 1;
      VersionsCount(rs[..n]);
      assert rs == rs[..n] + [rs[n]];
      assert Versions(rs) == Versions(rs[..n]) + {rs[n].version};
    }
  }

  /** The other records stay in order, so their versions are distinct too. */
  lemma {:induction false} OthersFalling(rs: seq<Record>)
    requires NewestFirst(rs)
    ensures NewestFirst(Others(rs))
  {
    if rs != [] {
      var n := |rs| - 1;
      OthersFalling(rs[..n]);
      OthersCount(rs[..n]);
      forall r | r in Others(rs[..n]) ensures r.version > rs[n].version {
        assert r in rs[..n];
      }
    }
  }

  /** The record set aside: the newest deployed one is not among the others. */
  lemma {:induction false} NewestDeployedSpared(rs: seq<Record>, k: nat)
    requires NewestFirst(rs) && k < |rs| && rs[k].rel.status == Deployed
    requires forall i | 0 <= i < k :: rs[i].rel.status != Deployed
    ensures rs[k] !in Others(rs)
  {
    var n := |rs| - 1;
    OthersCount(rs[..n]);
    if k < n {
      NewestDeployedSpared(rs[..n], k);
    } else {
      assert forall r | r in rs[..n] :: r.version > rs[n].version;
    }
  }

  /** The newest deployed version. */
  ghost predicate IsNewestDeployed(h: History, v: int) {
    v in h && h[v].status == Deployed && forall u | u in h && u > v :: h[u].status != Deployed
  }

  /** Whatever the limit and wherever a deletion fails, the newest deployed record survives unchanged. */
  lemma NewestDeployedSurvives(before: History, after: History, max: int, ok: bool, v: int)
    requires Pruned(before, after, max, ok) && IsNewestDeployed(before, v)
    ensures v in after && after[v] == before[v]
  {
    var rs: seq<Record>, done: nat :| PrunedBy(before, after, max, ok, rs, done);
    var k :| 0 <= k < |rs| && rs[k] == Record(v, before[v]);
    forall i | 0 <= i < k ensures rs[i].rel.status != Deployed {
      assert rs[i].version > v && rs[i] in rs;
    }
    NewestDeployedSpared(rs, k);
    OthersCount(rs);
    forall r | r in Doomed(rs, max)[..done] ensures r.version != v {
      assert r in Others(rs) && r in rs && r != rs[k];
      assert before[r.version] == r.rel;
    }
  }

  /** A successful call on a history that reaches the limit leaves exactly the limit: with the newest deployed
      record set aside, the newest of the others go and the oldest stay. */
  lemma ExactRetention(before: History, after: History, max: int)
    requires Pruned(before, after, max, true) && |before| >= max && |before| >= 1
    ensures |after| == if max <= 0 then 1 else max
    ensures forall u, v | u in before && v in before && u !in after && v in after && !IsNewestDeployed(before, v) ::
              u > v
  {
    var rs: seq<Record>, done: nat :| PrunedBy(before, after, max, true, rs, done);
    PrunedCount(before, after, max, rs);
    forall u, v | u in before && v in before && u !in after && v in after && !IsNewestDeployed(before, v)
      ensures u > v
    {
      NewestOthersGo(before, after, max, rs, u, v);
    }
  }

  lemma NewestOthersGo(before: History, after: History, max: int, rs: seq<Record>, u: int, v: int)
    requires PrunedBy(before, after, max, true, rs, |Doomed(rs, max)|)
    requires u in before && v in before && u !in after && v in after && !IsNewestDeployed(before, v)
    ensures u > v
  {
    var doomed, others := Doomed(rs, max), Others(rs);
    assert doomed[..|doomed|] == doomed;
    OthersFalling(rs);
    var i :| 0 <= i < |doomed| && doomed[i].version == u;
    NotSparedIsOther(before, rs, v);
    var j :| 0 <= j < |others| && others[j] == Record(v, before[v]);
    assert doomed == others[..|doomed|];
    assert forall m | 0 <= m < |doomed| :: others[m] == doomed[m] && doomed[m].version in Versions(doomed);
  }

  lemma {:induction false} OthersHas(rs: seq<Record>, k: nat)
    requires k < |rs| && (rs[k].rel.status == Deployed ==> AnyDeployed(rs[..k]))
    ensures rs[k] in Others(rs)
  {
    var n := |rs| - 1;
    if k < n {
      assert rs[..n][..k] == rs[..k];
      OthersHas(rs[..n], k);
    }
  }

  lemma NotSparedIsOther(h: History, rs: seq<Record>, v: int)
    requires IsListing(h, rs) && NewestFirst(rs) && v in h && !IsNewestDeployed(h, v)
    ensures Record(v, h[v]) in Others(rs)
  {
    var k :| 0 <= k < |rs| && rs[k] == Record(v, h[v]);
    if h[v].status == Deployed {
      var u :| u in h && u > v && h[u].status == Deployed;
      var i :| 0 <= i < |rs| && rs[i] == Record(u, h[u]);
      assert i < k;
      assert rs[i] in rs[..k];
    }
    OthersHas(rs, k);
  }

  lemma PrunedCount(before: History, after: History, max: int, rs: seq<Record>)
    requires PrunedBy(before, after, max, true, rs, |Doomed(rs, max)|)
    ensures |rs| == |before| && |after| == |before| - |Doomed(rs, max)|
    ensures |Doomed(rs, max)| == if |before| >= Limit(max) then |before| - Limit(max) else |Others(rs)|
  {
    var doomed := Doomed(rs, max);
    ListingCount(before, rs);
    OthersCount(rs);
    OthersFalling(rs);
    VersionsCount(doomed);
    assert doomed[..|doomed|] == doomed;
    forall v | v in Versions(doomed) ensures v in before {
      var r :| r in doomed && r.version == v;
      assert r in Others(rs) && r in rs;
    }
    assert after.Keys == before.Keys - Versions(doomed);
  }

  lemma LoneDeployed(h: History, rs: seq<Record>)
    requires IsListing(h, rs) && |rs| == 1
    ensures AnyDeployed(rs) <==> exists v :: IsNewestDeployed(h, v)
  {
    assert rs[0] in rs && h[rs[0].version] == rs[0].rel;
    if v :| IsNewestDeployed(h, v) {
      assert Record(v, h[v]) in rs;
    }
    if AnyDeployed(rs) {
      assert forall u | u in h :: Record(u, h[u]) in rs;
      assert IsNewestDeployed(h, rs[0].version);
    }
  }

  /** Below the limit the loop never stops early and every record but the newest deployed one goes. So the
      limit is kept as a minimum exactly when the history reaches it or has nothing else to lose. */
  lemma RetentionIsMinimum(before: History, after: History, max: int)
    requires Pruned(before, after, max, true)
    ensures var lone := |before| == 0 || (|before| == 1 && exists v :: IsNewestDeployed(before, v));
      var limit := if max <= 0 then 1 else max;
      |after| == (if |before| < limit then |before| else limit) <==> |before| >= limit || lone
  {
    var rs: seq<Record>, done: nat :| PrunedBy(before, after, max, true, rs, done);
    PrunedCount(before, after, max, rs);
    OthersCount(rs);
    if |rs| == 1 {
      LoneDeployed(before, rs);
    }
  }

  const HISTORIES_LIMIT := 2

  /** The listing of a history with one record that is not deployed. */
  lemma LoneListing(rel: Rel) returns (rs: seq<Record>)
    requires rel.status == NotDeployed
    ensures IsListing(map[1 := rel], rs) && NewestFirst(rs) && Versions(rs) == {1}
    ensures Doomed(rs, 2) == rs
  {
    rs := [Record(1, rel)];
    assert rs[..0] == [] && rs[0] in rs;
    assert forall r | r in rs :: r == Record(1, rel);
    assert !AnyDeployed(rs[..0]);
    OthersSnoc(rs, 0);
    assert rs[..1] == rs;
  }

  lemma AllDoomed(before: History, rs: seq<Record>, max: int)
    requires IsListing(before, rs) && NewestFirst(rs) && Doomed(rs, max) == rs && Versions(rs) == before.Keys
    ensures Pruned(before, map[], max, true)
  {
    assert rs[..|rs|] == rs && before - before.Keys == map[];
    assert PrunedBy(before, map[], max, true, rs, |rs|);
  }

  /** The smallest loss: a limit of two, and the only record, of a release that never got deployed, is deleted. */
  lemma LoneRecordIsLost(rel: Rel)
    requires rel.status == NotDeployed
    ensures Pruned(map[1 := rel], map[], 2, true)
  {
    var rs := LoneListing(rel);
    AllDoomed(map[1 := rel], rs, 2);
  }

  // ---------- ApplyChart ----------

  /** Helm's own install and upgrade, as changes of the history. */
  datatype Actions = Actions(install: History -> History, upgrade: History -> History)

  /** What is assumed of them: one call adds at most one record. */
  ghost predicate Modest(a: Actions) {
    forall h {:trigger a.install(h)} {:trigger a.upgrade(h)} :: |a.install(h)| <= |h| + 1 && |a.upgrade(h)| <= |h| + 1
  }

  ghost predicate IsLatest(h: History, v: int) {
    v in h && forall u | u in h :: u <= v
  }

  datatype Reaction = Installs | UpToDate | Upgrades

  ghost predicate Reacts(h: History, values: Dict, r: Reaction) {
    if h == map[] then r == Installs
    else exists v :: IsLatest(h, v) && r == ReactsTo(h[v], values)
  }

  function ReactsTo(newest: Rel, values: Dict): Reaction {
    if newest.status == Deployed && EqualMapValues(Some(newest.config), Some(values)) then UpToDate else Upgrades
  }

  /** One `ApplyChart` that got as far as the release storage; `clean` says that storage answered and every
      deletion worked. The result of the pruning is ignored. */
  ghost predicate ChartStep(a: Actions, values: Dict, before: History, after: History, clean: bool) {
    exists r, mid, ok :: ChartStepBy(a, values, before, after, r, mid, ok) && (clean ==> ok)
  }

  ghost predicate ChartStepBy(a: Actions, values: Dict, before: History, after: History,
                              r: Reaction, mid: History, ok: bool)
  {
    && Reacts(before, values, r)
    && match r
       case Installs => after == a.install(before)
       case UpToDate => after == before
       case Upgrades => Pruned(before, mid, HISTORIES_LIMIT, ok) && after == a.upgrade(mid)
  }

  /** What a call on a history with a newest release does: nothing if that one is deployed with the very values asked
      for; in every other case it prunes down to two records, if it can, and upgrades what is left. */
  lemma ChartStepMeans(a: Actions, values: Dict, before: History, after: History, clean: bool, v: int)
    requires ChartStep(a, values, before, after, clean)
    requires v in before && forall u | u in before :: u <= v
    ensures before[v].status == Deployed && before[v].config == values ==> after == before
    ensures before[v].status != Deployed || before[v].config != values ==>
              exists mid, ok :: Pruned(before, mid, 2, ok) && (clean ==> ok) && after == a.upgrade(mid)
  {
    var r, mid, ok :| ChartStepBy(a, values, before, after, r, mid, ok) && (clean ==> ok);
    EqualMeans(Some(before[v].config), Some(values));
    assert IsLatest(before, v);
    var u :| IsLatest(before, u) && r == ReactsTo(before[u], values);
    assert u == v;
    if r.Upgrades? {
      assert Pruned(before, mid, 2, ok) && after == a.upgrade(mid);
    }
  }

  class Chart {
    const storage: Storage

    constructor (storage: Storage)
      ensures this.storage == storage
    {
      this.storage := storage;
    }

    /** `action.Get`: the newest release. */
    method Latest() returns (v: int)
      requires storage.history != map[]
      ensures IsLatest(storage.history, v)
    {
      var todo := storage.history.Keys;
      v := Next(todo);
      todo := todo - {v};
      while todo != {}
        invariant v in storage.history && todo <= storage.history.Keys
        invariant forall u | u in storage.history && u !in todo :: u <= v
        decreases todo
      {
        var u := Next(todo);
        todo := todo - {u};
        if u > v {
          v := u;
        }
      }
    }

    /** `actions` is what Helm makes of this call, with its chart, values and failures. */
    method ApplyChart(values: Dict, actions: Actions)
      modifies storage
      ensures ChartStep(actions, values, old(storage.history), storage.history,
                        storage.listable && forall t :: storage.deletable(t))
      ensures old(storage.history) == map[] ==> storage.history == actions.install(map[])
      ensures forall v | v in old(storage.history) && (forall u | u in old(storage.history) :: u <= v) ::
                if old(storage.history)[v] == Rel(Deployed, values) then storage.history == old(storage.history)
                else exists mid, ok ::
                       Pruned(old(storage.history), mid, 2, ok) && storage.history == actions.upgrade(mid)
    {
      ghost var before := storage.history;
      if storage.history == map[] {
        storage.history := actions.install(storage.history);
        assert ChartStepBy(actions, values, before, storage.history, Installs, before, true);
        return;
      }
      var v := Latest();
      var exist := storage.history[v];
      if exist.status == Deployed && EqualMapValues(Some(exist.config), Some(values)) {
        assert ChartStepBy(actions, values, before, storage.history, UpToDate, before, true);
        return;
      }
      var ok := storage.RemoveHistories(HISTORIES_LIMIT);
      ghost var mid := storage.history;
      storage.history := actions.upgrade(storage.history);
      assert ChartStepBy(actions, values, before, storage.history, Upgrades, mid, ok);
    }
  }

  /** A call with some values and some outcome of its own, storage answering and deletions working. */
  ghost predicate ChartMove(before: History, after: History) {
    exists values, a :: Modest(a) && ChartStep(a, values, before, after, true)
  }

  ghost predicate ChartRun(tr: seq<History>) {
    tr != [] && forall i | 0 < i < |tr| :: ChartMove(tr[i - 1], tr[i])
  }

  /** However long the history was, an `ApplyChart` that changes it leaves at most three records. */
  lemma ChangeBounds(a: Actions, values: Dict, before: History, after: History)
    requires Modest(a) && ChartStep(a, values, before, after, true)
    ensures after == before || |after| <= HISTORIES_LIMIT + 1
  {
    var r, mid, ok :| ChartStepBy(a, values, before, after, r, mid, ok) && ok;
    if r.Upgrades? {
      var rs: seq<Record>, done: nat :| PrunedBy(before, mid, HISTORIES_LIMIT, true, rs, done);
      PrunedCount(before, mid, HISTORIES_LIMIT, rs);
      OthersCount(rs);
      assert |a.upgrade(mid)| <= |mid| + 1;
    } else if r.Installs? {
      assert |a.install(before)| <= |before| + 1;
    }
  }

  lemma MoveBounds(before: History, after: History)
    requires ChartMove(before, after)
    ensures after == before || |after| <= HISTORIES_LIMIT + 1
  {
    var values, a :| Modest(a) && ChartStep(a, values, before, after, true);
    ChangeBounds(a, values, before, after);
  }

  lemma {:induction false} SmallStepsStaySmall(tr: seq<History>, i: nat)
    requires i < |tr| && |tr[0]| <= HISTORIES_LIMIT + 1
    requires forall j | 0 < j < |tr| :: tr[j] == tr[j - 1] || |tr[j]| <= HISTORIES_LIMIT + 1
    ensures |tr[i]| <= HISTORIES_LIMIT + 1
  {
    if i > 0 {
      SmallStepsStaySmall(tr, i - 1);
    }
  }

  /** Over any sequence of calls, with any values and any outcomes of install and upgrade from call to call, a
      history of at most three records stays within three. */
  lemma HistoryStaysBounded(tr: seq<History>, i: nat)
    requires ChartRun(tr) && |tr[0]| <= HISTORIES_LIMIT + 1 && i < |tr|
    ensures |tr[i]| <= HISTORIES_LIMIT + 1
  {
    forall j | 0 < j < |tr| ensures tr[j] == tr[j - 1] || |tr[j]| <= HISTORIES_LIMIT + 1 {
      MoveBounds(tr[j - 1], tr[j]);
    }
    SmallStepsStaySmall(tr, i);
  }
}
