/** The resource ledger: `Diff` splits recorded and rendered objects, `SyncDiff` carries the split out. */
module Ledger {
  import opened Trees
  import opened Api

  // ---------- ignore-options annotation ----------

  const IGNORE_OPTIONS := "bundle.kubegems.io/ignore-options"
  const ON_UPDATE := "OnUpdate"
  const ON_DELETE := "OnDelete"

  /** Position of the first comma, or the length. */
  function Cut(s: string): (c: nat)
    ensures c <= |s| && (c < |s| ==> s[c] == ',')
    ensures forall j | 0 <= j < c :: s[j] != ','
  {
    if s == "" || s[0] == ',' then 0 else 1 + Cut(s[1..])
  }

  function Split(s: string): seq<string>
    decreases |s|
  {
    var c := Cut(s);
    if c == |s| then [s] else [s[..c]] + Split(s[c + 1..])
  }

  /** `IsSkipedOn`: the option is one of the comma-separated entries of the annotation. */
  predicate Skipped(o: Obj, opt: string) {
    IGNORE_OPTIONS in o.annotations && opt in Split(o.annotations[IGNORE_OPTIONS])
  }

  ghost predicate Around(text: string, opt: string, pre: string, post: string) {
    && text == pre + opt + post
    && (pre == "" || pre[|pre| - 1] == ',')
    && (post == "" || post[0] == ',')
  }

  /** `opt` stands in `text` between commas or the ends. */
  ghost predicate Listed(text: string, opt: string) {
    exists pre, post :: Around(text, opt, pre, post)
  }

  lemma AroundLater(text: string, opt: string, k: nat, pre: string, post: string)
    requires 0 < k <= |text| && text[k - 1] == ',' && Around(text[k..], opt, pre, post)
    ensures Around(text, opt, text[..k] + pre, post)
  {
    assert text == text[..k] + text[k..];
    assert (text[..k] + pre) + opt + post == text[..k] + (pre + opt + post);
  }

  lemma {:induction false} SplitThere(text: string, opt: string)
    requires opt in Split(text)
    ensures Listed(text, opt)
    decreases |text|
  {
    var c := Cut(text);
    if c == |text| {
      assert Around(text, opt, "", "");
    } else if opt == text[..c] {
      assert Around(text, opt, "", text[c..]);
    } else {
      assert opt in Split(text[c + 1..]);
      SplitThere(text[c + 1..], opt);
      var pre, post :| Around(text[c + 1..], opt, pre, post);
      AroundLater(text, opt, c + 1, pre, post);
    }
  }

  lemma {:induction false} SplitBack(text: string, opt: string, pre: string, post: string)
    requires ',' !in opt && Around(text, opt, pre, post)
    ensures opt in Split(text)
    decreases |text|
  {
    var c := Cut(text);
    if pre == "" {
      assert forall j | 0 <= j < |opt| :: text[j] == opt[j] && opt[j] != ',';
      assert post != "" ==> text[|opt|] == post[0] == ',';
      assert c == |opt| && text[..c] == opt;
      assert Split(text)[0] == opt;
    } else {
      assert text[|pre| - 1] == pre[|pre| - 1];
      var rest := text[c + 1..];
      assert rest == pre[c + 1..] + opt + post;
      SplitBack(rest, opt, pre[c + 1..], post);
    }
  }

  /** Which annotations skip an object, character by character. */
  lemma SkippedMeans(o: Obj, opt: string)
    requires ',' !in opt
    ensures Skipped(o, opt) <==>
      "bundle.kubegems.io/ignore-options" in o.annotations
      && Listed(o.annotations["bundle.kubegems.io/ignore-options"], opt)
  {
    if IGNORE_OPTIONS in o.annotations {
      var text := o.annotations[IGNORE_OPTIONS];
      if opt in Split(text) {
        SplitThere(text, opt);
      }
      if pre, post :| Around(text, opt, pre, post) {
        SplitBack(text, opt, pre, post);
      }
    }
  }

  // ---------- Diff ----------

  datatype DiffResult = DiffResult(creats: seq<Obj>, applys: seq<Obj>, removes: seq<Obj>)

  function Refs(objs: seq<Obj>): set<Ref> {
    set o | o in objs :: o.ref
  }

  function RefSeq(objs: seq<Obj>): seq<Ref> {
    seq(|objs|, i requires 0 <= i < |objs| => objs[i].ref)
  }

  function Elements(rs: seq<Ref>): set<Ref> {
    set r | r in rs
  }

  ghost predicate Distinct<T>(s: seq<T>) {
    forall i, j | 0 <= i < j < |s| :: s[i] != s[j]
  }

  /** Neither recorded nor rendered before. */
  predicate IsNew(managed: seq<Ref>, before: seq<Obj>, r: Ref) {
    r !in managed && r !in Refs(before)
  }

  /** The rendered objects that are new where they stand (`unseen`), or that are not, in order. */
  function Pick(managed: seq<Ref>, resources: seq<Obj>, unseen: bool): seq<Obj> {
    if resources == [] then []
    else
      var n := |resources| - 1;
      Pick(managed, resources[..n], unseen) +
      (if IsNew(managed, resources[..n], resources[n].ref) == unseen then [resources[n]] else [])
  }

  /** What `Diff` sends to be deleted: an object rebuilt from its reference alone. */
  function Bare(r: Ref): Obj {
    Obj(r, map[], map[])
  }

  /** `d` is a result `Diff` can return: the removals come in any order. */
  ghost predicate IsDiff(managed: seq<Ref>, resources: seq<Obj>, d: DiffResult) {
    && d.creats == Pick(managed, resources, true)
    && d.applys == Pick(managed, resources, false)
    && Distinct(d.removes)
    && (forall o | o in d.removes :: o == Bare(o.ref))
    && Refs(d.removes) == Elements(managed) - Refs(resources)
  }

  lemma {:induction false} RemovesExist(rs: set<Ref>) returns (objs: seq<Obj>)
    ensures Distinct(objs) && Refs(objs) == rs && forall o | o in objs :: o == Bare(o.ref)
  {
    if rs == {} {
      objs := [];
    } else {
      var r :| r in rs;
      var rest := RemovesExist(rs - {r});
      assert Bare(r) in rest ==> Bare(r).ref in Refs(rest);
      objs := rest + [Bare(r)];
      assert Refs(objs) == Refs(rest) + {r};
    }
  }

  method Diff(managed: seq<Ref>, resources: seq<Obj>) returns (d: DiffResult)
    ensures IsDiff(managed, resources, d)
  {
    var creats, applys, removes: seq<Obj> := [], [], [];
    var seen: map<Ref, bool> := map[];
    for i := 0 to |managed|
      invariant seen.Keys == Elements(managed[..i])
      invariant forall r | r in seen :: !seen[r]
    {
      seen := seen[managed[i] := false];
    }
    assert managed[..|managed|] == managed;
    for i := 0 to |resources|
      invariant creats == Pick(managed, resources[..i], true)
      invariant applys == Pick(managed, resources[..i], false)
      invariant seen.Keys == Elements(managed) + Refs(resources[..i])
      invariant forall r | r in seen :: seen[r] <==> r in Refs(resources[..i])
    {
      var item := resources[i];
      assert resources[..i + 1][..i] == resources[..i];
      if item.ref !in seen {
        creats := creats + [item];
      } else {
        applys := applys + [item];
      }
      seen := seen[item.ref := true];
    }
    assert resources[..|resources|] == resources;
    var todo := seen.Keys;
    while todo != {}
      invariant todo <= seen.Keys
      invariant Distinct(removes)
      invariant forall o | o in removes :: o == Bare(o.ref)
      invariant Refs(removes) == set r | r in seen && r !in todo && !seen[r]
      decreases todo
    {
      var k :| k in todo;
      todo := todo - {k};
      if !seen[k] {
        assert Bare(k) in removes ==> Bare(k).ref in Refs(removes);
        assert Refs(removes + [Bare(k)]) == Refs(removes) + {k};
        removes := removes + [Bare(k)];
      }
    }
    d := DiffResult(creats, applys, removes);
  }

  /** `a` and `b` are what is left and what is taken when `s` is dealt out in order. */
  ghost predicate Interleaves<T(!new)>(a: seq<T>, b: seq<T>, s: seq<T>) {
    if s == [] then a == [] && b == []
    else
      var n := |s| - 1;
      || (a != [] && a[|a| - 1] == s[n] && Interleaves(a[..|a| - 1], b, s[..n]))
      || (b != [] && b[|b| - 1] == s[n] && Interleaves(a, b[..|b| - 1], s[..n]))
  }

  lemma {:induction false} PickInterleaves(managed: seq<Ref>, resources: seq<Obj>)
    ensures Interleaves(Pick(managed, resources, true), Pick(managed, resources, false), resources)
  {
    if resources != [] {
      var n := |resources| - 1;
      var a, b := Pick(managed, resources[..n], true), Pick(managed, resources[..n], false);
      PickInterleaves(managed, resources[..n]);
      if IsNew(managed, resources[..n], resources[n].ref) {
        assert Pick(managed, resources, true) == a + [resources[n]];
        assert (a + [resources[n]])[..|a|] == a && b + [] == b;
      } else {
        assert Pick(managed, resources, false) == b + [resources[n]];
        assert (b + [resources[n]])[..|b|] == b && a + [] == a;
      }
    }
  }

  /** Exactly the unmanaged references are created, each once. */
  lemma {:induction false} PickCreates(managed: seq<Ref>, resources: seq<Obj>)
    ensures Distinct(RefSeq(Pick(managed, resources, true)))
    ensures Refs(Pick(managed, resources, true)) == Refs(resources) - Elements(managed)
  {
    if resources != [] {
      var n := |resources| - 1;
      var c := Pick(managed, resources[..n], true);
      PickCreates(managed, resources[..n]);
      PeelRefs(resources);
      if IsNew(managed, resources[..n], resources[n].ref) {
        var all := c + [resources[n]];
        assert Pick(managed, resources, true) == all;
        assert all[..|c|] == c;
        PeelRefs(all);
        assert forall i | 0 <= i < |c| :: RefSeq(c)[i] == c[i].ref && c[i].ref in Refs(c);
      } else {
        assert Pick(managed, resources, true) == c;
      }
    }
  }

  /** An unmanaged reference is created with the content of its first occurrence. */
  lemma {:induction false} PickFirst(managed: seq<Ref>, resources: seq<Obj>, i: nat)
    requires i < |resources| && IsNew(managed, resources[..i], resources[i].ref)
    ensures resources[i] in Pick(managed, resources, true)
  {
    var n := |resources| - 1;
    if i < n {
      assert resources[..n][..i] == resources[..i];
      PickFirst(managed, resources[..n], i);
    }
  }

  /** `Diff` is exact, with repeated references too. */
  lemma DiffExact(managed: seq<Ref>, resources: seq<Obj>, d: DiffResult)
    requires IsDiff(managed, resources, d)
    ensures Interleaves(d.creats, d.applys, resources)
    ensures Distinct(RefSeq(d.creats)) && Refs(d.creats) == Refs(resources) - Elements(managed)
    ensures Distinct(RefSeq(d.removes)) && Refs(d.removes) == Elements(managed) - Refs(resources)
    ensures Refs(d.applys) + Refs(d.creats) == Refs(resources)
    ensures forall i | 0 <= i < |resources| && IsNew(managed, resources[..i], resources[i].ref) ::
              resources[i] in d.creats
    ensures d.creats == [] && d.removes == [] <==> Elements(managed) == Refs(resources)
  {
    PickInterleaves(managed, resources);
    InterleavesAll(d.creats, d.applys, resources);
    PickCreates(managed, resources);
    forall i: nat | i < |resources| && IsNew(managed, resources[..i], resources[i].ref)
      ensures resources[i] in d.creats
    {
      PickFirst(managed, resources, i);
    }
    forall i, j | 0 <= i < j < |d.removes| ensures RefSeq(d.removes)[i] != RefSeq(d.removes)[j] {
      assert d.removes[i] == Bare(d.removes[i].ref);
    }
    RefsEmpty(d.creats);
    RefsEmpty(d.removes);
  }

  lemma RefsEmpty(objs: seq<Obj>)
    ensures objs == [] <==> Refs(objs) == {}
  {
    if objs != [] {
      assert objs[0].ref in Refs(objs);
    }
  }

  lemma {:induction false} InterleavesAll(a: seq<Obj>, b: seq<Obj>, s: seq<Obj>)
    requires Interleaves(a, b, s)
    ensures Refs(a) + Refs(b) == Refs(s)
    ensures multiset(RefSeq(a)) + multiset(RefSeq(b)) == multiset(RefSeq(s))
  {
    if s != [] {
      var n := |s| - 1;
      PeelRefs(s);
      if a != [] && a[|a| - 1] == s[n] && Interleaves(a[..|a| - 1], b, s[..n]) {
        InterleavesAll(a[..|a| - 1], b, s[..n]);
        PeelRefs(a);
      } else {
        InterleavesAll(a, b[..|b| - 1], s[..n]);
        PeelRefs(b);
      }
    }
  }

  lemma PeelRefs(s: seq<Obj>)
    requires s != []
    ensures var n := |s| - 1;
      Refs(s) == Refs(s[..n]) + {s[n].ref} && RefSeq(s) == RefSeq(s[..n]) + [s[n].ref]
  {
    assert s == s[..|s| - 1] + [s[|s| - 1]];
  }

  // ---------- SyncDiff ----------

  /** `createNsIfNotExists`; its error is ignored by every caller. */
  function EnsureNamespace(s: Server, w: World, name: string): World {
    if name == "" then w
    else
      var (w1, got) := OnGet(s, w, NamespaceRef(name));
      if got.Absent? then OnCreate(s, w1, NamespaceRef(name), map[]).0 else w1
  }

  /** `ApplyResource` with server-side apply: create when absent, else patch. */
  function ApplyResource(s: Server, w: World, o: Obj): (World, bool) {
    var (w1, got) := OnGet(s, w, o.ref);
    match got
    case GetFailed => (w1, false)
    case Absent => OnCreate(s, w1, o.ref, o.content)
    case Found(_) => OnPatch(s, w1, o.ref, o.content)
  }

  /** One iteration of one of the three loops. */
  datatype Step = Make(o: Obj) | Update(o: Obj) | Drop(o: Obj)

  /** The state the loops share: the server, the new ledger so far, and whether an error was recorded. */
  datatype Progress = Progress(w: World, managed: seq<Ref>, failed: bool)

  function Do(s: Server, p: Progress, step: Step): Progress {
    match step
    case Make(o) =>
      var (w, ok) := ApplyResource(s, EnsureNamespace(s, p.w, o.ref.namespace), o);
      if ok then Progress(w, p.managed + [o.ref], p.failed) else Progress(w, p.managed, true)
    case Update(o) =>
      if Skipped(o, ON_UPDATE) then p.(managed := p.managed + [o.ref])
      else
        var (w, ok) := ApplyResource(s, EnsureNamespace(s, p.w, o.ref.namespace), o);
        Progress(w, p.managed + [o.ref], p.failed || !ok)
    case Drop(o) =>
      if Skipped(o, ON_DELETE) then p
      else
        var (w, res) := OnDelete(s, p.w, o.ref);
        if res.DeleteFailed? then Progress(w, p.managed + [o.ref], true) else p.(w := w)
  }

  function Exec(s: Server, p: Progress, steps: seq<Step>): Progress
    decreases |steps|
  {
    if steps == [] then p else Exec(s, Do(s, p, steps[0]), steps[1..])
  }

  function Makes(items: seq<Obj>): seq<Step> {
    seq(|items|, i requires 0 <= i < |items| => Make(items[i]))
  }

  function Updates(items: seq<Obj>): seq<Step> {
    seq(|items|, i requires 0 <= i < |items| => Update(items[i]))
  }

  function Drops(items: seq<Obj>): seq<Step> {
    seq(|items|, i requires 0 <= i < |items| => Drop(items[i]))
  }

  /** Creates, then applies, then removes. */
  function Plan(d: DiffResult): seq<Step> {
    Makes(d.creats) + Updates(d.applys) + Drops(d.removes)
  }

  /** The whole of `SyncDiff` before sorting. */
  function Run(s: Server, w: World, d: DiffResult): Progress {
    Exec(s, Progress(w, [], false), Plan(d))
  }

  lemma {:induction false} ExecConcat(s: Server, p: Progress, a: seq<Step>, b: seq<Step>)
    ensures Exec(s, p, a + b) == Exec(s, Exec(s, p, a), b)
    decreases |a|
  {
    if a == [] {
      assert a + b == b;
    } else {
      assert (a + b)[1..] == a[1..] + b;
      ExecConcat(s, Do(s, p, a[0]), a[1..], b);
    }
  }

  lemma RunInParts(s: Server, w: World, d: DiffResult)
    ensures Run(s, w, d)
         == Exec(s, Exec(s, Exec(s, Progress(w, [], false), Makes(d.creats)), Updates(d.applys)), Drops(d.removes))
  {
    var p := Progress(w, [], false);
    ExecConcat(s, p, Makes(d.creats) + Updates(d.applys), Drops(d.removes));
    ExecConcat(s, p, Makes(d.creats), Updates(d.applys));
  }

  lemma ExecStep(s: Server, p: Progress, steps: seq<Step>, i: nat)
    requires i < |steps|
    ensures Exec(s, p, steps[i..]) == Exec(s, Do(s, p, steps[i]), steps[i + 1..])
  {
    assert steps[i..][1..] == steps[i + 1..];
  }

  // ---------- the order of the new ledger ----------

  /** `strings.Compare(a, b) == -1`. */
  predicate Less(a: string, b: string) {
    b != "" && (a == "" || a[0] < b[0] || (a[0] == b[0] && Less(a[1..], b[1..])))
  }

  lemma LessTransitive(a: string, b: string, c: string)
    requires !Less(a, b) && !Less(b, c)
    ensures !Less(a, c)
  {
  }

  lemma LessAsymmetric(a: string, b: string)
    ensures !(Less(a, b) && Less(b, a))
  {
  }

  /** The order of strings, position by position: `a` ends where `b` goes on, or has the smaller character where
      they first differ, which is position `n`. */
  predicate BelowAt(a: string, b: string, n: nat) {
    n <= |a| && n < |b| && a[..n] == b[..n] && (n == |a| || a[n] < b[n])
  }

  ghost predicate Below(a: string, b: string) {
    exists n: nat :: BelowAt(a, b, n)
  }

  lemma {:induction false} LessIsBelow(a: string, b: string)
    requires Less(a, b)
    ensures Below(a, b)
  {
    if a == "" || a[0] < b[0] {
      assert BelowAt(a, b, 0);
    } else {
      LessIsBelow(a[1..], b[1..]);
      var n: nat :| BelowAt(a[1..], b[1..], n);
      assert a[..n + 1] == [a[0]] + a[1..][..n] && b[..n + 1] == [b[0]] + b[1..][..n];
      assert BelowAt(a, b, n + 1);
    }
  }

  lemma {:induction false} BelowIsLess(a: string, b: string, n: nat)
    requires BelowAt(a, b, n)
    ensures Less(a, b)
  {
    if n > 0 {
      assert a[0] == a[..n][0] && b[0] == b[..n][0];
      assert a[1..][..n - 1] == a[..n][1..] && b[1..][..n - 1] == b[..n][1..];
      BelowIsLess(a[1..], b[1..], n - 1);
    }
  }

  lemma {:induction false} LessOrEqual(a: string, b: string)
    requires !Less(a, b) && a != b
    ensures Less(b, a)
  {
    if a != "" && b != "" && a[0] == b[0] {
      assert a == [a[0]] + a[1..] && b == [b[0]] + b[1..];
      LessOrEqual(a[1..], b[1..]);
    }
  }

  /** Sorted by API version, greatest first. */
  ghost predicate Descending(rs: seq<Ref>) {
    forall i, j {:trigger Less(rs[i].apiVersion, rs[j].apiVersion)} | 0 <= i < j < |rs| ::
      !Less(rs[i].apiVersion, rs[j].apiVersion)
  }

  /** Of two entries of a sorted ledger the earlier one has the same API version or the greater one. */
  lemma DescendingMeans(rs: seq<Ref>, i: nat, j: nat)
    requires Descending(rs) && i < j < |rs|
    ensures rs[i].apiVersion == rs[j].apiVersion || Below(rs[j].apiVersion, rs[i].apiVersion)
    ensures !Below(rs[i].apiVersion, rs[j].apiVersion)
  {
    var a, b := rs[i].apiVersion, rs[j].apiVersion;
    assert !Less(a, b);
    if a != b {
      LessOrEqual(a, b);
      LessIsBelow(b, a);
    }
    if n: nat :| BelowAt(a, b, n) {
      BelowIsLess(a, b, n);
    }
  }

  /** `t` is something `sort.Slice` may turn `s` into: it need not keep equal elements in order. */
  ghost predicate IsSorted(s: seq<Ref>, t: seq<Ref>) {
    Descending(t) && multiset(s) == multiset(t)
  }

  function Insert(r: Ref, t: seq<Ref>): (u: seq<Ref>)
    ensures multiset(u) == multiset(t) + multiset{r}
  {
    if t == [] then [r]
    else if Less(r.apiVersion, t[0].apiVersion) then
      assert t == [t[0]] + t[1..];
      [t[0]] + Insert(r, t[1..])
    else [r] + t
  }

  lemma PrependKeepsOrder(r: Ref, t: seq<Ref>)
    requires Descending(t) && forall x | x in t :: !Less(r.apiVersion, x.apiVersion)
    ensures Descending([r] + t)
  {
  }

  /** What is behind the head of a sorted list stays behind whatever the head is not less than. */
  lemma HeadBounds(r: Ref, t: seq<Ref>)
    requires t != [] && Descending(t) && !Less(r.apiVersion, t[0].apiVersion)
    ensures forall x | x in t :: !Less(r.apiVersion, x.apiVersion)
  {
    forall x | x in t ensures !Less(r.apiVersion, x.apiVersion) {
      var j :| 0 <= j < |t| && t[j] == x;
      if j > 0 {
        LessTransitive(r.apiVersion, t[0].apiVersion, x.apiVersion);
      }
    }
  }

  lemma {:induction false} InsertKeepsOrder(r: Ref, t: seq<Ref>)
    requires Descending(t)
    ensures Descending(Insert(r, t))
  {
    if t == [] {
    } else if Less(r.apiVersion, t[0].apiVersion) {
      var u := Insert(r, t[1..]);
      InsertKeepsOrder(r, t[1..]);
      LessAsymmetric(r.apiVersion, t[0].apiVersion);
      forall x | x in u ensures !Less(t[0].apiVersion, x.apiVersion) {
        assert x in multiset(u);
      }
      PrependKeepsOrder(t[0], u);
    } else {
      HeadBounds(r, t);
      PrependKeepsOrder(r, t);
    }
  }

  /** Every list has a sorted form. */
  lemma {:induction false} SortedExists(s: seq<Ref>) returns (t: seq<Ref>)
    ensures IsSorted(s, t)
  {
    if s == [] {
      t := [];
    } else {
      assert s == [s[0]] + s[1..];
      var rest := SortedExists(s[1..]);
      InsertKeepsOrder(s[0], rest);
      t := Insert(s[0], rest);
    }
  }

  method SortByApiVersion(s: seq<Ref>) returns (t: seq<Ref>)
    ensures IsSorted(s, t)
  {
    t := [];
    for i := 0 to |s|
      invariant IsSorted(s[..i], t)
    {
      assert s[..i + 1] == s[..i] + [s[i]];
      InsertKeepsOrder(s[i], t);
      t := Insert(s[i], t);
    }
    assert s[..|s|] == s;
  }

  /** What a `SyncDiff` run does to the server, reports and returns. */
  ghost predicate Synced(s: Server, before: World, d: DiffResult, after: World, managed: seq<Ref>, ok: bool) {
    var p := Run(s, before, d);
    after == p.w && ok == !p.failed && IsSorted(p.managed, managed)
  }

  /** The `utils.Apply` object: the ledger operations against one client, with the default options. */
  class Syncer {
    const client: Client

    constructor (client: Client)
      ensures this.client == client
    {
      this.client := client;
    }

    method CreateNsIfNotExists(name: string)
      modifies client
      ensures client.world == EnsureNamespace(client.server, old(client.world), name)
    {
      if name == "" {
        return;
      }
      var got := client.Get(NamespaceRef(name));
      if got.Absent? {
        var _ := client.Create(NamespaceRef(name), map[]);
      }
    }

    method ApplyObject(o: Obj) returns (ok: bool)
      modifies client
      ensures (client.world, ok) == ApplyResource(client.server, old(client.world), o)
    {
      var got := client.Get(o.ref);
      match got
      case GetFailed => ok := false;
      case Absent => ok := client.Create(o.ref, o.content);
      case Found(_) => ok := client.Patch(o.ref, o.content);
    }

    /** The create loop. */
    method CreateAll(items: seq<Obj>, recorded: seq<Ref>, clean: bool) returns (managed: seq<Ref>, ok: bool)
      modifies client
      ensures Progress(client.world, managed, !ok)
           == Exec(client.server, Progress(old(client.world), recorded, !clean), Makes(items))
    {
      managed, ok := recorded, clean;
      ghost var steps := Makes(items);
      assert steps[0..] == steps;
      for i := 0 to |items|
        invariant Exec(client.server, Progress(client.world, managed, !ok), steps[i..])
               == Exec(client.server, Progress(old(client.world), recorded, !clean), steps)
      {
        var item := items[i];
        ExecStep(client.server, Progress(client.world, managed, !ok), steps, i);
        CreateNsIfNotExists(item.ref.namespace);
        var done := ApplyObject(item);
        if !done {
          ok := false;
          continue;
        }
        managed := managed + [item.ref];
      }
    }

    /** The apply loop: the reference is recorded before anything can fail. */
    method ApplyAll(items: seq<Obj>, recorded: seq<Ref>, clean: bool) returns (managed: seq<Ref>, ok: bool)
      modifies client
      ensures Progress(client.world, managed, !ok)
           == Exec(client.server, Progress(old(client.world), recorded, !clean), Updates(items))
    {
      managed, ok := recorded, clean;
      ghost var steps := Updates(items);
      assert steps[0..] == steps;
      for i := 0 to |items|
        invariant Exec(client.server, Progress(client.world, managed, !ok), steps[i..])
               == Exec(client.server, Progress(old(client.world), recorded, !clean), steps)
      {
        var item := items[i];
        ExecStep(client.server, Progress(client.world, managed, !ok), steps, i);
        managed := managed + [item.ref];
        if Skipped(item, ON_UPDATE) {
          continue;
        }
        CreateNsIfNotExists(item.ref.namespace);
        var done := ApplyObject(item);
        if !done {
          ok := false;
        }
      }
    }

    /** The remove loop: what could not be deleted stays recorded. */
    method RemoveAll(items: seq<Obj>, recorded: seq<Ref>, clean: bool) returns (managed: seq<Ref>, ok: bool)
      modifies client
      ensures Progress(client.world, managed, !ok)
           == Exec(client.server, Progress(old(client.world), recorded, !clean), Drops(items))
    {
      managed, ok := recorded, clean;
      ghost var steps := Drops(items);
      assert steps[0..] == steps;
      for i := 0 to |items|
        invariant Exec(client.server, Progress(client.world, managed, !ok), steps[i..])
               == Exec(client.server, Progress(old(client.world), recorded, !clean), steps)
      {
        var item := items[i];
        ExecStep(client.server, Progress(client.world, managed, !ok), steps, i);
        if Skipped(item, ON_DELETE) {
          continue;
        }
        var res := client.Delete(item.ref);
        if res.DeleteFailed? {
          managed, ok := managed + [item.ref], false;
        }
      }
    }

    method SyncDiff(d: DiffResult) returns (managed: seq<Ref>, ok: bool)
      modifies client
      ensures Synced(client.server, old(client.world), d, client.world, managed, ok)
    {
      RunInParts(client.server, client.world, d);
      managed, ok := CreateAll(d.creats, [], true);
      managed, ok := ApplyAll(d.applys, managed, ok);
      managed, ok := RemoveAll(d.removes, managed, ok);
      managed := SortByApiVersion(managed);
    }

    method Sync(recorded: seq<Ref>, resources: seq<Obj>) returns (managed: seq<Ref>, ok: bool)
      modifies client
      ensures exists d :: IsDiff(recorded, resources, d) &&
                Synced(client.server, old(client.world), d, client.world, managed, ok)
    {
      var d := Diff(recorded, resources);
      managed, ok := SyncDiff(d);
    }
  }
}
