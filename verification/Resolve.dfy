/** Resolving a bundle's values from ConfigMaps and Secrets, and the watch that re-queues bundles when one of
    these changes. */
module Resolve {
  import opened Trees
  import opened ValuesField
  import opened Native

  datatype Key = Key(namespace: string, name: string)

  datatype ConfigMap = ConfigMap(data: map<string, string>, binaryData: map<string, string>)

  /** The ConfigMaps and Secrets in the cluster. */
  datatype Configs = Configs(maps: map<Key, ConfigMap>, secrets: map<Key, map<string, string>>)

  /** `yaml` and `assign` stand for `yaml.Unmarshal` and `strvals.ParseInto`. */
  datatype Library = Library(yaml: string -> Option<Dict>, assign: (string, string, Dict) -> Option<Dict>)

  /** What one reconcile meets while it reads: `order(n, keys)` is the order in which its n-th range loop visits
      `keys`, `reachable(i)` says whether its i-th read gets an answer. */
  datatype Reading = Reading(order: (nat, set<string>) -> seq<string>, reachable: nat -> bool)

  ghost predicate Ordered(reading: Reading) {
    forall n: nat, ks :: multiset(reading.order(n, ks)) == multiset(ks)
  }

  ghost function InSomeOrder(ks: set<string>): (keys: seq<string>)
    ensures multiset(keys) == multiset(ks)
  {
    if ks == {} then []
    else
      var k :| k in ks;
      assert multiset(ks) == multiset(ks - {k}) + multiset{k};
      [k] + InSomeOrder(ks - {k})
  }

  /** A range loop visits each key once. */
  type Reads = reading: Reading | Ordered(reading) ghost witness Reading((_, ks) => InSomeOrder(ks), _ => true)

  datatype Failure = NoSuchObject(ref: ValuesFrom) | Unreachable | BadEntry(key: string) | UnknownKind(kind: string)

  datatype Outcome = Merged(values: Dict) | Rejected(failure: Failure)

  function Lower(s: string): string {
    seq(|s|, i requires 0 <= i < |s| => if 'A' <= s[i] <= 'Z' then s[i] - 'A' + 'a' else s[i])
  }

  predicate IsSecret(kind: string) {
    Lower(kind) == "secret" || Lower(kind) == "secrets"
  }

  predicate IsConfigMap(kind: string) {
    Lower(kind) == "configmap" || Lower(kind) == "configmaps"
  }

  /** The `--set` loop over text entries. */
  function SetAll(lib: Library, prefix: string, data: map<string, string>, keys: seq<string>, base: Dict): Outcome
    requires forall k | k in keys :: k in data
    decreases |keys|
  {
    if keys == [] then Merged(base)
    else
      match lib.assign(prefix + keys[0], data[keys[0]], base)
      case None => Rejected(BadEntry(keys[0]))
      case Some(next) => SetAll(lib, prefix, data, keys[1..], next)
  }

  /** The `--values` loop over whole files. */
  function MergeFiles(lib: Library, data: map<string, string>, keys: seq<string>, base: Dict): Outcome
    requires forall k | k in keys :: k in data
    decreases |keys|
  {
    if keys == [] then Merged(base)
    else
      match lib.yaml(data[keys[0]])
      case None => Rejected(BadEntry(keys[0]))
      case Some(file) => MergeFiles(lib, data, keys[1..], MergeDict(base, file))
  }

  lemma OrderCovers(reading: Reads, n: nat, data: map<string, string>)
    ensures forall k | k in reading.order(n, data.Keys) :: k in data
  {
    forall k | k in reading.order(n, data.Keys) ensures k in data {
      assert k in multiset(reading.order(n, data.Keys));
    }
  }

  function ApplySecret(lib: Library, reading: Reads, i: nat, ref: ValuesFrom, data: map<string, string>, base: Dict)
    : Outcome
  {
    OrderCovers(reading, 2 * i + 1, data);
    SetAll(lib, ref.prefix, data, reading.order(2 * i + 1, data.Keys), base)
  }

  function ApplyConfigMap(lib: Library, reading: Reads, i: nat, ref: ValuesFrom, cm: ConfigMap, base: Dict): Outcome
  {
    OrderCovers(reading, 2 * i, cm.binaryData);
    OrderCovers(reading, 2 * i + 1, cm.data);
    match MergeFiles(lib, cm.binaryData, reading.order(2 * i, cm.binaryData.Keys), base)
    case Rejected(f) => Rejected(f)
    case Merged(merged) => SetAll(lib, ref.prefix, cm.data, reading.order(2 * i + 1, cm.data.Keys), merged)
  }

  /** The i-th reference applied to what the ones before it produced. */
  function ApplyRef(lib: Library, reading: Reads, configs: Configs, ns: string, i: nat, ref: ValuesFrom, base: Dict)
    : Outcome
  {
    var key := Key(ns, ref.name);
    if IsSecret(ref.kind) then
      if !reading.reachable(i) then Rejected(Unreachable)
      else if key in configs.secrets then ApplySecret(lib, reading, i, ref, configs.secrets[key], base)
      else if ref.optional then Merged(base)
      else Rejected(NoSuchObject(ref))
    else if IsConfigMap(ref.kind) then
      if !reading.reachable(i) then Rejected(Unreachable)
      else if key in configs.maps then ApplyConfigMap(lib, reading, i, ref, configs.maps[key], base)
      else if ref.optional then Merged(base)
      else Rejected(NoSuchObject(ref))
    else Rejected(UnknownKind(ref.kind))
  }

  function ApplyRefs(lib: Library, reading: Reads, configs: Configs, ns: string, refs: seq<ValuesFrom>, i: nat,
                     base: Dict): Outcome
    requires i <= |refs|
    decreases |refs| - i
  {
    if i == |refs| then Merged(base)
    else
      match ApplyRef(lib, reading, configs, ns, i, refs[i], base)
      case Rejected(f) => Rejected(f)
      case Merged(next) => ApplyRefs(lib, reading, configs, ns, refs, i + 1, next)
  }

  function Inlined(spec: Spec): Dict {
    if spec.values.obj == None then map[] else spec.values.obj.value
  }

  /** The resolved values of a bundle: the references in order, the inlined values last. */
  function Resolved(lib: Library, reading: Reads, configs: Configs, ns: string, spec: Spec): Outcome
  {
    match ApplyRefs(lib, reading, configs, ns, spec.valuesFrom, 0, map[])
    case Rejected(f) => Rejected(f)
    case Merged(base) => Merged(MergeDict(base, Inlined(spec)))
  }

  /** Inlined values win: whatever data the spec states itself is in the resolved values. */
  lemma InlinedValuesWin(lib: Library, reading: Reads, configs: Configs, ns: string, spec: Spec, path: seq<string>,
                         v: Tree)
    requires Resolved(lib, reading, configs, ns, spec).Merged?
    requires Data(v) && At(Node(Inlined(spec)), path) == Reached(v)
    ensures At(Node(Resolved(lib, reading, configs, ns, spec).values), path) == Reached(v)
  {
    var base := ApplyRefs(lib, reading, configs, ns, spec.valuesFrom, 0, map[]).values;
    MergeData(Node(base), Node(Inlined(spec)), path, v);
  }

  // ---------- what resolving means, map by map ----------

  /** `maps` starts with `base`; each entry, taken once in the order of `keys`, is assigned to the map before. The
      result is the last map, or the failure of the first entry that cannot be assigned. */
  ghost predicate Assigned(lib: Library, prefix: string, data: map<string, string>, base: Dict, out: Outcome,
                           keys: seq<string>, maps: seq<Dict>)
  {
    && multiset(keys) == multiset(data.Keys) && (forall k | k in keys :: k in data)
    && 0 < |maps| <= |keys| + 1 && maps[0] == base
    && (forall j | 0 <= j < |maps| - 1 ::
          lib.assign(prefix + keys[j], data[keys[j]], maps[j]) == Some(maps[j + 1]))
    && var n := |maps| - 1;
       if n == |keys| then out == Merged(maps[n])
       else lib.assign(prefix + keys[n], data[keys[n]], maps[n]) == None && out == Rejected(BadEntry(keys[n]))
  }

  /** The same with whole files, each parsed and merged over the map before. */
  ghost predicate Overlaid(lib: Library, data: map<string, string>, base: Dict, out: Outcome,
                           keys: seq<string>, maps: seq<Dict>)
  {
    && multiset(keys) == multiset(data.Keys) && (forall k | k in keys :: k in data)
    && 0 < |maps| <= |keys| + 1 && maps[0] == base
    && (forall j | 0 <= j < |maps| - 1 ::
          lib.yaml(data[keys[j]]).Some? && maps[j + 1] == MergeDict(maps[j], lib.yaml(data[keys[j]]).value))
    && var n := |maps| - 1;
       if n == |keys| then out == Merged(maps[n])
       else lib.yaml(data[keys[n]]) == None && out == Rejected(BadEntry(keys[n]))
  }

  /** All files first, then all entries. */
  ghost predicate FilesThenEntries(lib: Library, prefix: string, cm: ConfigMap, base: Dict, mid: Outcome, out: Outcome)
  {
    && (exists keys, maps :: Overlaid(lib, cm.binaryData, base, mid, keys, maps))
    && match mid
       case Rejected(_) => out == mid
       case Merged(merged) => exists keys, maps :: Assigned(lib, prefix, cm.data, merged, out, keys, maps)
  }

  /** `kind` is `name`, capital letters aside. */
  predicate Spells(kind: string, name: string) {
    && |kind| == |name|
    && forall i | 0 <= i < |kind| ::
         kind[i] == name[i] || ('A' <= kind[i] <= 'Z' && kind[i] as int + 32 == name[i] as int)
  }

  predicate SpellsSecret(kind: string) {
    Spells(kind, "secret") || Spells(kind, "secrets")
  }

  predicate SpellsConfigMap(kind: string) {
    Spells(kind, "configmap") || Spells(kind, "configmaps")
  }

  /** What one reference makes of what the ones before it produced. */
  ghost predicate Yields(lib: Library, configs: Configs, ns: string, reachable: bool, ref: ValuesFrom, base: Dict,
                         out: Outcome)
  {
    var key := Key(ns, ref.name);
    if !SpellsSecret(ref.kind) && !SpellsConfigMap(ref.kind) then out == Rejected(UnknownKind(ref.kind))
    else if !reachable then out == Rejected(Unreachable)
    else if SpellsSecret(ref.kind) && key in configs.secrets then
      exists keys, maps :: Assigned(lib, ref.prefix, configs.secrets[key], base, out, keys, maps)
    else if SpellsConfigMap(ref.kind) && key in configs.maps then
      exists mid :: FilesThenEntries(lib, ref.prefix, configs.maps[key], base, mid, out)
    else out == if ref.optional then Merged(base) else Rejected(NoSuchObject(ref))
  }

  lemma LowerSpells(kind: string, name: string)
    requires forall i | 0 <= i < |name| :: 'a' <= name[i] <= 'z'
    ensures Lower(kind) == name <==> Spells(kind, name)
  {
    if Spells(kind, name) {
      assert forall i | 0 <= i < |kind| :: Lower(kind)[i] == name[i];
    }
    if Lower(kind) == name {
      assert forall i | 0 <= i < |kind| :: Lower(kind)[i] == name[i];
    }
  }

  lemma KindsMean(kind: string)
    ensures IsSecret(kind) <==> SpellsSecret(kind)
    ensures IsConfigMap(kind) <==> SpellsConfigMap(kind)
    ensures !(IsSecret(kind) && IsConfigMap(kind))
  {
    LowerSpells(kind, "secret");
    LowerSpells(kind, "secrets");
    LowerSpells(kind, "configmap");
    LowerSpells(kind, "configmaps");
    KnownKinds();
  }

  /** The chain behind the `--set` loop; `keys` is the part of `order` still to come. */
  lemma {:induction false} SetAllChain(lib: Library, prefix: string, data: map<string, string>, keys: seq<string>,
                                       base: Dict) returns (maps: seq<Dict>)
    requires forall k | k in keys :: k in data
    ensures 0 < |maps| <= |keys| + 1 && maps[0] == base
    ensures forall j | 0 <= j < |maps| - 1 ::
              lib.assign(prefix + keys[j], data[keys[j]], maps[j]) == Some(maps[j + 1])
    ensures var n := |maps| - 1;
      if n == |keys| then SetAll(lib, prefix, data, keys, base) == Merged(maps[n])
      else lib.assign(prefix + keys[n], data[keys[n]], maps[n]) == None
           && SetAll(lib, prefix, data, keys, base) == Rejected(BadEntry(keys[n]))
    decreases |keys|
  {
    maps := [base];
    if keys != [] && lib.assign(prefix + keys[0], data[keys[0]], base).Some? {
      var next := lib.assign(prefix + keys[0], data[keys[0]], base).value;
      var rest := SetAllChain(lib, prefix, data, keys[1..], next);
      maps := [base] + rest;
      forall j | 0 <= j < |maps| - 1
        ensures lib.assign(prefix + keys[j], data[keys[j]], maps[j]) == Some(maps[j + 1])
      {
        if j > 0 {
          assert keys[j] == keys[1..][j - 1] && maps[j] == rest[j - 1] && maps[j + 1] == rest[j];
        }
      }
    }
  }

  lemma {:induction false} MergeFilesChain(lib: Library, data: map<string, string>, keys: seq<string>, base: Dict)
    returns (maps: seq<Dict>)
    requires forall k | k in keys :: k in data
    ensures 0 < |maps| <= |keys| + 1 && maps[0] == base
    ensures forall j | 0 <= j < |maps| - 1 ::
              lib.yaml(data[keys[j]]).Some? && maps[j + 1] == MergeDict(maps[j], lib.yaml(data[keys[j]]).value)
    ensures var n := |maps| - 1;
      if n == |keys| then MergeFiles(lib, data, keys, base) == Merged(maps[n])
      else lib.yaml(data[keys[n]]) == None && MergeFiles(lib, data, keys, base) == Rejected(BadEntry(keys[n]))
    decreases |keys|
  {
    maps := [base];
    if keys != [] && lib.yaml(data[keys[0]]).Some? {
      var next := MergeDict(base, lib.yaml(data[keys[0]]).value);
      var rest := MergeFilesChain(lib, data, keys[1..], next);
      maps := [base] + rest;
      forall j | 0 <= j < |maps| - 1
        ensures lib.yaml(data[keys[j]]).Some? && maps[j + 1] == MergeDict(maps[j], lib.yaml(data[keys[j]]).value)
      {
        if j > 0 {
          assert keys[j] == keys[1..][j - 1] && maps[j] == rest[j - 1] && maps[j + 1] == rest[j];
        }
      }
    }
  }

  lemma SecretMeans(lib: Library, reading: Reads, i: nat, ref: ValuesFrom, data: map<string, string>, base: Dict)
    ensures exists keys, maps ::
              Assigned(lib, ref.prefix, data, base, ApplySecret(lib, reading, i, ref, data, base), keys, maps)
  {
    OrderCovers(reading, 2 * i + 1, data);
    var keys := reading.order(2 * i + 1, data.Keys);
    var maps := SetAllChain(lib, ref.prefix, data, keys, base);
    assert Assigned(lib, ref.prefix, data, base, ApplySecret(lib, reading, i, ref, data, base), keys, maps);
  }

  lemma ConfigMapMeans(lib: Library, reading: Reads, i: nat, ref: ValuesFrom, cm: ConfigMap, base: Dict)
    ensures exists mid ::
              FilesThenEntries(lib, ref.prefix, cm, base, mid, ApplyConfigMap(lib, reading, i, ref, cm, base))
  {
    OrderCovers(reading, 2 * i, cm.binaryData);
    var keys := reading.order(2 * i, cm.binaryData.Keys);
    var mid := MergeFiles(lib, cm.binaryData, keys, base);
    var maps := MergeFilesChain(lib, cm.binaryData, keys, base);
    assert Overlaid(lib, cm.binaryData, base, mid, keys, maps);
    var out := ApplyConfigMap(lib, reading, i, ref, cm, base);
    if mid.Merged? {
      SecretMeans(lib, reading, i, ref, cm.data, mid.values);
      assert out == ApplySecret(lib, reading, i, ref, cm.data, mid.values);
    }
    assert FilesThenEntries(lib, ref.prefix, cm, base, mid, out);
  }

  lemma RefMeans(lib: Library, reading: Reads, configs: Configs, ns: string, i: nat, ref: ValuesFrom, base: Dict)
    ensures Yields(lib, configs, ns, reading.reachable(i), ref, base,
                   ApplyRef(lib, reading, configs, ns, i, ref, base))
  {
    var key := Key(ns, ref.name);
    KindsMean(ref.kind);
    if IsSecret(ref.kind) && key in configs.secrets {
      SecretMeans(lib, reading, i, ref, configs.secrets[key], base);
    } else if IsConfigMap(ref.kind) && key in configs.maps {
      ConfigMapMeans(lib, reading, i, ref, configs.maps[key], base);
    }
  }

  /** `maps` starts with `base`; each reference from the i-th on turns one map into the next, until there is none left
      or one fails. */
  ghost predicate Chained(lib: Library, reading: Reads, configs: Configs, ns: string, refs: seq<ValuesFrom>, i: nat,
                          maps: seq<Dict>, out: Outcome)
    requires i <= |refs|
  {
    && 0 < |maps| <= |refs| - i + 1
    && (forall j: nat | j < |maps| - 1 ::
          YieldsAt(lib, reading, configs, ns, refs, i + j, maps[j], Merged(maps[j + 1])))
    && var n := |maps| - 1;
       if i + n == |refs| then out == Merged(maps[n])
       else out.Rejected? && YieldsAt(lib, reading, configs, ns, refs, i + n, maps[n], out)
  }

  ghost predicate YieldsAt(lib: Library, reading: Reads, configs: Configs, ns: string, refs: seq<ValuesFrom>, i: nat,
                           base: Dict, out: Outcome)
    requires i < |refs|
  {
    Yields(lib, configs, ns, reading.reachable(i), refs[i], base, out)
  }

  lemma ChainCons(lib: Library, reading: Reads, configs: Configs, ns: string, refs: seq<ValuesFrom>, i: nat,
                  base: Dict, maps: seq<Dict>, out: Outcome)
    requires i < |refs| && Chained(lib, reading, configs, ns, refs, i + 1, maps, out)
    requires YieldsAt(lib, reading, configs, ns, refs, i, base, Merged(maps[0]))
    ensures Chained(lib, reading, configs, ns, refs, i, [base] + maps, out)
  {
    var all := [base] + maps;
    forall j: nat | j < |all| - 1
      ensures YieldsAt(lib, reading, configs, ns, refs, i + j, all[j], Merged(all[j + 1]))
    {
      if j > 0 {
        assert YieldsAt(lib, reading, configs, ns, refs, i + 1 + (j - 1), maps[j - 1], Merged(maps[j - 1 + 1]));
      }
    }
  }

  lemma {:induction false} RefsChain(lib: Library, reading: Reads, configs: Configs, ns: string, refs: seq<ValuesFrom>,
                                     i: nat, base: Dict) returns (maps: seq<Dict>)
    requires i <= |refs|
    ensures Chained(lib, reading, configs, ns, refs, i, maps, ApplyRefs(lib, reading, configs, ns, refs, i, base))
    ensures maps[0] == base
    decreases |refs| - i
  {
    maps := [base];
    if i < |refs| {
      RefMeans(lib, reading, configs, ns, i, refs[i], base);
      var next := ApplyRef(lib, reading, configs, ns, i, refs[i], base);
      assert YieldsAt(lib, reading, configs, ns, refs, i, base, next);
      if next.Merged? {
        var rest := RefsChain(lib, reading, configs, ns, refs, i + 1, next.values);
        ChainCons(lib, reading, configs, ns, refs, i, base, rest,
                  ApplyRefs(lib, reading, configs, ns, refs, i, base));
        maps := [base] + rest;
      }
    }
  }

  /** The whole resolution: starting from the empty map, each reference works on what the one before it produced; the
      first that fails decides the failure; if none does, the inlined values go over the last map. */
  lemma ResolvedMeans(lib: Library, reading: Reads, configs: Configs, ns: string, spec: Spec)
    returns (maps: seq<Dict>, out: Outcome)
    ensures Chained(lib, reading, configs, ns, spec.valuesFrom, 0, maps, out) && maps[0] == map[]
    ensures Resolved(lib, reading, configs, ns, spec) ==
      if out.Merged? then Merged(MergeDict(out.values, AsMap(spec.values.obj))) else out
  {
    maps := RefsChain(lib, reading, configs, ns, spec.valuesFrom, 0, map[]);
    out := ApplyRefs(lib, reading, configs, ns, spec.valuesFrom, 0, map[]);
  }

  // ---------- the loops ----------

  class Resolver {
    const lib: Library
    const codec: Codec

    constructor (lib: Library, codec: Codec)
      ensures this.lib == lib && this.codec == codec
    {
      this.lib, this.codec := lib, codec;
    }

    method SetEntries(prefix: string, data: map<string, string>, keys: seq<string>, start: Dict)
      returns (out: Outcome)
      requires forall k | k in keys :: k in data
      ensures out == SetAll(lib, prefix, data, keys, start)
    {
      var base := start;
      for i := 0 to |keys|
        invariant SetAll(lib, prefix, data, keys[i..], base) == SetAll(lib, prefix, data, keys, start)
      {
        assert keys[i..][1..] == keys[i + 1..];
        var next := lib.assign(prefix + keys[i], data[keys[i]], base);
        if next == None {
          return Rejected(BadEntry(keys[i]));
        }
        base := next.value;
      }
      return Merged(base);
    }

    method MergeEntries(data: map<string, string>, keys: seq<string>, start: Dict) returns (out: Outcome)
      requires forall k | k in keys :: k in data
      ensures out == MergeFiles(lib, data, keys, start)
    {
      var base := start;
      for i := 0 to |keys|
        invariant MergeFiles(lib, data, keys[i..], base) == MergeFiles(lib, data, keys, start)
      {
        assert keys[i..][1..] == keys[i + 1..];
        var file := lib.yaml(data[keys[i]]);
        if file == None {
          return Rejected(BadEntry(keys[i]));
        }
        base := MergeMaps(base, file.value);
      }
      return Merged(base);
    }

    method ResolveOne(reading: Reads, configs: Configs, ns: string, i: nat, ref: ValuesFrom, base: Dict)
      returns (out: Outcome)
      ensures out == ApplyRef(lib, reading, configs, ns, i, ref, base)
    {
      var key := Key(ns, ref.name);
      if IsSecret(ref.kind) {
        if !reading.reachable(i) {
          return Rejected(Unreachable);
        }
        if key !in configs.secrets {
          return if ref.optional then Merged(base) else Rejected(NoSuchObject(ref));
        }
        OrderCovers(reading, 2 * i + 1, configs.secrets[key]);
        out := SetEntries(ref.prefix, configs.secrets[key], reading.order(2 * i + 1, configs.secrets[key].Keys), base);
      } else if IsConfigMap(ref.kind) {
        if !reading.reachable(i) {
          return Rejected(Unreachable);
        }
        if key !in configs.maps {
          return if ref.optional then Merged(base) else Rejected(NoSuchObject(ref));
        }
        var cm := configs.maps[key];
        OrderCovers(reading, 2 * i, cm.binaryData);
        OrderCovers(reading, 2 * i + 1, cm.data);
        out := MergeEntries(cm.binaryData, reading.order(2 * i, cm.binaryData.Keys), base);
        if out.Rejected? {
          return;
        }
        out := SetEntries(ref.prefix, cm.data, reading.order(2 * i + 1, cm.data.Keys), out.values);
      } else {
        return Rejected(UnknownKind(ref.kind));
      }
    }

    /** `resolveValuesRef`: on success the in-memory spec carries the resolved values. */
    method ResolveValuesRef(reading: Reads, configs: Configs, bundle: Bundle) returns (failure: Option<Failure>)
        modifies bundle`spec
      ensures match Resolved(lib, reading, configs, bundle.namespace, old(bundle.spec))
        case Rejected(f) => failure == Some(f) && bundle.spec == old(bundle.spec)
        case Merged(d) =>
          && failure == None
          && bundle.spec == old(bundle.spec).(values := Values(Some(codec.encode(d)), Some(d)))
    {
      var base, ns, refs := map[], bundle.namespace, bundle.spec.valuesFrom;
      for i := 0 to |refs|
        invariant bundle.spec == old(bundle.spec)
        invariant ApplyRefs(lib, reading, configs, ns, refs, i, base)
               == ApplyRefs(lib, reading, configs, ns, refs, 0, map[])
      {
        var out := ResolveOne(reading, configs, ns, i, refs[i], base);
        if out.Rejected? {
          return Some(out.failure);
        }
        base := out.values;
      }
      base := MergeMaps(base, Inlined(bundle.spec));
      bundle.spec := bundle.spec.(values := FullFill(codec, Values(None, Some(base))));
      return None;
    }
  }

  // ---------- random order of files ----------

  ghost function Files(lib: Library, data: map<string, string>, keys: seq<string>): seq<Dict>
    requires forall k | k in keys :: k in data && lib.yaml(data[k]).Some?
  {
    seq(|keys|, i requires 0 <= i < |keys| => lib.yaml(data[keys[i]]).value)
  }

  lemma {:induction false} FilesMerge(lib: Library, data: map<string, string>, keys: seq<string>, base: Dict)
    requires forall k | k in keys :: k in data && lib.yaml(data[k]).Some?
    ensures MergeFiles(lib, data, keys, base) == Merged(MergeAll(base, Files(lib, data, keys)))
    decreases |keys|
  {
    if keys != [] {
      var file := lib.yaml(data[keys[0]]).value;
      assert Files(lib, data, keys) == [file] + Files(lib, data, keys[1..]);
      assert Files(lib, data, keys)[1..] == Files(lib, data, keys[1..]);
      FilesMerge(lib, data, keys[1..], MergeDict(base, file));
    }
  }

  lemma FilesWithout(lib: Library, data: map<string, string>, keys: seq<string>, i: nat)
    requires i < |keys| && forall k | k in keys :: k in data && lib.yaml(data[k]).Some?
    ensures multiset(Files(lib, data, keys))
         == multiset(Files(lib, data, keys[..i] + keys[i + 1..])) + multiset{lib.yaml(data[keys[i]]).value}
  {
    var a := Files(lib, data, keys);
    WithoutOne(a, i);
    assert a[..i] + a[i + 1..] == Files(lib, data, keys[..i] + keys[i + 1..]);
    assert a[i] in multiset(a);
  }

  lemma {:induction false} FilesPermute(lib: Library, data: map<string, string>, keys: seq<string>, other: seq<string>)
    requires forall k | k in keys + other :: k in data && lib.yaml(data[k]).Some?
    requires multiset(keys) == multiset(other)
    ensures multiset(Files(lib, data, keys)) == multiset(Files(lib, data, other))
    decreases |keys|
  {
    if keys == [] {
      assert |multiset(other)| == 0;
    } else {
      assert keys[0] in multiset(keys);
      var i :| 0 <= i < |other| && other[i] == keys[0];
      WithoutOne(keys, 0);
      WithoutOne(other, i);
      FilesWithout(lib, data, keys, 0);
      FilesWithout(lib, data, other, i);
      FilesPermute(lib, data, keys[..0] + keys[1..], other[..i] + other[i + 1..]);
    }
  }

  /** When the files of a ConfigMap parse and agree pairwise, the random order of the range loop cannot be
      seen in the result. */
  lemma FileOrderIrrelevant(lib: Library, data: map<string, string>, keys: seq<string>, other: seq<string>, base: Dict)
    requires forall k | k in keys + other :: k in data && lib.yaml(data[k]).Some?
    requires multiset(keys) == multiset(other) && AllAgree(Files(lib, data, keys))
    ensures MergeFiles(lib, data, keys, base) == MergeFiles(lib, data, other, base)
  {
    FilesMerge(lib, data, keys, base);
    FilesMerge(lib, data, other, base);
    FilesPermute(lib, data, keys, other);
    MergeOrderIrrelevant(base, Files(lib, data, keys), Files(lib, data, other));
  }

  // ---------- the watch ----------

  /** A bundle as listed from the API server. */
  datatype Item = Item(key: Key, spec: Spec)

  /** A watched object. */
  datatype Watched = Watched(kind: string, key: Key)

  const CONFIG_MAP := "ConfigMap"
  const SECRET := "Secret"

  predicate References(item: Item, obj: Watched) {
    && item.key.namespace == obj.key.namespace
    && exists ref | ref in item.spec.valuesFrom :: ref.kind == obj.kind && ref.name == obj.key.name
  }

  class Notifier {
    /** All bundles; `List` with `InNamespace` filters them. */
    var bundles: seq<Item>

    constructor (bundles: seq<Item>)
      ensures this.bundles == bundles
    {
      this.bundles := bundles;
    }

    /** `ConfigMapOrSecretTrigger`: requests for exactly the bundles next to the object that reference it. */
    method Trigger(obj: Watched) returns (requests: seq<Key>)
      ensures forall key :: key in requests <==>
        (obj.kind == "ConfigMap" || obj.kind == "Secret") && key.namespace == obj.key.namespace
        && exists item, ref | item in bundles && ref in item.spec.valuesFrom ::
             item.key == key && ref.kind == obj.kind && ref.name == obj.key.name
    {
      requests := [];
      if obj.kind != CONFIG_MAP && obj.kind != SECRET {
        return;
      }
      for i := 0 to |bundles|
        invariant forall key :: key in requests <==>
          exists j | 0 <= j < i :: bundles[j].key == key && References(bundles[j], obj)
      {
        var item := bundles[i];
        if item.key.namespace != obj.key.namespace {
          continue;
        }
        var refs := item.spec.valuesFrom;
        ghost var before := requests;
        for j := 0 to |refs|
          invariant forall key :: key in requests <==>
            (key in before
             || (key == item.key
                 && exists m | 0 <= m < j :: refs[m].kind == obj.kind && refs[m].name == obj.key.name))
        {
          if refs[j].kind == obj.kind && refs[j].name == obj.key.name {
            requests := requests + [item.key];
          }
        }
      }
    }
  }

  /** The object's content differs between the two states of the cluster. */
  predicate Changed(a: Configs, b: Configs, obj: Watched) {
    if obj.kind == SECRET then
      (obj.key in a.secrets) != (obj.key in b.secrets)
      || (obj.key in a.secrets && a.secrets[obj.key] != b.secrets[obj.key])
    else
      obj.kind == CONFIG_MAP &&
      ((obj.key in a.maps) != (obj.key in b.maps) || (obj.key in a.maps && a.maps[obj.key] != b.maps[obj.key]))
  }

  /** Every kind the resolver knows is spelt as the watch compares it; the resource definition admits no other. */
  predicate Admitted(spec: Spec) {
    forall ref | ref in spec.valuesFrom :: !Misspelt(ref.kind)
  }

  predicate Misspelt(kind: string) {
    (IsConfigMap(kind) && kind != CONFIG_MAP) || (IsSecret(kind) && kind != SECRET)
  }

  lemma {:induction false} DifferenceHasCause(lib: Library, reading: Reads, a: Configs, b: Configs, ns: string,
                                              refs: seq<ValuesFrom>, i: nat, base: Dict) returns (ref: ValuesFrom)
    requires i <= |refs| && forall r | r in refs :: !Misspelt(r.kind)
    requires ApplyRefs(lib, reading, a, ns, refs, i, base) != ApplyRefs(lib, reading, b, ns, refs, i, base)
    ensures ref in refs && Changed(a, b, Watched(ref.kind, Key(ns, ref.name)))
    decreases |refs| - i
  {
    ref := refs[i];
    KnownKinds();
    if !Changed(a, b, Watched(ref.kind, Key(ns, ref.name))) {
      var next := ApplyRef(lib, reading, a, ns, i, ref, base);
      assert next == ApplyRef(lib, reading, b, ns, i, ref, base);
      ref := DifferenceHasCause(lib, reading, a, b, ns, refs, i + 1, next.values);
    }
  }

  /** If a change of ConfigMaps and Secrets changes what a bundle resolves to, one of the changed objects is
      referenced by that bundle, so its event re-queues the bundle. */
  lemma ChangeIsNoticed(lib: Library, reading: Reads, a: Configs, b: Configs, item: Item) returns (obj: Watched)
    requires Admitted(item.spec)
    requires Resolved(lib, reading, a, item.key.namespace, item.spec)
          != Resolved(lib, reading, b, item.key.namespace, item.spec)
    ensures (obj.kind == CONFIG_MAP || obj.kind == SECRET) && Changed(a, b, obj) && References(item, obj)
  {
    var ref := DifferenceHasCause(lib, reading, a, b, item.key.namespace, item.spec.valuesFrom, 0, map[]);
    obj := Watched(ref.kind, Key(item.key.namespace, ref.name));
  }

  /** The spelling matters, for every kind the resolver knows: by any other spelling it reads the object, and the
      watch never re-queues the bundle for it. */
  lemma MisspeltIsNotNoticed(lib: Library, reading: Reads, item: Item, ref: ValuesFrom)
    requires reading.reachable(0)
    requires item.spec.valuesFrom == [ref] && Misspelt(ref.kind) && !ref.optional
    ensures var key := Key(item.key.namespace, ref.name);
      && Resolved(lib, reading, Configs(map[key := ConfigMap(map[], map[])], map[key := map[]]),
                  item.key.namespace, item.spec)
         != Resolved(lib, reading, Configs(map[], map[]), item.key.namespace, item.spec)
      && forall obj: Watched | obj.kind == CONFIG_MAP || obj.kind == SECRET :: !References(item, obj)
  {
    var key, ns := Key(item.key.namespace, ref.name), item.key.namespace;
    var there := Configs(map[key := ConfigMap(map[], map[])], map[key := map[]]);
    KnownKinds();
    assert Lower(ref.kind) != Lower(SECRET) ==> ref.kind != SECRET;
    NothingToRead(lib, reading, 0, ref);
    assert ApplyRef(lib, reading, there, ns, 0, ref, map[]) == Merged(map[]);
    assert ApplyRefs(lib, reading, there, ns, [ref], 1, map[]) == Merged(map[]);
    assert ApplyRef(lib, reading, Configs(map[], map[]), ns, 0, ref, map[]) == Rejected(NoSuchObject(ref));
  }

  lemma KnownKinds()
    ensures IsConfigMap(CONFIG_MAP) && IsSecret(SECRET)
    ensures forall kind :: !(IsSecret(kind) && IsConfigMap(kind))
  {
    assert Lower(CONFIG_MAP) == "configmap" && Lower(SECRET) == "secret";
    assert |"configmap"| == 9 && |"configmaps"| == 10 && |"secret"| == 6 && |"secrets"| == 7;
  }

  lemma NothingToRead(lib: Library, reading: Reads, i: nat, ref: ValuesFrom)
    ensures ApplyConfigMap(lib, reading, i, ref, ConfigMap(map[], map[]), map[]) == Merged(map[])
    ensures ApplySecret(lib, reading, i, ref, map[], map[]) == Merged(map[])
  {
    var none: map<string, string> := map[];
    assert none.Keys == {};
    assert |multiset(reading.order(2 * i, {}))| == 0 && |multiset(reading.order(2 * i + 1, {}))| == 0;
  }
}
