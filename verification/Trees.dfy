/** The value trees a bundle carries (the nested `map[string]interface{}` of the Go code), the two pure
    operations on them, pruning and merging, and the laws the two obey together. */
module Trees {

  datatype Option<+T> = None | Some(value: T)

  /** What JSON, YAML and `--set` strings can put in a leaf. Go keeps `int64` and `float64` apart. */
  datatype Scalar = Str(s: string) | Bool(b: bool) | Int(n: int) | Float(mantissa: int, exponent: int)

  datatype Tree =
    | Null
    | Leaf(scalar: Scalar)
    | List(items: seq<Tree>)
    | Node(entries: Dict)

  type Dict = map<string, Tree>

  /** A map entry survives pruning when its pruned value is neither null nor an empty map. */
  predicate Kept(t: Tree) {
    t != Null && t != Node(map[])
  }

  /** What `RemoveNulls` leaves of a tree. Lists are not entered. */
  function Prune(t: Tree): Tree {
    match t
    case Node(m) => Node(map k | k in m && Kept(Prune(m[k])) :: Prune(m[k]))
    case _ => t
  }

  /** What `mergeMaps` computes on two maps; on anything else the right operand replaces the left. */
  function Merge(a: Tree, b: Tree): Tree {
    if a.Node? && b.Node? then
      Node(map k | k in a.entries.Keys + b.entries.Keys ::
        if k !in b.entries then a.entries[k]
        else if k !in a.entries then b.entries[k]
        else Merge(a.entries[k], b.entries[k]))
    else b
  }

  function MergeDict(a: Dict, b: Dict): Dict {
    Merge(Node(a), Node(b)).entries
  }

  /** No null and no empty map is reachable below the root through maps. */
  predicate Normal(t: Tree) {
    t.Node? ==> forall k | k in t.entries :: Kept(t.entries[k]) && Normal(t.entries[k])
  }

  // ---------- pruning ----------

  /** The value found by following a path of keys through maps. */
  datatype Lookup = Missing | Reached(value: Tree)

  function At(t: Tree, path: seq<string>): Lookup {
    if path == [] then Reached(t)
    else if t.Node? && path[0] in t.entries then At(t.entries[path[0]], path[1..])
    else Missing
  }

  /** A value pruning must not lose: anything but null and maps. */
  predicate Data(t: Tree) {
    t.Leaf? || t.List?
  }

  ghost predicate SameData(t: Tree, u: Tree) {
    forall path, v :: Data(v) ==> (At(t, path) == Reached(v) <==> At(u, path) == Reached(v))
  }

  lemma {:induction false} PruneIsNormal(t: Tree)
    ensures Normal(Prune(t))
  {
    if t.Node? {
      forall k | k in t.entries ensures Normal(Prune(t.entries[k])) { PruneIsNormal(t.entries[k]); }
    }
  }

  /** Pruning leaves exactly the trees in normal form alone; in particular pruning twice is pruning once. */
  lemma {:induction false} PruneFixesNormal(t: Tree)
    ensures Prune(t) == t <==> Normal(t)
  {
    if t.Node? {
      forall k | k in t.entries ensures Prune(t.entries[k]) == t.entries[k] <==> Normal(t.entries[k]) {
        PruneFixesNormal(t.entries[k]);
      }
      if Normal(t) {
        assert Prune(t).entries == t.entries;
      }
      if Prune(t) == t {
        PruneIsNormal(t);
      }
    }
  }

  /** No path to data is lost, changed or invented. */
  lemma {:induction false} PruneKeepsData(t: Tree, path: seq<string>, v: Tree)
    requires Data(v)
    ensures At(t, path) == Reached(v) <==> At(Prune(t), path) == Reached(v)
    decreases |path|
  {
    if path == [] {
    } else if t.Node? && path[0] in t.entries {
      var c := t.entries[path[0]];
      PruneKeepsData(c, path[1..], v);
      if !Kept(Prune(c)) {
        assert At(Prune(c), path[1..]) != Reached(v);
      }
    }
  }

  /** A normal tree that holds no data at all is an empty map or null. */
  lemma {:induction false} NormalHoldsData(t: Tree) returns (path: seq<string>, v: Tree)
    requires Normal(t) && Kept(t)
    ensures Data(v) && At(t, path) == Reached(v)
  {
    if t.Node? {
      assert t.entries != map[];
      var k :| k in t.entries;
      var rest, w := NormalHoldsData(t.entries[k]);
      path, v := [k] + rest, w;
      assert path[1..] == rest;
    } else {
      path, v := [], t;
    }
  }

  lemma SameDataBelow(t: Tree, u: Tree, k: string)
    requires SameData(t, u) && t.Node? && u.Node? && k in t.entries && k in u.entries
    ensures SameData(t.entries[k], u.entries[k])
  {
    forall path, v | Data(v)
      ensures At(t.entries[k], path) == Reached(v) <==> At(u.entries[k], path) == Reached(v)
    {
      assert ([k] + path)[1..] == path;
      assert At(t, [k] + path) == At(t.entries[k], path);
      assert At(u, [k] + path) == At(u.entries[k], path);
    }
  }

  lemma SameDataKeys(t: Tree, u: Tree, k: string)
    requires SameData(t, u) && Normal(t) && t.Node? && u.Node? && k in t.entries
    ensures k in u.entries
  {
    var path, v := NormalHoldsData(t.entries[k]);
    assert ([k] + path)[1..] == path;
    assert At(t, [k] + path) == Reached(v);
    assert At(u, [k] + path) == Reached(v);
  }

  /** Two kept normal trees with the same data are equal: normal form has one member per data set. */
  lemma {:induction false} NormalIsDetermined(t: Tree, u: Tree)
    requires Normal(t) && Normal(u) && SameData(t, u)
    requires (t.Node? && u.Node?) || (Kept(t) && Kept(u))
    ensures t == u
  {
    assert At(t, []) == Reached(t) && At(u, []) == Reached(u);
    if t.Node? && u.Node? {
      forall k ensures k in t.entries <==> k in u.entries {
        if k in t.entries { SameDataKeys(t, u, k); }
        if k in u.entries { SameDataKeys(u, t, k); }
      }
      forall k | k in t.entries ensures t.entries[k] == u.entries[k] {
        SameDataBelow(t, u, k);
        NormalIsDetermined(t.entries[k], u.entries[k]);
      }
      assert t.entries == u.entries;
    }
  }

  /** Pruning a map is the one function that keeps the data and reaches normal form. */
  lemma PruneIsTheNormalForm(m: Dict, u: Tree)
    requires u.Node?
    ensures u == Prune(Node(m)) <==> Normal(u) && SameData(Node(m), u)
  {
    var t := Node(m);
    PruneIsNormal(t);
    forall path, v | Data(v) ensures At(t, path) == Reached(v) <==> At(Prune(t), path) == Reached(v) {
      PruneKeepsData(t, path, v);
    }
    if Normal(u) && SameData(t, u) {
      NormalIsDetermined(Prune(t), u);
    }
  }

  // ---------- merging ----------

  /** Nothing in the tree stands on the path or at its end. */
  predicate Silent(t: Tree, path: seq<string>) {
    path != [] && t.Node? && (path[0] in t.entries ==> Silent(t.entries[path[0]], path[1..]))
  }

  /** What a merge is for: data comes from the right operand, and from the left where the right is silent. */
  lemma {:induction false} MergeData(a: Tree, b: Tree, path: seq<string>, v: Tree)
    requires Data(v)
    ensures At(Merge(a, b), path) == Reached(v)
        <==> At(b, path) == Reached(v) || (Silent(b, path) && At(a, path) == Reached(v))
    decreases |path|
  {
    if path != [] && a.Node? && b.Node? && path[0] in a.entries && path[0] in b.entries {
      MergeData(a.entries[path[0]], b.entries[path[0]], path[1..], v);
    }
  }

  lemma MergeIdentity(a: Dict)
    ensures MergeDict(a, map[]) == a && MergeDict(map[], a) == a
  {
  }

  /** Merging the same operand again changes nothing. */
  lemma {:induction false} MergeAbsorbs(a: Tree, b: Tree)
    ensures Merge(Merge(a, b), b) == Merge(a, b)
  {
    MergeIdempotent(b);
    if a.Node? && b.Node? {
      forall k | k in b.entries && k in a.entries
        ensures Merge(Merge(a.entries[k], b.entries[k]), b.entries[k]) == Merge(a.entries[k], b.entries[k])
      {
        MergeAbsorbs(a.entries[k], b.entries[k]);
      }
      forall k | k in b.entries ensures Merge(b.entries[k], b.entries[k]) == b.entries[k] {
        MergeIdempotent(b.entries[k]);
      }
      assert Merge(Merge(a, b), b).entries == Merge(a, b).entries;
    }
  }

  lemma {:induction false} MergeIdempotent(a: Tree)
    ensures Merge(a, a) == a
  {
    if a.Node? {
      forall k | k in a.entries ensures Merge(a.entries[k], a.entries[k]) == a.entries[k] {
        MergeIdempotent(a.entries[k]);
      }
      assert Merge(a, a).entries == a.entries;
    }
  }

  /** Everything `a` says below this point, `c` says too. */
  predicate Covered(a: Tree, c: Tree) {
    a.Node? && c.Node? ==>
      forall k | k in a.entries :: k in c.entries && Covered(a.entries[k], c.entries[k])
  }

  lemma {:induction false} CoveredIsAbsorbed(a: Tree, c: Tree)
    ensures Merge(a, c) == c <==> Covered(a, c)
  {
    if a.Node? && c.Node? {
      forall k | k in a.entries && k in c.entries
        ensures Merge(a.entries[k], c.entries[k]) == c.entries[k] <==> Covered(a.entries[k], c.entries[k])
      {
        CoveredIsAbsorbed(a.entries[k], c.entries[k]);
      }
      var m := Merge(a, c).entries;
      if Covered(a, c) {
        assert m == c.entries;
      } else {
        var k :| k in a.entries && (k !in c.entries || !Covered(a.entries[k], c.entries[k]));
        assert k in m;
      }
    }
  }

  /** No path carries a map in `a`, a non-map in `b` and in `c` a map that forgets something of `a`'s. */
  predicate Regroupable(a: Tree, b: Tree, c: Tree) {
    a.Node? && c.Node? ==>
      if b.Node? then
        forall k | k in a.entries && k in b.entries && k in c.entries ::
          Regroupable(a.entries[k], b.entries[k], c.entries[k])
      else Covered(a, c)
  }

  /** `mergeMaps` is associative exactly on the regroupable triples. */
  lemma {:induction false} MergeAssociative(a: Tree, b: Tree, c: Tree)
    ensures Merge(Merge(a, b), c) == Merge(a, Merge(b, c)) <==> Regroupable(a, b, c)
  {
    if a.Node? && c.Node? {
      if b.Node? {
        var l, r := Merge(Merge(a, b), c).entries, Merge(a, Merge(b, c)).entries;
        assert l.Keys == r.Keys;
        forall k | k in a.entries && k in b.entries && k in c.entries
          ensures l[k] == r[k] <==> Regroupable(a.entries[k], b.entries[k], c.entries[k])
        {
          MergeAssociative(a.entries[k], b.entries[k], c.entries[k]);
        }
        if Regroupable(a, b, c) {
          assert l == r;
        } else {
          var k :| k in a.entries && k in b.entries && k in c.entries &&
                   !Regroupable(a.entries[k], b.entries[k], c.entries[k]);
          assert l[k] != r[k];
        }
      } else {
        CoveredIsAbsorbed(a, c);
      }
    }
  }

  /** The failing pattern: a map, then a scalar, then another map under the same key. */
  lemma MergeNotAssociative()
    ensures exists a: Dict, b: Dict, c: Dict :: MergeDict(MergeDict(a, b), c) != MergeDict(a, MergeDict(b, c))
  {
    var one := Leaf(Int(1));
    var a := Node(map["k" := Node(map["x" := one])]);
    var b := Node(map["k" := one]);
    var c := Node(map["k" := Node(map["y" := one])]);
    MergeAssociative(a, b, c);
    assert "x" in a.entries["k"].entries && "x" !in c.entries["k"].entries;
    assert !Covered(a.entries["k"], c.entries["k"]);
    assert !Regroupable(a.entries["k"], b.entries["k"], c.entries["k"]);
    assert "k" in a.entries && "k" in b.entries && "k" in c.entries;
    assert MergeDict(MergeDict(a.entries, b.entries), c.entries)
        != MergeDict(a.entries, MergeDict(b.entries, c.entries));
  }

  /** Pruning distributes over a merge with a normal right operand. */
  lemma {:induction false} PruneOfMerge(a: Tree, b: Tree)
    requires Normal(b)
    ensures Prune(Merge(a, b)) == Merge(Prune(a), b)
  {
    PruneFixesNormal(b);
    if a.Node? && b.Node? {
      var l, r := Prune(Merge(a, b)).entries, Merge(Prune(a), b).entries;
      forall k ensures k in l <==> k in r
      {
        PruneOfMergeAt(a, b, k);
      }
      forall k | k in l ensures l[k] == r[k]
      {
        PruneOfMergeAt(a, b, k);
      }
      assert l == r;
    }
  }

  lemma {:induction false} PruneOfMergeAt(a: Tree, b: Tree, k: string)
    requires Normal(b) && a.Node? && b.Node?
    ensures At(Prune(Merge(a, b)), [k]) == At(Merge(Prune(a), b), [k])
    ensures var l, r := Prune(Merge(a, b)).entries, Merge(Prune(a), b).entries;
      (k in l <==> k in r) && (k in l ==> l[k] == r[k])
    decreases a, b, 0
  {
    if k in b.entries {
      PruneFixesNormal(b.entries[k]);
      if k in a.entries {
        PruneOfMerge(a.entries[k], b.entries[k]);
        MergeKept(Prune(a.entries[k]), b.entries[k]);
        if !Kept(Prune(a.entries[k])) && b.entries[k].Node? && Prune(a.entries[k]).Node? {
          MergeIdentity(b.entries[k].entries);
        }
      }
    }
  }

  lemma MergeKept(a: Tree, b: Tree)
    requires Kept(b)
    ensures Kept(Merge(a, b))
  {
    if a.Node? && b.Node? {
      var k :| k in b.entries;
      assert k in Merge(a, b).entries;
    }
  }

  /** Merging values that are already in normal form needs no second pruning. */
  lemma MergeOfNormals(a: Tree, b: Tree)
    requires Normal(a) && Normal(b)
    ensures Normal(Merge(a, b))
  {
    PruneOfMerge(a, b);
    PruneFixesNormal(a);
    PruneFixesNormal(Merge(a, b));
  }

  // ---------- order of merging ----------

  /** The two trees never disagree: a shared key leads to equal values or to two maps that agree in turn. */
  predicate Agree(a: Tree, b: Tree) {
    if a.Node? && b.Node? then
      forall k | k in a.entries && k in b.entries :: Agree(a.entries[k], b.entries[k])
    else a == b
  }

  /** Two maps may be merged in either order exactly when they agree. */
  lemma {:induction false} MergeCommutes(a: Tree, b: Tree)
    ensures Merge(a, b) == Merge(b, a) <==> Agree(a, b)
  {
    if a.Node? && b.Node? {
      var l, r := Merge(a, b).entries, Merge(b, a).entries;
      assert l.Keys == r.Keys;
      forall k | k in a.entries && k in b.entries
        ensures l[k] == r[k] <==> Agree(a.entries[k], b.entries[k])
      {
        MergeCommutes(a.entries[k], b.entries[k]);
      }
      if Agree(a, b) {
        assert l == r;
      } else {
        var k :| k in a.entries && k in b.entries && !Agree(a.entries[k], b.entries[k]);
        assert l[k] != r[k];
      }
    }
  }

  lemma {:induction false} AgreeRegroups(a: Tree, b: Tree, c: Tree)
    requires Agree(b, c)
    ensures Regroupable(a, b, c)
  {
    if a.Node? && b.Node? && c.Node? {
      forall k | k in a.entries && k in b.entries && k in c.entries
        ensures Regroupable(a.entries[k], b.entries[k], c.entries[k])
      {
        AgreeRegroups(a.entries[k], b.entries[k], c.entries[k]);
      }
    }
  }

  /** The loop `base = mergeMaps(base, currentMap)` over a list of maps. */
  function MergeAll(base: Dict, maps: seq<Dict>): Dict
    decreases |maps|
  {
    if maps == [] then base else MergeAll(MergeDict(base, maps[0]), maps[1..])
  }

  ghost predicate AllAgree(maps: seq<Dict>) {
    forall x, y | x in maps && y in maps && x != y :: Agree(Node(x), Node(y))
  }

  lemma SwapTwo(base: Dict, x: Dict, y: Dict)
    requires x != y ==> Agree(Node(x), Node(y))
    ensures MergeDict(MergeDict(base, x), y) == MergeDict(MergeDict(base, y), x)
  {
    if x != y {
      var a, b, c := Node(base), Node(x), Node(y);
      MergeCommutes(b, c);
      MergeCommutes(c, b);
      AgreeRegroups(a, b, c);
      AgreeRegroups(a, c, b);
      MergeAssociative(a, b, c);
      MergeAssociative(a, c, b);
    }
  }

  lemma {:induction false} BringForward(base: Dict, maps: seq<Dict>, i: nat)
    requires i < |maps| && AllAgree(maps)
    ensures MergeAll(base, maps) == MergeAll(MergeDict(base, maps[i]), maps[..i] + maps[i + 1..])
    decreases i
  {
    if i == 0 {
      assert maps[..0] + maps[1..] == maps[1..];
    } else {
      var x, y, rest := maps[0], maps[i], maps[1..];
      assert forall m :: m in rest ==> m in maps;
      BringForward(MergeDict(base, x), rest, i - 1);
      SwapTwo(base, x, y);
      var others := rest[..i - 1] + rest[i..];
      assert rest[i - 1] == y && maps[..i] + maps[i + 1..] == [x] + others;
      assert ([x] + others)[1..] == others;
    }
  }

  lemma WithoutOne<T>(s: seq<T>, i: nat)
    requires i < |s|
    ensures multiset(s[..i] + s[i + 1..]) == multiset(s) - multiset{s[i]}
  {
    assert s == s[..i] + [s[i]] + s[i + 1..];
  }

  lemma AgreeOnSubset(maps: seq<Dict>, some: seq<Dict>)
    requires AllAgree(maps) && multiset(some) <= multiset(maps)
    ensures AllAgree(some)
  {
    forall x | x in some ensures x in maps {
      assert x in multiset(some);
      assert x in multiset(maps);
    }
  }

  /** Merging maps that agree pairwise gives the same result in every order, whatever they are merged into. */
  lemma {:induction false} MergeOrderIrrelevant(base: Dict, maps: seq<Dict>, other: seq<Dict>)
    requires multiset(maps) == multiset(other) && AllAgree(maps)
    ensures MergeAll(base, maps) == MergeAll(base, other)
    decreases |maps|
  {
    if maps == [] {
      assert |multiset(other)| == 0;
    } else {
      var x := maps[0];
      assert x in multiset(maps);
      var i :| 0 <= i < |other| && other[i] == x;
      var rest := other[..i] + other[i + 1..];
      WithoutOne(other, i);
      WithoutOne(maps, 0);
      assert maps[..0] + maps[1..] == maps[1..];
      AgreeOnSubset(maps, other);
      AgreeOnSubset(maps, maps[1..]);
      BringForward(base, other, i);
      MergeOrderIrrelevant(MergeDict(base, x), maps[1..], rest);
    }
  }

  // ---------- the loops of mergeMaps ----------

  lemma MergeEntry(a: Dict, b: Dict, k: string)
    ensures MergeDict(a, b).Keys == a.Keys + b.Keys
    ensures k in a && k !in b ==> MergeDict(a, b)[k] == a[k]
    ensures k in b ==> MergeDict(a, b)[k] == if k in a then Merge(a[k], b[k]) else b[k]
  {
  }

  /** `mergeMaps`: copy the left map, then visit the right one. Go visits both in an arbitrary order. */
  method MergeMaps(a: Dict, b: Dict) returns (out: Dict)
    ensures out == MergeDict(a, b)
    decreases Node(b)
  {
    out := map[];
    var todo := a.Keys;
    while todo != {}
      invariant todo <= a.Keys && out.Keys == a.Keys - todo
      invariant forall k | k in out :: out[k] == a[k]
      decreases todo
    {
      var k :| k in todo;
      out, todo := out[k := a[k]], todo - {k};
    }
    todo := b.Keys;
    ghost var whole := MergeDict(a, b);
    while todo != {}
      invariant todo <= b.Keys && out.Keys == a.Keys + (b.Keys - todo)
      invariant forall k | k in a && (k !in b || k in todo) :: out[k] == a[k]
      invariant forall k | k in b && k !in todo :: out[k] == whole[k]
      decreases todo
    {
      var k :| k in todo;
      MergeEntry(a, b, k);
      if b[k].Node? && k in out && out[k].Node? {
        var sub := MergeMaps(out[k].entries, b[k].entries);
        assert Node(sub) == Merge(a[k], b[k]);
        out := out[k := Node(sub)];
      } else {
        out := out[k := b[k]];
      }
      todo := todo - {k};
    }
    forall k | k in a && k !in b ensures out[k] == whole[k] { MergeEntry(a, b, k); }
    assert out.Keys == whole.Keys by { MergeEntry(a, b, ""); }
    assert out == whole;
  }
}
