/** The `Values` field of a bundle: JSON text and decoded map side by side, and what storing and reloading
    makes of them. */
module ValuesField {
  import opened Trees
  import opened TreesHeap

  type Bytes = string

  /** `json.Marshal` on maps and `json.Unmarshal` into a map. */
  datatype Codec = Codec(encode: Dict -> Bytes, decode: Bytes -> Option<Dict>)

  datatype Values = Values(raw: Option<Bytes>, obj: Option<Dict>)

  const NO_VALUES := Values(None, None)

  /** What a tree becomes when it is written as JSON and read back: integers return as floats. */
  function ThroughJson(t: Tree): Tree {
    match t
    case Leaf(Int(n)) => Leaf(Float(n, 0))
    case List(items) => List(seq(|items|, i requires 0 <= i < |items| => ThroughJson(items[i])))
    case Node(m) => Node(map k | k in m :: ThroughJson(m[k]))
    case _ => t
  }

  /** No integer anywhere, in lists too. */
  predicate JsonStable(t: Tree) {
    match t
    case Leaf(s) => !s.Int?
    case List(items) => forall i | 0 <= i < |items| :: JsonStable(items[i])
    case Node(m) => forall k | k in m :: JsonStable(m[k])
    case Null => true
  }

  /** What is assumed of the JSON library: numbers decode to floats, and nothing else changes. */
  ghost predicate Faithful(c: Codec) {
    && (forall d: Dict :: c.encode(d) != "null" && c.decode(c.encode(d)) == Some(ThroughJson(Node(d)).entries))
    && (forall text: Bytes :: c.decode(text).Some? ==> JsonStable(Node(c.decode(text).value)))
  }

  function MarshalJSON(c: Codec, v: Values): Bytes {
    match v
    case Values(Some(raw), _) => raw
    case Values(None, Some(d)) => c.encode(d)
    case Values(None, None) => "{}"
  }

  /** `UnmarshalJSON` as a function of the receiver; the text is kept even when it does not decode. */
  function UnmarshalJSON(c: Codec, v: Values, text: Bytes): (Values, bool) {
    if text == "null" then (v, true)
    else
      match c.decode(text)
      case None => (v.(raw := Some(text)), false)
      case Some(d) => (Values(Some(text), Some(Prune(Node(d)).entries)), true)
  }

  /** The receiver as it lives in memory: its decoded map is a mutable object. */
  class Receiver {
    var raw: Option<Bytes>
    var decoded: MapObject?

    constructor ()
      ensures raw == None && decoded == null
    {
      raw, decoded := None, null;
    }

    ghost predicate Valid()
      reads this, decoded, if decoded != null then decoded.Repr else {}
    {
      decoded != null ==> decoded.Valid() && this !in decoded.Repr
    }

    ghost function Contents(): Values
      requires Valid()
      reads this, decoded, if decoded != null then decoded.Repr else {}
    {
      Values(raw, if decoded == null then None else Some(decoded.View().entries))
    }

    method Unmarshal(c: Codec, text: Bytes) returns (ok: bool)
      requires Valid()
      modifies this
      ensures Valid()
      ensures (Contents(), ok) == UnmarshalJSON(c, old(Contents()), text)
      ensures text == "null" ==> ok && Contents() == old(Contents())
      ensures text != "null" ==> raw == Some(text) && (ok <==> c.decode(text).Some?)
      ensures Contents().obj == if ok && text != "null" then Some(Prune(Node(c.decode(text).value)).entries)
                                else old(Contents()).obj
    {
      if text == "null" {
        return true;
      }
      raw := Some(text);
      var d := c.decode(text);
      if d == None {
        return false;
      }
      decoded := Decoded(d.value);
      return true;
    }
  }

  /** Decoding into fresh maps, then `RemoveNulls`. */
  method Decoded(d: Dict) returns (val: MapObject)
    ensures fresh(val.Repr) && val.Valid() && val.View() == Prune(Node(d))
  {
    val := new MapObject.FromDict(d);
    val.RemoveNulls();
  }

  function FullFill(c: Codec, v: Values): Values {
    var v1 := if v.obj == None && v.raw.Some? then UnmarshalJSON(c, v, v.raw.value).0 else v;
    if v1.raw == None && v1.obj.Some? then v1.(raw := Some(MarshalJSON(c, v1))) else v1
  }

  /** What the next read finds after the field was written to the API server. */
  function StoreAndLoad(c: Codec, v: Values): Values {
    UnmarshalJSON(c, NO_VALUES, MarshalJSON(c, v)).0
  }

  /** Absent and empty maps count as equal; everything else is compared deeply. */
  predicate EqualMapValues(a: Option<Dict>, b: Option<Dict>) {
    (Empty(a) && Empty(b)) || a == b
  }

  predicate Empty(a: Option<Dict>) {
    a == None || a == Some(map[])
  }

  /** A map as its reader sees it: an absent one has no entries. */
  function AsMap(m: Option<Dict>): Dict {
    match m
    case None => map[]
    case Some(d) => d
  }

  /** The comparison tells any two different maps apart, and nothing else. */
  lemma EqualMeans(a: Option<Dict>, b: Option<Dict>)
    ensures EqualMapValues(a, b) <==> AsMap(a) == AsMap(b)
  {
  }

  /** The half that is there stays, the missing one is computed from it, if that works. */
  lemma FullFillMeans(c: Codec, raw: Bytes, obj: Dict)
    ensures FullFill(c, Values(Some(raw), Some(obj))) == Values(Some(raw), Some(obj))
    ensures FullFill(c, Values(None, Some(obj))) == Values(Some(c.encode(obj)), Some(obj))
    ensures FullFill(c, NO_VALUES) == NO_VALUES
    ensures FullFill(c, Values(Some(raw), None)).raw == Some(raw)
    ensures FullFill(c, Values(Some(raw), None)).obj ==
      if raw == "null" || c.decode(raw) == None then None else Some(Prune(Node(c.decode(raw).value)).entries)
  {
  }

  /** What is stored and read back: the text if there is one, else the map; absent values are stored as no entries. */
  lemma StoreMeans(c: Codec, raw: Bytes, obj: Dict)
    requires Faithful(c)
    ensures c.decode(raw).Some? && raw != "null" ==>
              StoreAndLoad(c, Values(Some(raw), Some(obj)))
                == Values(Some(raw), Some(Prune(Node(c.decode(raw).value)).entries))
    ensures StoreAndLoad(c, Values(None, Some(obj))).obj == Some(Prune(ThroughJson(Node(obj))).entries)
    ensures c.decode("{}") == Some(map[]) ==> StoreAndLoad(c, NO_VALUES) == Values(Some("{}"), Some(map[]))
  {
    var text := c.encode(obj);
    assert text != "null" && c.decode(text) == Some(ThroughJson(Node(obj)).entries);
    assert Prune(Node(map[])).entries == map[];
  }

  lemma FullFillTwice(c: Codec, v: Values)
    ensures FullFill(c, FullFill(c, v)) == FullFill(c, v)
  {
  }

  /** A field that was loaded once is what loading it again gives. */
  lemma LoadTwice(c: Codec, v: Values)
    requires v.raw != Some("null") && Faithful(c)
    ensures StoreAndLoad(c, StoreAndLoad(c, v)) == StoreAndLoad(c, v)
  {
  }

  lemma {:induction false} JsonStableIsFixed(t: Tree)
    ensures ThroughJson(t) == t <==> JsonStable(t)
  {
    match t
    case List(items) =>
      forall i | 0 <= i < |items| ensures ThroughJson(items[i]) == items[i] <==> JsonStable(items[i]) {
        JsonStableIsFixed(items[i]);
      }
      var u := ThroughJson(t).items;
      assert forall i | 0 <= i < |items| :: u[i] == ThroughJson(items[i]);
      if JsonStable(t) { assert u == items; }
    case Node(m) =>
      forall k | k in m ensures ThroughJson(m[k]) == m[k] <==> JsonStable(m[k]) {
        JsonStableIsFixed(m[k]);
      }
      if JsonStable(t) { assert ThroughJson(t).entries == m; }
    case _ =>
  }

  lemma {:induction false} PruneKeepsStable(t: Tree)
    requires JsonStable(t)
    ensures JsonStable(Prune(t))
  {
    if t.Node? {
      forall k | k in t.entries ensures JsonStable(Prune(t.entries[k])) {
        PruneKeepsStable(t.entries[k]);
      }
    }
  }

  lemma {:induction false} JsonKeepsNormal(t: Tree)
    ensures Normal(ThroughJson(t)) <==> Normal(t)
    ensures Kept(ThroughJson(t)) <==> Kept(t)
  {
    if t.Node? {
      var m, u := t.entries, ThroughJson(t).entries;
      assert u.Keys == m.Keys;
      forall k | k in m
        ensures Normal(u[k]) <==> Normal(m[k])
        ensures Kept(u[k]) <==> Kept(m[k])
      {
        JsonKeepsNormal(m[k]);
      }
      if m != map[] {
        var k :| k in m;
        assert k in u;
      }
    }
  }

  lemma PruneOfJson(t: Tree)
    ensures Prune(ThroughJson(t)) == t <==> Normal(t) && JsonStable(t)
  {
    JsonKeepsNormal(t);
    JsonStableIsFixed(t);
    PruneFixesNormal(ThroughJson(t));
    PruneIsNormal(ThroughJson(t));
  }

  lemma LoadOfFilled(c: Codec, d: Dict)
    requires Faithful(c)
    ensures StoreAndLoad(c, FullFill(c, Values(None, Some(d)))).obj == Some(Prune(ThroughJson(Node(d))).entries)
  {
  }

  /** A computed map survives being stored exactly when it holds no null, no empty map and no integer. */
  lemma StoreKeeps(c: Codec, d: Dict)
    requires Faithful(c)
    ensures EqualMapValues(StoreAndLoad(c, FullFill(c, Values(None, Some(d)))).obj, Some(d))
        <==> Normal(Node(d)) && JsonStable(Node(d))
  {
    LoadOfFilled(c, d);
    EqualAfterJson(d);
  }

  lemma EqualAfterJson(d: Dict)
    ensures EqualMapValues(Some(Prune(ThroughJson(Node(d))).entries), Some(d))
        <==> Normal(Node(d)) && JsonStable(Node(d))
  {
    var u := Prune(ThroughJson(Node(d)));
    PruneOfJson(Node(d));
    assert u == Node(u.entries);
  }
}
