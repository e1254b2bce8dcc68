/** The API server as the controller sees it: objects by reference, and calls that may fail in three ways. */
module Api {
  import opened Trees

  /** An object reference, with the four fields `GetReference` fills in. */
  datatype Ref = Ref(apiVersion: string, kind: string, namespace: string, name: string)

  /** A rendered object. `content` is what its manifest says beyond its identity. */
  datatype Obj = Obj(ref: Ref, annotations: map<string, string>, content: Dict)

  /** What happens to one call: it works, it is lost, or it works but the caller gets an error. */
  datatype Fault = Fine | Lost | Ambiguous

  /** `fault(t)` is the fate of the call made at time `t`; `patch` is what server-side apply computes from
      the live content and the manifest. */
  datatype Server = Server(fault: nat -> Fault, patch: (Dict, Dict) -> Dict)

  /** The objects, the helm releases in storage by namespace and name, and the number of calls made so far. */
  datatype World = World(objs: map<Ref, Dict>, releases: set<(string, string)>, clock: nat)

  function NamespaceRef(name: string): Ref {
    Ref("v1", "Namespace", "", name)
  }

  /** Objects can only be put into a namespace that exists. */
  predicate Housed(objs: map<Ref, Dict>, r: Ref) {
    r.namespace == "" || NamespaceRef(r.namespace) in objs
  }

  /** What is assumed of server-side apply by one owner with one manifest: doing it again changes nothing,
      an object that is the manifest stays it, and on a bare object it yields the manifest. */
  ghost predicate Lawful(patch: (Dict, Dict) -> Dict) {
    && (forall x, d {:trigger patch(patch(x, d), d)} :: patch(patch(x, d), d) == patch(x, d))
    && (forall d {:trigger patch(d, d)} :: patch(d, d) == d)
    && (forall d {:trigger patch(map[], d)} :: patch(map[], d) == d)
  }

  /** Overlaying trees key by key is one such patch. */
  lemma MergeIsLawful()
    ensures Lawful((x, d) => MergeDict(x, d))
  {
    forall x: Dict, d: Dict ensures MergeDict(MergeDict(x, d), d) == MergeDict(x, d) {
      MergeAbsorbs(Node(x), Node(d));
    }
    forall d: Dict ensures MergeDict(d, d) == d && MergeDict(map[], d) == d {
      MergeIdempotent(Node(d));
      MergeIdentity(d);
    }
  }

  ghost predicate FaultFreeFrom(s: Server, t: nat) {
    forall u: nat | t <= u :: s.fault(u) == Fine
  }

  ghost predicate NeverAmbiguous(s: Server) {
    forall t: nat :: s.fault(t) != Ambiguous
  }

  function Tick(w: World): World {
    w.(clock := w.clock + 1)
  }

  datatype GetResult = Found(content: Dict) | Absent | GetFailed

  function OnGet(s: Server, w: World, r: Ref): (World, GetResult) {
    (Tick(w), if s.fault(w.clock) != Fine then GetFailed else if r in w.objs then Found(w.objs[r]) else Absent)
  }

  /** Creating an object that exists, or in a namespace that does not, is an error. */
  function OnCreate(s: Server, w: World, r: Ref, content: Dict): (World, bool) {
    if s.fault(w.clock) == Lost || r in w.objs || !Housed(w.objs, r) then (Tick(w), false)
    else (Tick(w).(objs := w.objs[r := content]), s.fault(w.clock) == Fine)
  }

  /** Server-side apply, which creates what it does not find, but no namespace for it. */
  function OnPatch(s: Server, w: World, r: Ref, content: Dict): (World, bool) {
    if s.fault(w.clock) == Lost || !Housed(w.objs, r) then (Tick(w), false)
    else
      var now := if r in w.objs then s.patch(w.objs[r], content) else content;
      (Tick(w).(objs := w.objs[r := now]), s.fault(w.clock) == Fine)
  }

  datatype DeleteResult = Deleted | NotFound | DeleteFailed

  function OnDelete(s: Server, w: World, r: Ref): (World, DeleteResult) {
    if s.fault(w.clock) == Lost then (Tick(w), DeleteFailed)
    else
      (Tick(w).(objs := w.objs - {r}),
       if s.fault(w.clock) == Ambiguous then DeleteFailed else if r in w.objs then Deleted else NotFound)
  }

  function WithRelease(w: World, key: (string, string), left: bool): World {
    w.(releases := if left then w.releases + {key} else w.releases - {key})
  }

  /** The live server: each call advances the clock and may change the objects. */
  class Client {
    const server: Server
    var world: World

    constructor (server: Server, world: World)
      ensures this.server == server && this.world == world
    {
      this.server, this.world := server, world;
    }

    method Get(r: Ref) returns (result: GetResult)
      modifies this
      ensures (world, result) == OnGet(server, old(world), r)
    {
      var (w, res) := OnGet(server, world, r);
      world, result := w, res;
    }

    method Create(r: Ref, content: Dict) returns (ok: bool)
      modifies this
      ensures (world, ok) == OnCreate(server, old(world), r, content)
    {
      var (w, res) := OnCreate(server, world, r, content);
      world, ok := w, res;
    }

    method Patch(r: Ref, content: Dict) returns (ok: bool)
      modifies this
      ensures (world, ok) == OnPatch(server, old(world), r, content)
    {
      var (w, res) := OnPatch(server, world, r, content);
      world, ok := w, res;
    }

    method Delete(r: Ref) returns (result: DeleteResult)
      modifies this
      ensures (world, result) == OnDelete(server, old(world), r)
    {
      var (w, res) := OnDelete(server, world, r);
      world, result := w, res;
    }

    /** What Helm leaves in its storage. */
    method SetRelease(key: (string, string), left: bool)
      modifies this
      ensures world == WithRelease(old(world), key, left)
    {
      world := WithRelease(world, key, left);
    }
  }
}
