/** `RemoveNulls` as it runs: recursive deletion inside mutable maps, in whatever order Go visits the keys. */
module TreesHeap {
  import opened Trees

  /** A map half way through pruning: the keys in `todo` are still as they were. */
  ghost function PartlyPruned(m: Dict, todo: set<string>): Dict {
    map k | k in m && (k in todo || Kept(Prune(m[k]))) :: if k in todo then m[k] else Prune(m[k])
  }

  lemma PartlyPrunedEnds(m: Dict)
    ensures PartlyPruned(m, m.Keys) == m
    ensures PartlyPruned(m, {}) == Prune(Node(m)).entries
  {
  }

  lemma PartlyPrunedStep(m: Dict, todo: set<string>, k: string)
    requires k in todo && k in m
    ensures var now := PartlyPruned(m, todo);
      PartlyPruned(m, todo - {k}) == if Kept(Prune(m[k])) then now[k := Prune(m[k])] else now - {k}
  {
  }

  /** What one key of a mutable map holds. */
  datatype Slot = Nil | Plain(value: Tree) | Sub(obj: MapObject)

  /** A decoded map. `Repr` is the set of map objects reachable from it; decoding shares none of them. */
  class MapObject {
    var entries: map<string, Slot>
    ghost var Repr: set<object>

    ghost predicate Valid()
      reads this, Repr
      decreases Repr
    {
      && this in Repr
      && (forall k | k in entries && entries[k].Plain? :: Data(entries[k].value))
      && (forall k | k in entries && entries[k].Sub? ::
            && entries[k].obj in Repr
            && this !in entries[k].obj.Repr
            && entries[k].obj.Repr <= Repr
            && entries[k].obj.Valid())
      && (forall j, k | j in entries && k in entries && j != k && entries[j].Sub? && entries[k].Sub? ::
            entries[j].obj.Repr !! entries[k].obj.Repr)
    }

    ghost function SlotView(k: string): Tree
      requires Valid() && k in entries
      reads this, Repr
      decreases Repr, 0
    {
      match entries[k]
      case Nil => Null
      case Plain(v) => v
      case Sub(o) => o.View()
    }

    /** The tree this object stands for. */
    ghost function View(): (t: Tree)
      requires Valid()
      reads this, Repr
      ensures t.Node? && t.entries.Keys == entries.Keys
      decreases Repr, 1
    {
      Node(map k | k in entries :: SlotView(k))
    }

    /** Go's `delete(m, k)`. */
    method Delete(k: string)
      requires Valid()
      modifies this`entries
      ensures Valid() && entries == old(entries) - {k}
      ensures forall j | j in entries :: SlotView(j) == old(SlotView(j))
    {
      entries := entries - {k};
    }

    /** A map below is pruned where it is. */
    method RemoveNullsBelow(k: string)
      requires Valid() && k in entries && entries[k].Sub?
      modifies entries[k].obj.Repr
      ensures Valid() && SlotView(k) == Prune(old(SlotView(k)))
      ensures forall j | j in entries && j != k :: SlotView(j) == old(SlotView(j))
      decreases Repr, 0
    {
      var val := entries[k].obj;
      val.RemoveNulls();
    }

    /** The body of the loop in `RemoveNulls`: one key is settled, every other key keeps its value. */
    method RemoveNullsAt(k: string)
      requires Valid() && k in entries
      modifies Repr
      ensures Valid() && Repr == old(Repr)
      ensures var was := old(View()).entries;
        View().entries == if Kept(Prune(was[k])) then was[k := Prune(was[k])] else was - {k}
      decreases Repr, 1
    {
      if entries[k].Sub? {
        RemoveNullsBelow(k);
        if entries[k].obj.entries == map[] {
          Delete(k);
        }
      } else if entries[k].Nil? {
        Delete(k);
      }
    }

    /** `RemoveNulls` turns the object into its pruned self and touches nothing outside it. */
    method RemoveNulls()
      requires Valid()
      modifies Repr
      ensures Valid() && Repr == old(Repr)
      ensures View() == Prune(old(View()))
      decreases Repr, 2
    {
      ghost var before := View().entries;
      var todo := entries.Keys;
      PartlyPrunedEnds(before);
      while todo != {}
        invariant Valid() && Repr == old(Repr)
        invariant todo <= entries.Keys && todo <= before.Keys
        invariant View().entries == PartlyPruned(before, todo)
        decreases todo
      {
        var k :| k in todo;
        PartlyPrunedStep(before, todo, k);
        RemoveNullsAt(k);
        todo := todo - {k};
      }
    }

    /** A decoder's work: fresh map objects for every map of the tree. */
    constructor FromDict(d: Dict)
      ensures Valid() && fresh(Repr) && View() == Node(d)
      decreases Node(d), 1
    {
      entries, Repr := map[], {this};
      new;
      var todo := d.Keys;
      while todo != {}
        invariant todo <= d.Keys && entries.Keys == d.Keys - todo
        invariant Valid() && fresh(Repr)
        invariant forall k | k in entries :: SlotView(k) == d[k]
        decreases todo
      {
        var k :| k in todo;
        Fill(k, d[k]);
        todo := todo - {k};
      }
      assert View().entries == d;
    }

    method Fill(k: string, t: Tree)
      requires Valid() && k !in entries
      modifies this
      ensures Valid() && fresh(Repr - old(Repr)) && old(Repr) <= Repr
      ensures entries.Keys == old(entries.Keys) + {k} && SlotView(k) == t
      ensures forall j | j in old(entries) :: j in entries && SlotView(j) == old(SlotView(j))
      decreases t, 2
    {
      if t.Node? {
        var sub := new MapObject.FromDict(t.entries);
        entries := entries[k := Sub(sub)];
        Repr := Repr + sub.Repr;
      } else if t.Null? {
        entries := entries[k := Nil];
      } else {
        entries := entries[k := Plain(t)];
      }
    }
  }
}
