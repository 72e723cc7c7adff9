/** The engine's `checkpoints` field: per-VM checkpoint lists over Go slices edited in place. */
module CheckpointStore {
  import opened GoSlice
  import opened EngineModel

  class Store {
    var lists: map<string, Slice<Checkpoint>>
    /** What the lists hold. */
    ghost var Contents: map<string, seq<Checkpoint>>
    /** This object and the backing arrays. */
    ghost var Repr: set<object>

    /** No two lists share a backing array. */
    ghost predicate Valid()
      reads this, Repr
      ensures Valid() ==> this in Repr
    {
      && this in Repr
      && lists.Keys == Contents.Keys
      && (forall id :: id in lists ==> lists[id].items in Repr && lists[id].Valid())
      && (forall id :: id in lists ==> lists[id].Elems() == Contents[id])
      && (forall a, b :: a in lists && b in lists && a != b ==> lists[a].items != lists[b].items)
    }

    /** Valid, except that list id may be out of date: its array has just been written. */
    ghost predicate ValidBut(id: string)
      reads this, Repr
    {
      && this in Repr
      && lists.Keys == Contents.Keys
      && (forall k :: k in lists ==> lists[k].items in Repr)
      && (forall k :: k in lists && k != id ==> lists[k].Valid() && lists[k].Elems() == Contents[k])
      && (forall a, b :: a in lists && b in lists && a != b ==> lists[a].items != lists[b].items)
    }

    constructor ()
      ensures Valid() && Contents == map[] && fresh(Repr)
    {
      lists, Contents := map[], map[];
      Repr := {this};
    }

    /** s.checkpoints[id] = append(s.checkpoints[id], cp); `spare` is how far the runtime over-allocates. */
    method Add(id: string, cp: Checkpoint, spare: nat)
      requires Valid()
      modifies Repr
      ensures Valid() && fresh(Repr - old(Repr))
      ensures Contents == old(Contents)[id := ListOf(old(Contents), id) + [cp]]
    {
      var list := Fetch(id);
      list := Append(list, cp, spare);
      Assign(id, list, ListOf(Contents, id) + [cp]);
    }

    /** s.checkpoints[id] = list */
    method Assign(id: string, list: Slice<Checkpoint>, ghost elems: seq<Checkpoint>)
      requires ValidBut(id) && list.Valid() && list.Elems() == elems
      requires forall k :: k in lists && k != id ==> lists[k].items != list.items
      modifies this
      ensures Valid() && Contents == old(Contents)[id := elems] && Repr == old(Repr) + {list.items}
    {
      lists := lists[id := list];
      Contents := Contents[id := elems];
      Repr := Repr + {list.items};
    }

    /** s.checkpoints[id], a nil slice when the key is missing. */
    method Fetch(id: string) returns (list: Slice<Checkpoint>)
      requires Valid()
      ensures list.Valid() && list.Elems() == ListOf(Contents, id)
      ensures list.items in Repr || fresh(list.items)
      ensures forall k :: k in lists && k != id ==> lists[k].items != list.items
    {
      if id in lists {
        list := lists[id];
      } else {
        list := Make(0);
      }
    }

    /** delete(s.checkpoints, id) */
    method Drop(id: string)
      requires Valid()
      modifies this
      ensures Valid() && Repr == old(Repr)
      ensures Contents == old(Contents) - {id}
    {
      lists := lists - {id};
      Contents := Contents - {id};
    }

    /** The search loop shared by restore and delete; a missing list is a nil slice. */
    method Find(id: string, key: string) returns (i: nat, found: bool)
      requires Valid()
      ensures i == FirstMatch(ListOf(Contents, id), key)
      ensures found <==> i < |ListOf(Contents, id)|
    {
      i := 0;
      if id !in lists {
        return 0, false;
      }
      var list := lists[id];
      ghost var elems := list.Elems();
      assert elems == ListOf(Contents, id);
      while i < list.len && !Matches(list.items[list.off + i], key)
        invariant i <= list.len
        invariant forall k :: 0 <= k < i ==> !Matches(elems[k], key)
      {
        i := i + 1;
      }
      FirstMatchIs(elems, key, i);
      found := i < list.len;
    }

    /** s.checkpoints[id] = append(list[:i], list[i+1:]...) at the first match: the tail moves left in
        the shared array. Refines removal of the first match from a sequence. */
    method Remove(id: string, key: string) returns (ok: bool)
      requires Valid()
      modifies Repr
      ensures Valid() && Repr == old(Repr)
      ensures ok <==> FirstMatch(ListOf(old(Contents), id), key) < |ListOf(old(Contents), id)|
      ensures Contents == if ok then old(Contents)[id := RemoveFirst(ListOf(old(Contents), id), key)] else old(Contents)
    {
      var i;
      i, ok := Find(id, key);
      if ok {
        ghost var elems := ListOf(Contents, id);
        RemoveAt(id, i);
        assert RemoveFirst(elems, key) == elems[..i] + elems[i + 1..];
      }
    }

    method RemoveAt(id: string, i: nat)
      requires Valid() && id in lists && i < lists[id].len
      modifies Repr
      ensures Valid() && Repr == old(Repr)
      ensures Contents == old(Contents)[id := old(Contents)[id][..i] + old(Contents)[id][i + 1..]]
    {
      var list := DeleteAt(lists[id], i);
      Assign(id, list, Contents[id][..i] + Contents[id][i + 1..]);
    }

    /** ListCheckpoints' make and copy: a fresh array that no later call can reach. */
    method List(id: string) returns (list: array<Checkpoint>)
      requires Valid()
      ensures fresh(list) && list[..] == ListOf(Contents, id)
    {
      if id !in lists {
        list := new Checkpoint[0];
      } else {
        list := Copy(lists[id]);
      }
    }
  }

  // ---------- lists handed out ----------

  /** A call on the store. */
  datatype Call =
    | Add(id: string, cp: Checkpoint, spare: nat)
    | Remove(id: string, key: string)
    | Drop(id: string)
    | List(id: string)

  type Lists = map<string, seq<Checkpoint>>

  function Effect(lists: Lists, call: Call): Lists {
    match call
    case Add(id, cp, _) => lists[id := ListOf(lists, id) + [cp]]
    case Remove(id, key) =>
      if FirstMatch(ListOf(lists, id), key) < |ListOf(lists, id)|
      then lists[id := RemoveFirst(ListOf(lists, id), key)] else lists
    case Drop(id) => lists - {id}
    case List(_) => lists
  }

  function Effects(lists: Lists, calls: seq<Call>): Lists {
    if calls == [] then lists
    else Effect(Effects(lists, calls[..|calls| - 1]), calls[|calls| - 1])
  }

  method Perform(store: Store, call: Call) returns (handed: seq<array<Checkpoint>>)
    requires store.Valid()
    modifies store.Repr
    ensures store.Valid() && fresh(store.Repr - old(store.Repr)) && store.Contents == Effect(old(store.Contents), call)
    ensures |handed| == (if call.List? then 1 else 0)
    ensures call.List? ==>
              fresh(handed[0]) && handed[0] !in store.Repr && handed[0][..] == ListOf(store.Contents, call.id)
  {
    handed := [];
    match call {
      case Add(id, cp, spare) => store.Add(id, cp, spare);
      case Remove(id, key) => var ok := store.Remove(id, key);
      case Drop(id) => store.Drop(id);
      case List(id) =>
        var list := store.List(id);
        handed := [list];
    }
  }

  /** What each list of the calls holds, in order: the checkpoints at the time of its call. */
  function Handed(lists: Lists, calls: seq<Call>): seq<seq<Checkpoint>> {
    if calls == [] then []
    else
      var before, last := calls[..|calls| - 1], calls[|calls| - 1];
      Handed(lists, before) + if last.List? then [ListOf(Effects(lists, before), last.id)] else []
  }

  lemma CallsRound(lists: Lists, calls: seq<Call>, i: nat)
    requires i < |calls|
    ensures Effects(lists, calls[..i + 1]) == Effect(Effects(lists, calls[..i]), calls[i])
    ensures Handed(lists, calls[..i + 1])
            == Handed(lists, calls[..i])
               + if calls[i].List? then [ListOf(Effects(lists, calls[..i]), calls[i].id)] else []
  {
    assert calls[..i + 1][..i] == calls[..i];
  }

  /** The arrays hold these lists, and the store cannot reach them. */
  ghost predicate Hold(store: Store, handed: seq<array<Checkpoint>>, lists: seq<seq<Checkpoint>>)
    reads store`Repr, handed
  {
    |handed| == |lists| && forall k :: 0 <= k < |handed| ==> handed[k] !in store.Repr && handed[k][..] == lists[k]
  }

  /** One more call leaves the lists handed out so far alone. */
  method CallOn(store: Store, call: Call, before: seq<array<Checkpoint>>, ghost lists: seq<seq<Checkpoint>>)
    returns (handed: seq<array<Checkpoint>>)
    requires store.Valid() && Hold(store, before, lists)
    modifies store.Repr
    ensures store.Valid() && fresh(store.Repr - old(store.Repr)) && store.Contents == Effect(old(store.Contents), call)
    ensures Hold(store, handed, lists + if call.List? then [ListOf(old(store.Contents), call.id)] else [])
  {
    var more := Perform(store, call);
    handed := before + more;
  }

  /** Every list handed out along any sequence of calls is the VM's list at that time, and stays so
      whatever additions and removals, in place or not, come later. */
  method ListedStaysPut(store: Store, calls: seq<Call>) returns (handed: seq<array<Checkpoint>>)
    requires store.Valid()
    modifies store.Repr
    ensures store.Valid() && store.Contents == Effects(old(store.Contents), calls)
    ensures Hold(store, handed, Handed(old(store.Contents), calls))
  {
    handed := [];
    ghost var lists := store.Contents;
    for i := 0 to |calls|
      invariant store.Valid() && fresh(store.Repr - old(store.Repr)) && store.Contents == Effects(lists, calls[..i])
      invariant Hold(store, handed, Handed(lists, calls[..i]))
    {
      CallsRound(lists, calls, i);
      handed := CallOn(store, calls[i], handed, Handed(lists, calls[..i]));
    }
    assert calls[..|calls|] == calls;
  }
}
