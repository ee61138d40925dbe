/** The walk of PyObjectWalker.py over a cyclic, shared graph of live objects, and what it leaves in the registry. */
module PyObjectWalker {
  import opened Collections
  import opened ObjectRegistry
  import opened PyObjectGraph
  import opened PyObjectOrder
  import opened Reachability

  ghost predicate RefersTo(heap: Heap, a: PyObject, b: PyObject) {
    a in heap && Visits(heap, heap[a], b)
  }

  // `b` can be reached from `a` through references that the walker follows.
  ghost predicate Reaches(heap: Heap, a: PyObject, b: PyObject) {
    Reach((x, y) => RefersTo(heap, x, y), a, b)
  }

  // `owner` gives the object of each id that this walker handed out: no earlier one, and none still to come.
  ghost predicate Numbered(ids: IdMap, owner: map<int, PyObject>, earlier: Definitions, next: int) {
    && (forall o :: o in ids ==> ids[o] in owner && owner[ids[o]] == o)
    && (forall i :: i in owner ==> i < next && i !in earlier && owner[i] in ids && ids[owner[i]] == i)
  }

  // `order` lists the objects that have ids.
  ghost predicate Met(ids: IdMap, order: seq<PyObject>) {
    forall o :: o in ids <==> o in order
  }

  // The registry entry of `o` is the image of `o`.
  ghost predicate Mirrored(heap: Heap, ids: IdMap, defs: Definitions, o: PyObject)
    requires WellFormed(heap)
  {
    && o in heap && o in ids && !Raises(heap[o]) && Supported(heap, heap[o], ids)
    && ids[o] in defs && defs[ids[o]] == Image(heap, heap[o], ids)
  }

  // Every object that has an id has its entry, save the `open` ones, which the walk has not finished.
  ghost predicate AllMirrored(heap: Heap, ids: IdMap, defs: Definitions, open: set<PyObject>)
    requires WellFormed(heap)
  {
    && (forall o :: o in ids ==> o in heap)
    && (forall o :: o in open ==> o in ids)
    && (forall o :: o in ids && o !in open ==> Mirrored(heap, ids, defs, o))
  }

  // Entries are earlier ones, or belong to ids that this walker handed out.
  ghost predicate NoStrays(owner: map<int, PyObject>, earlier: Definitions, defs: Definitions, open: set<PyObject>) {
    forall i :: i in defs ==> i in earlier || (i in owner && owner[i] !in open)
  }

  // What got an id since `before` can be reached from `root`.
  ghost predicate Grown(heap: Heap, before: IdMap, ids: IdMap, root: PyObject) {
    Extends(before, ids) && forall o :: o in ids && o !in before ==> Reaches(heap, root, o)
  }

  lemma ReachesItself(heap: Heap, o: PyObject)
    ensures Reaches(heap, o, o)
  {
    ReachSelf((x, y) => RefersTo(heap, x, y), o);
  }

  lemma GrownFrom(heap: Heap, before: IdMap, middle: IdMap, ids: IdMap, root: PyObject, next: PyObject)
    requires Grown(heap, before, middle, root) && RefersTo(heap, root, next) && Grown(heap, middle, ids, next)
    ensures Grown(heap, before, ids, root)
  {
    var edge := (x, y) => RefersTo(heap, x, y);
    ReachEdge(edge, root, next);
    forall o | o in ids && o !in before
      ensures Reaches(heap, root, o)
    {
      if o !in middle {
        ReachTransitive(edge, root, next, o);
      }
    }
  }

  lemma GrownMore(heap: Heap, before: IdMap, middle: IdMap, ids: IdMap, root: PyObject)
    requires Grown(heap, before, middle, root) && Grown(heap, middle, ids, root)
    ensures Grown(heap, before, ids, root)
  {
  }

  lemma LookupNext(objects: seq<PyObject>, i: nat, ids: IdMap)
    requires i < |objects| && HasAll(ids, objects[..i]) && objects[i] in ids
    ensures HasAll(ids, objects[..i + 1])
    ensures Lookup(ids, objects[..i + 1]) == Lookup(ids, objects[..i]) + [ids[objects[i]]]
  {
    assert objects[..i + 1] == objects[..i] + [objects[i]];
  }

  // One more id, after which some more were handed out.
  lemma LookupStep(objects: seq<PyObject>, i: nat, before: IdMap, ids: IdMap)
    requires i < |objects| && HasAll(before, objects[..i]) && Extends(before, ids) && objects[i] in ids
    ensures HasAll(ids, objects[..i + 1])
    ensures Lookup(ids, objects[..i + 1]) == Lookup(before, objects[..i]) + [ids[objects[i]]]
  {
    LookupStable(objects[..i], before, ids);
    LookupNext(objects, i, ids);
  }

  lemma LookupMembersNext(members: seq<(string, PyObject)>, i: nat, ids: IdMap)
    requires i < |members| && HasAll(ids, Objects(members[..i])) && members[i].1 in ids
    ensures HasAll(ids, Objects(members[..i + 1]))
    ensures LookupMembers(ids, members[..i + 1]) ==
            LookupMembers(ids, members[..i]) + [(members[i].0, ids[members[i].1])]
  {
    assert Objects(members[..i + 1]) == Objects(members[..i]) + [members[i].1];
  }

  lemma NumberNext(ids: IdMap, owner: map<int, PyObject>, earlier: Definitions, next: int, o: PyObject)
    requires Numbered(ids, owner, earlier, next) && o !in ids && next !in earlier
    ensures Numbered(ids[o := next], owner[next := o], earlier, next + 1)
  {
  }

  lemma OpenKeeps(heap: Heap, ids: IdMap, defs: Definitions, open: set<PyObject>, owner: map<int, PyObject>,
                  earlier: Definitions, next: int, o: PyObject)
    requires WellFormed(heap) && AllMirrored(heap, ids, defs, open) && NoStrays(owner, earlier, defs, open)
    requires Numbered(ids, owner, earlier, next) && o !in ids && o in heap && next !in defs
    ensures AllMirrored(heap, ids[o := next], defs, open + {o}) && NoStrays(owner[next := o], earlier, defs, open + {o})
  {
    var more := ids[o := next];
    forall x | x in ids && x !in open
      ensures Mirrored(heap, more, defs, x)
    {
      assert Mirrored(heap, ids, defs, x);
      ImageStable(heap, heap[x], ids, more);
    }
    forall i | i in defs && i !in earlier
      ensures owner[next := o][i] !in open + {o}
    {
      assert owner[i] in ids;
    }
  }

  lemma DefineKeeps(heap: Heap, ids: IdMap, defs: Definitions, open: set<PyObject>, owner: map<int, PyObject>,
                    earlier: Definitions, next: int, o: PyObject)
    requires WellFormed(heap) && AllMirrored(heap, ids, defs, open) && NoStrays(owner, earlier, defs, open)
    requires Numbered(ids, owner, earlier, next) && o in open && !Raises(heap[o]) && Supported(heap, heap[o], ids)
    ensures var defs1 := defs[ids[o] := Image(heap, heap[o], ids)];
            AllMirrored(heap, ids, defs1, open - {o}) && NoStrays(owner, earlier, defs1, open - {o})
  {
    var defs1 := defs[ids[o] := Image(heap, heap[o], ids)];
    forall x | x in ids && x !in open - {o}
      ensures Mirrored(heap, ids, defs1, x)
    {
      if x != o {
        assert Mirrored(heap, ids, defs, x);
      }
    }
  }

  // What a walk comes to: the objects met, or an exception.
  ghost function Outcome(ok: bool, order: seq<PyObject>): Option<seq<PyObject>> {
    if ok then Some(order) else None
  }

  // ----- Why a walk ends -----

  // `o` reaches an object that raises an exception, or a class with a base that its class statement does not name.
  ghost predicate Obstructed(heap: Heap, o: PyObject) {
    exists x :: x in heap && Reaches(heap, o, x) && (Raises(heap[x]) || UnnamedBase(heap[x]))
  }

  lemma ObstructedItself(heap: Heap, o: PyObject)
    requires o in heap && (Raises(heap[o]) || UnnamedBase(heap[o]))
    ensures Obstructed(heap, o)
  {
    ReachesItself(heap, o);
  }

  lemma ObstructedFrom(heap: Heap, root: PyObject, next: PyObject)
    requires RefersTo(heap, root, next) && Obstructed(heap, next)
    ensures Obstructed(heap, root)
  {
    var edge := (x, y) => RefersTo(heap, x, y);
    var x :| x in heap && Reaches(heap, next, x) && (Raises(heap[x]) || UnnamedBase(heap[x]));
    ReachEdge(edge, root, next);
    ReachTransitive(edge, root, next, x);
    assert Reaches(heap, root, x);
  }

  // A walk that fails meets an object that obstructs it.
  lemma {:induction false} FailedIsObstructed(heap: Heap, o: PyObject, met: seq<PyObject>)
    requires WellFormed(heap) && o in heap && Walk(heap, o, met).None?
    ensures Obstructed(heap, o)
    decreases |Unmet(heap, met)|, 1, 0
  {
    MeetOne(heap, met, o);
    if !Raises(heap[o]) && WalkEach(heap, VisitOrder(heap, heap[o]), met + [o]).None? {
      VisitsReferTo(heap, o);
      EachIsObstructed(heap, o, VisitOrder(heap, heap[o]), met + [o]);
    } else {
      FailedAtItself(heap, o, met + [o]);
    }
  }

  lemma VisitsReferTo(heap: Heap, o: PyObject)
    requires WellFormed(heap) && o in heap
    ensures forall x :: x in VisitOrder(heap, heap[o]) ==> RefersTo(heap, o, x) && x in heap
  {
    forall x | x in VisitOrder(heap, heap[o])
      ensures RefersTo(heap, o, x) && x in heap
    {
      VisitOrderVisits(heap, heap[o], x);
    }
  }

  // All its parts are met: what is missing is a base that is none of them.
  lemma FailedAtItself(heap: Heap, o: PyObject, met: seq<PyObject>)
    requires o in heap && WalkOpened(heap, o, met).None?
    requires Raises(heap[o]) || WalkEach(heap, VisitOrder(heap, heap[o]), met).Some?
    ensures Obstructed(heap, o)
  {
    if !Raises(heap[o]) {
      var after := WalkEach(heap, VisitOrder(heap, heap[o]), met);
      var base :| base in Bases(heap[o]) && base !in after.value;
      assert base !in Objects(heap[o].scope) by {
        assert forall x :: x in Objects(heap[o].scope) ==> x in VisitOrder(heap, heap[o]);
      }
    }
    ObstructedItself(heap, o);
  }

  lemma {:induction false} EachIsObstructed(heap: Heap, root: PyObject, objects: seq<PyObject>, met: seq<PyObject>)
    requires WellFormed(heap) && WalkEach(heap, objects, met).None?
    requires forall x :: x in objects ==> RefersTo(heap, root, x) && x in heap
    ensures Obstructed(heap, root)
    decreases |Unmet(heap, met)|, 2, |objects|
  {
    var after := Walk(heap, objects[0], met);
    if after.None? {
      FailedIsObstructed(heap, objects[0], met);
      ObstructedFrom(heap, root, objects[0]);
    } else {
      MeetMore(heap, met, after.value);
      EachIsObstructed(heap, root, objects[1..], after.value);
    }
  }

  class Walker {
    const heap: Heap
    const registry: Registry
    var ids: IdMap
    ghost const earlier: Definitions
    ghost var owner: map<int, PyObject>
    ghost var order: seq<PyObject>

    // The registry may hold the entries of earlier walkers, and ids that walkers left behind without an entry.
    constructor (heap: Heap, registry: Registry)
      requires WellFormed(heap) && registry.Valid()
      ensures this.heap == heap && this.registry == registry && earlier == registry.definitions
      ensures ids == map[] && order == [] && Valid({})
    {
      this.heap := heap;
      this.registry := registry;
      earlier := registry.definitions;
      ids := map[];
      owner := map[];
      order := [];
    }

    // What holds even after an exception: the entries of earlier walkers are as they were.
    ghost predicate Sound()
      reads this, registry
    {
      registry.Valid() && Keeps(earlier, registry.definitions)
    }

    ghost predicate Valid(open: set<PyObject>)
      reads this, registry
    {
      && Sound() && WellFormed(heap) && Met(ids, order) && Numbered(ids, owner, earlier, registry.nextObjectId)
      && AllMirrored(heap, ids, registry.definitions, open) && NoStrays(owner, earlier, registry.definitions, open)
    }

    method AllocateId(o: PyObject, ghost open: set<PyObject>) returns (objectId: int)
      requires Valid(open) && o in heap && o !in ids
      modifies this, registry
      ensures Valid(open + {o}) && ids == old(ids)[o := objectId] && order == old(order) + [o]
    {
      ghost var next := registry.nextObjectId;
      NumberNext(ids, owner, earlier, next, o);
      OpenKeeps(heap, ids, registry.definitions, open, owner, earlier, next, o);
      objectId := registry.AllocateObject();
      ids := ids[o := objectId];
      owner := owner[objectId := o];
      order := order + [o];
    }

    method Define(o: PyObject, definition: Definition, ghost open: set<PyObject>)
      requires Valid(open) && o in open && !Raises(heap[o]) && Supported(heap, heap[o], ids)
      requires definition == Image(heap, heap[o], ids)
      modifies registry`definitions
      ensures Valid(open - {o})
    {
      DefineKeeps(heap, ids, registry.definitions, open, owner, earlier, registry.nextObjectId, o);
      registry.Define(ids[o], definition);
    }

    // `ok` is false when an exception leaves the walk.
    method WalkPyObject(o: PyObject, ghost open: set<PyObject>) returns (ok: bool, objectId: int)
      requires Valid(open) && o in heap
      modifies this, registry
      ensures ok ==> Valid(open) && o in ids && objectId == ids[o] && Grown(heap, old(ids), ids, o)
      ensures Sound() && Outcome(ok, order) == Walk(heap, o, old(order))
      decreases heap.Keys - ids.Keys, 0
    {
      if o in ids {
        return true, ids[o];
      }
      ReachesItself(heap, o);
      objectId := AllocateId(o, open);
      ok := RegisterObject(o, open + {o});
      if ok {
        assert open + {o} - {o} == open;
      }
    }

    // _walkPyObject, up to the two exceptions that make an object unconvertible.
    method RegisterObject(o: PyObject, ghost open: set<PyObject>) returns (ok: bool)
      requires Valid(open) && o in open
      modifies this, registry
      ensures ok ==> Valid(open - {o}) && Grown(heap, old(ids), ids, o)
      ensures Sound() && Outcome(ok, order) == WalkOpened(heap, o, old(order))
      decreases heap.Keys - ids.Keys, 5
    {
      if Raises(heap[o]) {
        return false;
      }
      ok := true;
      LeafIsMet(heap, o, order);
      match heap[o]
      case RemoteNode(argument) => Define(o, RemotePythonObject(argument), open);
      case FileNode(path, text) => Define(o, File(path, text), open);
      case ExceptionNode(_, _) => ok := RegisterBuiltinExceptionInstance(o, open);
      case SingletonNode(name) => Define(o, NamedSingleton(name), open);
      case UnconvertibleNode => Define(o, Unconvertible, open);
      case TupleNode(_) => ok := RegisterTuple(o, open);
      case ListNode(_) => ok := RegisterList(o, open);
      case DictNode(_, _) => ok := RegisterDict(o, open);
      case PrimitiveNode(value) => Define(o, Primitive(value), open);
      case FunctionNode(_, _, _, _) => ok := RegisterFunction(o, open);
      case ClassNode(_, _, _, _, _) => ok := RegisterClass(o, open);
      case MethodNode(_, _) => ok := RegisterInstanceMethod(o, open);
      case InstanceNode(_, _, _) => ok := RegisterClassInstance(o, open);
      case WithBlockNode(_, _, _, _) => ok := RegisterWithBlock(o, open);
    }

    method WalkOne(next: PyObject, root: PyObject, ghost open: set<PyObject>) returns (ok: bool, objectId: int)
      requires Valid(open) && RefersTo(heap, root, next)
      modifies this, registry
      ensures ok ==> Valid(open) && Grown(heap, old(ids), ids, root) && next in ids && objectId == ids[next]
      ensures Sound() && Outcome(ok, order) == Walk(heap, next, old(order))
      decreases heap.Keys - ids.Keys, 1
    {
      ok, objectId := WalkPyObject(next, open);
      if ok {
        GrownFrom(heap, old(ids), old(ids), ids, root, next);
      }
    }

    // The ids of the objects that `root` refers to, each walked in turn.
    method WalkAll(objects: seq<PyObject>, root: PyObject, ghost open: set<PyObject>) returns (ok: bool, objectIds: seq<int>)
      requires Valid(open) && forall x :: x in objects ==> RefersTo(heap, root, x)
      modifies this, registry
      ensures ok ==> Valid(open) && Grown(heap, old(ids), ids, root)
      ensures ok ==> HasAll(ids, objects) && objectIds == Lookup(ids, objects)
      ensures Sound() && Outcome(ok, order) == WalkEach(heap, objects, old(order))
      decreases heap.Keys - ids.Keys, 2
    {
      ok := true;
      objectIds := [];
      for i := 0 to |objects|
        invariant Valid(open) && Grown(heap, old(ids), ids, root)
        invariant HasAll(ids, objects[..i]) && objectIds == Lookup(ids, objects[..i])
        invariant WalkEach(heap, objects, old(order)) == WalkEach(heap, objects[i..], order)
      {
        WalkFrom(heap, objects, i, order);
        ghost var middle := ids;
        var objectId;
        ok, objectId := WalkOne(objects[i], root, open);
        if !ok {
          return;
        }
        GrownMore(heap, old(ids), middle, ids, root);
        LookupStep(objects, i, middle, ids);
        objectIds := objectIds + [objectId];
      }
      assert objects[..|objects|] == objects;
    }

    // The same for the objects under the names of a dictionary.
    method WalkMembers(members: seq<(string, PyObject)>, root: PyObject, ghost open: set<PyObject>)
      returns (ok: bool, memberIds: Members)
      requires Valid(open) && forall x :: x in Objects(members) ==> RefersTo(heap, root, x)
      modifies this, registry
      ensures ok ==> Valid(open) && Grown(heap, old(ids), ids, root)
      ensures ok ==> HasAll(ids, Objects(members)) && memberIds == LookupMembers(ids, members)
      ensures Sound() && Outcome(ok, order) == WalkEach(heap, Objects(members), old(order))
      decreases heap.Keys - ids.Keys, 2
    {
      ok := true;
      memberIds := [];
      for i := 0 to |members|
        invariant Valid(open) && Grown(heap, old(ids), ids, root)
        invariant HasAll(ids, Objects(members[..i])) && memberIds == LookupMembers(ids, members[..i])
        invariant WalkEach(heap, Objects(members), old(order)) == WalkEach(heap, Objects(members)[i..], order)
      {
        WalkFrom(heap, Objects(members), i, order);
        ghost var middle := ids;
        var objectId;
        assert Objects(members)[i] in Objects(members);
        ok, objectId := WalkOne(members[i].1, root, open);
        if !ok {
          return;
        }
        GrownMore(heap, old(ids), middle, ids, root);
        LookupMembersStable(members[..i], middle, ids);
        LookupMembersNext(members, i, ids);
        memberIds := memberIds + [(members[i].0, objectId)];
      }
      assert members[..|members|] == members;
    }

    method RegisterBuiltinExceptionInstance(o: PyObject, ghost open: set<PyObject>) returns (ok: bool)
      requires Valid(open) && o in open && heap[o].ExceptionNode?
      modifies this, registry
      ensures ok ==> Valid(open - {o}) && Grown(heap, old(ids), ids, o)
      ensures Sound() && Outcome(ok, order) == WalkOpened(heap, o, old(order))
      decreases heap.Keys - ids.Keys, 4
    {
      var argsId;
      WalkSingle(heap, heap[o].args, order);
      ok, argsId := WalkOne(heap[o].args, o, open);
      if ok {
        Define(o, BuiltinExceptionInstance(heap[o].typeName, argsId), open);
      }
    }

    method RegisterTuple(o: PyObject, ghost open: set<PyObject>) returns (ok: bool)
      requires Valid(open) && o in open && heap[o].TupleNode?
      modifies this, registry
      ensures ok ==> Valid(open - {o}) && Grown(heap, old(ids), ids, o)
      ensures Sound() && Outcome(ok, order) == WalkOpened(heap, o, old(order))
      decreases heap.Keys - ids.Keys, 4
    {
      var memberIds;
      ok, memberIds := WalkAll(heap[o].items, o, open);
      if ok {
        Define(o, Tuple(memberIds), open);
      }
    }

    method RegisterList(o: PyObject, ghost open: set<PyObject>) returns (ok: bool)
      requires Valid(open) && o in open && heap[o].ListNode?
      modifies this, registry
      ensures ok ==> Valid(open - {o}) && Grown(heap, old(ids), ids, o)
      ensures Sound() && Outcome(ok, order) == WalkOpened(heap, o, old(order))
      decreases heap.Keys - ids.Keys, 4
    {
      if AllPrimitive(heap, heap[o].items) {
        ok := true;
        Define(o, PrimitiveList(PrimitiveValues(heap, heap[o].items)), open);
      } else {
        var memberIds;
        ok, memberIds := WalkAll(heap[o].items, o, open);
        if ok {
          Define(o, List(memberIds), open);
        }
      }
    }

    // One key and its value.
    method WalkPair(key: PyObject, value: PyObject, root: PyObject, ghost open: set<PyObject>)
      returns (ok: bool, keyId: int, valueId: int)
      requires Valid(open) && RefersTo(heap, root, key) && RefersTo(heap, root, value)
      modifies this, registry
      ensures ok ==> Valid(open) && Grown(heap, old(ids), ids, root)
      ensures ok ==> key in ids && keyId == ids[key] && value in ids && valueId == ids[value]
      ensures Sound() && Outcome(ok, order) == WalkEach(heap, [key, value], old(order))
      decreases heap.Keys - ids.Keys, 2
    {
      valueId := 0;
      assert [key] + [value] == [key, value];
      WalkFirst(heap, key, [value], order);
      ok, keyId := WalkOne(key, root, open);
      if ok {
        ghost var between := ids;
        WalkSingle(heap, value, order);
        ok, valueId := WalkOne(value, root, open);
        if ok {
          GrownMore(heap, old(ids), between, ids, root);
        }
      }
    }

    // The loop over the items of a dictionary.
    method WalkPairs(keys: seq<PyObject>, values: seq<PyObject>, root: PyObject, ghost open: set<PyObject>)
      returns (ok: bool, keyIds: seq<int>, valueIds: seq<int>)
      requires Valid(open) && |keys| == |values|
      requires forall x :: x in keys || x in values ==> RefersTo(heap, root, x)
      modifies this, registry
      ensures ok ==> Valid(open) && Grown(heap, old(ids), ids, root)
      ensures ok ==> HasAll(ids, keys) && keyIds == Lookup(ids, keys)
      ensures ok ==> HasAll(ids, values) && valueIds == Lookup(ids, values)
      ensures Sound() && Outcome(ok, order) == WalkEach(heap, Interleaved(keys, values), old(order))
      decreases heap.Keys - ids.Keys, 3
    {
      keyIds, valueIds := [], [];
      ok := true;
      for i := 0 to |keys|
        invariant Valid(open) && Grown(heap, old(ids), ids, root)
        invariant HasAll(ids, keys[..i]) && keyIds == Lookup(ids, keys[..i])
        invariant HasAll(ids, values[..i]) && valueIds == Lookup(ids, values[..i])
        invariant WalkEach(heap, Interleaved(keys, values), old(order)) ==
                  WalkEach(heap, Interleaved(keys[i..], values[i..]), order)
      {
        InterleavedNext(keys, values, i);
        WalkConcat(heap, [keys[i], values[i]], Interleaved(keys[i + 1..], values[i + 1..]), order);
        ghost var middle := ids;
        var keyId, valueId;
        ok, keyId, valueId := WalkPair(keys[i], values[i], root, open);
        if !ok {
          return;
        }
        GrownMore(heap, old(ids), middle, ids, root);
        LookupStep(keys, i, middle, ids);
        LookupStep(values, i, middle, ids);
        keyIds, valueIds := keyIds + [keyId], valueIds + [valueId];
      }
      assert keys[..|keys|] == keys && values[..|values|] == values;
    }

    method RegisterDict(o: PyObject, ghost open: set<PyObject>) returns (ok: bool)
      requires Valid(open) && o in open && heap[o].DictNode?
      modifies this, registry
      ensures ok ==> Valid(open - {o}) && Grown(heap, old(ids), ids, o)
      ensures Sound() && Outcome(ok, order) == WalkOpened(heap, o, old(order))
      decreases heap.Keys - ids.Keys, 4
    {
      var keyIds, valueIds;
      ok, keyIds, valueIds := WalkPairs(heap[o].keys, heap[o].values, o, open);
      if ok {
        Define(o, Dict(keyIds, valueIds), open);
      }
    }

    // The resolved free variables, and then the file that holds the source text.
    method WalkScope(scope: seq<(string, PyObject)>, file: PyObject, root: PyObject, ghost open: set<PyObject>)
      returns (ok: bool, scopeIds: Members, fileId: int)
      requires Valid(open) && root in heap && Refs(heap, heap[root]) == Objects(scope) + [file]
      modifies this, registry
      ensures ok ==> Valid(open) && Grown(heap, old(ids), ids, root)
      ensures ok ==> HasAll(ids, Objects(scope)) && scopeIds == LookupMembers(ids, scope)
      ensures ok ==> file in ids && fileId == ids[file]
      ensures Sound() && Outcome(ok, order) == WalkEach(heap, Objects(scope) + [file], old(order))
      decreases heap.Keys - ids.Keys, 3
    {
      fileId := 0;
      WalkConcat(heap, Objects(scope), [file], order);
      ok, scopeIds := WalkMembers(scope, root, open);
      if ok {
        ghost var middle := ids;
        ok, fileId := WalkOne(file, root, open);
        if ok {
          LookupMembersStable(scope, middle, ids);
        }
      }
    }

    method RegisterFunction(o: PyObject, ghost open: set<PyObject>) returns (ok: bool)
      requires Valid(open) && o in open && heap[o].FunctionNode? && heap[o].source != Unresolved
      modifies this, registry
      ensures ok ==> Valid(open - {o}) && Grown(heap, old(ids), ids, o)
      ensures Sound() && Outcome(ok, order) == WalkOpened(heap, o, old(order))
      decreases heap.Keys - ids.Keys, 4
    {
      if heap[o].source == Missing {
        ok := true;
        Define(o, Unconvertible, open);
        return;
      }
      var scopeIds, fileId;
      ok, scopeIds, fileId := WalkScope(heap[o].scope, heap[o].file, o, open);
      if ok {
        Define(o, FunctionDefinition(fileId, heap[o].lineNumber, scopeIds), open);
      }
    }

    method RegisterClass(o: PyObject, ghost open: set<PyObject>) returns (ok: bool)
      requires Valid(open) && o in open && heap[o].ClassNode? && heap[o].source != Unresolved
      modifies this, registry
      ensures ok ==> Valid(open - {o}) && Grown(heap, old(ids), ids, o)
      ensures Sound() && Outcome(ok, order) == WalkOpened(heap, o, old(order))
      decreases heap.Keys - ids.Keys, 4
    {
      if heap[o].source == Missing {
        ok := true;
        Define(o, Unconvertible, open);
        return;
      }
      var scopeIds, fileId;
      ok, scopeIds, fileId := WalkScope(heap[o].scope, heap[o].file, o, open);
      if ok {
        // The base classes must have been met by now.
        ok := forall base :: base in heap[o].bases ==> base in ids;
        if ok {
          Define(o, ClassDefinition(fileId, heap[o].lineNumber, scopeIds, Lookup(ids, heap[o].bases)), open);
        }
      }
    }

    method RegisterInstanceMethod(o: PyObject, ghost open: set<PyObject>) returns (ok: bool)
      requires Valid(open) && o in open && heap[o].MethodNode?
      modifies this, registry
      ensures ok ==> Valid(open - {o}) && Grown(heap, old(ids), ids, o)
      ensures Sound() && Outcome(ok, order) == WalkOpened(heap, o, old(order))
      decreases heap.Keys - ids.Keys, 4
    {
      var instanceId;
      WalkSingle(heap, heap[o].receiver, order);
      ok, instanceId := WalkOne(heap[o].receiver, o, open);
      if ok {
        Define(o, InstanceMethod(instanceId, heap[o].name), open);
      }
    }

    method RegisterClassInstance(o: PyObject, ghost open: set<PyObject>) returns (ok: bool)
      requires Valid(open) && o in open && heap[o].InstanceNode?
      modifies this, registry
      ensures ok ==> Valid(open - {o}) && Grown(heap, old(ids), ids, o)
      ensures Sound() && Outcome(ok, order) == WalkOpened(heap, o, old(order))
      decreases heap.Keys - ids.Keys, 4
    {
      var classId;
      assert !Raises(heap[o]) && Bases(heap[o]) == [];
      WalkFirst(heap, heap[o].classObject, KnownMembers(heap[o]), order);
      ok, classId := WalkOne(heap[o].classObject, o, open);
      if ok {
        ghost var middle := ids;
        ok := RegisterMembers(o, classId, open);
        if ok {
          GrownMore(heap, old(ids), middle, ids, o);
        }
      }
    }

    // The members of an instance whose class has been walked, if they can be told.
    method RegisterMembers(o: PyObject, classId: int, ghost open: set<PyObject>) returns (ok: bool)
      requires Valid(open) && o in open && heap[o].InstanceNode?
      requires heap[o].classObject in ids && ids[heap[o].classObject] == classId
      modifies this, registry
      ensures ok ==> Valid(open - {o}) && Grown(heap, old(ids), ids, o)
      ensures Sound() && Outcome(ok, order) == WalkEach(heap, KnownMembers(heap[o]), old(order))
      decreases heap.Keys - ids.Keys, 3
    {
      if !heap[o].membersKnown {
        ok := true;
        Define(o, Unconvertible, open);
        return;
      }
      var memberIds;
      ok, memberIds := WalkMembers(heap[o].members, o, open);
      if ok {
        Define(o, ClassInstance(classId, memberIds), open);
      }
    }

    method RegisterWithBlock(o: PyObject, ghost open: set<PyObject>) returns (ok: bool)
      requires Valid(open) && o in open && heap[o].WithBlockNode? && heap[o].resolved
      modifies this, registry
      ensures ok ==> Valid(open - {o}) && Grown(heap, old(ids), ids, o)
      ensures Sound() && Outcome(ok, order) == WalkOpened(heap, o, old(order))
      decreases heap.Keys - ids.Keys, 4
    {
      var scopeIds, fileId;
      ok, scopeIds, fileId := WalkScope(heap[o].scope, heap[o].file, o, open);
      if ok {
        Define(o, WithBlock(scopeIds, fileId, heap[o].lineNumber), open);
      }
    }
  }
}
