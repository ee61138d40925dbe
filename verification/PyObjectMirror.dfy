/** Once a walk is over, its entries are a faithful copy of the part of the object graph it visited, whatever the registry
    held before and whatever is added to it later. */
module PyObjectMirror {
  import opened Collections
  import opened ObjectRegistry
  import opened PyObjectGraph
  import opened PyObjectOrder
  import opened PyObjectReading
  import opened PyObjectWalker
  import opened Reachability

  ghost predicate OneToOne(ids: IdMap) {
    forall a, b :: a in ids && b in ids && ids[a] == ids[b] ==> a == b
  }

  // Each of the objects has an id of its own, and its entry.
  ghost predicate Copied(heap: Heap, ids: IdMap, defs: Definitions) {
    WellFormed(heap) && OneToOne(ids) && forall o :: o in ids ==> Mirrored(heap, ids, defs, o)
  }

  ghost function OwnersIn(ids: IdMap): (owner: Owners)
    requires OneToOne(ids)
    ensures Inverse(ids, owner)
  {
    map o | o in ids :: ids[o] := o
  }

  // Every entry of a copy reads back as the object it was made for.
  lemma CopyReadsBack(heap: Heap, ids: IdMap, defs: Definitions, o: PyObject)
    requires Copied(heap, ids, defs) && o in ids
    ensures o in heap && ids[o] in defs && Tells(heap, OwnersIn(ids), defs[ids[o]], heap[o])
  {
    assert Mirrored(heap, ids, defs, o);
    ImageTells(heap, heap[o], ids, OwnersIn(ids));
  }

  lemma MirroredIsStable(heap: Heap, ids: IdMap, defs: Definitions, more: Definitions, o: PyObject)
    requires WellFormed(heap) && Mirrored(heap, ids, defs, o) && Keeps(defs, more)
    ensures Mirrored(heap, ids, more, o)
  {
    var i := ids[o];
    assert i in defs;
    assert i in more && more[i] == defs[i];
  }

  lemma CopiedIsStable(heap: Heap, ids: IdMap, defs: Definitions, more: Definitions)
    requires Copied(heap, ids, defs) && Keeps(defs, more)
    ensures Copied(heap, ids, more)
  {
    forall o | o in ids
      ensures Mirrored(heap, ids, more, o)
    {
      MirroredIsStable(heap, ids, defs, more, o);
    }
  }

  // After a walk the ids with an entry are those that had one before and, apart from them, those handed out in the walk.
  lemma EveryIdIsDefined(heap: Heap, ids: IdMap, owner: map<int, PyObject>, earlier: Definitions, next: int, defs: Definitions)
    requires WellFormed(heap) && Numbered(ids, owner, earlier, next) && Keeps(earlier, defs)
    requires AllMirrored(heap, ids, defs, {}) && NoStrays(owner, earlier, defs, {})
    ensures Copied(heap, ids, defs)
    ensures forall i :: i in defs <==> i in earlier || exists o :: o in ids && ids[o] == i
    ensures forall o :: o in ids ==> ids[o] !in earlier
  {
    forall o | o in ids
      ensures Mirrored(heap, ids, defs, o) && ids[o] in owner
    {
    }
    forall i | i in defs && i !in earlier
      ensures exists o :: o in ids && ids[o] == i
    {
      assert owner[i] in ids && ids[owner[i]] == i;
    }
  }

  lemma InstanceImage(heap: Heap, node: Node, ids: IdMap)
    requires WellFormed(heap) && Supported(heap, node, ids) && !Raises(node)
    ensures Image(heap, node, ids).ClassInstance? <==> IsInstance(node)
    ensures IsInstance(node) ==> node.classObject in ids && Image(heap, node, ids).classId == ids[node.classObject]
  {
  }

  ghost predicate Names(heap: Heap, a: PyObject, b: PyObject) {
    a in heap && b in Refs(heap, heap[a])
  }

  // `b` can be reached from `a` through the references that entries name: all that are followed, but for the class of an
  // instance whose members are not known.
  ghost predicate Leads(heap: Heap, a: PyObject, b: PyObject) {
    Reach((x, y) => Names(heap, x, y), a, b)
  }

  lemma LeadsIsReached(heap: Heap, a: PyObject, b: PyObject)
    requires Leads(heap, a, b)
    ensures Reaches(heap, a, b)
  {
    var edge := (x, y) => RefersTo(heap, x, y);
    var inside := x => Reaches(heap, a, x);
    ReachesItself(heap, a);
    forall x, y | inside(x) && Names(heap, x, y)
      ensures inside(y)
    {
      ReachEdge(edge, x, y);
      ReachTransitive(edge, a, x, y);
    }
    ReachStaysInside((x, y) => Names(heap, x, y), inside, a, b);
  }

  lemma LeadsOn(heap: Heap, a: PyObject, b: PyObject, c: PyObject)
    requires Leads(heap, a, b) && Names(heap, b, c)
    ensures Leads(heap, a, c)
  {
    var edge := (x, y) => Names(heap, x, y);
    ReachEdge(edge, b, c);
    ReachTransitive(edge, a, b, c);
  }

  // `b` is the id of an object that `o`, or the class of the instance `o`, refers to.
  ghost predicate RefersById(heap: Heap, ids: IdMap, o: PyObject, b: int) {
    && o in heap
    && (NamesOne(ids, Refs(heap, heap[o]), b) ||
        (IsInstance(heap[o]) && heap[o].classObject in heap && NamesOne(ids, Refs(heap, heap[heap[o].classObject]), b)))
  }

  lemma DependentsAreReferences(heap: Heap, ids: IdMap, defs: Definitions, o: PyObject, b: int)
    requires Copied(heap, ids, defs) && o in ids
    ensures ids[o] in Edges(defs)
    ensures DependsOn(Edges(defs), ids[o], b) <==> RefersById(heap, ids, o, b)
  {
    assert Mirrored(heap, ids, defs, o);
    if IsInstance(heap[o]) {
      var c := heap[o].classObject;
      assert c in Refs(heap, heap[o]);
      assert Mirrored(heap, ids, defs, c);
      InstanceImage(heap, heap[c], ids);
      InstanceDependents(heap, heap[o], ids, defs, ids[o], b);
      ImageDependents(heap, heap[c], ids, defs, ids[c], b);
    } else {
      ImageDependents(heap, heap[o], ids, defs, ids[o], b);
    }
  }

  // `i` is the id of an object that `root` leads to.
  ghost predicate LedTo(heap: Heap, ids: IdMap, root: PyObject, i: int) {
    exists o :: o in ids && ids[o] == i && Leads(heap, root, o)
  }

  // What an entry depends on is the id of an object that the owner of the entry leads to.
  lemma DependentIsLedTo(heap: Heap, ids: IdMap, root: PyObject, o: PyObject, b: int)
    requires WellFormed(heap) && o in ids && RefersById(heap, ids, o, b) && Leads(heap, root, o)
    ensures LedTo(heap, ids, root, b)
  {
    if NamesOne(ids, Refs(heap, heap[o]), b) {
      var p :| p in Refs(heap, heap[o]) && p in ids && ids[p] == b;
      LeadsOn(heap, root, o, p);
    } else {
      var c := heap[o].classObject;
      var p :| p in Refs(heap, heap[c]) && p in ids && ids[p] == b;
      assert Names(heap, o, c) && Names(heap, c, p);
      LeadsOn(heap, root, o, c);
      LeadsOn(heap, root, c, p);
    }
  }

  // The ids needed by the root are exactly the ids of the objects the root leads to.
  lemma DependencyGraphMirrorsObjects(heap: Heap, ids: IdMap, defs: Definitions, root: PyObject, i: int)
    requires Copied(heap, ids, defs) && root in ids
    ensures Needs(Edges(defs), ids[root], i) <==> LedTo(heap, ids, root, i)
  {
    if Needs(Edges(defs), ids[root], i) {
      NeededIsLedTo(heap, ids, defs, root, i);
    }
    if LedTo(heap, ids, root, i) {
      var o :| o in ids && ids[o] == i && Leads(heap, root, o);
      LedToIsNeeded(heap, ids, defs, root, o);
    }
  }

  lemma NeededIsLedTo(heap: Heap, ids: IdMap, defs: Definitions, root: PyObject, i: int)
    requires Copied(heap, ids, defs) && root in ids && Needs(Edges(defs), ids[root], i)
    ensures LedTo(heap, ids, root, i)
  {
    var edges := Edges(defs);
    var inside := x => LedTo(heap, ids, root, x);
    ReachSelf((x, y) => Names(heap, x, y), root);
    assert Leads(heap, root, root);
    forall x, y | inside(x) && DependsOn(edges, x, y)
      ensures inside(y)
    {
      var o :| o in ids && ids[o] == x && Leads(heap, root, o);
      DependentsAreReferences(heap, ids, defs, o, y);
      DependentIsLedTo(heap, ids, root, o, y);
    }
    ReachStaysInside((x, y) => DependsOn(edges, x, y), inside, ids[root], i);
  }

  lemma LedToIsNeeded(heap: Heap, ids: IdMap, defs: Definitions, root: PyObject, o: PyObject)
    requires Copied(heap, ids, defs) && root in ids && Leads(heap, root, o)
    ensures o in ids && Needs(Edges(defs), ids[root], ids[o])
  {
    var edges := Edges(defs);
    var inside := x => x in ids && Needs(edges, ids[root], ids[x]);
    NeedsItself(edges, ids[root]);
    forall x, y | inside(x) && Names(heap, x, y)
      ensures inside(y)
    {
      assert Mirrored(heap, ids, defs, x);
      assert NamesOne(ids, Refs(heap, heap[x]), ids[y]);
      DependentsAreReferences(heap, ids, defs, x, ids[y]);
      NeedsMore(edges, ids[root], ids[x], ids[y]);
    }
    ReachStaysInside((a, b) => Names(heap, a, b), inside, root, o);
  }

  // No dependency leads to an id without an entry.
  lemma EntriesAreComplete(heap: Heap, ids: IdMap, defs: Definitions, root: PyObject)
    requires Copied(heap, ids, defs) && root in ids
    ensures Computable(Edges(defs), ids[root])
  {
    forall i | Needs(Edges(defs), ids[root], i)
      ensures i in Edges(defs)
    {
      NeededIsLedTo(heap, ids, defs, root, i);
      var o :| o in ids && ids[o] == i && Leads(heap, root, o);
      DependentsAreReferences(heap, ids, defs, o, i);
    }
  }

  lemma ReachedIsWalked(heap: Heap, ids: IdMap, defs: Definitions, root: PyObject, o: PyObject)
    requires Copied(heap, ids, defs) && root in ids && Reaches(heap, root, o)
    ensures o in ids && Mirrored(heap, ids, defs, o)
  {
    var inside := x => x in ids;
    forall x, y | inside(x) && RefersTo(heap, x, y)
      ensures inside(y)
    {
      assert Mirrored(heap, ids, defs, x);
    }
    ReachStaysInside((a, b) => RefersTo(heap, a, b), inside, root, o);
  }

  // Where all members are known, entries name everything that is followed.
  ghost predicate AllMembersKnown(heap: Heap, ids: IdMap) {
    forall o :: o in ids && o in heap && heap[o].InstanceNode? ==> heap[o].membersKnown
  }

  lemma FollowedIsNamed(heap: Heap, ids: IdMap, x: PyObject, y: PyObject)
    requires x in ids && AllMembersKnown(heap, ids) && RefersTo(heap, x, y)
    ensures Names(heap, x, y)
  {
  }

  lemma ReachedIsLedTo(heap: Heap, ids: IdMap, defs: Definitions, root: PyObject, o: PyObject)
    requires Copied(heap, ids, defs) && root in ids && AllMembersKnown(heap, ids) && Reaches(heap, root, o)
    ensures Leads(heap, root, o)
  {
    var inside := x => x in ids && Leads(heap, root, x);
    ReachSelf((x, y) => Names(heap, x, y), root);
    forall x, y | inside(x) && RefersTo(heap, x, y)
      ensures inside(y)
    {
      assert Mirrored(heap, ids, defs, x);
      FollowedIsNamed(heap, ids, x, y);
      LeadsOn(heap, root, x, y);
    }
    ReachStaysInside((a, b) => RefersTo(heap, a, b), inside, root, o);
  }

  // ----- Defining an object over a registry in use -----

  // `ids` numbers exactly the objects that the root reaches, and each has its entry.
  ghost predicate IsCopy(heap: Heap, ids: IdMap, defs: Definitions, root: PyObject) {
    Copied(heap, ids, defs) && root in ids && forall o :: o in ids <==> Reaches(heap, root, o)
  }

  lemma CopyIsStable(heap: Heap, ids: IdMap, defs: Definitions, more: Definitions, root: PyObject)
    requires IsCopy(heap, ids, defs, root) && Keeps(defs, more)
    ensures IsCopy(heap, ids, more, root)
  {
    CopiedIsStable(heap, ids, defs, more);
  }

  // The keys of the graph are the ids of the objects that the root leads to, each with the dependents of its entry. These
  // are all the ids of the copy unless the members of some instance are not known.
  ghost predicate MirroredBy(heap: Heap, ids: IdMap, defs: Definitions, root: PyObject, graph: map<int, seq<int>>) {
    && (forall i :: i in graph <==> LedTo(heap, ids, root, i))
    && (forall i :: i in graph ==> i in defs && Dependents(defs, i) == Some(graph[i]))
    && (AllMembersKnown(heap, ids) ==> forall o :: o in ids ==> ids[o] in graph)
  }

  // No reached object ends the walk with an exception of its own: its free variables are resolved.
  ghost predicate NoneRaises(heap: Heap, root: PyObject) {
    forall o :: o in heap && Reaches(heap, root, o) ==>
      && !(heap[o].FunctionNode? && heap[o].source == Unresolved) && !(heap[o].ClassNode? && heap[o].source == Unresolved)
      && !(heap[o].WithBlockNode? && !heap[o].resolved)
  }

  // Every reached class names its bases in its class statement.
  ghost predicate BasesNamed(heap: Heap, root: PyObject) {
    forall o :: o in heap && Reaches(heap, root, o) ==> !UnnamedBase(heap[o])
  }

  lemma CopyRaisesNothing(heap: Heap, ids: IdMap, defs: Definitions, root: PyObject)
    requires IsCopy(heap, ids, defs, root)
    ensures NoneRaises(heap, root)
  {
    forall o | Reaches(heap, root, o)
      ensures o in heap && !Raises(heap[o])
    {
      ReachedIsWalked(heap, ids, defs, root, o);
    }
  }

  lemma FirstWalkIsCopy(heap: Heap, ids: IdMap, defs: Definitions, root: PyObject)
    requires Copied(heap, ids, defs) && root in ids && Grown(heap, map[], ids, root)
    ensures IsCopy(heap, ids, defs, root)
  {
    forall o | Reaches(heap, root, o)
      ensures o in ids
    {
      ReachedIsWalked(heap, ids, defs, root, o);
    }
  }

  lemma GraphOfCopy(heap: Heap, ids: IdMap, defs: Definitions, root: PyObject, graph: map<int, seq<int>>)
    requires IsCopy(heap, ids, defs, root)
    requires forall i :: i in graph <==> Needs(Edges(defs), ids[root], i)
    requires forall i :: i in graph ==> i in defs && Dependents(defs, i) == Some(graph[i])
    ensures MirroredBy(heap, ids, defs, root, graph)
  {
    forall i
      ensures i in graph <==> LedTo(heap, ids, root, i)
    {
      DependencyGraphMirrorsObjects(heap, ids, defs, root, i);
    }
    if AllMembersKnown(heap, ids) {
      forall o | o in ids
        ensures ids[o] in graph
      {
        ReachedIsLedTo(heap, ids, defs, root, o);
        assert LedTo(heap, ids, root, ids[o]);
      }
    }
  }

  // A new walker for the object over the registry of all walkers before it, and the dependency graph of the result. It works
  // out if and only if the depth-first walk does: only an object that raises, or a class with an unnamed base, ends it.
  // Either way the registry can be used again and its earlier entries are as they were.
  method WalkAndComputeGraph(heap: Heap, registry: Registry, root: PyObject)
    returns (ok: bool, objectId: int, graph: map<int, seq<int>>, ghost ids: IdMap)
    requires WellFormed(heap) && registry.Valid() && root in heap
    modifies registry
    ensures registry.Valid() && Keeps(old(registry.definitions), registry.definitions)
    ensures ok ==> IsCopy(heap, ids, registry.definitions, root) && objectId == ids[root]
    ensures ok ==> forall o :: o in ids ==>
              o in heap && ids[o] in registry.definitions &&
              Tells(heap, OwnersIn(ids), registry.definitions[ids[o]], heap[o])
    ensures ok ==> forall o :: o in ids ==> ids[o] !in old(registry.definitions)
    ensures ok ==> MirroredBy(heap, ids, registry.definitions, root, graph)
    ensures ok ==> objectId in graph && GraphLists(registry.definitions, graph)
    ensures ok ==> NoneRaises(heap, root)
    ensures ok <==> Walk(heap, root, []).Some?
    ensures !ok ==> Obstructed(heap, root)
    ensures BasesNamed(heap, root) ==> (ok <==> NoneRaises(heap, root))
  {
    graph, ids := map[], map[];
    var walker := new Walker(heap, registry);
    ok, objectId := walker.WalkPyObject(root, {});
    if !ok {
      FailedIsObstructed(heap, root, []);
      return;
    }
    ids := walker.ids;
    ghost var defs := registry.definitions;
    EveryIdIsDefined(heap, ids, walker.owner, walker.earlier, registry.nextObjectId, defs);
    FirstWalkIsCopy(heap, ids, defs, root);
    CopyRaisesNothing(heap, ids, defs, root);
    forall o | o in ids
      ensures o in heap && ids[o] in defs && Tells(heap, OwnersIn(ids), defs[ids[o]], heap[o])
    {
      CopyReadsBack(heap, ids, defs, o);
    }
    EntriesAreComplete(heap, ids, defs, root);
    ok, graph := registry.ComputeDependencyGraph(objectId);
    GraphOfCopy(heap, ids, defs, root, graph);
  }

  // ----- Several objects, one after the other -----

  // No two of the copies share an id.
  ghost predicate Disjoint(copies: seq<IdMap>) {
    forall j, k, a, b :: 0 <= j < k < |copies| && a in copies[j] && b in copies[k] ==> copies[j][a] != copies[k][b]
  }

  ghost predicate AllCopies(heap: Heap, copies: seq<IdMap>, defs: Definitions, objects: seq<PyObject>, objectIds: seq<int>) {
    && |copies| == |objectIds| <= |objects|
    && forall k :: 0 <= k < |copies| ==>
         IsCopy(heap, copies[k], defs, objects[k]) && objectIds[k] == copies[k][objects[k]]
  }

  lemma CopiesAreStable(heap: Heap, copies: seq<IdMap>, defs: Definitions, more: Definitions, objects: seq<PyObject>,
                        objectIds: seq<int>)
    requires AllCopies(heap, copies, defs, objects, objectIds) && Keeps(defs, more)
    ensures AllCopies(heap, copies, more, objects, objectIds)
  {
    forall k | 0 <= k < |copies|
      ensures IsCopy(heap, copies[k], more, objects[k])
    {
      CopyIsStable(heap, copies[k], defs, more, objects[k]);
    }
  }

  lemma NextIsCopied(heap: Heap, copies: seq<IdMap>, defs: Definitions, objects: seq<PyObject>, objectIds: seq<int>,
                     ids: IdMap, objectId: int)
    requires AllCopies(heap, copies, defs, objects, objectIds) && |objectIds| < |objects|
    requires IsCopy(heap, ids, defs, objects[|objectIds|]) && objectId == ids[objects[|objectIds|]]
    ensures AllCopies(heap, copies + [ids], defs, objects, objectIds + [objectId])
  {
    var more, moreIds := copies + [ids], objectIds + [objectId];
    forall k | 0 <= k < |more|
      ensures IsCopy(heap, more[k], defs, objects[k]) && moreIds[k] == more[k][objects[k]]
    {
      if k < |copies| {
        assert IsCopy(heap, copies[k], defs, objects[k]);
      }
    }
  }

  lemma NextIsDisjoint(heap: Heap, copies: seq<IdMap>, defs: Definitions, objects: seq<PyObject>, objectIds: seq<int>, ids: IdMap)
    requires AllCopies(heap, copies, defs, objects, objectIds) && Disjoint(copies)
    requires forall o :: o in ids ==> ids[o] !in defs
    ensures Disjoint(copies + [ids])
  {
    forall j, a | 0 <= j < |copies| && a in copies[j]
      ensures copies[j][a] in defs
    {
      assert Mirrored(heap, copies[j], defs, a);
    }
  }

  // The definitions of a function and its arguments that precede a submission. In the end all copies are in place: what
  // one of them left in the registry was not touched by the others.
  method DefineAll(heap: Heap, registry: Registry, objects: seq<PyObject>)
    returns (ok: bool, objectIds: seq<int>, ghost copies: seq<IdMap>)
    requires WellFormed(heap) && registry.Valid() && forall o :: o in objects ==> o in heap
    modifies registry
    ensures registry.Valid() && Keeps(old(registry.definitions), registry.definitions)
    ensures AllCopies(heap, copies, registry.definitions, objects, objectIds) && Disjoint(copies)
    ensures if ok then |objectIds| == |objects|
            else |objectIds| < |objects| && Obstructed(heap, objects[|objectIds|])
  {
    ok, objectIds, copies := true, [], [];
    for i := 0 to |objects|
      invariant registry.Valid() && Keeps(old(registry.definitions), registry.definitions)
      invariant |objectIds| == i && AllCopies(heap, copies, registry.definitions, objects, objectIds) && Disjoint(copies)
    {
      ghost var before := registry.definitions;
      var objectId, graph;
      ghost var ids;
      ok, objectId, graph, ids := WalkAndComputeGraph(heap, registry, objects[i]);
      CopiesAreStable(heap, copies, before, registry.definitions, objects, objectIds);
      if !ok {
        return;
      }
      NextIsDisjoint(heap, copies, before, objects, objectIds, ids);
      NextIsCopied(heap, copies, registry.definitions, objects, objectIds, ids, objectId);
      objectIds, copies := objectIds + [objectId], copies + [ids];
    }
  }
}
