/** The registry of ObjectRegistry.py: object definitions under integer ids, and the dependency graph of an id. */
module ObjectRegistry {
  import opened Collections
  import opened Reachability

  // What a primitive or a remote object carries.
  type Value(==, !new)

  // A Python dictionary in the order in which it is iterated.
  type Members = seq<(string, int)>

  datatype Definition =
    | Primitive(value: Value)
    | PrimitiveList(values: seq<Value>)
    | File(path: string, text: string)
    | RemotePythonObject(argument: Value)
    | NamedSingleton(singletonName: string)
    | Unconvertible
    | BuiltinExceptionInstance(typeName: string, argsId: int)
    | Tuple(memberIds: seq<int>)
    | List(memberIds: seq<int>)
    | Dict(keyIds: seq<int>, valueIds: seq<int>)
    | FunctionDefinition(sourceFileId: int, lineNumber: int, scope: Members)
    | ClassDefinition(sourceFileId: int, lineNumber: int, scope: Members, baseClassIds: seq<int>)
    | InstanceMethod(instanceId: int, methodName: string)
    | ClassInstance(classId: int, members: Members)
    | WithBlock(scope: Members, sourceFileId: int, lineNumber: int)

  type Definitions = map<int, Definition>

  function Ids(members: Members): seq<int> {
    seq(|members|, i requires 0 <= i < |members| => members[i].1)
  }

  // None stands for the exception raised for an id without an entry, or for classes that are each other's instances.
  function DependentsFrom(defs: Definitions, id: int, seen: set<int>): Option<seq<int>>
    decreases defs.Keys - seen
  {
    if id !in defs || id in seen then None
    else
      match defs[id]
      case BuiltinExceptionInstance(_, argsId) => Some([argsId])
      case Tuple(memberIds) => Some(memberIds)
      case List(memberIds) => Some(memberIds)
      case FunctionDefinition(fileId, _, scope) => Some(Ids(scope) + [fileId])
      case ClassDefinition(fileId, _, scope, _) => Some(Ids(scope) + [fileId])
      case InstanceMethod(instanceId, _) => Some([instanceId])
      case ClassInstance(classId, members) =>
        var ofClass := DependentsFrom(defs, classId, seen + {id});
        if ofClass.None? then None else Some([classId] + ofClass.value + Ids(members))
      case Dict(keyIds, valueIds) => Some(keyIds + valueIds)
      case WithBlock(scope, fileId, _) => Some(Ids(scope) + [fileId])
      case _ => Some([])
  }

  function Dependents(defs: Definitions, id: int): Option<seq<int>> {
    DependentsFrom(defs, id, {})
  }

  // The free variables in order, and the source file last.
  ghost predicate ScopeThenFile(ids: seq<int>, scope: Members, fileId: int) {
    && |ids| == |scope| + 1 && ids[|scope|] == fileId
    && (forall i :: 0 <= i < |scope| ==> ids[i] == scope[i].1)
  }

  // What an entry that is not an instance depends on, item by item.
  ghost predicate ListsWhatIsNamed(d: Definition, ids: seq<int>) {
    match d
    case BuiltinExceptionInstance(_, argsId) => ids == [argsId]
    case Tuple(memberIds) => ids == memberIds
    case List(memberIds) => ids == memberIds
    case FunctionDefinition(fileId, _, scope) => ScopeThenFile(ids, scope, fileId)
    case ClassDefinition(fileId, _, scope, _) => ScopeThenFile(ids, scope, fileId)
    case WithBlock(scope, fileId, _) => ScopeThenFile(ids, scope, fileId)
    case InstanceMethod(instanceId, _) => ids == [instanceId]
    case Dict(keyIds, valueIds) =>
      |ids| == |keyIds| + |valueIds| && keyIds <= ids && forall i :: 0 <= i < |valueIds| ==> ids[|keyIds| + i] == valueIds[i]
    case ClassInstance(_, _) => true
    case _ => ids == []
  }

  // The class of an instance goes first, then what the class depends on, then the members.
  ghost predicate ListsInstance(d: Definition, ids: seq<int>, ofClass: seq<int>)
    requires d.ClassInstance?
  {
    && |ids| == 1 + |ofClass| + |d.members| && ids[0] == d.classId
    && (forall i :: 0 <= i < |ofClass| ==> ids[1 + i] == ofClass[i])
    && (forall i :: 0 <= i < |d.members| ==> ids[1 + |ofClass| + i] == d.members[i].1)
  }

  // The dependency graph of an id, read off the entries: whatever an entry names is there, in its order.
  ghost predicate GraphLists(defs: Definitions, graph: map<int, seq<int>>) {
    forall id :: id in graph ==>
      && id in defs && ListsWhatIsNamed(defs[id], graph[id]) && (forall d :: d in graph[id] ==> d in graph)
      && (defs[id].ClassInstance? && defs[id].classId in defs && !defs[defs[id].classId].ClassInstance? ==>
            defs[id].classId in graph && ListsInstance(defs[id], graph[id], graph[defs[id].classId]))
  }

  lemma ReachedGraphLists(defs: Definitions, graph: map<int, seq<int>>, root: int)
    requires Computable(Edges(defs), root) && forall id :: id in graph <==> Needs(Edges(defs), root, id)
    requires forall id :: id in graph ==> id in defs && Dependents(defs, id) == Some(graph[id])
    ensures GraphLists(defs, graph)
  {
    forall id | id in graph
      ensures forall d :: d in graph[id] ==> d in graph
    {
      forall d | d in graph[id]
        ensures d in graph
      {
        assert DependsOn(Edges(defs), id, d);
        NeedsMore(Edges(defs), root, id, d);
      }
    }
    forall id | id in graph && defs[id].ClassInstance? && defs[id].classId in defs && !defs[defs[id].classId].ClassInstance?
      ensures defs[id].classId in graph && ListsInstance(defs[id], graph[id], graph[defs[id].classId])
    {
      DependentsOfInstance(defs, id);
      assert graph[id][0] == defs[id].classId;
    }
  }

  // The class of an instance, what that class depends on, and the members.
  lemma DependentsOfInstance(defs: Definitions, id: int)
    requires id in defs && defs[id].ClassInstance?
    requires defs[id].classId in defs && !defs[defs[id].classId].ClassInstance?
    ensures var c := defs[id].classId;
            && Dependents(defs, c).Some?
            && Dependents(defs, id) == Some([c] + Dependents(defs, c).value + Ids(defs[id].members))
  {
    var c := defs[id].classId;
    assert DependentsFrom(defs, c, {} + {id}) == DependentsFrom(defs, c, {});
  }

  // The dependents of every id for which they can be computed.
  ghost function Edges(defs: Definitions): map<int, seq<int>> {
    map id | id in defs && Dependents(defs, id).Some? :: Dependents(defs, id).value
  }

  ghost predicate DependsOn(edges: map<int, seq<int>>, a: int, b: int) {
    a in edges && b in edges[a]
  }

  // `b` is among the dependents of the dependents ... of `a`.
  ghost predicate Needs(edges: map<int, seq<int>>, a: int, b: int) {
    Reach((x, y) => DependsOn(edges, x, y), a, b)
  }

  // Everything needed is there.
  ghost predicate Computable(edges: map<int, seq<int>>, root: int) {
    forall id :: Needs(edges, root, id) ==> id in edges
  }

  lemma NeedsItself(edges: map<int, seq<int>>, a: int)
    ensures Needs(edges, a, a)
  {
    ReachSelf((x, y) => DependsOn(edges, x, y), a);
  }

  ghost predicate Agrees(edges: map<int, seq<int>>, graph: map<int, seq<int>>) {
    forall id :: id in graph ==> id in edges && graph[id] == edges[id]
  }

  lemma AgreesWith(edges: map<int, seq<int>>, graph: map<int, seq<int>>, id: int)
    requires Agrees(edges, graph) && id in edges
    ensures Agrees(edges, graph[id := edges[id]])
  {
  }

  // The nodes added since `before` are needed by `root`, and what they depend on is there.
  ghost predicate Explored(edges: map<int, seq<int>>, before: set<int>, graph: set<int>, root: int) {
    forall id :: id in graph && id !in before ==>
      Needs(edges, root, id) && forall d :: DependsOn(edges, id, d) ==> d in graph
  }

  lemma ExploredIsReached(edges: map<int, seq<int>>, graph: set<int>, root: int)
    requires root in graph && Explored(edges, {}, graph, root)
    ensures forall id :: id in graph <==> Needs(edges, root, id)
  {
    forall id | Needs(edges, root, id)
      ensures id in graph
    {
      ReachStaysInside((x, y) => DependsOn(edges, x, y), x => x in graph, root, id);
    }
  }

  // The nodes that a call for the dependent `next` of `root` added are needed by `root`.
  lemma ExploredFrom(edges: map<int, seq<int>>, before: set<int>, graph: set<int>, root: int, next: int)
    requires DependsOn(edges, root, next) && Explored(edges, before, graph, next)
    ensures Explored(edges, before, graph, root)
  {
    var edge := (x, y) => DependsOn(edges, x, y);
    ReachEdge(edge, root, next);
    forall id | id in graph && id !in before
      ensures Needs(edges, root, id)
    {
      ReachTransitive(edge, root, next, id);
    }
  }

  // What a dependent lacks, `root` lacks.
  lemma MissingFrom(edges: map<int, seq<int>>, root: int, next: int)
    requires DependsOn(edges, root, next) && !Computable(edges, next)
    ensures !Computable(edges, root)
  {
    var id :| Needs(edges, next, id) && id !in edges;
    ReachEdge((x, y) => DependsOn(edges, x, y), root, next);
    ReachTransitive((x, y) => DependsOn(edges, x, y), root, next, id);
    assert Needs(edges, root, id);
  }

  lemma ExploredMore(edges: map<int, seq<int>>, before: set<int>, middle: set<int>, graph: set<int>, root: int)
    requires Explored(edges, before, middle, root) && Explored(edges, middle, graph, root) && middle <= graph
    ensures Explored(edges, before, graph, root)
  {
  }

  lemma ExploredRoot(edges: map<int, seq<int>>, before: set<int>, graph: set<int>, root: int)
    requires root in edges && Explored(edges, before + {root}, graph, root)
    requires forall d :: d in edges[root] ==> d in graph
    ensures Explored(edges, before, graph, root)
  {
    NeedsItself(edges, root);
  }

  // ----- Entries made later -----

  ghost predicate Keeps(defs: Definitions, more: Definitions) {
    forall id :: id in defs ==> id in more && more[id] == defs[id]
  }

  lemma {:induction false} DependentsStable(defs: Definitions, more: Definitions, id: int, seen: set<int>)
    requires Keeps(defs, more) && DependentsFrom(defs, id, seen).Some?
    ensures DependentsFrom(more, id, seen) == DependentsFrom(defs, id, seen)
    decreases defs.Keys - seen
  {
    if defs[id].ClassInstance? {
      DependentsStable(defs, more, defs[id].classId, seen + {id});
    }
  }

  lemma EdgesStable(defs: Definitions, more: Definitions)
    requires Keeps(defs, more)
    ensures Agrees(Edges(more), Edges(defs))
  {
    forall id | id in Edges(defs)
      ensures id in Edges(more) && Edges(more)[id] == Edges(defs)[id]
    {
      DependentsStable(defs, more, id, {});
    }
  }

  // Once the graph of an id can be computed, entries made later do not change it.
  lemma GraphIsStable(defs: Definitions, more: Definitions, root: int)
    requires Keeps(defs, more) && Computable(Edges(defs), root)
    ensures Computable(Edges(more), root)
    ensures forall id :: Needs(Edges(more), root, id) <==> Needs(Edges(defs), root, id)
    ensures forall id :: Needs(Edges(defs), root, id) ==> Edges(more)[id] == Edges(defs)[id]
  {
    EdgesStable(defs, more);
    forall id | Needs(Edges(more), root, id)
      ensures Needs(Edges(defs), root, id)
    {
      NeededInSmaller(Edges(defs), Edges(more), root, id);
    }
    forall id | Needs(Edges(defs), root, id)
      ensures Needs(Edges(more), root, id)
    {
      NeededInLarger(Edges(defs), Edges(more), root, id);
    }
  }

  lemma NeedsMore(edges: map<int, seq<int>>, root: int, a: int, b: int)
    requires Needs(edges, root, a) && DependsOn(edges, a, b)
    ensures Needs(edges, root, b)
  {
    ReachEdge((x, y) => DependsOn(edges, x, y), a, b);
    ReachTransitive((x, y) => DependsOn(edges, x, y), root, a, b);
  }

  lemma NeededInLarger(edges: map<int, seq<int>>, more: map<int, seq<int>>, root: int, id: int)
    requires Agrees(more, edges) && Needs(edges, root, id)
    ensures Needs(more, root, id)
  {
    NeedsItself(more, root);
    forall x, y | Needs(more, root, x) && DependsOn(edges, x, y)
      ensures Needs(more, root, y)
    {
      NeedsMore(more, root, x, y);
    }
    ReachStaysInside((x, y) => DependsOn(edges, x, y), x => Needs(more, root, x), root, id);
  }

  lemma NeededInSmaller(edges: map<int, seq<int>>, more: map<int, seq<int>>, root: int, id: int)
    requires Agrees(more, edges) && Computable(edges, root) && Needs(more, root, id)
    ensures Needs(edges, root, id)
  {
    NeedsItself(edges, root);
    forall x, y | Needs(edges, root, x) && DependsOn(more, x, y)
      ensures Needs(edges, root, y)
    {
      NeedsMore(edges, root, x, y);
    }
    ReachStaysInside((x, y) => DependsOn(more, x, y), x => Needs(edges, root, x), root, id);
  }

  class Registry {
    var nextObjectId: int
    var definitions: Definitions

    // Entries are under ids that were handed out; ids without an entry are what an exception left behind.
    ghost predicate Valid()
      reads this
    {
      forall id :: id in definitions ==> id < nextObjectId
    }

    constructor ()
      ensures Valid() && nextObjectId == 0 && definitions == map[]
    {
      nextObjectId := 0;
      definitions := map[];
    }

    method AllocateObject() returns (objectId: int)
      modifies this`nextObjectId
      ensures objectId == old(nextObjectId) && nextObjectId == objectId + 1
    {
      objectId := nextObjectId;
      nextObjectId := nextObjectId + 1;
    }

    // The define methods of the source differ only in the definition they build.
    method Define(objectId: int, definition: Definition)
      modifies this`definitions
      ensures definitions == old(definitions)[objectId := definition]
    {
      definitions := definitions[objectId := definition];
    }

    // Works out if and only if everything that `objectId` needs is there.
    method ComputeDependencyGraph(objectId: int) returns (ok: bool, graph: map<int, seq<int>>)
      ensures ok <==> Computable(Edges(definitions), objectId)
      ensures ok ==> forall id :: id in graph <==> Needs(Edges(definitions), objectId, id)
      ensures ok ==> forall id :: id in graph ==> id in definitions && Dependents(definitions, id) == Some(graph[id])
      ensures ok ==> objectId in graph && GraphLists(definitions, graph)
    {
      ghost var edges := Edges(definitions);
      ok, graph := PopulateGraphOfIds(map[], objectId, edges);
      if ok {
        ExploredIsReached(edges, graph.Keys, objectId);
        ReachedGraphLists(definitions, graph, objectId);
      }
    }

    // The graph is passed on and returned where the source fills one dictionary.
    method PopulateGraphOfIds(before: map<int, seq<int>>, objectId: int, ghost edges: map<int, seq<int>>)
      returns (ok: bool, graph: map<int, seq<int>>)
      requires edges == Edges(definitions) && objectId !in before && Agrees(edges, before)
      ensures ok ==> before.Keys + {objectId} <= graph.Keys && Agrees(edges, graph)
      ensures ok ==> Explored(edges, before.Keys, graph.Keys, objectId)
      ensures !ok ==> !Computable(edges, objectId)
      decreases definitions.Keys - before.Keys
    {
      var dependentIds := Dependents(definitions, objectId);
      NeedsItself(edges, objectId);
      if dependentIds.None? {
        return false, before;
      }
      graph := before[objectId := dependentIds.value];
      AgreesWith(edges, before, objectId);
      ok := true;
      for i := 0 to |dependentIds.value|
        invariant before.Keys + {objectId} <= graph.Keys && Agrees(edges, graph)
        invariant Explored(edges, before.Keys + {objectId}, graph.Keys, objectId)
        invariant forall d :: d in dependentIds.value[..i] ==> d in graph
      {
        var next := dependentIds.value[i];
        if next !in graph {
          ghost var earlier := graph.Keys;
          ok, graph := PopulateGraphOfIds(graph, next, edges);
          if !ok {
            MissingFrom(edges, objectId, next);
            return;
          }
          ExploredFrom(edges, earlier, graph.Keys, objectId, next);
          ExploredMore(edges, before.Keys + {objectId}, earlier, graph.Keys, objectId);
        }
      }
      ExploredRoot(edges, before.Keys, graph.Keys, objectId);
    }
  }
}
