/** Reading entries back: what the registry says of an object, in terms of objects again. */
module PyObjectReading {
  import opened Collections
  import opened ObjectRegistry
  import opened PyObjectGraph
  import opened PyObjectOrder

  type Owners = map<int, PyObject>

  predicate Owned(owner: Owners, ids: seq<int>) {
    forall i :: 0 <= i < |ids| ==> ids[i] in owner
  }

  function OwnersOf(owner: Owners, ids: seq<int>): seq<PyObject>
    requires Owned(owner, ids)
  {
    seq(|ids|, i requires 0 <= i < |ids| => owner[ids[i]])
  }

  function NamedOwners(owner: Owners, members: Members): seq<(string, PyObject)>
    requires Owned(owner, Ids(members))
  {
    seq(|members|, i requires 0 <= i < |members| => (members[i].0, owner[Ids(members)[i]]))
  }

  // The node that an entry describes. A list of primitives names no objects.
  function ReadBack(definition: Definition, owner: Owners): Option<Node> {
    match definition
    case Primitive(value) => Some(PrimitiveNode(value))
    case PrimitiveList(_) => None
    case File(path, text) => Some(FileNode(path, text))
    case RemotePythonObject(argument) => Some(RemoteNode(argument))
    case NamedSingleton(name) => Some(SingletonNode(name))
    case Unconvertible => Some(UnconvertibleNode)
    case BuiltinExceptionInstance(typeName, argsId) =>
      if argsId in owner then Some(ExceptionNode(typeName, owner[argsId])) else None
    case Tuple(ids) => if Owned(owner, ids) then Some(TupleNode(OwnersOf(owner, ids))) else None
    case List(ids) => if Owned(owner, ids) then Some(ListNode(OwnersOf(owner, ids))) else None
    case Dict(keyIds, valueIds) =>
      if Owned(owner, keyIds) && Owned(owner, valueIds)
      then Some(DictNode(OwnersOf(owner, keyIds), OwnersOf(owner, valueIds))) else None
    case FunctionDefinition(fileId, line, scope) =>
      if fileId in owner && Owned(owner, Ids(scope))
      then Some(FunctionNode(Found, NamedOwners(owner, scope), owner[fileId], line)) else None
    case ClassDefinition(fileId, line, scope, baseIds) =>
      if fileId in owner && Owned(owner, Ids(scope)) && Owned(owner, baseIds)
      then Some(ClassNode(Found, NamedOwners(owner, scope), owner[fileId], line, OwnersOf(owner, baseIds))) else None
    case InstanceMethod(instanceId, name) => if instanceId in owner then Some(MethodNode(owner[instanceId], name)) else None
    case ClassInstance(classId, members) =>
      if classId in owner && Owned(owner, Ids(members))
      then Some(InstanceNode(owner[classId], true, NamedOwners(owner, members))) else None
    case WithBlock(scope, fileId, line) =>
      if fileId in owner && Owned(owner, Ids(scope))
      then Some(WithBlockNode(true, NamedOwners(owner, scope), owner[fileId], line)) else None
  }

  // Without source text, or with members that cannot be told, an object has no entry of its own kind.
  predicate CannotConvert(node: Node) {
    || node.UnconvertibleNode?
    || (node.FunctionNode? && node.source != Found)
    || (node.ClassNode? && node.source != Found)
    || (node.InstanceNode? && !node.membersKnown)
  }

  // The entry tells all there is to tell of the node.
  predicate Tells(heap: Heap, owner: Owners, definition: Definition, node: Node) {
    if CannotConvert(node) then definition == Unconvertible
    else if node.ListNode? && forall i :: 0 <= i < |node.items| ==> node.items[i] in heap && heap[node.items[i]].PrimitiveNode? then
      definition.PrimitiveList? && |definition.values| == |node.items| &&
      forall i :: 0 <= i < |node.items| ==> heap[node.items[i]].value == definition.values[i]
    else ReadBack(definition, owner) == Some(node)
  }

  ghost predicate Inverse(ids: IdMap, owner: Owners) {
    forall o :: o in ids ==> ids[o] in owner && owner[ids[o]] == o
  }

  lemma LookupReadsBack(objects: seq<PyObject>, ids: IdMap, owner: Owners)
    requires HasAll(ids, objects) && Inverse(ids, owner)
    ensures Owned(owner, Lookup(ids, objects)) && OwnersOf(owner, Lookup(ids, objects)) == objects
  {
    forall i | 0 <= i < |objects|
      ensures Lookup(ids, objects)[i] in owner && owner[Lookup(ids, objects)[i]] == objects[i]
    {
      assert objects[i] in objects;
    }
  }

  lemma MembersReadBack(members: seq<(string, PyObject)>, ids: IdMap, owner: Owners)
    requires HasAll(ids, Objects(members)) && Inverse(ids, owner)
    ensures var looked := LookupMembers(ids, members);
            Owned(owner, Ids(looked)) && NamedOwners(owner, looked) == members
  {
    var looked := LookupMembers(ids, members);
    forall i | 0 <= i < |members|
      ensures Ids(looked)[i] in owner && (looked[i].0, owner[Ids(looked)[i]]) == members[i]
    {
      assert Objects(members)[i] in Objects(members);
    }
  }

  ghost predicate Imaged(heap: Heap, node: Node, ids: IdMap, owner: Owners) {
    WellFormed(heap) && Supported(heap, node, ids) && !Raises(node) && Inverse(ids, owner)
  }

  lemma SequenceTells(heap: Heap, node: Node, ids: IdMap, owner: Owners)
    requires Imaged(heap, node, ids, owner) && (node.TupleNode? || node.ListNode?)
    ensures Tells(heap, owner, Image(heap, node, ids), node)
  {
    if node.TupleNode? || !AllPrimitive(heap, node.items) {
      LookupReadsBack(node.items, ids, owner);
    }
  }

  lemma DictTells(heap: Heap, node: Node, ids: IdMap, owner: Owners)
    requires Imaged(heap, node, ids, owner) && node.DictNode?
    ensures Tells(heap, owner, Image(heap, node, ids), node)
  {
    LookupReadsBack(node.keys, ids, owner);
    LookupReadsBack(node.values, ids, owner);
  }

  lemma CodeTells(heap: Heap, node: Node, ids: IdMap, owner: Owners)
    requires Imaged(heap, node, ids, owner) && (node.FunctionNode? || node.WithBlockNode?)
    ensures Tells(heap, owner, Image(heap, node, ids), node)
  {
    if node.WithBlockNode? || node.source == Found {
      MembersReadBack(node.scope, ids, owner);
    }
  }

  lemma ClassTells(heap: Heap, node: Node, ids: IdMap, owner: Owners)
    requires Imaged(heap, node, ids, owner) && node.ClassNode?
    ensures Tells(heap, owner, Image(heap, node, ids), node)
  {
    if node.source == Found {
      MembersReadBack(node.scope, ids, owner);
      LookupReadsBack(node.bases, ids, owner);
    }
  }

  lemma InstanceTells(heap: Heap, node: Node, ids: IdMap, owner: Owners)
    requires Imaged(heap, node, ids, owner) && node.InstanceNode?
    ensures Tells(heap, owner, Image(heap, node, ids), node)
  {
    if node.membersKnown {
      MembersReadBack(node.members, ids, owner);
    }
  }

  // Whatever the kind of the node, its image reads back as the node.
  lemma ImageTells(heap: Heap, node: Node, ids: IdMap, owner: Owners)
    requires Imaged(heap, node, ids, owner)
    ensures Tells(heap, owner, Image(heap, node, ids), node)
  {
    match node
    case TupleNode(_) => SequenceTells(heap, node, ids, owner);
    case ListNode(_) => SequenceTells(heap, node, ids, owner);
    case DictNode(_, _) => DictTells(heap, node, ids, owner);
    case FunctionNode(_, _, _, _) => CodeTells(heap, node, ids, owner);
    case ClassNode(_, _, _, _, _) => ClassTells(heap, node, ids, owner);
    case InstanceNode(_, _, _) => InstanceTells(heap, node, ids, owner);
    case WithBlockNode(_, _, _, _) => CodeTells(heap, node, ids, owner);
    case _ =>
  }

  // ----- The parts of a node -----

  predicate InMembers(members: seq<(string, PyObject)>, o: PyObject) {
    exists i :: 0 <= i < |members| && members[i].1 == o
  }

  // `o` is one of the objects that the node is made of, as far as they are looked at.
  predicate IsPart(heap: Heap, node: Node, o: PyObject) {
    match node
    case ExceptionNode(_, args) => o == args
    case TupleNode(items) => o in items
    case ListNode(items) =>
      o in items && exists i :: 0 <= i < |items| && !(items[i] in heap && heap[items[i]].PrimitiveNode?)
    case DictNode(keys, values) => o in keys || o in values
    case FunctionNode(source, scope, file, _) => source == Found && (InMembers(scope, o) || o == file)
    case ClassNode(source, scope, file, _, _) => source == Found && (InMembers(scope, o) || o == file)
    case MethodNode(receiver, _) => o == receiver
    case InstanceNode(classObject, known, members) => o == classObject || (known && InMembers(members, o))
    case WithBlockNode(resolved, scope, file, _) => resolved && (InMembers(scope, o) || o == file)
    case _ => false
  }

  lemma ObjectsAre(members: seq<(string, PyObject)>, o: PyObject)
    ensures o in Objects(members) <==> InMembers(members, o)
  {
    if InMembers(members, o) {
      var i :| 0 <= i < |members| && members[i].1 == o;
      assert Objects(members)[i] == o;
    }
  }

  // What the walk goes on to are exactly the parts; an entry names all of them, but for the class of an instance whose
  // members are not known.
  lemma VisitsAreParts(heap: Heap, node: Node, o: PyObject)
    ensures Visits(heap, node, o) <==> IsPart(heap, node, o)
    ensures o in Refs(heap, node) <==> IsPart(heap, node, o) && !(node.InstanceNode? && !node.membersKnown)
  {
    match node
    case FunctionNode(_, scope, _, _) => ObjectsAre(scope, o);
    case ClassNode(_, scope, _, _, _) => ObjectsAre(scope, o);
    case InstanceNode(_, _, members) => ObjectsAre(members, o);
    case WithBlockNode(_, scope, _, _) => ObjectsAre(scope, o);
    case _ =>
  }

  // In a dictionary each key goes before its value, and the pairs in their order.
  lemma {:induction false} DictOrder(keys: seq<PyObject>, values: seq<PyObject>, i: nat)
    requires |keys| == |values| && i < |keys|
    ensures var visited := Interleaved(keys, values);
            |visited| == 2 * |keys| && visited[2 * i] == keys[i] && visited[2 * i + 1] == values[i]
    decreases |keys|
  {
    if i > 0 {
      DictOrder(keys[1..], values[1..], i - 1);
    } else if |keys| > 1 {
      DictOrder(keys[1..], values[1..], 0);
    }
  }

  // In code the free variables go before the file, in an instance the class before the members.
  lemma ScopeOrder(heap: Heap, node: Node, i: nat)
    requires (node.FunctionNode? && node.source == Found) || (node.ClassNode? && node.source == Found) ||
             (node.WithBlockNode? && node.resolved)
    ensures var visited := VisitOrder(heap, node);
            && |visited| == |node.scope| + 1 && visited[|node.scope|] == node.file
            && (i < |node.scope| ==> visited[i] == node.scope[i].1)
  {
  }

  lemma InstanceOrder(heap: Heap, node: Node, i: nat)
    requires node.InstanceNode?
    ensures var visited := VisitOrder(heap, node);
            && |visited| == 1 + (if node.membersKnown then |node.members| else 0) && visited[0] == node.classObject
            && (node.membersKnown && i < |node.members| ==> visited[i + 1] == node.members[i].1)
  {
  }
}
