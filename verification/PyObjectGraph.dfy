/** The live Python objects that PyObjectWalker.py visits, and the registry entry that each kind of object becomes. */
module PyObjectGraph {
  import opened Collections
  import opened ObjectRegistry

  type PyObject(==, !new)

  // Whether the source text of a function or class can be found, and its free variables resolved: a missing text makes
  // the object unconvertible, an unresolved variable or a reserved name ends the whole walk with an exception.
  datatype Source = Found | Missing | Unresolved

  // The members of an instance without a dictionary are read off the source text of its class: when that is missing they
  // are not known, and the instance becomes unconvertible after its class has been walked.
  // A node names the objects the walker goes on to; `scope` holds the resolved free variables.
  datatype Node =
    | RemoteNode(argument: Value)
    | FileNode(path: string, text: string)
    | ExceptionNode(typeName: string, args: PyObject)
    | SingletonNode(name: string)
    | UnconvertibleNode
    | TupleNode(items: seq<PyObject>)
    | ListNode(items: seq<PyObject>)
    | DictNode(keys: seq<PyObject>, values: seq<PyObject>)
    | PrimitiveNode(value: Value)
    | FunctionNode(source: Source, scope: seq<(string, PyObject)>, file: PyObject, lineNumber: int)
    | ClassNode(source: Source, scope: seq<(string, PyObject)>, file: PyObject, lineNumber: int, bases: seq<PyObject>)
    | MethodNode(receiver: PyObject, name: string)
    | InstanceNode(classObject: PyObject, membersKnown: bool, members: seq<(string, PyObject)>)
    | WithBlockNode(resolved: bool, scope: seq<(string, PyObject)>, file: PyObject, lineNumber: int)

  type Heap = map<PyObject, Node>

  type IdMap = map<PyObject, int>

  function Objects(members: seq<(string, PyObject)>): seq<PyObject> {
    seq(|members|, i requires 0 <= i < |members| => members[i].1)
  }

  predicate AllPrimitive(heap: Heap, items: seq<PyObject>) {
    forall i :: 0 <= i < |items| ==> items[i] in heap && heap[items[i]].PrimitiveNode?
  }

  // The objects that the entry of a node names. A list of primitives is registered whole.
  function Refs(heap: Heap, node: Node): seq<PyObject> {
    match node
    case ExceptionNode(_, args) => [args]
    case TupleNode(items) => items
    case ListNode(items) => if AllPrimitive(heap, items) then [] else items
    case DictNode(keys, values) => keys + values
    case FunctionNode(source, scope, file, _) => if source == Found then Objects(scope) + [file] else []
    case ClassNode(source, scope, file, _, _) => if source == Found then Objects(scope) + [file] else []
    case MethodNode(receiver, _) => [receiver]
    case InstanceNode(classObject, known, members) => if known then [classObject] + Objects(members) else []
    case WithBlockNode(resolved, scope, file, _) => if resolved then Objects(scope) + [file] else []
    case _ => []
  }

  // The objects walked on behalf of a node: also the class of an instance whose members are not known.
  predicate Visits(heap: Heap, node: Node, o: PyObject) {
    o in Refs(heap, node) || (node.InstanceNode? && o == node.classObject)
  }

  // Base classes are looked up, not walked.
  function Bases(node: Node): seq<PyObject> {
    if node.ClassNode? && node.source == Found then node.bases else []
  }

  // References stay in the heap, a dictionary has a value for each key, and a class is not an instance.
  ghost predicate WellFormed(heap: Heap) {
    && (forall o, r :: o in heap && r in Refs(heap, heap[o]) ==> r in heap)
    && (forall o :: o in heap && heap[o].DictNode? ==> |heap[o].keys| == |heap[o].values|)
    && (forall o :: o in heap && heap[o].InstanceNode? ==>
          heap[o].classObject in heap && !heap[heap[o].classObject].InstanceNode?)
  }

  ghost predicate HasAll(ids: IdMap, objects: seq<PyObject>) {
    forall o :: o in objects ==> o in ids
  }

  function Lookup(ids: IdMap, objects: seq<PyObject>): seq<int>
    requires HasAll(ids, objects)
  {
    seq(|objects|, i requires 0 <= i < |objects| => ids[objects[i]])
  }

  function LookupMembers(ids: IdMap, members: seq<(string, PyObject)>): Members
    requires HasAll(ids, Objects(members))
  {
    seq(|members|, i requires 0 <= i < |members| => (members[i].0, ids[Objects(members)[i]]))
  }

  function PrimitiveValues(heap: Heap, items: seq<PyObject>): seq<Value>
    requires AllPrimitive(heap, items)
  {
    seq(|items|, i requires 0 <= i < |items| => heap[items[i]].value)
  }

  ghost predicate Supported(heap: Heap, node: Node, ids: IdMap) {
    HasAll(ids, Refs(heap, node)) && HasAll(ids, Bases(node)) && (node.InstanceNode? ==> node.classObject in ids)
  }

  // What ends the walk with an exception before the node's references are visited.
  predicate Raises(node: Node) {
    || (node.FunctionNode? && node.source == Unresolved)
    || (node.ClassNode? && node.source == Unresolved)
    || (node.WithBlockNode? && !node.resolved)
  }

  // A class with a base that its own class statement does not name: the walk goes on only if it has met the base before.
  predicate UnnamedBase(node: Node) {
    node.ClassNode? && node.source == Found && exists base :: base in node.bases && base !in Objects(node.scope)
  }

  // The registry entry of a node whose references have the given ids.
  function Image(heap: Heap, node: Node, ids: IdMap): Definition
    requires WellFormed(heap) && Supported(heap, node, ids) && !Raises(node)
  {
    match node
    case RemoteNode(argument) => RemotePythonObject(argument)
    case FileNode(path, text) => File(path, text)
    case ExceptionNode(typeName, args) => BuiltinExceptionInstance(typeName, Lookup(ids, [args])[0])
    case SingletonNode(name) => NamedSingleton(name)
    case UnconvertibleNode => Unconvertible
    case TupleNode(items) => Tuple(Lookup(ids, items))
    case ListNode(items) =>
      if AllPrimitive(heap, items) then PrimitiveList(PrimitiveValues(heap, items)) else List(Lookup(ids, items))
    case DictNode(keys, values) => Dict(Lookup(ids, keys), Lookup(ids, values))
    case PrimitiveNode(value) => Primitive(value)
    case FunctionNode(source, scope, file, line) =>
      if source == Found then FunctionDefinition(ids[file], line, LookupMembers(ids, scope)) else Unconvertible
    case ClassNode(source, scope, file, line, bases) =>
      if source == Found then ClassDefinition(ids[file], line, LookupMembers(ids, scope), Lookup(ids, bases)) else Unconvertible
    case MethodNode(receiver, name) => InstanceMethod(ids[receiver], name)
    case InstanceNode(classObject, known, members) =>
      if known then ClassInstance(ids[classObject], LookupMembers(ids, members)) else Unconvertible
    case WithBlockNode(_, scope, file, line) => WithBlock(LookupMembers(ids, scope), ids[file], line)
  }

  // ----- Entries do not change as more objects get ids -----

  ghost predicate Extends(ids: IdMap, more: IdMap) {
    forall o :: o in ids ==> o in more && more[o] == ids[o]
  }

  lemma LookupStable(objects: seq<PyObject>, ids: IdMap, more: IdMap)
    requires HasAll(ids, objects) && Extends(ids, more)
    ensures HasAll(more, objects) && Lookup(more, objects) == Lookup(ids, objects)
  {
    assert forall i :: 0 <= i < |objects| ==> objects[i] in objects;
  }

  lemma LookupMembersStable(members: seq<(string, PyObject)>, ids: IdMap, more: IdMap)
    requires HasAll(ids, Objects(members)) && Extends(ids, more)
    ensures HasAll(more, Objects(members)) && LookupMembers(more, members) == LookupMembers(ids, members)
  {
    assert forall i :: 0 <= i < |members| ==> Objects(members)[i] in Objects(members);
  }

  lemma ImageStable(heap: Heap, node: Node, ids: IdMap, more: IdMap)
    requires WellFormed(heap) && Supported(heap, node, ids) && !Raises(node) && Extends(ids, more)
    ensures Supported(heap, node, more) && Image(heap, node, more) == Image(heap, node, ids)
  {
    match node
    case ExceptionNode(_, args) => LookupStable([args], ids, more);
    case TupleNode(items) => LookupStable(items, ids, more);
    case ListNode(items) =>
      if !AllPrimitive(heap, items) {
        LookupStable(items, ids, more);
      }
    case DictNode(keys, values) =>
      LookupStable(keys, ids, more);
      LookupStable(values, ids, more);
    case FunctionNode(source, scope, file, _) =>
      if source == Found {
        LookupMembersStable(scope, ids, more);
      }
    case ClassNode(source, scope, file, _, bases) =>
      if source == Found {
        LookupMembersStable(scope, ids, more);
        LookupStable(bases, ids, more);
      }
    case InstanceNode(_, known, members) =>
      if known {
        LookupMembersStable(members, ids, more);
      }
    case WithBlockNode(_, scope, file, _) => LookupMembersStable(scope, ids, more);
    case _ =>
  }

  // ----- What an entry depends on -----

  // `b` is the id of one of the objects.
  ghost predicate NamesOne(ids: IdMap, objects: seq<PyObject>, b: int) {
    exists o :: o in objects && o in ids && ids[o] == b
  }

  lemma LookupNames(objects: seq<PyObject>, ids: IdMap, b: int)
    requires HasAll(ids, objects)
    ensures b in Lookup(ids, objects) <==> NamesOne(ids, objects, b)
  {
    if b in Lookup(ids, objects) {
      var i :| 0 <= i < |objects| && Lookup(ids, objects)[i] == b;
      assert objects[i] in objects;
    }
    if NamesOne(ids, objects, b) {
      var o :| o in objects && o in ids && ids[o] == b;
      var i :| 0 <= i < |objects| && objects[i] == o;
      assert Lookup(ids, objects)[i] == b;
    }
  }

  lemma MembersName(members: seq<(string, PyObject)>, ids: IdMap, b: int)
    requires HasAll(ids, Objects(members))
    ensures b in Ids(LookupMembers(ids, members)) <==> NamesOne(ids, Objects(members), b)
  {
    assert Ids(LookupMembers(ids, members)) == Lookup(ids, Objects(members));
    LookupNames(Objects(members), ids, b);
  }

  lemma NamesConcat(ids: IdMap, a: seq<PyObject>, c: seq<PyObject>, b: int)
    ensures NamesOne(ids, a + c, b) <==> NamesOne(ids, a, b) || NamesOne(ids, c, b)
  {
    if o :| o in a && o in ids && ids[o] == b {
      assert o in a + c;
    }
    if o :| o in c && o in ids && ids[o] == b {
      assert o in a + c;
    }
  }

  lemma NamesSingle(ids: IdMap, o: PyObject, b: int)
    requires o in ids
    ensures NamesOne(ids, [o], b) <==> ids[o] == b
  {
    assert o in [o];
  }

  predicate IsInstance(node: Node) {
    node.InstanceNode? && node.membersKnown
  }

  // An entry that is not an instance depends on exactly the ids of its references.
  lemma ImageDependents(heap: Heap, node: Node, ids: IdMap, defs: Definitions, id: int, b: int)
    requires WellFormed(heap) && Supported(heap, node, ids) && !Raises(node) && !IsInstance(node)
    requires id in defs && defs[id] == Image(heap, node, ids)
    ensures Dependents(defs, id).Some? && (b in Dependents(defs, id).value <==> NamesOne(ids, Refs(heap, node), b))
  {
    match node
    case ExceptionNode(_, args) => NamesSingle(ids, args, b);
    case TupleNode(items) => LookupNames(items, ids, b);
    case ListNode(items) =>
      if !AllPrimitive(heap, items) {
        LookupNames(items, ids, b);
      }
    case DictNode(keys, values) =>
      LookupNames(keys, ids, b);
      LookupNames(values, ids, b);
      NamesConcat(ids, keys, values, b);
    case FunctionNode(source, scope, file, _) =>
      if source == Found {
        MembersName(scope, ids, b);
        NamesConcat(ids, Objects(scope), [file], b);
        NamesSingle(ids, file, b);
      }
    case ClassNode(source, scope, file, _, bases) =>
      if source == Found {
        MembersName(scope, ids, b);
        NamesConcat(ids, Objects(scope), [file], b);
        NamesSingle(ids, file, b);
      }
    case MethodNode(receiver, _) => NamesSingle(ids, receiver, b);
    case WithBlockNode(_, scope, file, _) =>
      MembersName(scope, ids, b);
      NamesConcat(ids, Objects(scope), [file], b);
      NamesSingle(ids, file, b);
    case _ =>
  }

  // An instance depends on its references and on what its class depends on.
  lemma InstanceDependents(heap: Heap, node: Node, ids: IdMap, defs: Definitions, id: int, b: int)
    requires WellFormed(heap) && Supported(heap, node, ids) && IsInstance(node)
    requires id in defs && defs[id] == Image(heap, node, ids)
    requires var c := ids[node.classObject]; c in defs && !defs[c].ClassInstance?
    ensures var c := ids[node.classObject];
            && Dependents(defs, id).Some? && Dependents(defs, c).Some?
            && (b in Dependents(defs, id).value <==> NamesOne(ids, Refs(heap, node), b) || b in Dependents(defs, c).value)
  {
    DependentsOfInstance(defs, id);
    MembersName(node.members, ids, b);
    NamesConcat(ids, [node.classObject], Objects(node.members), b);
    NamesSingle(ids, node.classObject, b);
  }
}
