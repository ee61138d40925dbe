/** The order in which a walk meets objects, as a function of the object graph: depth first, and when it comes to grief. */
module PyObjectOrder {
  import opened Collections
  import opened PyObjectGraph

  function Interleaved(keys: seq<PyObject>, values: seq<PyObject>): seq<PyObject>
    requires |keys| == |values|
  {
    if keys == [] then [] else [keys[0], values[0]] + Interleaved(keys[1..], values[1..])
  }

  lemma InterleavedNext(keys: seq<PyObject>, values: seq<PyObject>, i: nat)
    requires |keys| == |values| && i < |keys|
    ensures Interleaved(keys[i..], values[i..]) == [keys[i], values[i]] + Interleaved(keys[i + 1..], values[i + 1..])
  {
    assert keys[i..][1..] == keys[i + 1..] && values[i..][1..] == values[i + 1..];
  }

  function KnownMembers(node: Node): seq<PyObject>
    requires node.InstanceNode?
  {
    if node.membersKnown then Objects(node.members) else []
  }

  // The objects walked on behalf of a node, one after the other.
  function VisitOrder(heap: Heap, node: Node): seq<PyObject> {
    match node
    case DictNode(keys, values) => if |keys| == |values| then Interleaved(keys, values) else []
    case InstanceNode(classObject, _, _) => [classObject] + KnownMembers(node)
    case _ => Refs(heap, node)
  }

  ghost function Unmet(heap: Heap, met: seq<PyObject>): set<PyObject> {
    heap.Keys - set x | x in met
  }

  // The objects met after the walk of `o`, in order, given those met before; None when an exception leaves the walk.
  function Walk(heap: Heap, o: PyObject, met: seq<PyObject>): (r: Option<seq<PyObject>>)
    ensures r.Some? ==> met <= r.value && o in r.value
    decreases |Unmet(heap, met)|, 0, 0
  {
    if o in met then Some(met)
    else if o !in heap then None
    else
      MeetOne(heap, met, o);
      var after := WalkOpened(heap, o, met + [o]);
      assert after.Some? ==> after.value[|met|] == o;
      after
  }

  // The same for the parts of an object that has its id.
  function WalkOpened(heap: Heap, o: PyObject, met: seq<PyObject>): (r: Option<seq<PyObject>>)
    requires o in heap
    ensures r.Some? ==> met <= r.value
    decreases |Unmet(heap, met)|, 2, 0
  {
    if Raises(heap[o]) then None
    else
      var after := WalkEach(heap, VisitOrder(heap, heap[o]), met);
      if after.Some? && forall base :: base in Bases(heap[o]) ==> base in after.value then after else None
  }

  function WalkEach(heap: Heap, objects: seq<PyObject>, met: seq<PyObject>): (r: Option<seq<PyObject>>)
    ensures r.Some? ==> met <= r.value && forall x :: x in objects ==> x in r.value
    decreases |Unmet(heap, met)|, 1, |objects|
  {
    if objects == [] then Some(met)
    else
      var after := Walk(heap, objects[0], met);
      if after.None? then None
      else
        MeetMore(heap, met, after.value);
        var last := WalkEach(heap, objects[1..], after.value);
        assert last.Some? ==> after.value <= last.value && forall x :: x in objects ==> x == objects[0] || x in objects[1..];
        last
  }

  lemma MeetOne(heap: Heap, met: seq<PyObject>, o: PyObject)
    requires o in heap && o !in met
    ensures |Unmet(heap, met + [o])| < |Unmet(heap, met)|
  {
    assert o in Unmet(heap, met) && o !in Unmet(heap, met + [o]);
    ProperSubsetSize(Unmet(heap, met + [o]), Unmet(heap, met), o);
  }

  lemma MeetMore(heap: Heap, met: seq<PyObject>, after: seq<PyObject>)
    requires met <= after
    ensures |Unmet(heap, after)| <= |Unmet(heap, met)|
  {
    SubsetSize(Unmet(heap, after), Unmet(heap, met));
  }

  lemma LeafIsMet(heap: Heap, o: PyObject, met: seq<PyObject>)
    requires o in heap && !Raises(heap[o])
    ensures VisitOrder(heap, heap[o]) == [] && Bases(heap[o]) == [] ==> WalkOpened(heap, o, met) == Some(met)
  {
  }

  lemma WalkFrom(heap: Heap, objects: seq<PyObject>, i: nat, met: seq<PyObject>)
    requires i < |objects|
    ensures WalkEach(heap, objects[i..], met) ==
            var after := Walk(heap, objects[i], met); if after.None? then None else WalkEach(heap, objects[i + 1..], after.value)
  {
    assert objects[i..][1..] == objects[i + 1..];
  }

  lemma WalkSingle(heap: Heap, o: PyObject, met: seq<PyObject>)
    ensures WalkEach(heap, [o], met) == Walk(heap, o, met)
  {
    assert [o][1..] == [];
  }

  lemma WalkFirst(heap: Heap, o: PyObject, rest: seq<PyObject>, met: seq<PyObject>)
    ensures WalkEach(heap, [o] + rest, met) ==
            var after := Walk(heap, o, met); if after.None? then None else WalkEach(heap, rest, after.value)
  {
    assert ([o] + rest)[1..] == rest;
  }

  lemma {:induction false} WalkConcat(heap: Heap, a: seq<PyObject>, b: seq<PyObject>, met: seq<PyObject>)
    ensures WalkEach(heap, a + b, met) ==
            var after := WalkEach(heap, a, met); if after.None? then None else WalkEach(heap, b, after.value)
    decreases |a|
  {
    if a == [] {
      assert a + b == b;
    } else {
      assert (a + b)[1..] == a[1..] + b;
      var after := Walk(heap, a[0], met);
      if after.Some? {
        WalkConcat(heap, a[1..], b, after.value);
      }
    }
  }

  lemma {:induction false} InterleavedHolds(keys: seq<PyObject>, values: seq<PyObject>, o: PyObject)
    requires |keys| == |values| && o in Interleaved(keys, values)
    ensures o in keys || o in values
    decreases |keys|
  {
    if keys != [] && o != keys[0] && o != values[0] {
      InterleavedHolds(keys[1..], values[1..], o);
    }
  }

  lemma VisitOrderVisits(heap: Heap, node: Node, o: PyObject)
    requires o in VisitOrder(heap, node)
    ensures Visits(heap, node, o)
  {
    if node.DictNode? {
      InterleavedHolds(node.keys, node.values, o);
    }
  }

  // ----- Reaching the same objects is not enough -----

  // A tuple of a class and its base, which the class statement of the class does not name.
  function ClassAndBase(t: PyObject, c: PyObject, base: PyObject, file: PyObject, items: seq<PyObject>): Heap {
    map[t := TupleNode(items), c := ClassNode(Found, [], file, 1, [base]), base := ClassNode(Found, [], file, 2, []),
        file := FileNode("", "")]
  }

  lemma WalkFile(heap: Heap, file: PyObject, met: seq<PyObject>)
    requires file in heap && heap[file].FileNode?
    ensures WalkEach(heap, [file], met) == Some(if file in met then met else met + [file])
  {
    WalkSingle(heap, file, met);
    assert VisitOrder(heap, heap[file]) == [];
    assert WalkOpened(heap, file, met + [file]) == Some(met + [file]);
  }

  lemma WalkClass(heap: Heap, c: PyObject, file: PyObject, met: seq<PyObject>)
    requires c in heap && heap[c].ClassNode? && heap[c].source == Found && heap[c].scope == [] && heap[c].file == file
    requires file in heap && heap[file].FileNode? && c !in met
    ensures var after := if file in met + [c] then met + [c] else met + [c, file];
            Walk(heap, c, met) == if forall b :: b in heap[c].bases ==> b in after then Some(after) else None
  {
    assert VisitOrder(heap, heap[c]) == [file];
    assert met + [c] + [file] == met + [c, file];
    WalkFile(heap, file, met + [c]);
  }

  // The tuple itself: its items in order.
  lemma WalkTuple(heap: Heap, t: PyObject, first: PyObject, second: PyObject)
    requires t in heap && heap[t] == TupleNode([first, second])
    ensures Walk(heap, t, []) ==
            var after := Walk(heap, first, [t]); if after.None? then None else Walk(heap, second, after.value)
  {
    assert [] + [t] == [t] && [first] + [second] == [first, second];
    WalkFirst(heap, first, [second], [t]);
    var after := Walk(heap, first, [t]);
    if after.Some? {
      WalkSingle(heap, second, after.value);
    }
    assert Walk(heap, t, []) == WalkOpened(heap, t, [t]) == WalkEach(heap, [first, second], [t]);
  }

  lemma BaseFirst(heap: Heap, t: PyObject, c: PyObject, base: PyObject, file: PyObject)
    requires t != c && t != base && t != file && c != base && c != file && base != file
    requires heap == ClassAndBase(t, c, base, file, [base, c])
    ensures Walk(heap, t, []).Some?
  {
    WalkTuple(heap, t, base, c);
    WalkClass(heap, base, file, [t]);
    assert [t] + [base, file] == [t, base, file];
    WalkClass(heap, c, file, [t, base, file]);
  }

  lemma ClassFirst(heap: Heap, t: PyObject, c: PyObject, base: PyObject, file: PyObject)
    requires t != c && t != base && t != file && c != base && c != file && base != file
    requires heap == ClassAndBase(t, c, base, file, [c, base])
    ensures Walk(heap, t, []).None?
  {
    WalkTuple(heap, t, c, base);
    WalkClass(heap, c, file, [t]);
  }

  // With the base first the walk succeeds, with the class first it does not.
  lemma OrderDecides(t: PyObject, c: PyObject, base: PyObject, file: PyObject)
    requires t != c && t != base && t != file && c != base && c != file && base != file
    ensures Walk(ClassAndBase(t, c, base, file, [base, c]), t, []).Some?
    ensures Walk(ClassAndBase(t, c, base, file, [c, base]), t, []).None?
  {
    BaseFirst(ClassAndBase(t, c, base, file, [base, c]), t, c, base, file);
    ClassFirst(ClassAndBase(t, c, base, file, [c, base]), t, c, base, file);
  }
}
