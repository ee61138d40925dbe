/** Two short runs in which a computation graph does not keep what its callers may expect: a split left stale, and a
    prioritised root left without a priority. */
module ComputationGraphRuns {
  import opened Collections
  import opened ComputationPriorities
  import opened ComputationGraphState
  import opened ComputationGraphPasses
  import opened ComputationGraphClients
  import opened ComputationGraphMeaning
  import opened ComputationDependencyGraph
  import opened Reachability

  // Nothing is dirty, no client asks for anything, and there are no edges between roots.
  ghost predicate Quiet(s: State) {
    && Valid(s) && Complete(s) && s.dirtyPriorities == {} && s.dirtySplitPriorities == {}
    && s.clientRoots == {} && s.rootToRoot == {}
  }

  lemma UpdatedIsQuiet(s: State, t: State, outAll: set<ComputationId>)
    requires Valid(s) && Complete(s) && s.clientRoots == {} && s.rootToRoot == {} && Updated(s, t, outAll)
    ensures Quiet(t) && t.rootToSplit == s.rootToSplit && s.allPriorities.Keys <= t.allPriorities.Keys
    ensures forall x :: x in s.dirtySplitPriorities ==> x in t.allPriorities
  {
    forall x | x in s.dirtySplitPriorities
      ensures x in t.allPriorities
    {
      assert SplitComputed(InputsOf(t), t.allPriorities, x);
    }
  }

  lemma MarkedSplitWaits(s: State, split: ComputationId)
    requires Quiet(s) && s.rootToSplit == {} && split.Split?
    ensures var t := MarkLocal(s, split);
            && t.clientRoots == {} && t.rootToRoot == {} && split in t.dirtySplitPriorities
            && t.rootToSplit == {(RootOf(split), split)}
  {
    assert Unregistered(s.(local := s.local + {split}), {split}) == {split};
  }

  lemma DroppedIsStillQuiet(s: State, split: ComputationId)
    requires Quiet(s) && split.Split? && s.rootToSplit == {(RootOf(split), split)} && split in s.allPriorities
    ensures var t := DropComputation(s, RootOf(split));
            Valid(t) && Complete(t) && t.clientRoots == {} && t.rootToRoot == {} && t.rootToSplit == {} && split in t.allPriorities
  {
    DropKeepsValid(s, RootOf(split));
    DropKeepsCompleteIff(s, RootOf(split));
  }

  lemma UnaskedIsNull(s: State, split: ComputationId)
    requires Quiet(s) && split.Split? && SplitsComputed(InputsOf(s), s.allPriorities, {split})
    ensures Stored(s.allPriorities, split) == NULL_PRIORITY
  {
    var inp := InputsOf(s);
    assert SplitComputed(inp, s.allPriorities, split);
    var p :| Computes(inp, s.allPriorities, RootOf(split), p) && s.allPriorities[split] == ForSplit(p, split.treeDepth);
    assert forall q :: q !in Candidates(inp, s.allPriorities, RootOf(split));
  }

  // The split of a dropped root keeps the priority it had, whatever its root is given later.
  lemma UnregisteredIsStale(s: State, t: State, split: ComputationId, c: ClientId, p: Priority, outAll: set<ComputationId>)
    requires Quiet(s) && split.Split? && s.rootToSplit == {} && split in s.allPriorities
    requires Stored(s.allPriorities, split) == NULL_PRIORITY && !IsNull(p) && FitsRoot(p)
    requires Updated(SetClientPriority(s, RootOf(split), c, p), t, outAll)
    requires Complete(SetClientPriority(s, RootOf(split), c, p))
    ensures split in t.allPriorities && !SplitSettled(t.allPriorities, split)
    ensures Complete(t) && (RootOf(split), split) !in t.rootToSplit
  {
    assert split !in outAll;
    RequestedIsNotNull(t, RootOf(split), c);
  }

  method MarkAndUpdate(g: Graph, split: ComputationId)
    requires Quiet(g.Now()) && g.rootToSplit == {} && split.Split?
    modifies g
    ensures Quiet(g.Now()) && g.rootToSplit == {(RootOf(split), split)} && split in g.allPriorities
  {
    MarkedSplitWaits(g.Now(), split);
    g.MarkComputationLocal(split);
    NoEdgesIsAcyclic(g.rootToRoot);
    ghost var s := g.Now();
    var outLocal, outAll := g.Update();
    UpdatedIsQuiet(s, g.Now(), outAll);
  }

  method DropAndUpdate(g: Graph, split: ComputationId)
    requires Quiet(g.Now()) && g.rootToSplit == {(RootOf(split), split)} && split.Split? && split in g.allPriorities
    modifies g
    ensures Quiet(g.Now()) && g.rootToSplit == {} && split in g.allPriorities
    ensures Stored(g.allPriorities, split) == NULL_PRIORITY
  {
    DroppedIsStillQuiet(g.Now(), split);
    DroppedRootsSplitWaits(g.Now(), split);
    g.Drop(RootOf(split));
    NoEdgesIsAcyclic(g.rootToRoot);
    ghost var s := g.Now();
    var outLocal, outAll := g.Update();
    UpdatedIsQuiet(s, g.Now(), outAll);
    UnaskedIsNull(g.Now(), split);
  }

  lemma DroppedRootsSplitWaits(s: State, split: ComputationId)
    requires split.Split? && (RootOf(split), split) in s.rootToSplit
    ensures split in DropComputation(s, RootOf(split)).dirtySplitPriorities
  {
    ChildrenAre(s.rootToSplit, RootOf(split));
  }

  // With the only edge of the graph leading from `a`, for which a client asked, to `b`.
  ghost predicate OneEdge(s: State, a: ComputationId, b: ComputationId, c: ClientId, p: Priority) {
    && a.Root? && b.Root? && a != b && s.rootToRoot == {(a, b)} && s.clientRoots == {(c, a)}
    && (c, a) in s.clientPriorities && s.clientPriorities[(c, a)] == p && !IsNull(p)
  }

  lemma OneEdgeIsAcyclic(a: ComputationId, b: ComputationId)
    requires a != b
    ensures Acyclic({(a, b)})
  {
    var e := Edge({(a, b)});
    if Reach(e, b, a) {
      var q := LastEdge(e, b, a);
    }
  }

  lemma OneEdgeSettled(s: State, a: ComputationId, b: ComputationId, c: ClientId, p: Priority)
    requires OneEdge(s, a, b, c, p) && AllSettled(s) && p.treeDepth < 1000 && p.splitDepth == 0
    ensures Stored(s.allPriorities, a) == Priority(p.source, p.level, p.treeDepth + 1, 0)
    ensures Stored(s.allPriorities, b) == Priority(p.source, p.level, p.treeDepth + 2, 0)
  {
    var inp, first := InputsOf(s), ForDependent(p);
    assert forall x :: FromClient(inp, a, x) <==> x == first by {
      assert (c, a) in inp.clientRoots;
    }
    assert forall x :: !FromParent(inp, s.allPriorities, a, x);
    assert first in Candidates(inp, s.allPriorities, a);
    assert forall x :: FromParent(inp, s.allPriorities, b, x) <==> x == ForDependent(Stored(s.allPriorities, a)) by {
      assert (a, b) in inp.rootToRoot;
    }
    assert forall x :: !FromClient(inp, b, x);
    assert ForDependent(Stored(s.allPriorities, a)) in Candidates(inp, s.allPriorities, b);
  }

  // A client asks for one root, on which another one depends: the other gets the priority two levels down.
  method EdgeRun(hash: Hash, hash2: Hash, c: ClientId, level: nat) returns (first: Priority, second: Priority)
    requires hash != hash2
    ensures first == Priority(0, Some(level), 1, 0) && second == Priority(0, Some(level), 2, 0)
  {
    var a, b, p := Root(hash), Root(hash2), Priority(0, Some(level), 0, 0);
    var g := new Graph();
    var isNew := g.AddRootToRootDependency(a, b);
    g.SetCumulusClientPriority(a, c, p);
    assert OneEdge(g.Now(), a, b, c, p);
    OneEdgeIsAcyclic(a, b);
    var outLocal, outAll := g.Update();
    OneEdgeSettled(g.Now(), a, b, c, p);
    first, second := Stored(g.allPriorities, a), Stored(g.allPriorities, b);
  }

  // A root is dropped while one of its splits stays stored, and is then prioritised: the check objects to the split.
  method StaleSplitRun(hash: Hash, guid: Hash, depth: int, c: ClientId, level: nat) returns (isValid: bool)
    ensures !isValid
  {
    var split := Split(hash, guid, depth);
    var g := new Graph();
    MarkAndUpdate(g, split);
    DropAndUpdate(g, split);
    isValid := PrioritiseAndCheck(g, split, c, Priority(0, Some(level), 0, 0));
  }

  method PrioritiseAndCheck(g: Graph, split: ComputationId, c: ClientId, p: Priority) returns (isValid: bool)
    requires Quiet(g.Now()) && g.rootToSplit == {} && split.Split? && split in g.allPriorities
    requires Stored(g.allPriorities, split) == NULL_PRIORITY && !IsNull(p) && FitsRoot(p)
    modifies g
    ensures !isValid
  {
    ghost var s := g.Now();
    g.SetCumulusClientPriority(RootOf(split), c, p);
    NoEdgesIsAcyclic(g.rootToRoot);
    var outLocal, outAll := g.Update();
    UnregisteredIsStale(s, g.Now(), split, c, p, outAll);
    ChecksIffUnregisteredSettled(g.Now());
    isValid := g.CheckInternalState();
  }

  lemma DroppedPrioritised(s: State, t: State, root: ComputationId, outAll: set<ComputationId>, computed: Priority)
    requires Valid(s) && Complete(s) && Acyclic(s.rootToRoot) && root.Root?
    requires s.dirtyPriorities == {} && !Unprioritised(s, root)
    requires Updated(DropComputation(s, root), t, outAll) && Computes(InputsOf(t), t.allPriorities, root, computed)
    ensures Stored(t.allPriorities, root) == NULL_PRIORITY && computed != NULL_PRIORITY
  {
    DropThenUpdateSettlesIff(s, root, t, outAll);
  }

  // A root is dropped while a client prioritises it: after the next update its priority is missing.
  method DroppedRootRun(hash: Hash, c: ClientId, level: nat) returns (stored: Priority, computed: Priority)
    ensures stored == NULL_PRIORITY && computed != NULL_PRIORITY
  {
    var root := Root(hash);
    var g := new Graph();
    g.SetCumulusClientPriority(root, c, Priority(0, Some(level), 0, 0));
    NoEdgesIsAcyclic(g.rootToRoot);
    var outLocal, outAll := g.Update();
    stored, computed := DropUpdateCompute(g, root);
  }

  method DropUpdateCompute(g: Graph, root: ComputationId) returns (stored: Priority, computed: Priority)
    requires Valid(g.Now()) && Complete(g.Now()) && g.rootToRoot == {} && g.dirtyPriorities == {}
    requires root.Root? && !Unprioritised(g.Now(), root)
    modifies g
    ensures stored == NULL_PRIORITY && computed != NULL_PRIORITY
  {
    ghost var s := g.Now();
    NoEdgesIsAcyclic(s.rootToRoot);
    g.Drop(root);
    NoEdgesIsAcyclic(g.rootToRoot);
    var outLocal, outAll := g.Update();
    stored := Stored(g.allPriorities, root);
    computed := g.ComputePriorityFor(root);
    DroppedPrioritised(s, g.Now(), root, outAll, computed);
  }

  lemma NoEdgesIsAcyclic(r: Relation)
    requires r == {}
    ensures Acyclic(r)
  {
  }

  lemma RequestedIsNotNull(s: State, root: ComputationId, c: ClientId)
    requires Typed(s) && NormalClients(s.clientPriorities) && NormalRoots(s.allPriorities)
    requires Settled(InputsOf(s), s.allPriorities, root)
    requires root.Root? && (c, root) in s.clientRoots
    ensures !IsNull(Stored(s.allPriorities, root))
  {
    var p := ForDependent(s.clientPriorities[(c, root)]);
    assert FromClient(InputsOf(s), root, p) && p in Candidates(InputsOf(s), s.allPriorities, root);
  }
}
