/** What a settled graph says: how urgent a computation is, and when the self-check accepts it. */
module ComputationGraphMeaning {
  import opened Collections
  import opened ComputationPriorities
  import opened ComputationGraphState
  import opened ComputationGraphPasses
  import opened ComputationGraphClients
  import opened Reachability

  // ----- Urgency -----

  // The client `c` asked for the root `r`, from which `x` can be reached.
  ghost predicate Requests(s: State, c: ClientId, r: ComputationId, x: ComputationId) {
    (c, r) in s.clientRoots && (c, r) in s.clientPriorities && Reach(Edge(s.rootToRoot), r, x)
  }

  predicate SameUrgency(p: Priority, q: Priority) {
    p.source == q.source && p.level == q.level
  }

  predicate NoMoreUrgent(p: Priority, q: Priority) {
    p.source < q.source ||
    (p.source == q.source && (p.level.None? || (q.level.Some? && p.level.value <= q.level.value)))
  }

  ghost predicate AllSettled(s: State) {
    forall x: ComputationId :: x.Root? ==> Settled(InputsOf(s), s.allPriorities, x)
  }

  lemma CandidateIsNoMoreUrgent(s: State, x: ComputationId, p: Priority)
    requires Settled(InputsOf(s), s.allPriorities, x) && p in Candidates(InputsOf(s), s.allPriorities, x)
    ensures NoMoreUrgent(p, Stored(s.allPriorities, x))
  {
  }

  // In a settled acyclic graph no requesting client is more urgent than the computation.
  lemma {:induction false} UrgencyIsUpperBound(s: State, c: ClientId, r: ComputationId, x: ComputationId)
    requires Typed(s) && NormalClients(s.clientPriorities) && AllSettled(s) && Acyclic(s.rootToRoot)
    requires x.Root? && Requests(s, c, r, x)
    ensures NoMoreUrgent(s.clientPriorities[(c, r)], Stored(s.allPriorities, x))
    decreases Height(s.rootToRoot, x)
  {
    var inp := InputsOf(s);
    if r == x {
      var p := ForDependent(s.clientPriorities[(c, r)]);
      assert FromClient(inp, x, p) && p in Candidates(inp, s.allPriorities, x);
      CandidateIsNoMoreUrgent(s, x, p);
    } else {
      var q := LastEdge(Edge(s.rootToRoot), r, x);
      HeightGrows(s.rootToRoot, q, x);
      UrgencyIsUpperBound(s, c, r, q);
      var p := ForDependent(Stored(s.allPriorities, q));
      assert FromParent(inp, s.allPriorities, x, p) && p in Candidates(inp, s.allPriorities, x);
      CandidateIsNoMoreUrgent(s, x, p);
    }
  }

  // Tree depths count up to the circular one and stay there.
  function Saturated(depth: nat): Depth {
    if depth < CIRCULAR_DEPTH then depth else CIRCULAR_DEPTH
  }

  lemma DependentDepth(p: Priority)
    requires !IsNull(p)
    ensures ForDependent(p).treeDepth == Saturated(p.treeDepth + 1) && SameUrgency(ForDependent(p), p)
  {
  }

  lemma DeeperCandidate(s: State, x: ComputationId, p: Priority)
    requires Settled(InputsOf(s), s.allPriorities, x) && p in Candidates(InputsOf(s), s.allPriorities, x)
    requires SameUrgency(p, Stored(s.allPriorities, x)) && !IsNull(p)
    ensures p.treeDepth <= Stored(s.allPriorities, x).treeDepth
  {
  }

  // Along every path from a root that a most urgent client asked for, the depth is at least that of the client's
  // priority and one for each root on the path.
  lemma {:induction false} DepthIsUpperBound(s: State, c: ClientId, r: ComputationId, x: ComputationId,
                                             path: seq<ComputationId>)
    requires Typed(s) && NormalClients(s.clientPriorities) && AllSettled(s) && Acyclic(s.rootToRoot) && x.Root?
    requires (c, r) in s.clientRoots && (c, r) in s.clientPriorities && PathFromTo(Edge(s.rootToRoot), path, r, x)
    requires SameUrgency(s.clientPriorities[(c, r)], Stored(s.allPriorities, x))
    ensures Saturated(s.clientPriorities[(c, r)].treeDepth + |path|) <= Stored(s.allPriorities, x).treeDepth
    decreases |path|
  {
    var inp, e, n := InputsOf(s), Edge(s.rootToRoot), |path| - 1;
    var cp := s.clientPriorities[(c, r)];
    DependentDepth(cp);
    if n == 0 {
      var p := ForDependent(cp);
      assert FromClient(inp, x, p) && p in Candidates(inp, s.allPriorities, x);
      DeeperCandidate(s, x, p);
    } else {
      var q := path[n - 1];
      assert e(path[n - 1], path[n]) && PathFromTo(e, path[..n], r, q);
      UrgencyIsUpperBound(s, c, r, q);
      var p := ForDependent(Stored(s.allPriorities, q));
      assert FromParent(inp, s.allPriorities, x, p) && p in Candidates(inp, s.allPriorities, x);
      CandidateIsNoMoreUrgent(s, x, p);
      DependentDepth(Stored(s.allPriorities, q));
      DepthIsUpperBound(s, c, r, q, path[..n]);
      DeeperCandidate(s, x, p);
    }
  }

  // A computation that is not null has the urgency of a requesting client, and its depth comes from that client along
  // some path: with the bounds above, the greatest over all most urgent clients and all paths.
  lemma {:induction false} UrgencyIsRequested(s: State, x: ComputationId)
    returns (c: ClientId, r: ComputationId, path: seq<ComputationId>)
    requires Typed(s) && NormalClients(s.clientPriorities) && AllSettled(s) && Acyclic(s.rootToRoot)
    requires x.Root? && !IsNull(Stored(s.allPriorities, x))
    ensures Requests(s, c, r, x) && SameUrgency(s.clientPriorities[(c, r)], Stored(s.allPriorities, x))
    ensures PathFromTo(Edge(s.rootToRoot), path, r, x)
    ensures Stored(s.allPriorities, x).treeDepth == Saturated(s.clientPriorities[(c, r)].treeDepth + |path|)
    decreases Height(s.rootToRoot, x)
  {
    var inp := InputsOf(s);
    var p := Stored(s.allPriorities, x);
    var e := Edge(s.rootToRoot);
    assert p in Candidates(inp, s.allPriorities, x);
    if FromClient(inp, x, p) {
      c :| (c, x) in inp.clientRoots && (c, x) in inp.clientPriorities && p == ForDependent(inp.clientPriorities[(c, x)]);
      r, path := x, [x];
      ReachSelf(e, x);
      DependentDepth(s.clientPriorities[(c, r)]);
    } else {
      var q :| (q, x) in inp.rootToRoot && p == ForDependent(Stored(s.allPriorities, q));
      HeightGrows(s.rootToRoot, q, x);
      c, r, path := UrgencyIsRequested(s, q);
      DependentDepth(Stored(s.allPriorities, q));
      ReachEdge(e, q, x);
      ReachTransitive(e, r, q, x);
      assert PathFromTo(e, path + [x], r, x);
      path := path + [x];
    }
  }

  // So the priority of a root is null exactly when no client requests it.
  lemma NullIffNotRequested(s: State, x: ComputationId)
    requires Typed(s) && NormalClients(s.clientPriorities) && AllSettled(s) && Acyclic(s.rootToRoot) && x.Root?
    requires NormalRoots(s.allPriorities)
    ensures IsNull(Stored(s.allPriorities, x)) <==> !exists c, r :: Requests(s, c, r, x)
  {
    if !IsNull(Stored(s.allPriorities, x)) {
      var c, r, path := UrgencyIsRequested(s, x);
    } else {
      forall c, r
        ensures !Requests(s, c, r, x)
      {
        if Requests(s, c, r, x) {
          UrgencyIsUpperBound(s, c, r, x);
        }
      }
    }
  }

  // ----- What update leaves in the map of priorities -----

  // What an edge carries over: `b` is at least as urgent as `a`, and at equal urgency deeper, up to the circular depth.
  ghost predicate Follows(priorities: map<ComputationId, Priority>, a: ComputationId, b: ComputationId) {
    var p := if a in priorities then priorities[a] else Priority(0, None, 0, 0);
    var q := if b in priorities then priorities[b] else Priority(0, None, 0, 0);
    && NoMoreUrgent(p, q)
    && (p.level.Some? && SameUrgency(p, q) ==>
          if p.treeDepth == 0xFFFF_FFFF_FFFF_FFFF then q.treeDepth == p.treeDepth else p.treeDepth + 1 <= q.treeDepth)
  }

  // A split has the source, level and tree depth of its root and its own split depth; it takes over a priority without a
  // level, or a circular one, as it is.
  ghost predicate Inherits(priorities: map<ComputationId, Priority>, x: ComputationId)
    requires x.Split?
  {
    var p := if Root(x.root) in priorities then priorities[Root(x.root)] else Priority(0, None, 0, 0);
    var q := if x in priorities then priorities[x] else Priority(0, None, 0, 0);
    if p.level.None? || p.treeDepth == 0xFFFF_FFFF_FFFF_FFFF then q == p
    else q == Priority(p.source, p.level, p.treeDepth, x.treeDepth)
  }

  lemma SettledSplitInherits(priorities: map<ComputationId, Priority>, x: ComputationId)
    requires x.Split?
    ensures SplitSettled(priorities, x) <==> Inherits(priorities, x)
  {
  }

  lemma SettledFollows(s: State, a: ComputationId, b: ComputationId)
    requires NormalRoots(s.allPriorities) && Settled(InputsOf(s), s.allPriorities, b)
    requires (a, b) in s.rootToRoot && a.Root?
    ensures Follows(s.allPriorities, a, b)
  {
    var p, q := Stored(s.allPriorities, a), Stored(s.allPriorities, b);
    assert FromParent(InputsOf(s), s.allPriorities, b, ForDependent(p));
    assert ForDependent(p) in Candidates(InputsOf(s), s.allPriorities, b);
    assert !IsShallower(q, ForDependent(p));
    if !IsNull(p) {
      DependentDepth(p);
    }
  }

  // Along every edge and under every root, once every root and every registered split is settled.
  lemma SettledGraphSays(s: State)
    requires Valid(s) && Complete(s) && s.dirtyPriorities == {} && s.dirtySplitPriorities == {}
    ensures forall a, b :: (a, b) in s.rootToRoot ==> Follows(s.allPriorities, a, b)
    ensures forall a, x: ComputationId :: (a, x) in s.rootToSplit ==> x.Split? && Inherits(s.allPriorities, x)
  {
    forall a, b | (a, b) in s.rootToRoot
      ensures Follows(s.allPriorities, a, b)
    {
      SettledFollows(s, a, b);
    }
    forall a, x: ComputationId | (a, x) in s.rootToSplit
      ensures Inherits(s.allPriorities, x)
    {
      SettledSplitInherits(s.allPriorities, x);
    }
  }

  // ----- checkInternalState -----

  ghost predicate StoredChecks(s: State, x: ComputationId)
    requires x in s.allPriorities
  {
    if x.Root? then Settled(InputsOf(s), s.allPriorities, x)
    else exists p :: Computes(InputsOf(s), s.allPriorities, RootOf(x), p) && s.allPriorities[x] == ForSplit(p, x.treeDepth)
  }

  ghost predicate StateChecks(s: State) {
    && (forall x :: x in s.allPriorities ==> StoredChecks(s, x))
    && (forall a, b :: (a, b) in s.rootToRoot && a !in s.allPriorities ==>
          Computes(InputsOf(s), s.allPriorities, a, NULL_PRIORITY))
  }

  // After an update the check can only object to splits that are stored but no longer registered.
  lemma ChecksIffStoredSplitsSettled(s: State)
    requires Typed(s) && NormalClients(s.clientPriorities) && NormalRoots(s.allPriorities) && AllSettled(s)
    ensures StateChecks(s) <==> forall x :: x in s.allPriorities && x.Split? ==> SplitSettled(s.allPriorities, x)
  {
    forall x | x in s.allPriorities && x.Split?
      ensures StoredChecks(s, x) <==> SplitSettled(s.allPriorities, x)
    {
      assert Settled(InputsOf(s), s.allPriorities, RootOf(x));
      forall p | Computes(InputsOf(s), s.allPriorities, RootOf(x), p)
        ensures p == Stored(s.allPriorities, RootOf(x))
      {
        ComputedIsUnique(InputsOf(s), s.allPriorities, RootOf(x), p, Stored(s.allPriorities, RootOf(x)));
      }
    }
  }

  // Once nothing is dirty, every split registered under its root is right: the check passes if and only if the stored
  // splits that have lost their registration happen to agree with their roots.
  lemma ChecksIffUnregisteredSettled(s: State)
    requires Valid(s) && Complete(s) && s.dirtyPriorities == {} && s.dirtySplitPriorities == {}
    ensures StateChecks(s) <==>
            forall x: ComputationId :: x in s.allPriorities && x.Split? && (RootOf(x), x) !in s.rootToSplit ==>
              SplitSettled(s.allPriorities, x)
    ensures (forall x: ComputationId :: x in s.allPriorities && x.Split? ==> (RootOf(x), x) in s.rootToSplit) ==>
              StateChecks(s)
  {
    ChecksIffStoredSplitsSettled(s);
    assert forall x: ComputationId :: x.Split? && (RootOf(x), x) in s.rootToSplit ==> SplitSettled(s.allPriorities, x);
  }

  // ----- What an update does to a state -----

  // The dirty sets are emptied and only stored priorities change. A changed id is recorded; a recorded root is one
  // that a dirty root leads to; a recorded split has changed, and was waiting or is registered. The splits that were
  // waiting have what is computed for them, registered or not.
  ghost predicate Updated(s: State, t: State, outAll: set<ComputationId>)
    requires Typed(s)
  {
    && t == s.(dirtyPriorities := {}, dirtySplitPriorities := {}, allPriorities := t.allPriorities)
    && Valid(t) && (Complete(s) ==> Complete(t))
    && Records(s.allPriorities, t.allPriorities, outAll)
    && (forall x: ComputationId :: x in outAll ==>
          if x.Split? then
            Stored(t.allPriorities, x) != Stored(s.allPriorities, x) &&
            (x in s.dirtySplitPriorities || (RootOf(x), x) in s.rootToSplit)
          else ReachedFrom(s.rootToRoot, s.dirtyPriorities, x))
    && SplitsComputed(InputsOf(t), t.allPriorities, s.dirtySplitPriorities)
  }

  // In a complete state the splits that were waiting agree with their roots afterwards.
  lemma WaitingSplitsSettle(s: State, t: State, outAll: set<ComputationId>, x: ComputationId)
    requires Typed(s) && Complete(s) && Updated(s, t, outAll) && x in s.dirtySplitPriorities
    ensures x.Split? && SplitSettled(t.allPriorities, x)
  {
    assert SplitComputed(InputsOf(t), t.allPriorities, x);
    var p :| Computes(InputsOf(t), t.allPriorities, RootOf(x), p) && t.allPriorities[x] == ForSplit(p, x.treeDepth);
    assert Settled(InputsOf(t), t.allPriorities, RootOf(x));
    ComputedIsUnique(InputsOf(t), t.allPriorities, RootOf(x), p, Stored(t.allPriorities, RootOf(x)));
  }

  // The check after an update passes if and only if every stored split that was neither registered nor waiting already
  // had the priority its root now calls for: the update did not look at it.
  lemma UpdateThenChecksIff(s: State, t: State, outAll: set<ComputationId>)
    requires Valid(s) && Complete(s) && Updated(s, t, outAll)
    ensures StateChecks(t) <==>
            forall x: ComputationId ::
              x in t.allPriorities && x.Split? && (RootOf(x), x) !in s.rootToSplit && x !in s.dirtySplitPriorities ==>
              Stored(s.allPriorities, x) == ForSplit(Stored(t.allPriorities, RootOf(x)), x.treeDepth)
  {
    ChecksIffUnregisteredSettled(t);
    forall x: ComputationId | x in t.allPriorities && x.Split? && (RootOf(x), x) !in s.rootToSplit
      ensures SplitSettled(t.allPriorities, x) <==>
              x in s.dirtySplitPriorities ||
              Stored(s.allPriorities, x) == ForSplit(Stored(t.allPriorities, RootOf(x)), x.treeDepth)
    {
      if x in s.dirtySplitPriorities {
        WaitingSplitsSettle(s, t, outAll, x);
      } else {
        assert x !in outAll;
      }
    }
  }

  // ----- Dropping a root, and the update after it -----

  lemma NothingLeadsToDropped(s: State, id: ComputationId, d: ComputationId)
    requires Reach(Edge(DropComputation(s, id).rootToRoot), d, id)
    ensures d == id
  {
    if d != id {
      var q := LastEdge(Edge(DropComputation(s, id).rootToRoot), d, id);
    }
  }

  lemma DroppedStaysSettledIff(s: State, id: ComputationId, t: State)
    requires Typed(s) && NormalClients(s.clientPriorities) && id.Root?
    requires InputsOf(t) == InputsOf(DropComputation(s, id)) && Stored(t.allPriorities, id) == NULL_PRIORITY
    ensures Settled(InputsOf(t), t.allPriorities, id) <==> Unprioritised(s, id)
  {
    DroppedRootSettled(s, id);
    CandidatesFrame(InputsOf(t), DropComputation(s, id).allPriorities, t.allPriorities, id);
  }

  // The update after a drop restores the priorities of all roots if and only if no client prioritises the dropped root
  // or it was dirty when it was dropped. Otherwise the dropped root, prioritised as it is, stays without a priority.
  lemma DropThenUpdateSettlesIff(s: State, id: ComputationId, t: State, outAll: set<ComputationId>)
    requires Valid(s) && Complete(s) && Acyclic(s.rootToRoot) && id.Root?
    requires Typed(DropComputation(s, id)) && Updated(DropComputation(s, id), t, outAll)
    ensures AllSettled(t) <==> id in s.dirtyPriorities || Unprioritised(s, id)
    ensures !(id in s.dirtyPriorities || Unprioritised(s, id)) ==>
              Stored(t.allPriorities, id) == NULL_PRIORITY && !Settled(InputsOf(t), t.allPriorities, id)
  {
    var d := DropComputation(s, id);
    DropKeepsCompleteIff(s, id);
    NoSelfEdge(s.rootToRoot, id);
    if !(id in s.dirtyPriorities || Unprioritised(s, id)) {
      DroppedIsNotReached(s, id);
      assert Stored(t.allPriorities, id) == Stored(d.allPriorities, id) == NULL_PRIORITY;
      DroppedStaysSettledIff(s, id, t);
    }
  }

  lemma NoSelfEdge(r: Relation, x: ComputationId)
    requires Acyclic(r)
    ensures (x, x) !in r
  {
    ReachSelf(Edge(r), x);
  }

  lemma DroppedIsNotReached(s: State, id: ComputationId)
    requires id !in s.dirtyPriorities && (id, id) !in s.rootToRoot
    ensures !ReachedFrom(DropComputation(s, id).rootToRoot, DropComputation(s, id).dirtyPriorities, id)
  {
    var t := DropComputation(s, id);
    ChildrenAre(s.rootToRoot, id);
    forall d | d in t.dirtyPriorities
      ensures !Reach(Edge(t.rootToRoot), d, id)
    {
      if Reach(Edge(t.rootToRoot), d, id) {
        NothingLeadsToDropped(s, id, d);
      }
    }
  }
}
