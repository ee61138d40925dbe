/** What the client operations of ComputationDependencyGraph do to its state, and what they keep. */
module ComputationGraphClients {
  import opened ComputationPriorities
  import opened ComputationGraphState
  import opened ComputationGraphPasses

  // ----- The operations -----

  function SetClientPriority(s: State, id: ComputationId, c: ClientId, p: Priority): State {
    var t := if IsNull(p)
             then s.(clientRoots := s.clientRoots - {(c, id)}, clientPriorities := s.clientPriorities - {(c, id)})
             else s.(clientRoots := s.clientRoots + {(c, id)}, clientPriorities := s.clientPriorities[(c, id) := p]);
    t.(dirtyPriorities := t.dirtyPriorities + {id})
  }

  function AddRootToRoot(s: State, source: ComputationId, dest: ComputationId): State {
    if (source, dest) in s.rootToRoot then s
    else s.(rootToRoot := s.rootToRoot + {(source, dest)}, dirtyPriorities := s.dirtyPriorities + {dest})
  }

  function RootsOfClient(s: State, c: ClientId): set<ComputationId> {
    set e | e in s.clientRoots && e.0 == c :: e.1
  }

  function ClientKeys(c: ClientId, xs: set<ComputationId>): set<(ClientId, ComputationId)> {
    set x | x in xs :: (c, x)
  }

  function OtherClients(clientRoots: set<(ClientId, ComputationId)>, c: ClientId): set<(ClientId, ComputationId)> {
    set e | e in clientRoots && e.0 != c
  }

  function DropClient(s: State, c: ClientId): State {
    s.(dirtyPriorities := s.dirtyPriorities + RootsOfClient(s, c),
       clientPriorities := s.clientPriorities - ClientKeys(c, RootsOfClient(s, c)),
       clientRoots := OtherClients(s.clientRoots, c))
  }

  predicate IsRegistered(r: Relation, x: ComputationId) {
    exists e :: e in r && e.1 == x
  }

  function Unregistered(s: State, ids: set<ComputationId>): set<ComputationId> {
    set x | x in ids && x.Split? && !IsRegistered(s.rootToSplit, x)
  }

  // `ensureComputationInList_` for each of `ids`.
  function EnsureInList(s: State, ids: set<ComputationId>): State {
    s.(rootToSplit := s.rootToSplit + (set x | x in Unregistered(s, ids) :: (RootOf(x), x)),
       dirtySplitPriorities := s.dirtySplitPriorities + Unregistered(s, ids))
  }

  function DependenciesOf(s: State, id: ComputationId): set<ComputationId> {
    Children(s.dependencies, id)
  }

  predicate OnlyDependent(r: Relation, id: ComputationId, x: ComputationId) {
    (id, x) in r && forall e :: e in r && e.1 == x ==> e.0 == id
  }

  // The splits that nothing depends on any more once `id` depends on `ids` only.
  function NewOrphans(s: State, id: ComputationId, ids: set<ComputationId>): set<ComputationId> {
    set x | x in DependenciesOf(s, id) && x.Split? && x !in ids && OnlyDependent(s.dependencies, id, x)
  }

  function SetDependencies(s0: State, id: ComputationId, ids: set<ComputationId>): State {
    var s := EnsureInList(s0, {id});
    if DependenciesOf(s, id) == ids then s
    else
      var t := EnsureInList(s, ids);
      t.(orphanedSplits := t.orphanedSplits + NewOrphans(s, id, ids) - ids,
         orphanedLocalSplits := t.orphanedLocalSplits + (NewOrphans(s, id, ids) * s.local) - ids,
         dependencies := (set e | e in t.dependencies && e.0 != id) + (set x | x in ids :: (id, x)))
  }

  function MarkLocal(s: State, id: ComputationId): State {
    var t := EnsureInList(s.(local := s.local + {id}), {id});
    if id.Split? && id in t.orphanedSplits then t.(orphanedLocalSplits := t.orphanedLocalSplits + {id}) else t
  }

  function MarkNonlocal(s: State, id: ComputationId): State {
    s.(orphanedLocalSplits := s.orphanedLocalSplits - {id}, local := s.local - {id})
  }

  function Without(r: Relation, id: ComputationId): Relation {
    set e | e in r && e.0 != id && e.1 != id
  }

  function DropComputation(s: State, id: ComputationId): State {
    var t := if id.Root?
             then s.(dirtyPriorities := s.dirtyPriorities + Children(s.rootToRoot, id),
                     dirtySplitPriorities := s.dirtySplitPriorities + Children(s.rootToSplit, id))
             else s;
    t.(allPriorities := t.allPriorities - {id},
       local := t.local - {id},
       dependencies := Without(t.dependencies, id),
       rootToSplit := Without(t.rootToSplit, id),
       dirtySplitPriorities := t.dirtySplitPriorities - {id},
       orphanedLocalSplits := t.orphanedLocalSplits - {id},
       orphanedSplits := t.orphanedSplits - {id},
       rootToRoot := Without(t.rootToRoot, id))
  }

  function ClearOrphans(s: State): State {
    s.(orphanedLocalSplits := {}, orphanedSplits := {})
  }

  // ----- What they say on the fields -----

  // A split is registered under its root, and waits if it was not registered before; a root needs no registration.
  ghost predicate Enrolled(s: State, t: State, x: ComputationId) {
    match x
    case Root(_) => true
    case Split(root, _, _) =>
      if exists a :: (a, x) in s.rootToSplit then forall a :: (a, x) in s.rootToSplit ==> (a, x) in t.rootToSplit
      else (Root(root), x) in t.rootToSplit && x in t.dirtySplitPriorities
  }

  lemma EnsuredIsEnrolled(s: State, ids: set<ComputationId>, x: ComputationId)
    requires x in ids
    ensures Enrolled(s, EnsureInList(s, ids), x)
  {
    if x.Split? && !(exists a :: (a, x) in s.rootToSplit) {
      assert !IsRegistered(s.rootToSplit, x) by {
        forall e | e in s.rootToSplit
          ensures e.1 != x
        {
          assert e == (e.0, e.1);
        }
      }
      assert x in Unregistered(s, ids);
    }
  }

  lemma EnrolledLater(s: State, t: State, u: State, x: ComputationId)
    requires Enrolled(s, t, x) && t.rootToSplit <= u.rootToSplit && t.dirtySplitPriorities <= u.dirtySplitPriorities
    ensures Enrolled(s, u, x)
  {
  }

  lemma SetDependenciesEnrols(s: State, id: ComputationId, ids: set<ComputationId>, x: ComputationId)
    requires x == id || (x in ids && (id, x) !in s.dependencies)
    ensures Enrolled(s, SetDependencies(s, id, ids), x)
  {
    var t := EnsureInList(s, {id});
    var u := EnsureInList(t, ids);
    ChildrenAre(t.dependencies, id);
    if x == id {
      EnsuredIsEnrolled(s, {id}, id);
      EnrolledLater(s, t, u, id);
    } else {
      EnsuredIsEnrolled(t, ids, x);
      EnrolledEarlier(s, t, u, x, id);
    }
  }

  // What was registered with `id` in between was registered before, or is `id` itself.
  lemma EnrolledEarlier(s: State, t: State, u: State, x: ComputationId, id: ComputationId)
    requires t == EnsureInList(s, {id}) && Enrolled(t, u, x)
    requires t.rootToSplit <= u.rootToSplit && t.dirtySplitPriorities <= u.dirtySplitPriorities
    ensures Enrolled(s, u, x)
  {
    if x == id {
      EnsuredIsEnrolled(s, {id}, id);
      EnrolledLater(s, t, u, id);
    }
  }

  // `id` was the only one to depend on the split `x`.
  ghost predicate LosesLastDependent(dependencies: Relation, id: ComputationId, x: ComputationId) {
    x.Split? && (id, x) in dependencies && forall a :: (a, x) in dependencies ==> a == id
  }

  lemma SetDependenciesSays(s: State, id: ComputationId, ids: set<ComputationId>)
    requires Valid(s)
    ensures var t := SetDependencies(s, id, ids);
            && (forall a, x :: (a, x) in t.dependencies <==> if a == id then x in ids else (a, x) in s.dependencies)
            && (forall x :: x in t.orphanedSplits <==>
                  x !in ids && (x in s.orphanedSplits || LosesLastDependent(s.dependencies, id, x)))
  {
    ChildrenAre(s.dependencies, id);
  }

  // No trace of `id` is left but in what clients asked for; what it leads to is dirty.
  ghost predicate Dropped(s: State, t: State, id: ComputationId) {
    && t.allPriorities == s.allPriorities - {id} && t.local == s.local - {id}
    && (forall a, b :: (a, b) in t.dependencies <==> (a, b) in s.dependencies && a != id && b != id)
    && (forall a, b :: (a, b) in t.rootToRoot <==> (a, b) in s.rootToRoot && a != id && b != id)
    && (forall a, b :: (a, b) in t.rootToSplit <==> (a, b) in s.rootToSplit && a != id && b != id)
    && (forall x :: x in t.dirtyPriorities <==> x in s.dirtyPriorities || (id.Root? && (id, x) in s.rootToRoot))
    && (forall x :: x in t.dirtySplitPriorities <==>
          x != id && (x in s.dirtySplitPriorities || (id.Root? && (id, x) in s.rootToSplit)))
    && t.orphanedSplits == s.orphanedSplits - {id} && t.orphanedLocalSplits == s.orphanedLocalSplits - {id}
    && t.clientRoots == s.clientRoots && t.clientPriorities == s.clientPriorities
  }

  // ----- Frames -----

  // `x` has the same clients, client priorities and parents in both.
  ghost predicate SameFor(inp: Inputs, inp1: Inputs, x: ComputationId) {
    && (forall c :: (c, x) in inp.clientRoots <==> (c, x) in inp1.clientRoots)
    && (forall c :: (c, x) in inp.clientRoots ==>
          (c, x) in inp.clientPriorities && (c, x) in inp1.clientPriorities &&
          inp.clientPriorities[(c, x)] == inp1.clientPriorities[(c, x)])
    && (forall q :: (q, x) in inp.rootToRoot <==> (q, x) in inp1.rootToRoot)
  }

  lemma SettledForSame(inp: Inputs, inp1: Inputs, p0: map<ComputationId, Priority>, p1: map<ComputationId, Priority>,
                       x: ComputationId)
    requires Settled(inp, p0, x) && SameFor(inp, inp1, x) && Stored(p1, x) == Stored(p0, x)
    requires forall q :: (q, x) in inp.rootToRoot ==> Stored(p1, q) == Stored(p0, q)
    ensures Settled(inp1, p1, x)
  {
    forall p
      ensures FromClient(inp1, x, p) <==> FromClient(inp, x, p)
    {
      if FromClient(inp, x, p) {
        var c :| (c, x) in inp.clientRoots && (c, x) in inp.clientPriorities && p == ForDependent(inp.clientPriorities[(c, x)]);
        assert (c, x) in inp1.clientRoots && (c, x) in inp1.clientPriorities && p == ForDependent(inp1.clientPriorities[(c, x)]);
      }
      if FromClient(inp1, x, p) {
        var c :| (c, x) in inp1.clientRoots && (c, x) in inp1.clientPriorities && p == ForDependent(inp1.clientPriorities[(c, x)]);
        assert (c, x) in inp.clientRoots && (c, x) in inp.clientPriorities && p == ForDependent(inp.clientPriorities[(c, x)]);
      }
    }
    forall p
      ensures FromParent(inp1, p1, x, p) <==> FromParent(inp, p0, x, p)
    {
      if FromParent(inp, p0, x, p) {
        var q :| (q, x) in inp.rootToRoot && p == ForDependent(Stored(p0, q));
        assert (q, x) in inp1.rootToRoot && p == ForDependent(Stored(p1, q));
      }
      if FromParent(inp1, p1, x, p) {
        var q :| (q, x) in inp1.rootToRoot && p == ForDependent(Stored(p1, q));
        assert (q, x) in inp.rootToRoot && p == ForDependent(Stored(p0, q));
      }
    }
    assert Candidates(inp1, p1, x) == Candidates(inp, p0, x);
  }

  // Inputs change only for roots that become pending.
  lemma InputsChange(inp: Inputs, inp1: Inputs, p: map<ComputationId, Priority>, pending: set<ComputationId>,
                     pending1: set<ComputationId>, all: bool)
    requires RootsWait(inp, p, pending, all) && pending <= pending1
    requires forall x :: x !in pending1 ==> SameFor(inp, inp1, x)
    ensures RootsWait(inp1, p, pending1, all)
  {
    forall x: ComputationId | x.Root? && (all || x in p) && x !in pending1
      ensures Settled(inp1, p, x)
    {
      SettledForSame(inp, inp1, p, p, x);
    }
  }

  // ----- What they keep -----

  lemma SetClientPriorityKeeps(s: State, id: ComputationId, c: ClientId, p: Priority)
    requires Valid(s) && id.Root? && (IsNull(p) || FitsRoot(p))
    ensures Valid(SetClientPriority(s, id, c, p))
    ensures Complete(s) ==> Complete(SetClientPriority(s, id, c, p))
  {
    var s1 := SetClientPriority(s, id, c, p);
    forall all | RootsWait(InputsOf(s), s.allPriorities, s.dirtyPriorities, all)
      ensures RootsWait(InputsOf(s1), s1.allPriorities, s1.dirtyPriorities, all)
    {
      InputsChange(InputsOf(s), InputsOf(s1), s.allPriorities, s.dirtyPriorities, s1.dirtyPriorities, all);
    }
  }

  lemma AddRootToRootKeeps(s: State, source: ComputationId, dest: ComputationId)
    requires Valid(s) && source.Root? && dest.Root?
    ensures Valid(AddRootToRoot(s, source, dest))
    ensures Complete(s) ==> Complete(AddRootToRoot(s, source, dest))
  {
    var s1 := AddRootToRoot(s, source, dest);
    forall all | RootsWait(InputsOf(s), s.allPriorities, s.dirtyPriorities, all)
      ensures RootsWait(InputsOf(s1), s1.allPriorities, s1.dirtyPriorities, all)
    {
      InputsChange(InputsOf(s), InputsOf(s1), s.allPriorities, s.dirtyPriorities, s1.dirtyPriorities, all);
    }
  }

  lemma RootsOfClientAre(s: State, c: ClientId)
    ensures forall x :: x in RootsOfClient(s, c) <==> (c, x) in s.clientRoots
  {
    forall x | (c, x) in s.clientRoots
      ensures x in RootsOfClient(s, c)
    {
      assert (c, x).1 == x;
    }
  }

  lemma DropClientKeeps(s: State, c: ClientId)
    requires Valid(s)
    ensures Valid(DropClient(s, c))
    ensures Complete(s) ==> Complete(DropClient(s, c))
  {
    var s1 := DropClient(s, c);
    RootsOfClientAre(s, c);
    forall all | RootsWait(InputsOf(s), s.allPriorities, s.dirtyPriorities, all)
      ensures RootsWait(InputsOf(s1), s1.allPriorities, s1.dirtyPriorities, all)
    {
      InputsChange(InputsOf(s), InputsOf(s1), s.allPriorities, s.dirtyPriorities, s1.dirtyPriorities, all);
    }
  }

  lemma EnsureInListKeeps(s: State, ids: set<ComputationId>)
    requires Valid(s)
    ensures Valid(EnsureInList(s, ids))
    ensures Complete(s) ==> Complete(EnsureInList(s, ids))
  {
    assert InputsOf(EnsureInList(s, ids)) == InputsOf(s);
  }

  lemma SetDependenciesKeeps(s0: State, id: ComputationId, ids: set<ComputationId>)
    requires Valid(s0)
    ensures Valid(SetDependencies(s0, id, ids))
    ensures Complete(s0) ==> Complete(SetDependencies(s0, id, ids))
    ensures SetDependencies(s0, id, ids).orphanedSplits !! ids && SetDependencies(s0, id, ids).orphanedLocalSplits !! ids
  {
    var s := EnsureInList(s0, {id});
    EnsureInListKeeps(s0, {id});
    ChildrenAre(s.dependencies, id);
    if DependenciesOf(s, id) != ids {
      var t := EnsureInList(s, ids);
      EnsureInListKeeps(s, ids);
      OrphansAfter(s, t, id, ids);
      assert InputsOf(SetDependencies(s0, id, ids)) == InputsOf(t);
    }
  }

  lemma OrphansAfter(s: State, t: State, id: ComputationId, ids: set<ComputationId>)
    requires Orphans(s) && t == EnsureInList(s, ids)
    ensures var s1 := t.(orphanedSplits := t.orphanedSplits + NewOrphans(s, id, ids) - ids,
                         orphanedLocalSplits := t.orphanedLocalSplits + (NewOrphans(s, id, ids) * s.local) - ids,
                         dependencies := (set e | e in t.dependencies && e.0 != id) + (set x | x in ids :: (id, x)));
            Orphans(s1)
  {
    ChildrenAre(s.dependencies, id);
    var deps := (set e | e in t.dependencies && e.0 != id) + (set x | x in ids :: (id, x));
    forall x, k | x in t.orphanedSplits + NewOrphans(s, id, ids) - ids
      ensures x.Split? && (k, x) !in deps
    {
      if x in NewOrphans(s, id, ids) && (k, x) in s.dependencies {
        assert (k, x).1 == x;
      }
    }
  }

  lemma MarkLocalKeeps(s: State, id: ComputationId)
    requires Valid(s)
    ensures Valid(MarkLocal(s, id))
    ensures Complete(s) ==> Complete(MarkLocal(s, id))
  {
    var s1 := s.(local := s.local + {id});
    var t := EnsureInList(s1, {id});
    assert InputsOf(MarkLocal(s, id)) == InputsOf(s);
    assert InputsOf(t) == InputsOf(s);
  }

  lemma MarkNonlocalKeeps(s: State, id: ComputationId)
    requires Valid(s)
    ensures Valid(MarkNonlocal(s, id))
    ensures Complete(s) ==> Complete(MarkNonlocal(s, id))
  {
    assert InputsOf(MarkNonlocal(s, id)) == InputsOf(s);
  }

  lemma ClearOrphansKeeps(s: State)
    requires Valid(s)
    ensures Valid(ClearOrphans(s))
    ensures Complete(s) ==> Complete(ClearOrphans(s))
  {
    assert InputsOf(ClearOrphans(s)) == InputsOf(s);
  }

  // No client prioritises the root `id`.
  ghost predicate Unprioritised(s: State, id: ComputationId) {
    forall c :: (c, id) !in s.clientRoots
  }

  // After a drop, every root other than the dropped one is as settled or pending as before.
  lemma DropLeavesOthers(s: State, id: ComputationId, all: bool, x: ComputationId)
    requires Typed(s) && RootsWait(InputsOf(s), s.allPriorities, s.dirtyPriorities, all)
    requires x.Root? && x != id && x !in DropComputation(s, id).dirtyPriorities
    requires all || x in DropComputation(s, id).allPriorities
    ensures Settled(InputsOf(DropComputation(s, id)), DropComputation(s, id).allPriorities, x)
  {
    var s1 := DropComputation(s, id);
    ChildrenAre(s.rootToRoot, id);
    assert (id, x) !in s.rootToRoot;
    SettledForSame(InputsOf(s), InputsOf(s1), s.allPriorities, s1.allPriorities, x);
  }

  // The dropped root itself is settled exactly when no client prioritises it.
  lemma DroppedRootSettled(s: State, id: ComputationId)
    requires Typed(s) && NormalClients(s.clientPriorities) && id.Root?
    ensures Settled(InputsOf(DropComputation(s, id)), DropComputation(s, id).allPriorities, id) <==> Unprioritised(s, id)
  {
    var s1 := DropComputation(s, id);
    var inp1 := InputsOf(s1);
    var cands := Candidates(inp1, s1.allPriorities, id);
    if Unprioritised(s, id) {
      assert forall p :: p !in cands;
    } else {
      var c :| (c, id) in s.clientRoots;
      var p := ForDependent(s.clientPriorities[(c, id)]);
      assert (c, id) in inp1.clientRoots;
      assert FromClient(inp1, id, p) && p in cands;
      assert IsShallower(NULL_PRIORITY, p);
    }
  }

  lemma DropSplits(s: State, id: ComputationId)
    requires Typed(s) && SplitsWait(s)
    ensures Typed(DropComputation(s, id)) && SplitsWait(DropComputation(s, id))
  {
    var s1 := DropComputation(s, id);
    ChildrenAre(s.rootToRoot, id);
    ChildrenAre(s.rootToSplit, id);
    forall a, x | (a, x) in s1.rootToSplit
      ensures x in s1.dirtySplitPriorities || SplitSettled(s1.allPriorities, x)
    {
      assert x != id && RootOf(x) != id;
      assert x in s.dirtySplitPriorities || SplitSettled(s.allPriorities, x);
    }
  }

  lemma DropKeepsValid(s: State, id: ComputationId)
    requires Valid(s)
    ensures Valid(DropComputation(s, id))
  {
    var s1 := DropComputation(s, id);
    ChildrenAre(s.rootToRoot, id);
    ChildrenAre(s.rootToSplit, id);
    forall x: ComputationId | x.Root? && x in s1.allPriorities && x !in s1.dirtyPriorities
      ensures Settled(InputsOf(s1), s1.allPriorities, x)
    {
      DropLeavesOthers(s, id, false, x);
    }
    assert Orphans(s1) by {
      forall x, k | x in s1.orphanedSplits
        ensures (k, x) !in s1.dependencies
      {
        assert (k, x) !in s.dependencies;
      }
    }
  }

  // Dropping keeps every root settled or pending if and only if the dropped one is pending or unprioritised.
  lemma DropKeepsCompleteIff(s: State, id: ComputationId)
    requires Valid(s) && Complete(s)
    ensures Typed(DropComputation(s, id))
    ensures Complete(DropComputation(s, id)) <==>
              id.Split? || id in s.dirtyPriorities || (id, id) in s.rootToRoot || Unprioritised(s, id)
  {
    var s1 := DropComputation(s, id);
    DropSplits(s, id);
    forall x: ComputationId | x.Root? && x != id && x !in s1.dirtyPriorities
      ensures Settled(InputsOf(s1), s1.allPriorities, x)
    {
      DropLeavesOthers(s, id, true, x);
    }
    if id.Root? {
      ChildrenAre(s.rootToRoot, id);
      DroppedRootSettled(s, id);
    }
  }
}
