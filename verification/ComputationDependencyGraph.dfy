/** ComputationDependencyGraph as a mutable object. */
module ComputationDependencyGraph {
  import opened ComputationPriorities
  import opened ComputationGraphState
  import opened ComputationGraphPasses
  import opened ComputationGraphClients
  import opened ComputationGraphMeaning
  import opened Reachability

  class Graph {
    var dependencies: Relation
    var dirtyPriorities: set<ComputationId>
    var dirtySplitPriorities: set<ComputationId>
    var orphanedLocalSplits: set<ComputationId>
    var orphanedSplits: set<ComputationId>
    var clientPriorities: map<(ClientId, ComputationId), Priority>
    var clientRoots: set<(ClientId, ComputationId)>
    var allPriorities: map<ComputationId, Priority>
    var rootToRoot: Relation
    var rootToSplit: Relation
    var local: set<ComputationId>

    ghost function Now(): State
      reads this
    {
      State(dependencies, dirtyPriorities, dirtySplitPriorities, orphanedLocalSplits, orphanedSplits,
            clientPriorities, clientRoots, allPriorities, rootToRoot, rootToSplit, local)
    }

    ghost function Inputs(): Inputs
      reads `clientRoots, `clientPriorities, `rootToRoot
    {
      ComputationGraphState.Inputs(clientRoots, clientPriorities, rootToRoot)
    }

    constructor ()
      ensures Valid(Now()) && Complete(Now())
      ensures Now() == State({}, {}, {}, {}, {}, map[], {}, map[], {}, {}, {})
    {
      dependencies, dirtyPriorities, dirtySplitPriorities := {}, {}, {};
      orphanedLocalSplits, orphanedSplits := {}, {};
      clientPriorities, clientRoots, allPriorities := map[], {}, map[];
      rootToRoot, rootToSplit, local := {}, {}, {};
    }

    // ----- computePriorityFor -----

    method ComputeRootPriority(id: ComputationId) returns (priority: Priority)
      requires GoodInputs(Inputs()) && NormalRoots(allPriorities)
      ensures Computes(Inputs(), allPriorities, id, priority)
    {
      priority := FoldClients(id);
      priority := FoldParents(id, priority);
    }

    // The loop over the clients of a root.
    method FoldClients(id: ComputationId) returns (priority: Priority)
      requires GoodInputs(Inputs())
      ensures IsGreatest(ClientCandidates(Inputs(), id), priority)
    {
      priority := NULL_PRIORITY;
      ghost var seen: iset<Priority> := iset{};
      var clients := set e | e in clientRoots && e.1 == id :: e.0;
      assert forall c :: c in clients <==> (c, id) in clientRoots by { ClientsAre(clientRoots, id); }
      while clients != {}
        invariant forall c :: c in clients ==> (c, id) in clientRoots
        invariant forall c :: (c, id) in clientRoots && c !in clients ==>
                    ForDependent(clientPriorities[(c, id)]) in seen
        invariant forall p :: p in seen ==> FromClient(Inputs(), id, p)
        invariant IsGreatest(seen, priority)
      {
        var c :| c in clients;
        clients := clients - {c};
        var p := ForDependent(clientPriorities[(c, id)]);
        seen := seen + iset{p};
        if IsShallower(priority, p) {
          priority := p;
        }
      }
      assert seen == ClientCandidates(Inputs(), id);
    }

    // The loop over its parents.
    method FoldParents(id: ComputationId, priority0: Priority) returns (priority: Priority)
      requires NormalRoots(allPriorities) && IsGreatest(ClientCandidates(Inputs(), id), priority0)
      ensures IsGreatest(Candidates(Inputs(), allPriorities, id), priority)
    {
      ghost var seen0 := ClientCandidates(Inputs(), id);
      priority := priority0;
      ghost var seen := seen0;
      var parents := set e | e in rootToRoot && e.1 == id :: e.0;
      assert forall q :: q in parents <==> (q, id) in rootToRoot by { ParentsAre(rootToRoot, id); }
      while parents != {}
        invariant forall q :: q in parents ==> (q, id) in rootToRoot
        invariant forall p :: p in seen0 ==> p in seen
        invariant forall q :: (q, id) in rootToRoot && q !in parents ==> ForDependent(Stored(allPriorities, q)) in seen
        invariant forall p :: p in seen ==> p in seen0 || FromParent(Inputs(), allPriorities, id, p)
        invariant IsGreatest(seen, priority)
      {
        var q :| q in parents;
        parents := parents - {q};
        var p := ForDependent(Stored(allPriorities, q));
        seen := seen + iset{p};
        if IsShallower(priority, p) {
          priority := p;
        }
      }
      assert seen == Candidates(Inputs(), allPriorities, id);
    }

    method ComputePriorityFor(id: ComputationId) returns (priority: Priority)
      requires GoodInputs(Inputs()) && NormalRoots(allPriorities)
      ensures id.Root? ==> Computes(Inputs(), allPriorities, id, priority)
      ensures id.Split? ==> exists p :: Computes(Inputs(), allPriorities, RootOf(id), p) && priority == ForSplit(p, id.treeDepth)
    {
      priority := ComputeRootPriority(RootOf(id));
      if id.Split? {
        priority := ForSplit(priority, id.treeDepth);
      }
    }

    // ----- update -----

    // One turn of the inner loop of `update`.
    method CheckRoot(ps0: Pass, id: ComputationId, ghost before: map<ComputationId, Priority>,
                     ghost dirty: set<ComputationId>, ghost b: nat, ghost strong: bool, ghost done: bool,
                     ghost origin: set<ComputationId>)
      returns (ps: Pass)
      requires GoodInputs(Inputs()) && Acyclic(rootToRoot) && ps0.priorities == allPriorities && id in ps0.toCheck
      requires Checking(Inputs(), local, before, dirty, ps0, b, strong, done) && PassSpread(rootToRoot, origin, ps0)
      modifies `allPriorities
      ensures allPriorities == ps.priorities
      ensures Checking(Inputs(), local, before, dirty, ps, b, strong, done) && PassSpread(rootToRoot, origin, ps)
      ensures var everything := dirty + Nodes(rootToRoot);
              everything - ps.newDirty < everything - ps0.newDirty ||
              (ps.newDirty == ps0.newDirty && ps.toCheck < ps0.toCheck)
    {
      var newPriority := ComputeRootPriority(id);
      CheckStep(Inputs(), local, before, dirty, ps0, b, strong, done, id, newPriority);
      CheckSpreads(rootToRoot, local, origin, ps0, id, newPriority);
      CheckProgresses(rootToRoot, local, ps0, id, newPriority, dirty + Nodes(rootToRoot));
      ps := Check(rootToRoot, local, ps0, id, newPriority);
      allPriorities := ps.priorities;
    }

    // The inner loop of `update`: checks the dirty roots and whatever that makes stale.
    method RunPass(dirty: set<ComputationId>, outLocal: set<ComputationId>, outAll: set<ComputationId>,
                   ghost before: map<ComputationId, Priority>, ghost b: nat, ghost origin: set<ComputationId>)
      returns (ps: Pass)
      requires GoodInputs(Inputs()) && Acyclic(rootToRoot)
      requires InPass(Inputs(), local, before, dirty, Pass(allPriorities, dirty, {}, outLocal, outAll), b)
      requires RootsWait(Inputs(), allPriorities, dirty, false) && Spread(rootToRoot, origin, dirty) && Spread(rootToRoot, origin, outAll)
      modifies `allPriorities
      ensures InPass(Inputs(), local, before, dirty, ps, b) && ps.toCheck == {} && allPriorities == ps.priorities
      ensures RootsWait(Inputs(), allPriorities, ps.newDirty, false)
      ensures RootsWait(Inputs(), old(allPriorities), dirty, true) ==> RootsWait(Inputs(), allPriorities, ps.newDirty, true)
      ensures PassSpread(rootToRoot, origin, ps)
      ensures LowestSettled(Inputs(), allPriorities, dirty, b)
      ensures LowestSettled(Inputs(), old(allPriorities), dirty, b) ==> NoneAt(Inputs(), ps.newDirty, b)
    {
      ps := Pass(allPriorities, dirty, {}, outLocal, outAll);
      ghost var strong := RootsWait(Inputs(), allPriorities, dirty, true);
      ghost var done := LowestSettled(Inputs(), allPriorities, dirty, b);
      assert dirty + {} == dirty;
      ghost var everything := dirty + Nodes(rootToRoot);
      while ps.toCheck != {}
        invariant ps.priorities == allPriorities
        invariant Checking(Inputs(), local, before, dirty, ps, b, strong, done)
        invariant PassSpread(rootToRoot, origin, ps)
        decreases everything - ps.newDirty, ps.toCheck
      {
        var id :| id in ps.toCheck;
        ps := CheckRoot(ps, id, before, dirty, b, strong, done, origin);
      }
      AllChecked(Inputs(), local, before, dirty, ps, b, strong, done);
    }

    // What the outer loop of `update` keeps about the priorities and the recorded changes.
    ghost predicate Propagating(before: map<ComputationId, Priority>, strong: bool, outLocal: set<ComputationId>,
                                outAll: set<ComputationId>)
      reads this
    {
      Propagated(Inputs(), local, before, allPriorities, dirtyPriorities, strong, outLocal, outAll)
    }

    // One round of the outer loop: a pass, and the test whether the dirty set is the same as before it.
    method PassOnce(outLocal0: set<ComputationId>, outAll0: set<ComputationId>,
                    ghost before: map<ComputationId, Priority>, ghost strong: bool, ghost b: nat,
                    ghost origin: set<ComputationId>)
      returns (stable: bool, outLocal: set<ComputationId>, outAll: set<ComputationId>, ghost b1: nat)
      requires GoodInputs(Inputs()) && Acyclic(rootToRoot)
      requires dirtyPriorities != {} && Lowest(Inputs(), dirtyPriorities, b)
      requires Propagating(before, strong, outLocal0, outAll0)
      requires Spread(rootToRoot, origin, dirtyPriorities) && Spread(rootToRoot, origin, outAll0)
      modifies `dirtyPriorities, `allPriorities
      ensures Propagating(before, strong, outLocal, outAll)
      ensures Spread(rootToRoot, origin, dirtyPriorities) && Spread(rootToRoot, origin, outAll)
      ensures stable <==> dirtyPriorities == old(dirtyPriorities)
      ensures Advanced(Inputs(), old(allPriorities), allPriorities, old(dirtyPriorities), dirtyPriorities, b, b1)
    {
      ghost var p0 := allPriorities;
      PassStarts(Inputs(), local, before, p0, dirtyPriorities, strong, outLocal0, outAll0, b);
      var ps := RunPass(dirtyPriorities, outLocal0, outAll0, before, b, origin);
      outLocal, outAll := ps.outLocal, ps.outAll;
      b1 := PassAdvances(Inputs(), p0, allPriorities, dirtyPriorities, ps.newDirty, b);
      PassEnds(Inputs(), local, before, dirtyPriorities, ps, b, strong);
      stable := dirtyPriorities == ps.newDirty;
      dirtyPriorities := ps.newDirty;
    }

    // The outer loop of `update`. The branch that declares the dirty roots circular is never taken.
    method PropagateRoots() returns (outLocal: set<ComputationId>, outAll: set<ComputationId>)
      requires GoodInputs(Inputs()) && Acyclic(rootToRoot) && NormalRoots(allPriorities)
      requires forall x :: x in dirtyPriorities ==> x.Root?
      requires RootsWait(Inputs(), allPriorities, dirtyPriorities, false)
      modifies `dirtyPriorities, `allPriorities
      ensures dirtyPriorities == {}
      ensures Propagating(old(allPriorities), old(RootsWait(Inputs(), allPriorities, dirtyPriorities, true)),
                          outLocal, outAll)
      ensures Spread(rootToRoot, old(dirtyPriorities), outAll)
    {
      outLocal, outAll := {}, {};
      var passesWhereSetIsStable := 0;
      ghost var before, origin := allPriorities, dirtyPriorities;
      OriginIsReached(rootToRoot, origin);
      ghost var strong := RootsWait(Inputs(), allPriorities, dirtyPriorities, true);
      ghost var b: nat := 0;
      if dirtyPriorities != {} {
        b := LowestExists(Inputs(), dirtyPriorities);
      }
      while dirtyPriorities != {}
        invariant Propagating(before, strong, outLocal, outAll)
        invariant Spread(rootToRoot, origin, dirtyPriorities) && Spread(rootToRoot, origin, outAll)
        invariant dirtyPriorities != {} ==> Lowest(Inputs(), dirtyPriorities, b) && b <= |Nodes(rootToRoot)|
        invariant 0 <= passesWhereSetIsStable <= 1
        invariant passesWhereSetIsStable == 1 ==> LowestSettled(Inputs(), allPriorities, dirtyPriorities, b)
        decreases Distance(Inputs(), allPriorities, dirtyPriorities, b)
      {
        var stable;
        stable, outLocal, outAll, b := PassOnce(outLocal, outAll, before, strong, b, origin);
        if !stable {
          passesWhereSetIsStable := 0;
        } else {
          passesWhereSetIsStable := passesWhereSetIsStable + 1;
          if passesWhereSetIsStable > 1 {
            assert false;
          }
        }
      }
    }

    // What the loop over the waiting splits keeps.
    ghost predicate Splitting(before: map<ComputationId, Priority>, strong: bool, waiting: set<ComputationId>,
                              outLocal: set<ComputationId>, outAll: set<ComputationId>)
      reads this
    {
      SplitsPropagated(Inputs(), rootToSplit, local, before, allPriorities, strong, waiting, outLocal, outAll)
    }

    // One round of that loop.
    method SettleSplit(split: ComputationId, outLocal0: set<ComputationId>, outAll0: set<ComputationId>,
                       ghost before: map<ComputationId, Priority>, ghost strong: bool,
                       ghost waiting: set<ComputationId>, ghost done: set<ComputationId>)
      returns (outLocal: set<ComputationId>, outAll: set<ComputationId>)
      requires Splitting(before, strong, waiting, outLocal0, outAll0) && split in waiting
      requires SplitsRecorded(before, allPriorities, waiting, outAll0) && SplitsComputed(Inputs(), allPriorities, done)
      modifies `allPriorities
      ensures Splitting(before, strong, waiting - {split}, outLocal, outAll)
      ensures SplitsRecorded(before, allPriorities, waiting - {split}, outAll) && outAll <= outAll0 + {split}
      ensures SplitsComputed(Inputs(), allPriorities, done + {split})
    {
      outLocal, outAll := outLocal0, outAll0;
      var root := ComputeRootPriority(RootOf(split));
      var newPri := ForSplit(root, split.treeDepth);
      SplitStep(Inputs(), rootToSplit, local, before, allPriorities, strong, waiting, outLocal0, outAll0, split, root);
      SplitStepRecorded(Inputs(), before, allPriorities, waiting, outAll0, split, root);
      StoreSplitComputed(Inputs(), allPriorities, done, split, root);
      var changed := Differs(Stored(allPriorities, split), newPri);
      allPriorities := allPriorities[split := newPri];
      if changed {
        outAll := outAll + {split};
        if split in local {
          outLocal := outLocal + {split};
        }
      }
    }

    // The end of `update`: the splits of changed roots, and those waiting, get their root's adjusted priority.
    method PropagateSplits(inLocal: set<ComputationId>, inAll: set<ComputationId>,
                           ghost before: map<ComputationId, Priority>, ghost strong: bool)
      returns (outLocal: set<ComputationId>, outAll: set<ComputationId>)
      requires Typed(Now()) && dirtyPriorities == {} && NormalClients(clientPriorities)
      requires Propagating(before, strong, inLocal, inAll)
      requires strong ==> SplitsCovered(rootToSplit, allPriorities, dirtySplitPriorities, inAll)
      modifies `dirtySplitPriorities, `allPriorities
      ensures dirtySplitPriorities == {}
      ensures Splitting(before, strong, {}, outLocal, outAll)
      ensures SplitsRecorded(before, allPriorities, {}, outAll)
      ensures SplitsComputed(Inputs(), allPriorities, old(dirtySplitPriorities))
      ensures forall x: ComputationId :: x in outAll ==>
                x in inAll || x in old(dirtySplitPriorities) || (RootOf(x), x) in rootToSplit
    {
      outLocal, outAll := inLocal, inAll;
      dirtySplitPriorities := dirtySplitPriorities + (set e | e in rootToSplit && e.0 in inAll :: e.1);
      forall a, x | (a, x) in rootToSplit && a in inAll
        ensures x in dirtySplitPriorities
      {
        assert (a, x).1 == x;
      }
      var waiting := dirtySplitPriorities;
      ghost var all := waiting;
      OnlyRootsRecorded(before, allPriorities, waiting, inAll);
      while waiting != {}
        invariant waiting <= all && SplitsComputed(Inputs(), allPriorities, all - waiting)
        invariant Splitting(before, strong, waiting, outLocal, outAll)
        invariant SplitsRecorded(before, allPriorities, waiting, outAll)
        invariant outAll <= inAll + all
      {
        var split :| split in waiting;
        outLocal, outAll := SettleSplit(split, outLocal, outAll, before, strong, waiting, all - waiting);
        assert all - (waiting - {split}) == (all - waiting) + {split};
        waiting := waiting - {split};
      }
      dirtySplitPriorities := {};
    }

    // Ends on acyclic dependencies. Every stored root then has the priority `computePriorityFor` gives it; in runs
    // where roots are dropped only once no client prioritises them, so have all roots, and every registered split
    // has its root's adjusted priority.
    method Update() returns (outLocal: set<ComputationId>, outAll: set<ComputationId>)
      requires Valid(Now()) && Acyclic(rootToRoot)
      modifies `dirtyPriorities, `dirtySplitPriorities, `allPriorities
      ensures Valid(Now()) && dirtyPriorities == {} && dirtySplitPriorities == {}
      ensures forall x: ComputationId :: x.Root? && x in allPriorities ==> Settled(Inputs(), allPriorities, x)
      ensures old(Complete(Now())) ==>
                && Complete(Now())
                && (forall x: ComputationId :: x.Root? ==> Settled(Inputs(), allPriorities, x))
                && (forall a, x :: (a, x) in rootToSplit ==> SplitSettled(allPriorities, x))
      ensures old(Complete(Now())) ==>
                && (forall a, b :: (a, b) in rootToRoot ==> Follows(allPriorities, a, b))
                && (forall a, x :: (a, x) in rootToSplit ==> Inherits(allPriorities, x))
      ensures Updated(old(Now()), Now(), outAll) && outLocal == outAll * local
    {
      ghost var s := Now();
      outLocal, outAll := PropagateAll();
      UpdateDone(s, Now());
      if Complete(s) {
        SettledGraphSays(Now());
      }
    }

    method PropagateAll() returns (outLocal: set<ComputationId>, outAll: set<ComputationId>)
      requires Valid(Now()) && Acyclic(rootToRoot)
      modifies `dirtyPriorities, `dirtySplitPriorities, `allPriorities
      ensures dirtyPriorities == {} && dirtySplitPriorities == {}
      ensures Splitting(old(allPriorities), old(Complete(Now())), {}, outLocal, outAll)
      ensures SplitsRecorded(old(allPriorities), allPriorities, {}, outAll)
      ensures SplitsComputed(Inputs(), allPriorities, old(dirtySplitPriorities))
      ensures forall x: ComputationId :: x in outAll ==>
                if x.Split? then x in old(dirtySplitPriorities) || (RootOf(x), x) in rootToSplit
                else ReachedFrom(rootToRoot, old(dirtyPriorities), x)
    {
      ghost var before := allPriorities;
      ghost var strong := Complete(Now());
      outLocal, outAll := PropagateRoots();
      if strong {
        RootChangesCovered(rootToSplit, before, allPriorities, dirtySplitPriorities, outAll);
      }
      outLocal, outAll := PropagateSplits(outLocal, outAll, before, strong);
    }

    // ----- Client operations -----

    method SetCumulusClientPriority(id: ComputationId, c: ClientId, priority: Priority)
      requires Valid(Now()) && id.Root? && (IsNull(priority) || FitsRoot(priority))
      modifies `clientRoots, `clientPriorities, `dirtyPriorities
      ensures Valid(Now()) && (old(Complete(Now())) ==> Complete(Now()))
      ensures Now() == SetClientPriority(old(Now()), id, c, priority)
      ensures if priority.level.None? then (c, id) !in clientRoots && (c, id) !in clientPriorities
              else (c, id) in clientRoots && (c, id) in clientPriorities && clientPriorities[(c, id)] == priority
      ensures forall d, x :: (d, x) != (c, id) ==>
                && ((d, x) in clientRoots <==> (d, x) in old(clientRoots))
                && ((d, x) in clientPriorities <==> (d, x) in old(clientPriorities))
                && ((d, x) in clientPriorities ==> clientPriorities[(d, x)] == old(clientPriorities)[(d, x)])
      ensures dirtyPriorities == old(dirtyPriorities) + {id}
    {
      SetClientPriorityKeeps(Now(), id, c, priority);
      if IsNull(priority) {
        clientRoots := clientRoots - {(c, id)};
        clientPriorities := clientPriorities - {(c, id)};
      } else {
        clientRoots := clientRoots + {(c, id)};
        clientPriorities := clientPriorities[(c, id) := priority];
      }
      dirtyPriorities := dirtyPriorities + {id};
    }

    method AddRootToRootDependency(source: ComputationId, dest: ComputationId) returns (isNew: bool)
      requires Valid(Now()) && source.Root? && dest.Root?
      modifies `rootToRoot, `dirtyPriorities
      ensures Valid(Now()) && (old(Complete(Now())) ==> Complete(Now()))
      ensures Now() == AddRootToRoot(old(Now()), source, dest) && isNew == ((source, dest) !in old(rootToRoot))
      ensures rootToRoot == old(rootToRoot) + {(source, dest)}
      ensures dirtyPriorities == old(dirtyPriorities) + if isNew then {dest} else {}
    {
      AddRootToRootKeeps(Now(), source, dest);
      if (source, dest) in rootToRoot {
        return false;
      }
      rootToRoot := rootToRoot + {(source, dest)};
      dirtyPriorities := dirtyPriorities + {dest};
      return true;
    }

    method DropCumulusClient(c: ClientId)
      requires Valid(Now())
      modifies `clientRoots, `clientPriorities, `dirtyPriorities
      ensures Valid(Now()) && (old(Complete(Now())) ==> Complete(Now()))
      ensures Now() == DropClient(old(Now()), c)
      ensures forall d, x :: (d, x) in clientRoots <==> (d, x) in old(clientRoots) && d != c
      ensures forall d, x :: (d, x) in clientPriorities <==>
                (d, x) in old(clientPriorities) && (d != c || (c, x) !in old(clientRoots))
      ensures forall k :: k in clientPriorities ==> clientPriorities[k] == old(clientPriorities)[k]
      ensures forall x :: x in dirtyPriorities <==> x in old(dirtyPriorities) || (c, x) in old(clientRoots)
    {
      DropClientKeeps(Now(), c);
      RemoveClient(c);
    }

    method RemoveClient(c: ClientId)
      modifies `clientRoots, `clientPriorities, `dirtyPriorities
      ensures Now() == DropClient(old(Now()), c)
    {
      ghost var s := Now();
      var current := set e | e in clientRoots && e.0 == c :: e.1;
      var rest := current;
      while rest != {}
        invariant rest <= current && clientRoots == s.clientRoots
        invariant dirtyPriorities == s.dirtyPriorities + (current - rest)
        invariant clientPriorities == s.clientPriorities - ClientKeys(c, current - rest)
      {
        var id :| id in rest;
        dirtyPriorities := dirtyPriorities + {id};
        clientPriorities := clientPriorities - {(c, id)};
        assert current - (rest - {id}) == (current - rest) + {id};
        assert ClientKeys(c, current - (rest - {id})) == ClientKeys(c, current - rest) + {(c, id)};
        rest := rest - {id};
      }
      assert current - rest == current == RootsOfClient(s, c);
      clientRoots := OtherClients(clientRoots, c);
    }

    method EnsureComputationInList(id: ComputationId)
      modifies `rootToSplit, `dirtySplitPriorities
      ensures Now() == EnsureInList(old(Now()), {id})
    {
      if id.Split? && !IsRegistered(rootToSplit, id) {
        rootToSplit := rootToSplit + {(RootOf(id), id)};
        dirtySplitPriorities := dirtySplitPriorities + {id};
        assert Unregistered(old(Now()), {id}) == {id};
      } else {
        assert Unregistered(old(Now()), {id}) == {};
      }
    }

    method SetDependenciesOf(id: ComputationId, ids: set<ComputationId>)
      requires Valid(Now())
      modifies `rootToSplit, `dirtySplitPriorities, `orphanedSplits, `orphanedLocalSplits, `dependencies
      ensures Valid(Now()) && (old(Complete(Now())) ==> Complete(Now()))
      ensures Now() == SetDependencies(old(Now()), id, ids)
      ensures orphanedSplits !! ids && orphanedLocalSplits !! ids
      ensures forall a, x :: (a, x) in dependencies <==> if a == id then x in ids else (a, x) in old(dependencies)
      ensures forall x :: x in orphanedSplits <==> x !in ids && (x in old(orphanedSplits) || LosesLastDependent(old(dependencies), id, x))
      ensures Enrolled(old(Now()), Now(), id) && forall x :: x in ids && (id, x) !in old(dependencies) ==> Enrolled(old(Now()), Now(), x)
    {
      ghost var s := Now();
      SetDependenciesKeeps(s, id, ids);
      forall x | x == id || (x in ids && (id, x) !in dependencies)
        ensures Enrolled(s, SetDependencies(s, id, ids), x)
      {
        SetDependenciesEnrols(s, id, ids, x);
      }
      SetDependenciesSays(s, id, ids);
      ReplaceDependencies(id, ids);
    }

    // The loop over the dependencies that `id` had; inlined in the source.
    method CollectOrphans(id: ComputationId, ids: set<ComputationId>)
      modifies `orphanedSplits, `orphanedLocalSplits
      ensures orphanedSplits == old(orphanedSplits) + NewOrphans(old(Now()), id, ids)
      ensures orphanedLocalSplits == old(orphanedLocalSplits) + NewOrphans(old(Now()), id, ids) * local
    {
      ghost var orphans := NewOrphans(Now(), id, ids);
      var rest := Children(dependencies, id);
      while rest != {}
        invariant forall x :: x in orphans && x !in rest ==> x in orphanedSplits && (x in local ==> x in orphanedLocalSplits)
        invariant rest <= Children(dependencies, id)
        invariant old(orphanedSplits) <= orphanedSplits <= old(orphanedSplits) + orphans
        invariant old(orphanedLocalSplits) <= orphanedLocalSplits <= old(orphanedLocalSplits) + orphans * local
      {
        var x :| x in rest;
        if x.Split? && x !in ids && OnlyDependent(dependencies, id, x) {
          orphanedSplits := orphanedSplits + {x};
          if x in local {
            orphanedLocalSplits := orphanedLocalSplits + {x};
          }
        }
        rest := rest - {x};
      }
    }

    // The loop that registers `ids`; inlined in the source.
    method EnsureAll(ids: set<ComputationId>)
      modifies `rootToSplit, `dirtySplitPriorities
      ensures Now() == EnsureInList(old(Now()), ids)
    {
      var rest := ids;
      ghost var t := Now();
      assert Unregistered(t, {}) == {};
      while rest != {}
        invariant rest <= ids
        invariant Now() == EnsureInList(t, ids - rest)
      {
        var x :| x in rest;
        EnsureComputationInList(x);
        EnsureOneMore(t, ids - rest, x);
        assert ids - (rest - {x}) == (ids - rest) + {x};
        rest := rest - {x};
      }
      assert ids - {} == ids;
    }

    method ReplaceDependencies(id: ComputationId, ids: set<ComputationId>)
      modifies `rootToSplit, `dirtySplitPriorities, `orphanedSplits, `orphanedLocalSplits, `dependencies
      ensures Now() == SetDependencies(old(Now()), id, ids)
    {
      EnsureComputationInList(id);
      if Children(dependencies, id) == ids {
        return;
      }
      CollectOrphans(id, ids);
      EnsureAll(ids);
      orphanedLocalSplits := orphanedLocalSplits - ids;
      orphanedSplits := orphanedSplits - ids;
      dependencies := (set e | e in dependencies && e.0 != id) + (set x | x in ids :: (id, x));
    }

    method MarkComputationLocal(id: ComputationId)
      requires Valid(Now())
      modifies `local, `rootToSplit, `dirtySplitPriorities, `orphanedLocalSplits
      ensures Valid(Now()) && (old(Complete(Now())) ==> Complete(Now()))
      ensures Now() == MarkLocal(old(Now()), id)
      ensures local == old(local) + {id} && Enrolled(old(Now()), Now(), id)
    {
      MarkLocalKeeps(Now(), id);
      EnsuredIsEnrolled(Now(), {id}, id);
      local := local + {id};
      EnsureComputationInList(id);
      if id.Split? && id in orphanedSplits {
        orphanedLocalSplits := orphanedLocalSplits + {id};
      }
    }

    method MarkComputationNonlocal(id: ComputationId)
      requires Valid(Now())
      modifies `local, `orphanedLocalSplits
      ensures Valid(Now()) && (old(Complete(Now())) ==> Complete(Now()))
      ensures Now() == MarkNonlocal(old(Now()), id)
      ensures local == old(local) - {id}
    {
      MarkNonlocalKeeps(Now(), id);
      orphanedLocalSplits := orphanedLocalSplits - {id};
      local := local - {id};
    }

    method ClearOrphanedSplits()
      requires Valid(Now())
      modifies `orphanedSplits, `orphanedLocalSplits
      ensures Valid(Now()) && (old(Complete(Now())) ==> Complete(Now()))
      ensures Now() == ClearOrphans(old(Now()))
      ensures orphanedSplits == {} && orphanedLocalSplits == {}
    {
      ClearOrphansKeeps(Now());
      orphanedLocalSplits := {};
      orphanedSplits := {};
    }

    method Drop(id: ComputationId)
      requires Valid(Now())
      modifies this
      ensures Valid(Now())
      ensures Now() == DropComputation(old(Now()), id)
      ensures old(Complete(Now())) && (id.Root? ==> old(Unprioritised(Now(), id))) ==> Complete(Now())
      ensures Dropped(old(Now()), Now(), id)
    {
      ghost var s := Now();
      DropKeepsValid(s, id);
      if Complete(s) {
        DropKeepsCompleteIff(s, id);
      }
      Forget(id);
    }

    method Forget(id: ComputationId)
      modifies this
      ensures Now() == DropComputation(old(Now()), id)
    {
      if id.Root? {
        dirtyPriorities := dirtyPriorities + Children(rootToRoot, id);
        dirtySplitPriorities := dirtySplitPriorities + Children(rootToSplit, id);
      }
      allPriorities := allPriorities - {id};
      local := local - {id};
      dependencies := Without(dependencies, id);
      rootToSplit := Without(rootToSplit, id);
      dirtySplitPriorities := dirtySplitPriorities - {id};
      orphanedLocalSplits := orphanedLocalSplits - {id};
      orphanedSplits := orphanedSplits - {id};
      rootToRoot := Without(rootToRoot, id);
    }

    // ----- Queries -----

    // Adds the clients registered on some root from which the root of `id` can be reached, cycles or not.
    method ClientsRequesting(id: ComputationId, clients: set<ClientId>) returns (outClients: set<ClientId>)
      ensures forall c :: c in outClients <==>
                c in clients || exists r :: (c, r) in clientRoots && Reach(Edge(rootToRoot), r, if id.Root? then id else Root(id.root))
    {
      var target := RootOf(id);
      ghost var e := Edge(rootToRoot);
      var rootsSeen: set<ComputationId> := {};
      var rootsToCheck := {target};
      outClients := clients;
      ReachSelf(e, target);
      ghost var everything := Nodes(rootToRoot) + {target};
      while rootsToCheck != {}
        invariant target in rootsSeen + rootsToCheck && rootsSeen + rootsToCheck <= everything
        invariant forall r :: r in rootsSeen + rootsToCheck ==> Reach(e, r, target)
        invariant forall q, r :: r in rootsSeen && (q, r) in rootToRoot ==> q in rootsSeen + rootsToCheck
        invariant forall c :: c in outClients <==> c in clients || exists r :: r in rootsSeen && (c, r) in clientRoots
        decreases everything - rootsSeen, rootsToCheck
      {
        var r :| r in rootsToCheck;
        rootsToCheck := rootsToCheck - {r};
        if r !in rootsSeen {
          ParentsAre(rootToRoot, r);
          var parents := set p | p in rootToRoot && p.1 == r :: p.0;
          forall q | q in parents
            ensures Reach(e, q, target) && q in everything
          {
            assert (q, r).0 == q;
            ReachEdge(e, q, r);
            ReachTransitive(e, q, r, target);
          }
          rootsToCheck := rootsToCheck + parents;
          rootsSeen := rootsSeen + {r};
          ClientsAre(clientRoots, r);
          outClients := outClients + (set p | p in clientRoots && p.1 == r :: p.0);
        }
      }
      forall r | Reach(e, r, target)
        ensures r in rootsSeen
      {
        if r !in rootsSeen {
          ReachStaysInside(e, (x: ComputationId) => x !in rootsSeen, r, target);
        }
      }
    }

    // Whether every stored priority is the one that would be computed now, and no key of the root-to-root relation
    // that has no stored priority should have one.
    method CheckInternalState() returns (isValid: bool)
      requires Valid(Now()) && dirtyPriorities == {}
      ensures isValid <==> StateChecks(Now())
    {
      isValid := true;
      var rest := allPriorities.Keys;
      while rest != {}
        invariant rest <= allPriorities.Keys
        invariant isValid <==> forall x :: x in allPriorities && x !in rest ==> StoredChecks(Now(), x)
      {
        var x :| x in rest;
        rest := rest - {x};
        var p := ComputePriorityFor(x);
        CheckDecides(Now(), x, p);
        DiffersIsInequality(allPriorities[x], p);
        if Differs(allPriorities[x], p) {
          isValid := false;
        }
      }
      var keys := set e | e in rootToRoot :: e.0;
      assert forall a, b :: (a, b) in rootToRoot ==> (a, b).0 in keys;
      ghost var soFar := isValid;
      while keys != {}
        invariant forall a :: a in keys ==> exists b :: (a, b) in rootToRoot
        invariant isValid <==> soFar && forall a, b :: (a, b) in rootToRoot && a !in keys && a !in allPriorities ==>
                                 Computes(InputsOf(Now()), allPriorities, a, NULL_PRIORITY)
      {
        var a :| a in keys;
        keys := keys - {a};
        var p := ComputePriorityFor(a);
        ghost var b :| (a, b) in rootToRoot;
        NullDecides(Now(), a, p);
        if a !in allPriorities && !IsNull(p) {
          isValid := false;
        }
      }
    }
  }

  // `p`, computed for `x`, equals the stored priority exactly when the stored one is right.
  lemma CheckDecides(s: State, x: ComputationId, p: Priority)
    requires Valid(s) && x in s.allPriorities
    requires x.Root? ==> Computes(InputsOf(s), s.allPriorities, x, p)
    requires x.Split? ==> exists q :: Computes(InputsOf(s), s.allPriorities, RootOf(x), q) && p == ForSplit(q, x.treeDepth)
    ensures s.allPriorities[x] == p <==> StoredChecks(s, x)
    ensures Normal(p)
  {
    forall q, r | Computes(InputsOf(s), s.allPriorities, RootOf(x), q) && Computes(InputsOf(s), s.allPriorities, RootOf(x), r)
      ensures q == r && RootPriority(q)
    {
      ComputedIsUnique(InputsOf(s), s.allPriorities, RootOf(x), q, r);
    }
  }

  lemma NullDecides(s: State, a: ComputationId, p: Priority)
    requires Valid(s) && Computes(InputsOf(s), s.allPriorities, a, p)
    ensures IsNull(p) <==> Computes(InputsOf(s), s.allPriorities, a, NULL_PRIORITY)
  {
    ComputedIsUnique(InputsOf(s), s.allPriorities, a, p, p);
    if Computes(InputsOf(s), s.allPriorities, a, NULL_PRIORITY) {
      ComputedIsUnique(InputsOf(s), s.allPriorities, a, p, NULL_PRIORITY);
    }
  }

  lemma EnsureOneMore(t: State, ids: set<ComputationId>, x: ComputationId)
    ensures EnsureInList(EnsureInList(t, ids), {x}) == EnsureInList(t, ids + {x})
  {
    var s := EnsureInList(t, ids);
    forall y
      ensures IsRegistered(s.rootToSplit, y) <==> IsRegistered(t.rootToSplit, y) || y in Unregistered(t, ids)
    {
      if y in Unregistered(t, ids) {
        assert (RootOf(y), y) in s.rootToSplit;
        assert (RootOf(y), y).1 == y;
      }
      if IsRegistered(t.rootToSplit, y) {
        var e :| e in t.rootToSplit && e.1 == y;
        assert e in s.rootToSplit;
      }
    }
    assert Unregistered(t, ids + {x}) == Unregistered(t, ids) + Unregistered(s, {x});
  }

  lemma UpdateDone(s: State, s1: State)
    requires Valid(s) && s1 == s.(dirtyPriorities := {}, dirtySplitPriorities := {}, allPriorities := s1.allPriorities)
    requires NormalRoots(s1.allPriorities) && RootsWait(InputsOf(s1), s1.allPriorities, {}, false)
    requires Complete(s) ==> RootsWait(InputsOf(s1), s1.allPriorities, {}, true) &&
                             SplitsCovered(s1.rootToSplit, s1.allPriorities, {}, {})
    ensures Valid(s1) && (Complete(s) ==> Complete(s1))
  {
  }

  lemma ClientsAre(clientRoots: set<(ClientId, ComputationId)>, id: ComputationId)
    ensures forall c :: c in (set e | e in clientRoots && e.1 == id :: e.0) <==> (c, id) in clientRoots
  {
    forall c | (c, id) in clientRoots
      ensures c in (set e | e in clientRoots && e.1 == id :: e.0)
    {
      assert (c, id).0 == c;
    }
  }

  lemma ParentsAre(r: Relation, id: ComputationId)
    ensures forall q :: q in (set e | e in r && e.1 == id :: e.0) <==> (q, id) in r
  {
    forall q | (q, id) in r
      ensures q in (set e | e in r && e.1 == id :: e.0)
    {
      assert (q, id).0 == q;
    }
  }
}
