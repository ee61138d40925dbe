/** One pass of the priority propagation, and why two passes settle the lowest dirty roots. */
module ComputationGraphPasses {
  import opened ComputationPriorities
  import opened ComputationGraphState
  import opened Reachability

  lemma CandidatesFrame(inp: Inputs, p0: map<ComputationId, Priority>, p1: map<ComputationId, Priority>, x: ComputationId)
    requires forall q :: (q, x) in inp.rootToRoot ==> Stored(p1, q) == Stored(p0, q)
    ensures Candidates(inp, p1, x) == Candidates(inp, p0, x)
  {
    forall p
      ensures FromParent(inp, p1, x, p) <==> FromParent(inp, p0, x, p)
    {
      if FromParent(inp, p0, x, p) {
        var q :| (q, x) in inp.rootToRoot && p == ForDependent(Stored(p0, q));
        assert (q, x) in inp.rootToRoot && p == ForDependent(Stored(p1, q));
      }
      if FromParent(inp, p1, x, p) {
        var q :| (q, x) in inp.rootToRoot && p == ForDependent(Stored(p1, q));
        assert (q, x) in inp.rootToRoot && p == ForDependent(Stored(p0, q));
      }
    }
  }

  lemma SettledFrame(inp: Inputs, p0: map<ComputationId, Priority>, p1: map<ComputationId, Priority>, x: ComputationId)
    requires Settled(inp, p0, x) && Stored(p1, x) == Stored(p0, x)
    requires forall q :: (q, x) in inp.rootToRoot ==> Stored(p1, q) == Stored(p0, q)
    ensures Settled(inp, p1, x)
  {
    CandidatesFrame(inp, p0, p1, x);
  }

  lemma CandidatesAreRootPriorities(inp: Inputs, priorities: map<ComputationId, Priority>, x: ComputationId)
    requires NormalRoots(priorities) && NormalClients(inp.clientPriorities)
    requires forall q :: (q, x) in inp.rootToRoot ==> q.Root?
    ensures forall p :: p in Candidates(inp, priorities, x) ==> RootPriority(p)
  {
    forall p | p in Candidates(inp, priorities, x)
      ensures RootPriority(p)
    {
      if FromClient(inp, x, p) {
        var c :| (c, x) in inp.clientRoots && (c, x) in inp.clientPriorities && p == ForDependent(inp.clientPriorities[(c, x)]);
      } else {
        var q :| (q, x) in inp.rootToRoot && p == ForDependent(Stored(priorities, q));
        assert RootPriority(Stored(priorities, q));
      }
    }
  }

  // Well-typed inputs of the propagation.
  ghost predicate GoodInputs(inp: Inputs) {
    && (forall a, b :: (a, b) in inp.rootToRoot ==> a.Root? && b.Root?)
    && (forall c, x :: (c, x) in inp.clientRoots ==> x.Root? && (c, x) in inp.clientPriorities)
    && NormalClients(inp.clientPriorities)
  }

  lemma ComputedIsUnique(inp: Inputs, priorities: map<ComputationId, Priority>, x: ComputationId, p: Priority, q: Priority)
    requires GoodInputs(inp) && NormalRoots(priorities)
    requires Computes(inp, priorities, x, p) && Computes(inp, priorities, x, q)
    ensures p == q && RootPriority(p)
  {
    CandidatesAreRootPriorities(inp, priorities, x);
    GreatestIsUnique(Candidates(inp, priorities, x), p, q);
  }

  // ----- The state of a pass -----

  // Every root is settled, still to be checked, or left for the next pass.
  ghost predicate Covers(inp: Inputs, priorities: map<ComputationId, Priority>, toCheck: set<ComputationId>,
                         newDirty: set<ComputationId>, all: bool) {
    RootsWait(inp, priorities, toCheck + newDirty, all)
  }

  // Nothing below height `b` is touched, and roots of height `b` only if they were dirty to begin with.
  ghost predicate Above(inp: Inputs, dirty: set<ComputationId>, xs: set<ComputationId>, b: nat) {
    forall x :: x in xs ==> x.Root? && b <= Height(inp.rootToRoot, x) && (Height(inp.rootToRoot, x) == b ==> x in dirty)
  }

  ghost predicate LowestSettled(inp: Inputs, priorities: map<ComputationId, Priority>, xs: set<ComputationId>, b: nat) {
    forall x :: x in xs && Height(inp.rootToRoot, x) == b ==> Settled(inp, priorities, x)
  }

  ghost predicate NoneAt(inp: Inputs, xs: set<ComputationId>, b: nat) {
    forall x :: x in xs ==> Height(inp.rootToRoot, x) != b
  }

  // Every id whose priority differs from the one before is recorded.
  ghost predicate Records(p0: map<ComputationId, Priority>, p1: map<ComputationId, Priority>, out: set<ComputationId>) {
    p0.Keys <= p1.Keys && forall x :: Stored(p1, x) != Stored(p0, x) ==> x in out
  }

  function Children(r: Relation, id: ComputationId): set<ComputationId> {
    set e | e in r && e.0 == id :: e.1
  }

  lemma ChildrenAre(r: Relation, id: ComputationId)
    ensures forall x :: x in Children(r, id) <==> (id, x) in r
  {
    forall x | (id, x) in r
      ensures x in Children(r, id)
    {
      assert (id, x).1 == x;
    }
  }

  // Giving `id` a new priority unsettles at most its children.
  lemma ChangeCovers(inp: Inputs, p0: map<ComputationId, Priority>, id: ComputationId, p: Priority,
                     toCheck: set<ComputationId>, newDirty: set<ComputationId>, toCheck1: set<ComputationId>,
                     newDirty1: set<ComputationId>, all: bool)
    requires Covers(inp, p0, toCheck + {id}, newDirty, all)
    requires newDirty <= newDirty1 && toCheck <= toCheck1
    requires id in newDirty1 && Children(inp.rootToRoot, id) <= newDirty1
    ensures Covers(inp, p0[id := p], toCheck1, newDirty1, all)
  {
    var p1 := p0[id := p];
    ChildrenAre(inp.rootToRoot, id);
    forall x: ComputationId | x.Root? && (all || x in p1) && x !in toCheck1 + newDirty1
      ensures Settled(inp, p1, x)
    {
      assert x !in toCheck + {id} + newDirty;
      SettledFrame(inp, p0, p1, x);
    }
  }

  // Checking `id` without a change only writes the default entry, if anything.
  lemma CheckCovers(inp: Inputs, p0: map<ComputationId, Priority>, id: ComputationId,
                    toCheck: set<ComputationId>, newDirty: set<ComputationId>, all: bool)
    requires Covers(inp, p0, toCheck + {id}, newDirty, all) && Settled(inp, p0, id)
    ensures Covers(inp, p0[id := Stored(p0, id)], toCheck, newDirty, all)
  {
    var p1 := p0[id := Stored(p0, id)];
    forall x: ComputationId | x.Root? && (all || x in p1) && x !in toCheck + newDirty
      ensures Settled(inp, p1, x)
    {
      assert x != id ==> x !in toCheck + {id} + newDirty;
      SettledFrame(inp, p0, p1, x);
    }
  }

  // A change at height `b` or above leaves a settled root of height `b` settled, and settles the root itself.
  lemma LowestStaysSettled(inp: Inputs, p0: map<ComputationId, Priority>, id: ComputationId, p: Priority, x: ComputationId)
    requires Acyclic(inp.rootToRoot) && Computes(inp, p0, id, p)
    requires Height(inp.rootToRoot, x) <= Height(inp.rootToRoot, id)
    requires x == id || Settled(inp, p0, x)
    ensures Settled(inp, p0[id := p], x)
  {
    if (id, x) in inp.rootToRoot {
      HeightGrows(inp.rootToRoot, id, x);
    }
    CandidatesFrame(inp, p0, p0[id := p], x);
  }

  // ----- One round of the inner loop of `update` -----

  datatype Pass = Pass(
    priorities: map<ComputationId, Priority>,
    toCheck: set<ComputationId>,
    newDirty: set<ComputationId>,
    outLocal: set<ComputationId>,
    outAll: set<ComputationId>)

  // Checks the root `id`, whose computed priority is `p`.
  function Check(r: Relation, local: set<ComputationId>, ps: Pass, id: ComputationId, p: Priority): Pass {
    if !Differs(p, Stored(ps.priorities, id)) then
      ps.(priorities := ps.priorities[id := Stored(ps.priorities, id)], toCheck := ps.toCheck - {id})
    else
      var added := Children(r, id) - (ps.newDirty + {id});
      Pass(ps.priorities[id := p],
           ps.toCheck - {id} + added,
           ps.newDirty + {id} + added,
           if id in local then ps.outLocal + {id} else ps.outLocal,
           ps.outAll + {id})
  }

  // What the inner loop keeps, relative to the priorities before the call and the dirty set of this pass.
  ghost predicate InPass(inp: Inputs, local: set<ComputationId>, before: map<ComputationId, Priority>,
                         dirty: set<ComputationId>, ps: Pass, b: nat) {
    && NormalRoots(ps.priorities)
    && Above(inp, dirty, ps.toCheck, b) && Above(inp, dirty, ps.newDirty, b)
    && LowestSettled(inp, ps.priorities, dirty - ps.toCheck, b)
    && Records(before, ps.priorities, ps.outAll)
    && ps.outLocal == ps.outAll * local
    && (forall x :: x in ps.outAll ==> x.Root?)
    && ps.toCheck + ps.newDirty <= dirty + Nodes(inp.rootToRoot)
  }

  lemma CheckCoversAll(inp: Inputs, local: set<ComputationId>, ps: Pass, id: ComputationId, p: Priority, all: bool)
    requires Computes(inp, ps.priorities, id, p) && id in ps.toCheck
    requires GoodInputs(inp) && NormalRoots(ps.priorities) && id.Root?
    requires Covers(inp, ps.priorities, ps.toCheck, ps.newDirty, all)
    ensures var ps1 := Check(inp.rootToRoot, local, ps, id, p);
            Covers(inp, ps1.priorities, ps1.toCheck, ps1.newDirty, all)
  {
    var ps1 := Check(inp.rootToRoot, local, ps, id, p);
    assert ps.toCheck - {id} + {id} == ps.toCheck;
    ComputedIsUnique(inp, ps.priorities, id, p, p);
    DiffersIsInequality(p, Stored(ps.priorities, id));
    if Differs(p, Stored(ps.priorities, id)) {
      ChangeCovers(inp, ps.priorities, id, p, ps.toCheck - {id}, ps.newDirty, ps1.toCheck, ps1.newDirty, all);
    } else {
      CheckCovers(inp, ps.priorities, id, ps.toCheck - {id}, ps.newDirty, all);
    }
  }

  lemma CheckStaysAbove(inp: Inputs, local: set<ComputationId>, before: map<ComputationId, Priority>,
                        dirty: set<ComputationId>, ps: Pass, b: nat, id: ComputationId, p: Priority)
    requires GoodInputs(inp) && Acyclic(inp.rootToRoot)
    requires InPass(inp, local, before, dirty, ps, b) && id in ps.toCheck
    ensures var ps1 := Check(inp.rootToRoot, local, ps, id, p);
            && Above(inp, dirty, ps1.toCheck, b) && Above(inp, dirty, ps1.newDirty, b)
            && ps1.toCheck + ps1.newDirty <= dirty + Nodes(inp.rootToRoot)
  {
    ChildrenAre(inp.rootToRoot, id);
    forall x | x in Children(inp.rootToRoot, id)
      ensures x.Root? && b < Height(inp.rootToRoot, x) && x in Nodes(inp.rootToRoot)
    {
      HeightGrows(inp.rootToRoot, id, x);
      assert (id, x).1 == x;
    }
  }

  lemma CheckKeepsLowest(inp: Inputs, local: set<ComputationId>, before: map<ComputationId, Priority>,
                         dirty: set<ComputationId>, ps: Pass, b: nat, id: ComputationId, p: Priority)
    requires GoodInputs(inp) && Acyclic(inp.rootToRoot) && Computes(inp, ps.priorities, id, p)
    requires InPass(inp, local, before, dirty, ps, b) && id in ps.toCheck
    ensures var ps1 := Check(inp.rootToRoot, local, ps, id, p);
            LowestSettled(inp, ps1.priorities, dirty - ps1.toCheck, b)
    ensures LowestSettled(inp, ps.priorities, dirty, b) && NoneAt(inp, ps.newDirty, b) ==>
              var ps1 := Check(inp.rootToRoot, local, ps, id, p);
              LowestSettled(inp, ps1.priorities, dirty, b) && NoneAt(inp, ps1.newDirty, b)
  {
    var ps1 := Check(inp.rootToRoot, local, ps, id, p);
    ComputedIsUnique(inp, ps.priorities, id, p, p);
    DiffersIsInequality(p, Stored(ps.priorities, id));
    assert ps1.priorities == ps.priorities[id := p];
    forall x | x in dirty && Height(inp.rootToRoot, x) == b && (x == id || Settled(inp, ps.priorities, x))
      ensures Settled(inp, ps1.priorities, x)
    {
      LowestStaysSettled(inp, ps.priorities, id, p, x);
    }
    if LowestSettled(inp, ps.priorities, dirty, b) && NoneAt(inp, ps.newDirty, b) {
      if Height(inp.rootToRoot, id) == b {
        ComputedIsUnique(inp, ps.priorities, id, p, Stored(ps.priorities, id));
      }
      ChildrenAre(inp.rootToRoot, id);
      forall x | x in Children(inp.rootToRoot, id)
        ensures b < Height(inp.rootToRoot, x)
      {
        HeightGrows(inp.rootToRoot, id, x);
      }
    }
  }

  lemma CheckRecords(inp: Inputs, local: set<ComputationId>, before: map<ComputationId, Priority>, ps: Pass,
                     id: ComputationId, p: Priority)
    requires GoodInputs(inp) && NormalRoots(ps.priorities) && Computes(inp, ps.priorities, id, p) && id.Root?
    requires Records(before, ps.priorities, ps.outAll) && ps.outLocal == ps.outAll * local
    requires forall x :: x in ps.outAll ==> x.Root?
    ensures var ps1 := Check(inp.rootToRoot, local, ps, id, p);
            && NormalRoots(ps1.priorities)
            && Records(before, ps1.priorities, ps1.outAll) && ps1.outLocal == ps1.outAll * local
            && forall x :: x in ps1.outAll ==> x.Root?
  {
    ComputedIsUnique(inp, ps.priorities, id, p, p);
  }

  lemma CheckKeeps(inp: Inputs, local: set<ComputationId>, before: map<ComputationId, Priority>,
                   dirty: set<ComputationId>, ps: Pass, b: nat, id: ComputationId, p: Priority)
    requires GoodInputs(inp) && Acyclic(inp.rootToRoot) && Computes(inp, ps.priorities, id, p)
    requires InPass(inp, local, before, dirty, ps, b) && id in ps.toCheck
    ensures InPass(inp, local, before, dirty, Check(inp.rootToRoot, local, ps, id, p), b)
  {
    CheckStaysAbove(inp, local, before, dirty, ps, b, id, p);
    CheckKeepsLowest(inp, local, before, dirty, ps, b, id, p);
    CheckRecords(inp, local, before, ps, id, p);
  }

  // All that the inner loop keeps: `strong` when roots that are not stored count too, `done` when the lowest dirty
  // roots were settled before the pass.
  ghost predicate Checking(inp: Inputs, local: set<ComputationId>, before: map<ComputationId, Priority>,
                           dirty: set<ComputationId>, ps: Pass, b: nat, strong: bool, done: bool) {
    && InPass(inp, local, before, dirty, ps, b)
    && Covers(inp, ps.priorities, ps.toCheck, ps.newDirty, false)
    && (strong ==> Covers(inp, ps.priorities, ps.toCheck, ps.newDirty, true))
    && (done ==> LowestSettled(inp, ps.priorities, dirty, b) && NoneAt(inp, ps.newDirty, b))
  }

  lemma CheckStep(inp: Inputs, local: set<ComputationId>, before: map<ComputationId, Priority>,
                  dirty: set<ComputationId>, ps: Pass, b: nat, strong: bool, done: bool, id: ComputationId, p: Priority)
    requires GoodInputs(inp) && Acyclic(inp.rootToRoot) && Computes(inp, ps.priorities, id, p)
    requires Checking(inp, local, before, dirty, ps, b, strong, done) && id in ps.toCheck
    ensures Checking(inp, local, before, dirty, Check(inp.rootToRoot, local, ps, id, p), b, strong, done)
  {
    CheckCoversAll(inp, local, ps, id, p, false);
    if strong {
      CheckCoversAll(inp, local, ps, id, p, true);
    }
    CheckKeeps(inp, local, before, dirty, ps, b, id, p);
    CheckKeepsLowest(inp, local, before, dirty, ps, b, id, p);
  }

  lemma AllChecked(inp: Inputs, local: set<ComputationId>, before: map<ComputationId, Priority>,
                   dirty: set<ComputationId>, ps: Pass, b: nat, strong: bool, done: bool)
    requires Checking(inp, local, before, dirty, ps, b, strong, done) && ps.toCheck == {}
    ensures RootsWait(inp, ps.priorities, ps.newDirty, false) && LowestSettled(inp, ps.priorities, dirty, b)
    ensures strong ==> RootsWait(inp, ps.priorities, ps.newDirty, true)
    ensures done ==> NoneAt(inp, ps.newDirty, b)
  {
    assert ps.toCheck + ps.newDirty == ps.newDirty;
    assert dirty - ps.toCheck == dirty;
  }

  // A round removes a root from the ones to check, or leaves more roots for the next pass.
  lemma CheckProgresses(r: Relation, local: set<ComputationId>, ps: Pass, id: ComputationId, p: Priority,
                        all: set<ComputationId>)
    requires id in ps.toCheck && ps.toCheck + ps.newDirty <= all
    requires var ps1 := Check(r, local, ps, id, p); ps1.newDirty <= all
    ensures var ps1 := Check(r, local, ps, id, p);
            all - ps1.newDirty < all - ps.newDirty || (ps1.newDirty == ps.newDirty && ps1.toCheck < ps.toCheck)
  {
    var ps1 := Check(r, local, ps, id, p);
    if ps1.newDirty != ps.newDirty {
      var x :| x in ps1.newDirty && x !in ps.newDirty;
      assert x in all - ps.newDirty && x !in all - ps1.newDirty;
    } else {
      assert id !in ps1.toCheck;
    }
  }

  // ----- Between passes -----

  // `b` is the least height of a dirty root.
  ghost predicate Lowest(inp: Inputs, dirty: set<ComputationId>, b: nat) {
    && (exists x :: x in dirty && Height(inp.rootToRoot, x) == b)
    && forall x :: x in dirty ==> b <= Height(inp.rootToRoot, x)
  }

  lemma {:induction false} LowestExists(inp: Inputs, dirty: set<ComputationId>) returns (b: nat)
    requires dirty != {}
    ensures Lowest(inp, dirty, b) && b <= |Nodes(inp.rootToRoot)|
    decreases |dirty|
  {
    var x :| x in dirty;
    HeightBounded(inp.rootToRoot, x);
    b := Height(inp.rootToRoot, x);
    if dirty - {x} != {} {
      var b1 := LowestExists(inp, dirty - {x});
      var y :| y in dirty - {x} && Height(inp.rootToRoot, y) == b1;
      assert y in dirty;
      if b1 < b {
        b := b1;
      }
    }
    assert forall y :: y in dirty && y != x ==> y in dirty - {x};
  }

  // How far the propagation still has to go: the height it works at, and whether that height is settled.
  ghost function Distance(inp: Inputs, priorities: map<ComputationId, Priority>, dirty: set<ComputationId>, b: nat): int {
    if dirty == {} then -1
    else 2 * (|Nodes(inp.rootToRoot)| - b) + (if LowestSettled(inp, priorities, dirty, b) then 0 else 1)
  }

  // What a pass from the dirty set `dirty` at height `b` to `newDirty` at height `b1` has achieved.
  ghost predicate Advanced(inp: Inputs, p0: map<ComputationId, Priority>, p1: map<ComputationId, Priority>,
                           dirty: set<ComputationId>, newDirty: set<ComputationId>, b: nat, b1: nat) {
    && (newDirty != {} ==> Lowest(inp, newDirty, b1) && b1 <= |Nodes(inp.rootToRoot)|)
    && (newDirty == {} || Distance(inp, p1, newDirty, b1) < Distance(inp, p0, dirty, b))
    && (newDirty == dirty ==> !LowestSettled(inp, p0, dirty, b) && LowestSettled(inp, p1, newDirty, b1))
  }

  // After a pass the lowest height has grown, or it is the same and settled now but was not before.
  lemma PassAdvances(inp: Inputs, p0: map<ComputationId, Priority>, p1: map<ComputationId, Priority>,
                     dirty: set<ComputationId>, newDirty: set<ComputationId>, b: nat) returns (b1: nat)
    requires dirty != {} && Lowest(inp, dirty, b)
    requires Above(inp, dirty, newDirty, b) && LowestSettled(inp, p1, dirty, b)
    requires LowestSettled(inp, p0, dirty, b) ==> NoneAt(inp, newDirty, b)
    ensures Advanced(inp, p0, p1, dirty, newDirty, b, b1)
  {
    b1 := 0;
    if newDirty != {} {
      b1 := LowestExists(inp, newDirty);
      var x :| x in newDirty && Height(inp.rootToRoot, x) == b1;
      if b1 == b {
        assert LowestSettled(inp, p1, newDirty, b1);
      } else {
        var y :| y in dirty && Height(inp.rootToRoot, y) == b;
      }
    }
  }

  lemma RecordsGrow(p0: map<ComputationId, Priority>, p1: map<ComputationId, Priority>, p2: map<ComputationId, Priority>,
                    x: ComputationId, out: set<ComputationId>)
    requires Records(p0, p1, out) && p2 == p1[x := Stored(p2, x)]
    ensures Records(p0, p2, out + {x})
    ensures Stored(p2, x) == Stored(p1, x) ==> Records(p0, p2, out)
  {
  }

  // ----- The splits -----

  // Every registered split is settled, is waiting, or belongs to a root whose change has been recorded.
  ghost predicate SplitsCovered(rootToSplit: Relation, priorities: map<ComputationId, Priority>,
                                waiting: set<ComputationId>, changedRoots: set<ComputationId>) {
    forall a, x: ComputationId :: (a, x) in rootToSplit && x.Split? ==>
      x in waiting || RootOf(x) in changedRoots || SplitSettled(priorities, x)
  }

  // Changing the priorities of roots only can unsettle only splits of the roots recorded as changed.
  lemma RootChangesCovered(rootToSplit: Relation, p0: map<ComputationId, Priority>, p1: map<ComputationId, Priority>,
                           waiting: set<ComputationId>, changedRoots: set<ComputationId>)
    requires SplitsCovered(rootToSplit, p0, waiting, {}) && Records(p0, p1, changedRoots)
    requires forall x :: x in changedRoots ==> x.Root?
    ensures SplitsCovered(rootToSplit, p1, waiting, changedRoots)
  {
    forall a, x: ComputationId | (a, x) in rootToSplit && x.Split? && x !in waiting && RootOf(x) !in changedRoots
      ensures SplitSettled(p1, x)
    {
      assert SplitSettled(p0, x);
      assert Stored(p1, x) == Stored(p0, x);
      assert Stored(p1, RootOf(x)) == Stored(p0, RootOf(x));
    }
  }

  // Storing the priority of the split `x` touches no other id, and no root's candidates.
  lemma StoreSplit(inp: Inputs, rootToSplit: Relation, p0: map<ComputationId, Priority>, x: ComputationId, p: Priority,
                   waiting: set<ComputationId>, pending: set<ComputationId>)
    requires GoodInputs(inp) && x.Split? && NormalRoots(p0) && Normal(p)
    ensures NormalRoots(p0[x := p])
    ensures forall all :: RootsWait(inp, p0, pending, all) ==> RootsWait(inp, p0[x := p], pending, all)
    ensures SplitsCovered(rootToSplit, p0, waiting, {}) && p == ForSplit(Stored(p0, RootOf(x)), x.treeDepth) ==>
              SplitsCovered(rootToSplit, p0[x := p], waiting - {x}, {})
  {
    var p1 := p0[x := p];
    forall all | RootsWait(inp, p0, pending, all)
      ensures RootsWait(inp, p1, pending, all)
    {
      forall y: ComputationId | y.Root? && (all || y in p1) && y !in pending
        ensures Settled(inp, p1, y)
      {
        SettledFrame(inp, p0, p1, y);
      }
    }
    if SplitsCovered(rootToSplit, p0, waiting, {}) && p == ForSplit(Stored(p0, RootOf(x)), x.treeDepth) {
      forall a, y: ComputationId | (a, y) in rootToSplit && y.Split? && y !in waiting - {x}
        ensures SplitSettled(p1, y)
      {
        assert Stored(p1, RootOf(y)) == Stored(p0, RootOf(y));
        if y != x {
          assert SplitSettled(p0, y);
        }
      }
    }
  }

  // ----- How far changes spread -----

  ghost predicate ReachedFrom(r: Relation, origin: set<ComputationId>, x: ComputationId) {
    exists d :: d in origin && Reach(Edge(r), d, x)
  }

  ghost predicate Spread(r: Relation, origin: set<ComputationId>, xs: set<ComputationId>) {
    forall x {:trigger ReachedFrom(r, origin, x)} :: x in xs ==> ReachedFrom(r, origin, x)
  }

  ghost predicate PassSpread(r: Relation, origin: set<ComputationId>, ps: Pass) {
    Spread(r, origin, ps.toCheck) && Spread(r, origin, ps.newDirty) && Spread(r, origin, ps.outAll)
  }

  lemma OriginIsReached(r: Relation, origin: set<ComputationId>)
    ensures Spread(r, origin, origin)
  {
    forall x | x in origin
      ensures ReachedFrom(r, origin, x)
    {
      ReachSelf(Edge(r), x);
    }
  }

  // Checking a root touches nothing that the originally dirty roots do not lead to.
  lemma CheckSpreads(r: Relation, local: set<ComputationId>, origin: set<ComputationId>, ps: Pass, id: ComputationId,
                     p: Priority)
    requires PassSpread(r, origin, ps) && id in ps.toCheck
    ensures PassSpread(r, origin, Check(r, local, ps, id, p))
  {
    assert ReachedFrom(r, origin, id);
    var d :| d in origin && Reach(Edge(r), d, id);
    forall x | x in Children(r, id)
      ensures ReachedFrom(r, origin, x)
    {
      ChildrenAre(r, id);
      ReachEdge(Edge(r), id, x);
      ReachTransitive(Edge(r), d, id, x);
    }
  }

  // ----- The loops of `update` -----

  // What the outer loop keeps about the priorities and the recorded changes.
  ghost predicate Propagated(inp: Inputs, local: set<ComputationId>, before: map<ComputationId, Priority>,
                             priorities: map<ComputationId, Priority>, dirty: set<ComputationId>, strong: bool,
                             outLocal: set<ComputationId>, outAll: set<ComputationId>) {
    && NormalRoots(priorities) && (forall x :: x in dirty ==> x.Root?)
    && RootsWait(inp, priorities, dirty, false)
    && (strong ==> RootsWait(inp, priorities, dirty, true))
    && Records(before, priorities, outAll) && outLocal == outAll * local
    && forall x :: x in outAll ==> x.Root?
  }

  lemma PassStarts(inp: Inputs, local: set<ComputationId>, before: map<ComputationId, Priority>,
                   priorities: map<ComputationId, Priority>, dirty: set<ComputationId>, strong: bool,
                   outLocal: set<ComputationId>, outAll: set<ComputationId>, b: nat)
    requires Propagated(inp, local, before, priorities, dirty, strong, outLocal, outAll) && Lowest(inp, dirty, b)
    ensures InPass(inp, local, before, dirty, Pass(priorities, dirty, {}, outLocal, outAll), b)
  {
  }

  lemma PassEnds(inp: Inputs, local: set<ComputationId>, before: map<ComputationId, Priority>,
                 dirty: set<ComputationId>, ps: Pass, b: nat, strong: bool)
    requires InPass(inp, local, before, dirty, ps, b) && RootsWait(inp, ps.priorities, ps.newDirty, false)
    requires strong ==> RootsWait(inp, ps.priorities, ps.newDirty, true)
    ensures Propagated(inp, local, before, ps.priorities, ps.newDirty, strong, ps.outLocal, ps.outAll)
  {
  }

  // What the loop over the waiting splits keeps.
  ghost predicate SplitsPropagated(inp: Inputs, rootToSplit: Relation, local: set<ComputationId>,
                                   before: map<ComputationId, Priority>, priorities: map<ComputationId, Priority>,
                                   strong: bool, waiting: set<ComputationId>,
                                   outLocal: set<ComputationId>, outAll: set<ComputationId>) {
    && GoodInputs(inp) && NormalRoots(priorities)
    && (forall x :: x in waiting ==> x.Split?)
    && RootsWait(inp, priorities, {}, false)
    && (strong ==> RootsWait(inp, priorities, {}, true) && SplitsCovered(rootToSplit, priorities, waiting, {}))
    && Records(before, priorities, outAll) && outLocal == outAll * local
  }

  lemma SplitStep(inp: Inputs, rootToSplit: Relation, local: set<ComputationId>, before: map<ComputationId, Priority>,
                  p0: map<ComputationId, Priority>, strong: bool, waiting: set<ComputationId>,
                  outLocal: set<ComputationId>, outAll: set<ComputationId>, split: ComputationId, root: Priority)
    requires SplitsPropagated(inp, rootToSplit, local, before, p0, strong, waiting, outLocal, outAll)
    requires split in waiting && Computes(inp, p0, RootOf(split), root)
    ensures var newPri := ForSplit(root, split.treeDepth);
            var changed := Differs(Stored(p0, split), newPri);
            SplitsPropagated(inp, rootToSplit, local, before, p0[split := newPri], strong, waiting - {split},
                             if changed && split in local then outLocal + {split} else outLocal,
                             if changed then outAll + {split} else outAll)
  {
    var newPri := ForSplit(root, split.treeDepth);
    ComputedIsUnique(inp, p0, RootOf(split), root, root);
    if strong {
      ComputedIsUnique(inp, p0, RootOf(split), root, Stored(p0, RootOf(split)));
    }
    StoreSplit(inp, rootToSplit, p0, split, newPri, waiting, {});
    DiffersIsInequality(Stored(p0, split), newPri);
    RecordsGrow(before, p0, p0[split := newPri], split, outAll);
  }

  // The splits recorded are exactly those whose stored priority differs from before; the waiting ones are untouched.
  ghost predicate SplitsRecorded(before: map<ComputationId, Priority>, priorities: map<ComputationId, Priority>,
                                 waiting: set<ComputationId>, outAll: set<ComputationId>) {
    forall x: ComputationId :: x.Split? ==>
      && (x in outAll <==> Stored(priorities, x) != Stored(before, x))
      && (x in waiting ==> Stored(priorities, x) == Stored(before, x))
  }

  lemma OnlyRootsRecorded(before: map<ComputationId, Priority>, priorities: map<ComputationId, Priority>,
                          waiting: set<ComputationId>, outAll: set<ComputationId>)
    requires Records(before, priorities, outAll) && forall x :: x in outAll ==> x.Root?
    ensures SplitsRecorded(before, priorities, waiting, outAll)
  {
  }

  lemma SplitStepRecorded(inp: Inputs, before: map<ComputationId, Priority>, p0: map<ComputationId, Priority>,
                          waiting: set<ComputationId>, outAll: set<ComputationId>, split: ComputationId, root: Priority)
    requires SplitsRecorded(before, p0, waiting, outAll) && split in waiting && split.Split?
    requires GoodInputs(inp) && NormalRoots(p0) && Computes(inp, p0, RootOf(split), root)
    ensures var newPri := ForSplit(root, split.treeDepth);
            SplitsRecorded(before, p0[split := newPri], waiting - {split},
                           if Differs(Stored(p0, split), newPri) then outAll + {split} else outAll)
  {
    var newPri := ForSplit(root, split.treeDepth);
    ComputedIsUnique(inp, p0, RootOf(split), root, root);
    DiffersIsInequality(Stored(p0, split), newPri);
    forall x: ComputationId | x.Split? && x != split
      ensures Stored(p0[split := newPri], x) == Stored(p0, x)
    {
    }
  }

  // The split `x` is stored with the priority that is computed for it.
  ghost predicate SplitComputed(inp: Inputs, priorities: map<ComputationId, Priority>, x: ComputationId)
    requires x.Split?
  {
    x in priorities &&
    exists p :: Computes(inp, priorities, RootOf(x), p) && priorities[x] == ForSplit(p, x.treeDepth)
  }

  ghost predicate SplitsComputed(inp: Inputs, priorities: map<ComputationId, Priority>, done: set<ComputationId>) {
    forall x: ComputationId :: x in done && x.Split? ==> SplitComputed(inp, priorities, x)
  }

  lemma StoreSplitComputed(inp: Inputs, p0: map<ComputationId, Priority>, done: set<ComputationId>,
                           split: ComputationId, root: Priority)
    requires GoodInputs(inp) && split.Split? && SplitsComputed(inp, p0, done)
    requires Computes(inp, p0, RootOf(split), root)
    ensures SplitsComputed(inp, p0[split := ForSplit(root, split.treeDepth)], done + {split})
  {
    var p1 := p0[split := ForSplit(root, split.treeDepth)];
    forall x: ComputationId | x in done + {split} && x.Split?
      ensures SplitComputed(inp, p1, x)
    {
      CandidatesFrame(inp, p0, p1, RootOf(x));
      if x != split {
        assert SplitComputed(inp, p0, x);
        var p :| Computes(inp, p0, RootOf(x), p) && p0[x] == ForSplit(p, x.treeDepth);
        assert Computes(inp, p1, RootOf(x), p);
      } else {
        assert Computes(inp, p1, RootOf(x), root);
      }
    }
  }
}
