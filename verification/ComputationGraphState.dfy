/** The fields of ComputationDependencyGraph and what they mean for each other. */
module ComputationGraphState {
  import opened Collections
  import opened ComputationPriorities
  import opened Reachability

  type Hash(==, !new)
  type ClientId(==, !new)

  datatype ComputationId = Root(hash: Hash) | Split(root: Hash, guid: Hash, treeDepth: int)

  function RootOf(id: ComputationId): ComputationId {
    if id.Root? then id else Root(id.root)
  }

  // The two-way set maps are finite relations: pairs (key, value).
  type Relation = set<(ComputationId, ComputationId)>

  datatype State = State(
    dependencies: Relation,
    dirtyPriorities: set<ComputationId>,
    dirtySplitPriorities: set<ComputationId>,
    orphanedLocalSplits: set<ComputationId>,
    orphanedSplits: set<ComputationId>,
    clientPriorities: map<(ClientId, ComputationId), Priority>,
    clientRoots: set<(ClientId, ComputationId)>,
    allPriorities: map<ComputationId, Priority>,
    rootToRoot: Relation,
    rootToSplit: Relation,
    local: set<ComputationId>)

  function Stored(priorities: map<ComputationId, Priority>, id: ComputationId): Priority {
    if id in priorities then priorities[id] else NULL_PRIORITY
  }

  ghost function Edge(r: Relation): (ComputationId, ComputationId) -> bool {
    (a, b) => (a, b) in r
  }

  // ----- The priority a root should have -----

  // What `computePriorityFor` reads besides the stored priorities.
  datatype Inputs = Inputs(
    clientRoots: set<(ClientId, ComputationId)>,
    clientPriorities: map<(ClientId, ComputationId), Priority>,
    rootToRoot: Relation)

  ghost function InputsOf(s: State): Inputs {
    Inputs(s.clientRoots, s.clientPriorities, s.rootToRoot)
  }

  ghost predicate FromClient(inp: Inputs, id: ComputationId, p: Priority) {
    exists c :: (c, id) in inp.clientRoots && (c, id) in inp.clientPriorities &&
                p == ForDependent(inp.clientPriorities[(c, id)])
  }

  ghost predicate FromParent(inp: Inputs, priorities: map<ComputationId, Priority>, id: ComputationId, p: Priority) {
    exists q :: (q, id) in inp.rootToRoot && p == ForDependent(Stored(priorities, q))
  }

  ghost function ClientCandidates(inp: Inputs, id: ComputationId): iset<Priority> {
    iset p | FromClient(inp, id, p)
  }

  // A root's candidates: the dependent-adjusted priorities of its clients and of its parents.
  ghost function Candidates(inp: Inputs, priorities: map<ComputationId, Priority>, id: ComputationId): iset<Priority> {
    iset p | FromClient(inp, id, p) || FromParent(inp, priorities, id, p)
  }

  // `p` is what `computePriorityFor` yields for the root `id`.
  ghost predicate Computes(inp: Inputs, priorities: map<ComputationId, Priority>, id: ComputationId, p: Priority) {
    IsGreatest(Candidates(inp, priorities, id), p)
  }

  ghost predicate Settled(inp: Inputs, priorities: map<ComputationId, Priority>, id: ComputationId) {
    Computes(inp, priorities, id, Stored(priorities, id))
  }

  // ----- Well-formed states -----

  ghost predicate Typed(s: State) {
    && (forall x :: x in s.dirtyPriorities ==> x.Root?)
    && (forall x :: x in s.dirtySplitPriorities ==> x.Split?)
    && (forall c, x :: (c, x) in s.clientRoots ==> x.Root? && (c, x) in s.clientPriorities)
    && (forall a, b :: (a, b) in s.rootToRoot ==> a.Root? && b.Root?)
    && (forall a, b :: (a, b) in s.rootToSplit ==> b.Split? && a == RootOf(b))
  }

  ghost predicate NormalRoots(priorities: map<ComputationId, Priority>) {
    forall x :: x in priorities ==> Normal(priorities[x]) && (x.Root? ==> RootPriority(priorities[x]))
  }

  // What a root takes over from a client has no split depth; only a circular priority keeps its own.
  predicate FitsRoot(p: Priority) {
    IsCircular(p) ==> p.splitDepth == 0
  }

  ghost predicate NormalClients(clientPriorities: map<(ClientId, ComputationId), Priority>) {
    forall k :: k in clientPriorities ==> !IsNull(clientPriorities[k]) && FitsRoot(clientPriorities[k])
  }

  // Orphaned splits are splits nothing depends on, and the local orphans are those that are local.
  ghost predicate Orphans(s: State) {
    && s.orphanedLocalSplits == s.orphanedSplits * s.local
    && forall x :: x in s.orphanedSplits ==> x.Split? && forall k :: (k, x) !in s.dependencies
  }

  ghost predicate SplitSettled(priorities: map<ComputationId, Priority>, x: ComputationId)
    requires x.Split?
  {
    Stored(priorities, x) == ForSplit(Stored(priorities, RootOf(x)), x.treeDepth)
  }

  // A split registered under its root has the root's split-adjusted priority or is waiting for it.
  ghost predicate SplitsWait(s: State)
    requires Typed(s)
  {
    forall a, x :: (a, x) in s.rootToSplit ==> x in s.dirtySplitPriorities || SplitSettled(s.allPriorities, x)
  }

  // Every stored root (every root at all, if `all`) outside `pending` has the priority it should have.
  ghost predicate RootsWait(inp: Inputs, priorities: map<ComputationId, Priority>, pending: set<ComputationId>, all: bool) {
    forall x: ComputationId :: x.Root? && (all || x in priorities) && x !in pending ==> Settled(inp, priorities, x)
  }

  ghost predicate Valid(s: State) {
    && Typed(s)
    && NormalRoots(s.allPriorities)
    && NormalClients(s.clientPriorities)
    && Orphans(s)
    && RootsWait(InputsOf(s), s.allPriorities, s.dirtyPriorities, false)
  }

  // Holds besides in runs where a root is dropped only once no client prioritises it.
  ghost predicate Complete(s: State)
    requires Typed(s)
  {
    RootsWait(InputsOf(s), s.allPriorities, s.dirtyPriorities, true) && SplitsWait(s)
  }

  // ----- Acyclic dependencies -----

  ghost predicate Acyclic(r: Relation) {
    forall a, b :: (a, b) in r ==> !Reach(Edge(r), b, a)
  }

  ghost function Nodes(r: Relation): set<ComputationId> {
    (set e | e in r :: e.0) + (set e | e in r :: e.1)
  }

  ghost function Ancestors(r: Relation, x: ComputationId): set<ComputationId> {
    set y | y in Nodes(r) && Reach(Edge(r), y, x)
  }

  // The number of nodes from which `x` can be reached; it grows along every edge of an acyclic relation.
  ghost function Height(r: Relation, x: ComputationId): nat {
    |Ancestors(r, x)|
  }

  lemma HeightGrows(r: Relation, a: ComputationId, b: ComputationId)
    requires Acyclic(r) && (a, b) in r
    ensures Height(r, a) < Height(r, b)
  {
    var e := Edge(r);
    assert (a, b).1 == b && b in Nodes(r);
    ReachSelf(e, b);
    ReachEdge(e, a, b);
    forall y | y in Ancestors(r, a)
      ensures y in Ancestors(r, b) - {b}
    {
      ReachTransitive(e, y, a, b);
    }
    ProperSubsetSize(Ancestors(r, a), Ancestors(r, b), b);
  }

  lemma HeightBounded(r: Relation, x: ComputationId)
    ensures Height(r, x) <= |Nodes(r)|
  {
    assert Nodes(r) == Ancestors(r, x) + (Nodes(r) - Ancestors(r, x));
  }
}
