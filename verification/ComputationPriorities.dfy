/** The priority of a computation, as in ComputationPriority.hppml, and the choice among candidates. */
module ComputationPriorities {
  import opened Collections

  const DEPTH_LIMIT: nat := 0x1_0000_0000_0000_0000
  const CIRCULAR_DEPTH: nat := DEPTH_LIMIT - 1

  type Depth = n: nat | n < DEPTH_LIMIT

  // The fields are 64-bit; only the tree depth is ever incremented.
  datatype Priority = Priority(source: nat, level: Option<nat>, treeDepth: Depth, splitDepth: int)

  const NULL_PRIORITY := Priority(0, None, 0, 0)

  predicate IsCircular(p: Priority) {
    p.treeDepth == CIRCULAR_DEPTH
  }

  function ForDependent(p: Priority): Priority {
    if IsCircular(p) then p
    else if p.level.Some? then Priority(p.source, p.level, (p.treeDepth + 1) % DEPTH_LIMIT, 0)
    else p
  }

  function ForSplit(p: Priority, depth: int): Priority {
    if IsCircular(p) then p
    else if p.level.Some? then Priority(p.source, p.level, p.treeDepth, depth)
    else p
  }

  predicate IsNull(p: Priority) {
    p.level.None?
  }

  // operator<
  predicate Less(a: Priority, b: Priority) {
    if a.source != b.source then a.source < b.source
    else if a.level.None? then b.level.Some?
    else if b.level.None? then false
    else if a.level.value != b.level.value then a.level.value < b.level.value
    else if a.treeDepth != b.treeDepth then a.treeDepth > b.treeDepth
    else a.splitDepth > b.splitDepth
  }

  predicate IsShallower(a: Priority, b: Priority) {
    if a.source != b.source then a.source < b.source
    else if a.level.None? then b.level.Some?
    else if b.level.None? then false
    else if a.level.value != b.level.value then a.level.value < b.level.value
    else a.treeDepth < b.treeDepth
  }

  // operator!=
  predicate Differs(a: Priority, b: Priority) {
    Less(a, b) || Less(b, a)
  }

  // The null priority is represented in one way only.
  predicate Normal(p: Priority) {
    IsNull(p) ==> p == NULL_PRIORITY
  }

  predicate RootPriority(p: Priority) {
    Normal(p) && p.splitDepth == 0
  }

  // On normal priorities the comparison-based `!=` is plain inequality.
  lemma DiffersIsInequality(a: Priority, b: Priority)
    requires Normal(a) && Normal(b)
    ensures Differs(a, b) <==> a != b
  {
  }

  // `p` is a candidate, or null when there is none, that no candidate beats.
  ghost predicate IsGreatest(candidates: iset<Priority>, p: Priority) {
    && (p == NULL_PRIORITY || p in candidates)
    && forall c :: c in candidates ==> !IsShallower(p, c)
  }

  lemma GreatestIsUnique(candidates: iset<Priority>, p: Priority, q: Priority)
    requires forall c :: c in candidates ==> RootPriority(c)
    requires IsGreatest(candidates, p) && IsGreatest(candidates, q)
    ensures p == q
  {
  }
}
