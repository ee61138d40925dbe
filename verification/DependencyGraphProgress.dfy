/** Why draining the dirty queue ends, and what a drained graph has computed. */
module DependencyGraphProgress {
  import opened Collections
  import opened DependencyGraphState
  import opened DependencyGraphInvariant
  import opened DependencyGraphCleaning

  // ----- A number that falls when a dirty property is exchanged for dirty properties of higher rank -----

  ghost function Pow(b: nat, e: nat): nat {
    if e == 0 then 1 else b * Pow(b, e - 1)
  }

  ghost function AtRank(d: set<Id>, rank: map<Id, nat>, r: nat): set<Id> {
    set n | n in d && n in rank && rank[n] == r
  }

  // The dirty properties counted per rank, read as a number in base `b`; rank `r` is the leading digit.
  ghost function Weight(d: set<Id>, rank: map<Id, nat>, b: nat, r: nat, top: nat): nat
    decreases top - r
  {
    if r >= top then 0 else |AtRank(d, rank, r)| * Pow(b, top - 1 - r) + Weight(d, rank, b, r + 1, top)
  }

  lemma {:induction false} DigitStep(digit: nat, bound: nat, p: nat)
    requires digit < bound
    ensures digit * p + p <= bound * p
    decreases bound
  {
    assert bound * p == (bound - 1) * p + p;
    if digit + 1 < bound {
      DigitStep(digit, bound - 1, p);
    }
  }

  lemma {:induction false} WeightBelowPow(d: set<Id>, rank: map<Id, nat>, b: nat, r: nat, top: nat)
    requires |d| < b && r <= top
    ensures Weight(d, rank, b, r, top) < Pow(b, top - r)
    decreases top - r
  {
    if r < top {
      WeightBelowPow(d, rank, b, r + 1, top);
      SubsetSize(AtRank(d, rank, r), d);
      DigitStep(|AtRank(d, rank, r)|, b, Pow(b, top - 1 - r));
    }
  }

  lemma {:induction false} WeightFalls(d: set<Id>, d1: set<Id>, rank: map<Id, nat>, b: nat, r: nat, top: nat, n: Id)
    requires n in d && n !in d1 && n in rank && r <= rank[n] < top && |d1| < b
    requires forall m :: m in d1 && m !in d ==> m in rank && rank[n] < rank[m]
    ensures Weight(d1, rank, b, r, top) < Weight(d, rank, b, r, top)
    decreases top - r
  {
    var a, a1, p := AtRank(d, rank, r), AtRank(d1, rank, r), Pow(b, top - 1 - r);
    if r < rank[n] {
      WeightFalls(d, d1, rank, b, r + 1, top, n);
      SubsetSize(a1, a);
      if |a1| < |a| {
        DigitStep(|a1|, |a|, p);
      }
    } else {
      assert a1 <= a - {n};
      SubsetSize(a1, a - {n});
      WeightBelowPow(d1, rank, b, r + 1, top);
      DigitStep(|a1|, |a|, p);
    }
  }

  lemma {:induction false} RankBound(rank: map<Id, nat>) returns (top: nat)
    ensures forall n :: n in rank ==> rank[n] < top
    decreases |rank|
  {
    top := 0;
    if rank != map[] {
      var n :| n in rank;
      assert (rank - {n}).Keys == rank.Keys - {n};
      top := RankBound(rank - {n});
      assert forall m :: m in rank && m != n ==> m in rank - {n} && (rank - {n})[m] == rank[m];
      if top <= rank[n] {
        top := rank[n] + 1;
      }
    }
  }

  // ----- The run of a recompute loop -----

  ghost function LowestOf(q: map<int, seq<Id>>): (l: int)
    requires q != map[]
    ensures LowestLevel(q, l)
  {
    assert exists l :: LowestLevel(q, l) by {
      assert q.Keys != {};
      var l := LeastExists(q.Keys);
      assert LowestLevel(q, l);
    }
    var l :| LowestLevel(q, l);
    l
  }

  // The state after `n` turns, each on the lowest level, and the number of queue entries they took.
  ghost function Turns(s: State, n: nat): (State, nat) {
    if n == 0 then (s, 0)
    else
      var (t, count) := Turns(s, n - 1);
      if t.queue == map[] then (t, count)
      else
        var l := LowestOf(t.queue);
        (Turn(t, l), if t.queue[l] != [] then count + 1 else count)
  }

  ghost predicate Ran(s: State, n: nat, t: State, count: nat) {
    Turns(s, n) == (t, count)
  }

  // All of the first `n` turns are on levels below the given one.
  ghost predicate StaysBelow(s: State, n: nat, level: int) {
    forall i {:trigger Turns(s, i)} :: 0 <= i < n ==>
      Turns(s, i).0.queue != map[] && LowestOf(Turns(s, i).0.queue) < level
  }

  lemma NextTurn(s: State, n: nat, t: State, count: nat, l: int)
    requires Ran(s, n, t, count) && LowestLevel(t.queue, l)
    ensures Ran(s, n + 1, Turn(t, l), if t.queue[l] != [] then count + 1 else count)
    ensures forall level :: l < level && StaysBelow(s, n, level) ==> StaysBelow(s, n + 1, level)
  {
    assert l in t.queue;
    assert t.queue != map[] && LowestOf(t.queue) == l;
  }

  // ----- One turn of the recompute loop -----

  ghost function Uninitialized(s: State): nat {
    |s.defs.Keys - s.initialized|
  }

  ghost function DirtyWeight(s: State, top: nat): nat {
    Weight(s.dirty, s.rank, |s.defs.Keys| + 1, 0, top)
  }

  // The queue's size: its entries, and its levels.
  ghost function Entries(q: map<int, seq<Id>>): nat {
    SumNotNegative(Sizes(q));
    Sum(Sizes(q))
  }

  ghost function Sizes(q: map<int, seq<Id>>): map<int, int> {
    map l | l in q :: |q[l]| + 1
  }

  lemma ShorterLevel(q: map<int, seq<Id>>, l: int, elements: seq<Id>)
    requires l in q && |elements| < |q[l]|
    ensures Entries(q[l := elements]) < Entries(q)
  {
    assert Sizes(q[l := elements]) == Sizes(q)[l := |elements| + 1];
    SumUpdated(Sizes(q), l, |elements| + 1);
  }

  lemma FewerLevels(q: map<int, seq<Id>>, l: int)
    requires l in q
    ensures Entries(q - {l}) < Entries(q)
  {
    assert Sizes(q - {l}) == Sizes(q) - {l};
    SumWithout(Sizes(q), l);
  }

  // What a turn of the loop keeps, and how it makes progress.
  ghost predicate Progress(s: State, s1: State, top: nat) {
    && s1.defs == s.defs && s1.rank == s.rank && s1.indexRank == s.indexRank
    && s1.mutables == s.mutables && s1.keyUpdaters == s.keyUpdaters && s.initialized <= s1.initialized
    && (Uninitialized(s1) < Uninitialized(s)
       || (Uninitialized(s1) == Uninitialized(s) && DirtyWeight(s1, top) < DirtyWeight(s, top))
       || (s1.initialized == s.initialized && s1.dirty == s.dirty && Entries(s1.queue) < Entries(s.queue)))
  }

  // Three measures, the first of which counts most.
  ghost predicate Fallen(a: nat, b: nat, c: nat, a1: nat, b1: nat, c1: nat) {
    a1 < a || (a1 == a && (b1 < b || (b1 == b && c1 < c)))
  }

  lemma ProgressFalls(s: State, s1: State, top: nat)
    requires Progress(s, s1, top)
    ensures Fallen(Uninitialized(s), DirtyWeight(s, top), Entries(s.queue),
                   Uninitialized(s1), DirtyWeight(s1, top), Entries(s1.queue))
  {
  }

  // Either a property was started, or the started ones are the same.
  lemma UninitializedFalls(s: State, t: State)
    requires t.defs == s.defs && s.initialized <= t.initialized <= s.defs.Keys
    ensures Uninitialized(t) < Uninitialized(s) || t.initialized == s.initialized
  {
    var before, after := s.defs.Keys - s.initialized, s.defs.Keys - t.initialized;
    SubsetSize(after, before);
    if |after| == |before| {
      SameSize(after, before);
      assert t.initialized == s.initialized;
    }
  }

  lemma DirtyWeightFalls(s: State, t: State, n: Id, top: nat)
    requires n in s.dirty && n in s.rank && forall m :: m in s.rank ==> s.rank[m] < top
    requires Disturbs(s, t, n) && t.initialized == s.initialized && t.dirty <= t.initialized <= t.defs.Keys
    ensures DirtyWeight(t.(dirty := t.dirty - {n}), top) < DirtyWeight(s, top)
  {
    SubsetSize(t.dirty - {n}, s.defs.Keys);
    WeightFalls(s.dirty, t.dirty - {n}, s.rank, |s.defs.Keys| + 1, 0, top, n);
  }

  lemma CleanProgresses(s: State, t: State, n: Id, top: nat)
    requires n in s.dirty && n in s.rank && forall m :: m in s.rank ==> s.rank[m] < top
    requires s.initialized <= s.defs.Keys && Disturbs(s, t, n) && t.dirty <= t.initialized <= t.defs.Keys
    ensures Progress(s, t.(dirty := t.dirty - {n}), top)
  {
    UninitializedFalls(s, t);
    if t.initialized == s.initialized {
      DirtyWeightFalls(s, t, n, top);
    }
  }

  lemma SameSize(a: set<Id>, b: set<Id>)
    requires a <= b && |a| == |b|
    ensures a == b
  {
    assert b == a + (b - a);
  }

  lemma TurnOnEmptyKeeps(s: State, l: int, top: nat)
    requires Inv(s, {}) && Indexed(s) && l in s.queue && s.queue[l] == []
    ensures Inv(Turn(s, l), {}) && Indexed(Turn(s, l)) && Progress(s, Turn(s, l), top)
  {
    EraseQueues(s.queue, s.dirty - {}, s.known - s.defs.Keys, l);
    QueueKeeps(s, s.queue - {l}, {}, {});
    FewerLevels(s.queue, l);
  }

  // The entry of an object that is gone is only taken off the queue.
  lemma TurnOnDeadKeeps(s: State, l: int, top: nat)
    requires Inv(s, {}) && Indexed(s) && l in s.queue && s.queue[l] != [] && s.queue[l][|s.queue[l]| - 1] !in s.defs
    ensures Inv(Turn(s, l), {}) && Indexed(Turn(s, l)) && Progress(s, Turn(s, l), top)
  {
    var n := s.queue[l][|s.queue[l]| - 1];
    PopQueues(s.queue, s.dirty - {}, s.known - s.defs.Keys, l);
    assert s.dirty - {} - {n} == s.dirty - {};
    QueueKeeps(s, Turn(s, l).queue, {}, {});
    ShorterLevel(s.queue, l, s.queue[l][..|s.queue[l]| - 1]);
  }

  lemma TurnOnElementKeeps(s: State, l: int, top: nat)
    requires Inv(s, {}) && Indexed(s) && l in s.queue && s.queue[l] != [] && s.queue[l][|s.queue[l]| - 1] in s.defs
    requires forall m :: m in s.rank ==> s.rank[m] < top
    ensures Inv(Turn(s, l), {}) && Indexed(Turn(s, l)) && Progress(s, Turn(s, l), top)
  {
    var n := s.queue[l][|s.queue[l]| - 1];
    var s0 := s.(queue := s.queue[l := s.queue[l][..|s.queue[l]| - 1]]);
    PopQueues(s.queue, s.dirty - {}, s.known - s.defs.Keys, l);
    assert s.dirty - {} - {n} == s.dirty - {n};
    QueueKeeps(s, s0.queue, {}, {n});
    CleanKeeps(s0, n);
    assert Turn(s, l) == Clean(s0, n);
    MakeCleanKeeps(s0, n);
    CleanProgresses(s0, MakeClean(s0, n), n, top);
  }

  lemma TurnKeeps(s: State, l: int, top: nat)
    requires Inv(s, {}) && Indexed(s) && l in s.queue && forall m :: m in s.rank ==> s.rank[m] < top
    ensures Inv(Turn(s, l), {}) && Indexed(Turn(s, l)) && Progress(s, Turn(s, l), top)
  {
    if s.queue[l] == [] {
      TurnOnEmptyKeeps(s, l, top);
    } else if s.queue[l][|s.queue[l]| - 1] !in s.defs {
      TurnOnDeadKeeps(s, l, top);
    } else {
      TurnOnElementKeeps(s, l, top);
    }
  }

  lemma QueueKeeps(s: State, q: map<int, seq<Id>>, cleaning: set<Id>, cleaning1: set<Id>)
    requires Inv(s, cleaning) && Queues(q, s.dirty - cleaning1, s.known - s.defs.Keys) && cleaning1 <= s.dirty
    ensures Inv(s.(queue := q), cleaning1)
  {
    UnseenKeepsSettled(s, s.(queue := q));
  }

  // ----- A drained graph -----

  // Every initialised property has the value its computation gives on the current values.
  ghost predicate UpToDate(s: State) {
    forall n :: n in s.initialized && n in s.defs && s.defs[n].Computed? ==>
      ValueOf(s.values, n) == Eval(s, s.defs[n].body, Length(s.defs[n].body))
  }

  ghost predicate Drained(s: State) {
    Inv(s, {}) && Indexed(s) && s.dirty == {}
  }

  lemma EmptyQueueIsDrained(s: State)
    requires Inv(s, {}) && Indexed(s) && s.queue == map[]
    ensures Drained(s) && UpToDate(s)
  {
    forall n
      ensures n !in s.dirty
    {
      assert n in s.dirty - {} ==> exists l, i :: QueuedAt(s.queue, l, i, n);
    }
    forall n | n in s.initialized
      ensures Consistent(s, n)
    {
    }
  }

  // The updaters with key `k` in an index whose property currently has the given value. `Num(0)` is the value of a
  // property that has none yet.
  ghost function Matching(defs: map<Id, Definition>, values: map<Id, Value>, r: Slot, k: Key): set<Id> {
    set u | u in defs && defs[u].Updater? && defs[u].index == r.index && defs[u].key == k &&
            r.value == (if defs[u].property in values then values[defs[u].property] else Num(0))
  }

  // `keys` are the keys of the indexed properties that are now equal to `r`, with their numbers.
  ghost predicate Answers(defs: map<Id, Definition>, values: map<Id, Value>, r: Slot, keys: map<Key, int>) {
    forall k :: (k in keys <==> Matching(defs, values, r, k) != {}) && (k in keys ==> keys[k] == |Matching(defs, values, r, k)|)
  }

  ghost predicate IndexExact(defs: map<Id, Definition>, values: map<Id, Value>, keysets: map<Slot, map<Key, int>>) {
    forall r: Slot :: Answers(defs, values, r, if r in keysets then keysets[r] else map[])
  }

  lemma DrainedAnswers(s: State, r: Slot)
    requires Drained(s)
    ensures Answers(s.defs, s.values, r, KeysetOf(s.keysets, r))
  {
    forall k
      ensures Matching(s.defs, s.values, r, k) == Holders(s.defs, s.lastValue, r, k)
    {
      forall u | u in s.defs && s.defs[u].Updater?
        ensures u in s.lastValue && s.lastValue[u] == ValueOf(s.values, s.defs[u].property)
      {
        assert Consistent(s, u);
      }
    }
    var keys := KeysetOf(s.keysets, r);
    forall k
      ensures k in keys <==> Matching(s.defs, s.values, r, k) != {}
      ensures k in keys ==> keys[k] == |Matching(s.defs, s.values, r, k)|
    {
      assert CountIn(keys, k) == |Holders(s.defs, s.lastValue, r, k)|;
    }
  }

  lemma DrainedIndexIsExact(s: State)
    requires Drained(s)
    ensures IndexExact(s.defs, s.values, s.keysets)
  {
    forall r: Slot
      ensures Answers(s.defs, s.values, r, if r in s.keysets then s.keysets[r] else map[])
    {
      DrainedAnswers(s, r);
    }
  }

  // ----- What computations mean, on the fields of the graph -----

  // What the cell stands for: the mutable's value, the property's value, or the keys of the properties in the index that
  // have the value, with their numbers.
  ghost predicate StandsFor(defs: map<Id, Definition>, values: map<Id, Value>, mutables: map<Id, Value>, c: Cell, x: Value) {
    match c
    case MutableCell(m) => x == if m in mutables then mutables[m] else Num(0)
    case PropertyCell(p) => x == if p in values then values[p] else Num(0)
    case IndexCell(r) => x.Counts? && Answers(defs, values, r, x.counts)
  }

  // The computation returns `v` when each cell it reads gives what the cell stands for.
  least predicate Gives(defs: map<Id, Definition>, values: map<Id, Value>, mutables: map<Id, Value>, t: Reading, v: Value) {
    match t
    case Return(result) => v == result
    case Read(c, next) =>
      exists x :: StandsFor(defs, values, mutables, c, x) && Gives(defs, values, mutables, next(x), v)
  }

  // Every property that has been started has the value that its computation gives.
  ghost predicate Current(defs: map<Id, Definition>, values: map<Id, Value>, mutables: map<Id, Value>, started: set<Id>) {
    forall n :: n in started && n in defs && defs[n].Computed? ==>
      Gives(defs, values, mutables, defs[n].body, if n in values then values[n] else Num(0))
  }

  lemma SameAnswers(defs: map<Id, Definition>, values: map<Id, Value>, r: Slot, keys1: map<Key, int>, keys2: map<Key, int>)
    requires Answers(defs, values, r, keys1) && Answers(defs, values, r, keys2)
    ensures keys1 == keys2
  {
    forall k
      ensures (k in keys1 <==> k in keys2) && (k in keys1 ==> keys1[k] == keys2[k])
    {
      assert k in keys1 <==> Matching(defs, values, r, k) != {};
      assert k in keys2 <==> Matching(defs, values, r, k) != {};
    }
  }

  // It gives one value only.
  lemma {:induction false} GivesOne(defs: map<Id, Definition>, values: map<Id, Value>, mutables: map<Id, Value>, t: Reading,
                                    d: ORDINAL, v1: Value, v2: Value)
    requires Bounded(t, d) && Gives(defs, values, mutables, t, v1) && Gives(defs, values, mutables, t, v2)
    ensures v1 == v2
    decreases d
  {
    if t.Read? {
      var x1 :| StandsFor(defs, values, mutables, t.cell, x1) && Gives(defs, values, mutables, t.next(x1), v1);
      var x2 :| StandsFor(defs, values, mutables, t.cell, x2) && Gives(defs, values, mutables, t.next(x2), v2);
      if t.cell.IndexCell? {
        SameAnswers(defs, values, t.cell.r, x1.counts, x2.counts);
      }
      GivesOne(defs, values, mutables, t.next(x1), Below(t, d, x1), v1, v2);
    }
  }

  lemma LookupStandsFor(s: State, c: Cell)
    requires IndexExact(s.defs, s.values, s.keysets)
    ensures StandsFor(s.defs, s.values, s.mutables, c, Lookup(s, c))
  {
  }

  lemma {:induction false} EvalIsGiven(s: State, t: Reading, d: ORDINAL)
    requires Bounded(t, d) && IndexExact(s.defs, s.values, s.keysets)
    ensures Gives(s.defs, s.values, s.mutables, t, Eval(s, t, d))
    decreases d
  {
    if t.Read? {
      var x := Lookup(s, t.cell);
      LookupStandsFor(s, t.cell);
      EvalIsGiven(s, t.next(x), Below(t, d, x));
    }
  }

  lemma DrainedIsCurrent(s: State)
    requires Drained(s) && UpToDate(s)
    ensures IndexExact(s.defs, s.values, s.keysets) && Current(s.defs, s.values, s.mutables, s.initialized)
  {
    DrainedIndexIsExact(s);
    forall n | n in s.initialized && n in s.defs && s.defs[n].Computed?
      ensures Gives(s.defs, s.values, s.mutables, s.defs[n].body, if n in s.values then s.values[n] else Num(0))
    {
      EvalIsGiven(s, s.defs[n].body, Length(s.defs[n].body));
    }
  }

  // A property that hands on what it reads from an index holds the exact keys, one that applies `f` to what another
  // property holds is `f` of that.
  lemma ReaderOfIndex(defs: map<Id, Definition>, values: map<Id, Value>, mutables: map<Id, Value>, started: set<Id>, n: Id,
                      r: Slot)
    requires Current(defs, values, mutables, started) && n in started && n in defs && defs[n].Computed?
    requires defs[n].body.Read? && defs[n].body.cell == IndexCell(r) && forall x :: defs[n].body.next(x) == Return(x)
    ensures n in values && values[n].Counts? && Answers(defs, values, r, values[n].counts)
  {
    var v := if n in values then values[n] else Num(0);
    var x :| StandsFor(defs, values, mutables, IndexCell(r), x) && Gives(defs, values, mutables, defs[n].body.next(x), v);
  }

  lemma ReaderOfProperty(defs: map<Id, Definition>, values: map<Id, Value>, mutables: map<Id, Value>, started: set<Id>, n: Id,
                         p: Id, f: Value -> Value)
    requires Current(defs, values, mutables, started) && n in started && n in defs && defs[n].Computed? && p in values
    requires defs[n].body.Read? && defs[n].body.cell == PropertyCell(p) && forall x :: defs[n].body.next(x) == Return(f(x))
    ensures (if n in values then values[n] else Num(0)) == f(values[p])
  {
    var v := if n in values then values[n] else Num(0);
    var x :| StandsFor(defs, values, mutables, PropertyCell(p), x) && Gives(defs, values, mutables, defs[n].body.next(x), v);
  }

  // ----- The outcome does not depend on the history -----

  // Two graphs with the same definitions and the same mutable values, ranked and driven in whatever way.
  ghost predicate SameInputs(s1: State, s2: State) {
    s1.defs == s2.defs && s1.mutables == s2.mutables
  }

  lemma {:induction false} SameOutcome(s1: State, s2: State, n: Id)
    requires Drained(s1) && Drained(s2) && SameInputs(s1, s2)
    requires n in s1.initialized && n in s2.initialized
    ensures n in s1.rank && (if n in s1.values then s1.values[n] else Num(0)) == (if n in s2.values then s2.values[n] else Num(0))
    decreases if n in s1.rank then s1.rank[n] else 0, 3, 0
  {
    assert Consistent(s1, n) && Consistent(s2, n);
    match s1.defs[n]
    case Computed(body) => SamePath(s1, s2, n, body, Length(body), s1.rank[n]);
    case Updater(_, _, _) =>
  }

  lemma {:induction false} SamePath(s1: State, s2: State, n: Id, t: Reading, d: ORDINAL, r: nat)
    requires Drained(s1) && Drained(s2) && SameInputs(s1, s2)
    requires Bounded(t, d) && Subscribed(s1, n, t, d) && Subscribed(s2, n, t, d)
    requires ReadsBelow(s1.rank, s1.indexRank, t, r)
    ensures Eval(s1, t, d) == Eval(s2, t, d)
    decreases r, 2, d
  {
    match t
    case Return(_) =>
    case Read(c, next) =>
      SameCell(s1, s2, c, r);
      SamePath(s1, s2, n, next(Lookup(s1, c)), Below(t, d, Lookup(s1, c)), r);
  }

  lemma {:induction false} SameCell(s1: State, s2: State, c: Cell, r: nat)
    requires Drained(s1) && Drained(s2) && SameInputs(s1, s2)
    requires Ready(s1, c) && Ready(s2, c) && CellBelow(s1.rank, s1.indexRank, c, r)
    ensures Lookup(s1, c) == Lookup(s2, c)
    decreases r, 1, 0
  {
    match c
    case MutableCell(_) =>
    case PropertyCell(q) => SameOutcome(s1, s2, q);
    case IndexCell(v) =>
      forall u | u in s1.defs && s1.defs[u].Updater? && s1.defs[u].index == v.index
        ensures u in s1.lastValue && u in s2.lastValue && s1.lastValue[u] == s2.lastValue[u]
      {
        assert Consistent(s1, u) && Consistent(s2, u);
        SameOutcome(s1, s2, s1.defs[u].property);
      }
      SameIndexCell(s1, s2, v);
  }

  lemma SameIndexCell(s1: State, s2: State, v: Slot)
    requires s1.defs == s2.defs
    requires Counted(s1.defs, s1.lastValue, s1.keysets) && Counted(s2.defs, s2.lastValue, s2.keysets)
    requires forall u :: u in s1.defs && s1.defs[u].Updater? && s1.defs[u].index == v.index ==>
               u in s1.lastValue && u in s2.lastValue && s1.lastValue[u] == s2.lastValue[u]
    ensures KeysetOf(s1.keysets, v) == KeysetOf(s2.keysets, v)
  {
    forall k
      ensures Holders(s1.defs, s1.lastValue, v, k) == Holders(s2.defs, s2.lastValue, v, k)
    {
    }
    SameKeyset(KeysetOf(s1.keysets, v), KeysetOf(s2.keysets, v), s1, s2, v);
  }

  lemma SameKeyset(m1: map<Key, int>, m2: map<Key, int>, s1: State, s2: State, v: Slot)
    requires m1 == KeysetOf(s1.keysets, v) && m2 == KeysetOf(s2.keysets, v)
    requires Counted(s1.defs, s1.lastValue, s1.keysets) && Counted(s2.defs, s2.lastValue, s2.keysets)
    requires forall k :: Holders(s1.defs, s1.lastValue, v, k) == Holders(s2.defs, s2.lastValue, v, k)
    ensures m1 == m2
  {
    forall k
      ensures CountIn(m1, k) == CountIn(m2, k) && (k in m1 <==> CountIn(m1, k) != 0) && (k in m2 <==> CountIn(m2, k) != 0)
    {
      assert CountIn(m1, k) == |Holders(s1.defs, s1.lastValue, v, k)|;
      assert CountIn(m2, k) == |Holders(s2.defs, s2.lastValue, v, k)|;
    }
  }
}
