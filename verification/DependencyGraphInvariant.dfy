/** What every operation of the recompute graph keeps, and what a drained queue means. */
module DependencyGraphInvariant {
  import opened DependencyGraphState

  // ----- Meaning of a computation on the current values -----

  ghost function Eval(s: State, t: Reading, d: ORDINAL): Value
    requires Bounded(t, d)
    decreases d
  {
    match t
    case Return(v) => v
    case Read(c, next) => Eval(s, next(Lookup(s, c)), Below(t, d, Lookup(s, c)))
  }

  // ----- Ranks -----

  ghost predicate CellBelow(rank: map<Id, nat>, indexRank: map<IndexId, nat>, c: Cell, r: nat) {
    match c
    case MutableCell(_) => true
    case PropertyCell(q) => q in rank && rank[q] < r
    case IndexCell(slot) => slot.index in indexRank && indexRank[slot.index] <= r
  }

  ghost predicate HasListener(listeners: map<Cell, seq<Id>>, c: Cell, n: Id) {
    c in listeners && n in listeners[c]
  }

  // Whatever values it is given, the computation reads only cells below `r`.
  least predicate ReadsBelow(rank: map<Id, nat>, indexRank: map<IndexId, nat>, t: Reading, r: nat) {
    t.Read? ==> CellBelow(rank, indexRank, t.cell, r) && forall v :: ReadsBelow(rank, indexRank, t.next(v), r)
  }

  ghost predicate DefinitionBelow(rank: map<Id, nat>, indexRank: map<IndexId, nat>, def: Definition, r: nat) {
    match def
    case Computed(body) => ReadsBelow(rank, indexRank, body, r)
    case Updater(i, p, _) => p in rank && i in indexRank && rank[p] < r < indexRank[i]
  }

  ghost predicate Ranked(defs: map<Id, Definition>, rank: map<Id, nat>, indexRank: map<IndexId, nat>) {
    && rank.Keys == defs.Keys
    && forall n :: n in defs ==> DefinitionBelow(rank, indexRank, defs[n], rank[n])
  }

  // ----- The dirty queue -----

  ghost predicate QueuedAt(q: map<int, seq<Id>>, l: int, i: int, n: Id) {
    l in q && 0 <= i < |q[l]| && q[l][i] == n
  }

  // The queue holds each member of `d` once, and besides them at most entries of objects that are gone.
  ghost predicate Queues(q: map<int, seq<Id>>, d: set<Id>, dead: set<Id>) {
    && (forall l, i, n :: QueuedAt(q, l, i, n) ==> n in d || n in dead)
    && (forall n :: n in d ==> exists l, i :: QueuedAt(q, l, i, n))
    && (forall n, l1, i1, l2, i2 :: QueuedAt(q, l1, i1, n) && QueuedAt(q, l2, i2, n) ==> l1 == l2 && i1 == i2)
  }

  lemma PushQueues(q: map<int, seq<Id>>, d: set<Id>, dead: set<Id>, l: int, n: Id)
    requires Queues(q, d, dead) && n !in d && n !in dead
    ensures Queues(Push(q, l, n), d + {n}, dead)
  {
    var p := Push(q, l, n);
    assert QueuedAt(p, l, |p[l]| - 1, n);
    forall m | m in d
      ensures exists l', i' :: QueuedAt(p, l', i', m)
    {
      var l1, i1 :| QueuedAt(q, l1, i1, m);
      assert QueuedAt(p, l1, i1, m);
    }
    forall m, l1, i1 | QueuedAt(p, l1, i1, m)
      ensures QueuedAt(q, l1, i1, m) || (m == n && l1 == l && i1 == |p[l]| - 1)
    {
    }
  }

  lemma PopQueues(q: map<int, seq<Id>>, d: set<Id>, dead: set<Id>, l: int)
    requires Queues(q, d, dead) && l in q && q[l] != []
    ensures var n := q[l][|q[l]| - 1];
            (n in d || n in dead) && Queues(q[l := q[l][..|q[l]| - 1]], d - {n}, dead)
  {
    var n := q[l][|q[l]| - 1];
    var p := q[l := q[l][..|q[l]| - 1]];
    assert QueuedAt(q, l, |q[l]| - 1, n);
    forall l1, i1, m | QueuedAt(p, l1, i1, m)
      ensures QueuedAt(q, l1, i1, m) && m != n
    {
      assert QueuedAt(q, l1, i1, m);
    }
    forall m | m in d - {n}
      ensures exists l', i' :: QueuedAt(p, l', i', m)
    {
      var l1, i1 :| QueuedAt(q, l1, i1, m);
      assert QueuedAt(p, l1, i1, m);
    }
  }

  lemma EraseQueues(q: map<int, seq<Id>>, d: set<Id>, dead: set<Id>, l: int)
    requires Queues(q, d, dead) && l in q && q[l] == []
    ensures Queues(q - {l}, d, dead)
  {
    var p := q - {l};
    forall l1, i1, m | QueuedAt(p, l1, i1, m)
      ensures QueuedAt(q, l1, i1, m)
    {
    }
    forall m | m in d
      ensures exists l', i' :: QueuedAt(p, l', i', m)
    {
      var l1, i1 :| QueuedAt(q, l1, i1, m);
      assert QueuedAt(p, l1, i1, m);
    }
  }

  // ----- Consistency of a clean property -----

  ghost predicate Ready(s: State, c: Cell) {
    c.PropertyCell? ==> c.p in s.initialized
  }

  // Along the path the computation takes on the current values, `n` is subscribed to everything it reads.
  ghost predicate Subscribed(s: State, n: Id, t: Reading, d: ORDINAL)
    requires Bounded(t, d)
    decreases d
  {
    match t
    case Return(_) => true
    case Read(c, next) =>
      && n in ListenersOf(s.listeners, c) && Ready(s, c)
      && Subscribed(s, n, next(Lookup(s, c)), Below(t, d, Lookup(s, c)))
  }

  ghost predicate Consistent(s: State, n: Id)
    requires n in s.defs
  {
    match s.defs[n]
    case Computed(body) =>
      Subscribed(s, n, body, Length(body)) && ValueOf(s.values, n) == Eval(s, body, Length(body))
    case Updater(_, p, _) =>
      && n in ListenersOf(s.listeners, PropertyCell(p)) && p in s.initialized
      && n in s.lastValue && s.lastValue[n] == ValueOf(s.values, p)
      && ValueOf(s.values, n) == Num(0)
  }

  // A subscriber that is still alive is initialised and ranked above the cell; a dead one was known once.
  ghost predicate Subscribers(listeners: map<Cell, seq<Id>>, known: set<Id>, initialized: set<Id>,
                              rank: map<Id, nat>, indexRank: map<IndexId, nat>) {
    forall c, m :: m in ListenersOf(listeners, c) ==>
      m in known && (m in rank ==> m in initialized && CellBelow(rank, indexRank, c, rank[m]))
  }

  // ----- The index -----

  ghost predicate Holds(defs: map<Id, Definition>, lastValue: map<Id, Value>, u: Id, r: Slot, k: Key) {
    && u in defs && defs[u].Updater? && defs[u].index == r.index && defs[u].key == k
    && u in lastValue && lastValue[u] == r.value
  }

  ghost function Holders(defs: map<Id, Definition>, lastValue: map<Id, Value>, r: Slot, k: Key): set<Id> {
    set u | u in defs && Holds(defs, lastValue, u, r, k)
  }

  // Each count is the number of live updaters whose recorded value and key it stands for; no count is zero.
  ghost predicate Counted(defs: map<Id, Definition>, lastValue: map<Id, Value>, keysets: map<Slot, map<Key, int>>) {
    && (forall r, k :: CountIn(KeysetOf(keysets, r), k) == |Holders(defs, lastValue, r, k)|)
    && NoZeros(keysets)
  }

  ghost predicate NoZeros(keysets: map<Slot, map<Key, int>>) {
    forall r, k :: k in KeysetOf(keysets, r) ==> KeysetOf(keysets, r)[k] != 0
  }

  // Every live updater has been started and is among those of its property, each of which is there once.
  ghost predicate Registered(defs: map<Id, Definition>, initialized: set<Id>, lastValue: map<Id, Value>,
                             keyUpdaters: map<Id, seq<Id>>) {
    && lastValue.Keys <= defs.Keys
    && (forall u :: u in defs && defs[u].Updater? ==>
          u in initialized && u in UpdatersOf(keyUpdaters, defs[u].property))
    && (forall p :: p in keyUpdaters ==>
          p in defs && defs[p].Computed? && UpdatersFor(defs, keyUpdaters[p], p))
  }

  ghost predicate UpdatersFor(defs: map<Id, Definition>, us: seq<Id>, p: Id) {
    && (forall u :: u in us ==> u in defs && defs[u].Updater? && defs[u].property == p)
    && forall a, b :: 0 <= a < b < |us| ==> us[a] != us[b]
  }

  ghost predicate Indexed(s: State) {
    Counted(s.defs, s.lastValue, s.keysets) && Registered(s.defs, s.initialized, s.lastValue, s.keyUpdaters)
  }

  // ----- The invariant; `cleaning` holds the property being cleaned, if any -----

  ghost predicate Sets(s: State, cleaning: set<Id>) {
    && s.initialized <= s.defs.Keys
    && s.dirty <= s.initialized
    && cleaning <= s.dirty
    && Queues(s.queue, s.dirty - cleaning, s.known - s.defs.Keys)
  }

  ghost predicate Settled(s: State)
    requires s.initialized <= s.defs.Keys
  {
    forall n :: n in s.initialized && n !in s.dirty ==> Consistent(s, n)
  }

  ghost predicate Inv(s: State, cleaning: set<Id>) {
    && Ranked(s.defs, s.rank, s.indexRank) && s.defs.Keys <= s.known
    && Sets(s, cleaning)
    && Subscribers(s.listeners, s.known, s.initialized, s.rank, s.indexRank)
    && Settled(s)
  }

  // ----- Frames -----

  // Nothing a clean listener of `s` can see differs in `s1`.
  ghost predicate SeesTheSame(s: State, s1: State, n: Id) {
    forall c :: n in ListenersOf(s.listeners, c) ==> n in ListenersOf(s1.listeners, c) && Lookup(s1, c) == Lookup(s, c)
  }

  lemma {:induction false} ReadingFrame(s: State, s1: State, n: Id, t: Reading, d: ORDINAL, r: nat)
    requires Bounded(t, d) && Subscribed(s, n, t, d) && SeesTheSame(s, s1, n)
    requires ReadsBelow(s1.rank, s1.indexRank, t, r)
    requires forall q :: q in s.initialized && q in s1.rank ==> q in s1.initialized
    ensures Subscribed(s1, n, t, d) && Eval(s1, t, d) == Eval(s, t, d)
    decreases d
  {
    match t
    case Return(_) =>
    case Read(c, next) =>
      assert n in ListenersOf(s.listeners, c) && Lookup(s1, c) == Lookup(s, c);
      ReadingFrame(s, s1, n, next(Lookup(s, c)), Below(t, d, Lookup(s, c)), r);
  }

  lemma ConsistentFrame(s: State, s1: State, n: Id)
    requires n in s.defs && n in s1.defs && s1.defs[n] == s.defs[n] && Consistent(s, n)
    requires n in s1.rank && DefinitionBelow(s1.rank, s1.indexRank, s1.defs[n], s1.rank[n])
    requires SeesTheSame(s, s1, n)
    requires forall q :: q in s.initialized && q in s1.rank ==> q in s1.initialized
    requires ValueOf(s1.values, n) == ValueOf(s.values, n)
    requires n in s.lastValue ==> n in s1.lastValue && s1.lastValue[n] == s.lastValue[n]
    ensures Consistent(s1, n)
  {
    match s.defs[n]
    case Computed(body) =>
      ReadingFrame(s, s1, n, body, Length(body), s1.rank[n]);
    case Updater(i, p, k) =>
      assert n in ListenersOf(s.listeners, PropertyCell(p));
      assert Lookup(s1, PropertyCell(p)) == Lookup(s, PropertyCell(p));
  }

  // Changes that no clean property can see.
  lemma UnseenKeepsSettled(s: State, s1: State)
    requires s.initialized <= s.defs.Keys && Settled(s)
    requires Ranked(s1.defs, s1.rank, s1.indexRank) && forall n :: n in s.defs ==> n in s1.defs && s1.defs[n] == s.defs[n]
    requires s1.initialized == s.initialized && s.dirty <= s1.dirty && s1.listeners == s.listeners
    requires s1.mutables == s.mutables && s1.values == s.values && s1.keysets == s.keysets
    requires forall n :: n in s.lastValue && n !in s.dirty ==> n in s1.lastValue && s1.lastValue[n] == s.lastValue[n]
    ensures s1.initialized <= s1.defs.Keys && Settled(s1)
  {
    forall c
      ensures Lookup(s1, c) == Lookup(s, c)
    {
    }
    forall n | n in s1.initialized && n !in s1.dirty
      ensures Consistent(s1, n)
    {
      assert Consistent(s, n);
      ConsistentFrame(s, s1, n);
    }
  }
}
