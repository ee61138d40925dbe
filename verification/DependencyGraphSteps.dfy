/** Each operation keeps the invariant, and cleaning a property only disturbs properties above it. */
module DependencyGraphSteps {
  import opened DependencyGraphState
  import opened DependencyGraphInvariant

  // ----- Operations that change no value -----

  // Values stay, subscriptions and dirtiness only grow, and everything newly initialised is dirty.
  ghost predicate Stirred(s: State, s1: State) {
    && s1 == s.(level := s1.level, initialized := s1.initialized, dirty := s1.dirty, queue := s1.queue,
                listeners := s1.listeners, keysets := s1.keysets)
    && (forall c :: Lookup(s1, c) == Lookup(s, c))
    && (forall c, n :: n in ListenersOf(s.listeners, c) ==> n in ListenersOf(s1.listeners, c))
    && s.initialized <= s1.initialized
    && s1.dirty == s.dirty + (s1.initialized - s.initialized)
  }

  lemma StirredTransitive(s: State, s1: State, s2: State)
    requires Stirred(s, s1) && Stirred(s1, s2)
    ensures Stirred(s, s2)
  {
    assert s2.dirty == s.dirty + (s2.initialized - s.initialized);
  }

  lemma StirredKeepsSettled(s: State, s1: State)
    requires Ranked(s.defs, s.rank, s.indexRank) && s.initialized <= s.defs.Keys && Settled(s)
    requires Stirred(s, s1) && s1.initialized <= s1.defs.Keys
    ensures Settled(s1)
  {
    forall n | n in s1.initialized && n !in s1.dirty
      ensures Consistent(s1, n)
    {
      assert n in s.initialized && Consistent(s, n);
      ConsistentFrame(s, s1, n);
    }
  }

  lemma InitializeStirs(s: State, n: Id)
    requires n !in s.initialized && s.dirty <= s.initialized
    ensures Stirred(s, Initialize(s, n))
  {
    assert Initialize(s, n).initialized - s.initialized == {n};
  }

  lemma InitializeSets(s: State, n: Id, cleaning: set<Id>)
    requires Sets(s, cleaning) && n in s.defs && n !in s.initialized
    ensures Sets(Initialize(s, n), cleaning)
  {
    PushQueues(s.queue, s.dirty - cleaning, s.known - s.defs.Keys, LevelOf(s, n), n);
    assert s.dirty + {n} - cleaning == s.dirty - cleaning + {n};
  }

  lemma InitializeNewKeeps(s: State, n: Id, cleaning: set<Id>)
    requires Inv(s, cleaning) && n in s.defs && n !in s.initialized
    ensures Inv(Initialize(s, n), cleaning) && Stirred(s, Initialize(s, n)) && n in Initialize(s, n).initialized
  {
    var s1 := Initialize(s, n);
    InitializeStirs(s, n);
    InitializeSets(s, n, cleaning);
    StirredKeepsSettled(s, s1);
    assert Subscribers(s1.listeners, s1.known, s1.initialized, s1.rank, s1.indexRank) by {
      SubscribersWider(s.listeners, s.known, s.initialized, s1.initialized, s.rank, s.indexRank);
    }
  }

  lemma SubscribersWider(listeners: map<Cell, seq<Id>>, known: set<Id>, initialized: set<Id>, more: set<Id>,
                         rank: map<Id, nat>, indexRank: map<IndexId, nat>)
    requires Subscribers(listeners, known, initialized, rank, indexRank) && initialized <= more
    ensures Subscribers(listeners, known, more, rank, indexRank)
  {
  }

  lemma InitializeKeeps(s: State, n: Id, cleaning: set<Id>)
    requires Inv(s, cleaning) && n in s.defs
    ensures Inv(Initialize(s, n), cleaning) && Stirred(s, Initialize(s, n)) && n in Initialize(s, n).initialized
  {
    if n !in s.initialized {
      InitializeNewKeeps(s, n, cleaning);
    } else {
      assert s.dirty == s.dirty + (s.initialized - s.initialized);
    }
  }

  lemma AddSubscriber(listeners: map<Cell, seq<Id>>, known: set<Id>, initialized: set<Id>, rank: map<Id, nat>,
                      indexRank: map<IndexId, nat>, c: Cell, n: Id)
    requires Subscribers(listeners, known, initialized, rank, indexRank)
    requires n in known && n in initialized && n in rank && CellBelow(rank, indexRank, c, rank[n])
    ensures Subscribers(listeners[c := ListenersOf(listeners, c) + [n]], known, initialized, rank, indexRank)
  {
    var after := listeners[c := ListenersOf(listeners, c) + [n]];
    forall d, m | m in ListenersOf(after, d)
      ensures m in ListenersOf(listeners, d) || (d == c && m == n)
    {
    }
  }

  lemma RegisterKeeps(s: State, n: Id, c: Cell, l: int, cleaning: set<Id>)
    requires Inv(s, cleaning) && n in s.initialized && CellBelow(s.rank, s.indexRank, c, s.rank[n])
    ensures Inv(Register(s, n, c, l), cleaning) && Stirred(s, Register(s, n, c, l))
    ensures n in ListenersOf(Register(s, n, c, l).listeners, c)
  {
    var s1 := Register(s, n, c, l);
    assert Stirred(s, s1) by {
      assert s1.dirty == s.dirty + (s1.initialized - s.initialized);
    }
    AddSubscriber(s.listeners, s.known, s.initialized, s.rank, s.indexRank, c, n);
    StirredKeepsSettled(s, s1);
  }

  // A key set that is created is empty, as an absent one is taken to be.
  lemma EnsureKeysetLookup(s: State, r: Slot, c: Cell)
    ensures Lookup(EnsureKeyset(s, r), c) == Lookup(s, c)
  {
  }

  lemma EnsureKeysetStirs(s: State, r: Slot)
    ensures Stirred(s, EnsureKeyset(s, r))
  {
    forall c
      ensures Lookup(EnsureKeyset(s, r), c) == Lookup(s, c)
    {
      EnsureKeysetLookup(s, r, c);
    }
    assert s.dirty == s.dirty + (s.initialized - s.initialized);
  }

  lemma EnsureKeysetKeeps(s: State, r: Slot, cleaning: set<Id>)
    requires Inv(s, cleaning)
    ensures Inv(EnsureKeyset(s, r), cleaning) && Stirred(s, EnsureKeyset(s, r))
  {
    EnsureKeysetStirs(s, r);
    StirredKeepsSettled(s, EnsureKeyset(s, r));
  }

  lemma GetCellKeeps(s: State, n: Id, c: Cell, cleaning: set<Id>)
    requires Inv(s, cleaning) && n in s.initialized && CellBelow(s.rank, s.indexRank, c, s.rank[n])
    ensures Inv(GetCell(s, n, c), cleaning) && Stirred(s, GetCell(s, n, c))
    ensures n in ListenersOf(GetCell(s, n, c).listeners, c) && Ready(GetCell(s, n, c), c)
  {
    match c
    case MutableCell(m) => RegisterKeeps(s, n, c, 0, cleaning);
    case PropertyCell(p) =>
      var t := Initialize(s, p);
      InitializeKeeps(s, p, cleaning);
      RegisterKeeps(t, n, c, LevelOf(t, p), cleaning);
      StirredTransitive(s, t, GetCell(s, n, c));
    case IndexCell(r) =>
      var t := EnsureKeyset(s, r);
      EnsureKeysetKeeps(s, r, cleaning);
      RegisterKeeps(t, n, c, 0, cleaning);
      StirredTransitive(s, t, GetCell(s, n, c));
  }

  lemma {:induction false} EvalStirred(s: State, s1: State, t: Reading, d: ORDINAL)
    requires Stirred(s, s1) && Bounded(t, d)
    ensures Eval(s1, t, d) == Eval(s, t, d)
    decreases d
  {
    if t.Read? {
      EvalStirred(s, s1, t.next(Lookup(s, t.cell)), Below(t, d, Lookup(s, t.cell)));
    }
  }

  lemma ReadStep(s: State, s1: State, s2: State, n: Id, t: Reading, d: ORDINAL)
    requires t.Read? && Bounded(t, d) && Stirred(s, s1) && Stirred(s1, s2)
    requires n in ListenersOf(s1.listeners, t.cell) && Ready(s1, t.cell)
    requires var v := Lookup(s1, t.cell); Subscribed(s2, n, t.next(v), Below(t, d, v))
    ensures var v := Lookup(s1, t.cell);
            Stirred(s, s2) && Subscribed(s2, n, t, d) && Eval(s1, t.next(v), Below(t, d, v)) == Eval(s, t, d)
  {
    var v := Lookup(s1, t.cell);
    StirredTransitive(s, s1, s2);
    assert n in ListenersOf(s2.listeners, t.cell) && Lookup(s2, t.cell) == v == Lookup(s, t.cell);
    EvalStirred(s, s1, t.next(v), Below(t, d, v));
  }

  // Running a computation yields its meaning on the current values and leaves it subscribed to all it read.
  lemma {:induction false} RunReadingKeeps(s: State, n: Id, t: Reading, d: ORDINAL, cleaning: set<Id>)
    requires Inv(s, cleaning) && n in s.initialized && n in s.rank
    requires Bounded(t, d) && ReadsBelow(s.rank, s.indexRank, t, s.rank[n])
    ensures var (s1, v) := RunReading(s, n, t, d);
            Inv(s1, cleaning) && Stirred(s, s1) && Subscribed(s1, n, t, d) && v == Eval(s, t, d)
    decreases d
  {
    match t
    case Return(_) =>
      assert s.dirty == s.dirty + (s.initialized - s.initialized);
    case Read(c, next) =>
      var s1 := GetCell(s, n, c);
      GetCellKeeps(s, n, c, cleaning);
      assert n in s1.initialized && s1.rank == s.rank && s1.indexRank == s.indexRank;
      var v := Lookup(s1, c);
      var e := Below(t, d, v);
      var r := RunReading(s1, n, next(v), e);
      assert RunReading(s, n, t, d) == r;
      RunReadingKeeps(s1, n, next(v), e, cleaning);
      ReadStep(s, s1, r.0, n, t, d);
  }

  // ----- Notifying listeners -----

  lemma {:induction false} MarkAllQueues(m: Marks, level: map<Id, int>, alive: set<Id>, dead: set<Id>, ls: seq<Id>,
                                         cleaning: set<Id>)
    requires Queues(m.queue, m.dirty - cleaning, dead) && cleaning <= m.dirty && alive !! dead
    ensures var r := MarkAll(m, level, alive, ls);
            && Queues(r.queue, r.dirty - cleaning, dead)
            && r.dirty == m.dirty + (set x | x in ls && x in alive)
    decreases |ls|
  {
    if ls != [] {
      var x := ls[0];
      var t := if x in alive then Mark(m, level, x) else m;
      if x in alive && x !in m.dirty {
        PushQueues(m.queue, m.dirty - cleaning, dead, if x in level then level[x] else 0, x);
        assert t.dirty - cleaning == m.dirty - cleaning + {x};
      }
      MarkAllQueues(t, level, alive, dead, ls[1..], cleaning);
      assert ls == [x] + ls[1..];
      assert (set y | y in ls && y in alive) == (if x in alive then {x} else {}) + (set y | y in ls[1..] && y in alive);
    }
  }

  // What a notification does besides the subscriptions it clears.
  ghost predicate Notified(s: State, s1: State, c: Cell) {
    && s1 == s.(dirty := s1.dirty, queue := s1.queue, listeners := s.listeners[c := []])
    && s1.dirty == s.dirty + (set m | m in ListenersOf(s.listeners, c) && m in s.defs)
  }

  // `s1` is `s` after a notification of `c`, possibly with a new value in `c` and in nothing else a clean
  // property depends on.
  lemma ClearedKeepsSettled(s: State, s1: State, c: Cell, cleaning: set<Id>)
    requires Inv(s, cleaning) && s1.initialized <= s1.defs.Keys
    requires s1.defs == s.defs && s1.rank == s.rank && s1.indexRank == s.indexRank && s1.lastValue == s.lastValue
    requires s1.listeners == s.listeners[c := []] && s1.initialized == s.initialized
    requires s1.dirty == s.dirty + (set m | m in ListenersOf(s.listeners, c) && m in s.defs)
    requires forall d :: d != c ==> Lookup(s1, d) == Lookup(s, d)
    requires c.PropertyCell? && Lookup(s1, c) != Lookup(s, c) ==> c.p in s.dirty
    ensures Settled(s1)
  {
    forall n | n in s1.initialized && n !in s1.dirty
      ensures Consistent(s1, n)
    {
      assert Consistent(s, n);
      forall d | n in ListenersOf(s.listeners, d)
        ensures n in ListenersOf(s1.listeners, d) && Lookup(s1, d) == Lookup(s, d)
      {
        assert d != c;
      }
      assert Lookup(s1, PropertyCell(n)) == Lookup(s, PropertyCell(n));
      ConsistentFrame(s, s1, n);
    }
  }

  lemma OnChangedKeeps(s: State, c: Cell, cleaning: set<Id>)
    requires Inv(s, cleaning)
    ensures Inv(OnChanged(s, c), cleaning) && Notified(s, OnChanged(s, c), c)
  {
    var s1 := OnChanged(s, c);
    MarkAllQueues(Marks(s.dirty, s.queue), s.level, s.defs.Keys, s.known - s.defs.Keys, ListenersOf(s.listeners, c),
                  cleaning);
    forall d, m | m in ListenersOf(s1.listeners, d)
      ensures m in ListenersOf(s.listeners, d)
    {
    }
    forall d
      ensures Lookup(s1, d) == Lookup(s, d)
    {
    }
    ClearedKeepsSettled(s, s1, c, cleaning);
  }

  // Writing a value and then notifying its listeners.
  lemma WriteKeeps(s: State, c: Cell, vs: map<Id, Value>, ms: map<Id, Value>, cleaning: set<Id>)
    requires Inv(s, cleaning) && !c.IndexCell?
    requires forall d :: d != c ==> Lookup(s.(values := vs, mutables := ms), d) == Lookup(s, d)
    requires c.PropertyCell? ==> c.p in s.dirty
    ensures var s1 := OnChanged(s.(values := vs, mutables := ms), c);
            && Inv(s1, cleaning)
            && s1 == OnChanged(s, c).(values := vs, mutables := ms)
            && Notified(s, OnChanged(s, c), c)
  {
    var s1 := OnChanged(s.(values := vs, mutables := ms), c);
    var t := OnChanged(s, c);
    OnChangedKeeps(s, c, cleaning);
    forall d | d != c
      ensures Lookup(s1, d) == Lookup(t, d)
    {
      assert Lookup(s.(values := vs, mutables := ms), d) == Lookup(s, d);
    }
    ClearedKeepsSettled(s, s1, c, cleaning);
  }
}
