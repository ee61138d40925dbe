/** The levels that order the queue: the one a property has after it was cleaned, and the one it is queued at. */
module DependencyGraphLevels {
  import opened Collections
  import opened DependencyGraphState
  import opened DependencyGraphInvariant
  import opened DependencyGraphSteps
  import opened DependencyGraphCleaning

  // Mutables and index cells are at level 0, a property at its own level.
  ghost function CellLevel(level: map<Id, int>, c: Cell): int {
    match c
    case PropertyCell(q) => if q in level then level[q] else 0
    case _ => 0
  }

  // On its path over the current contents the computation reads `c`.
  ghost predicate Reads(s: State, t: Reading, d: ORDINAL, c: Cell)
    requires Bounded(t, d)
    decreases d
  {
    t.Read? && (t.cell == c || Reads(s, t.next(Lookup(s, t.cell)), Below(t, d, Lookup(s, t.cell)), c))
  }

  // `l` is the greatest of `low` and the levels just above the cells that the computation reads.
  ghost predicate JustAbove(s: State, t: Reading, d: ORDINAL, level: map<Id, int>, low: int, l: int)
    requires Bounded(t, d)
  {
    && low <= l && (forall c :: Reads(s, t, d, c) ==> CellLevel(level, c) < l)
    && (l == low || exists c :: Reads(s, t, d, c) && l == CellLevel(level, c) + 1)
  }

  lemma {:induction false} ReadsIsBelow(s: State, t: Reading, d: ORDINAL, c: Cell, r: nat)
    requires Bounded(t, d) && Reads(s, t, d, c) && ReadsBelow(s.rank, s.indexRank, t, r)
    ensures CellBelow(s.rank, s.indexRank, c, r)
    decreases d
  {
    if t.cell != c {
      ReadsIsBelow(s, t.next(Lookup(s, t.cell)), Below(t, d, Lookup(s, t.cell)), c, r);
    }
  }

  lemma {:induction false} ReadsSame(s: State, s1: State, t: Reading, d: ORDINAL, c: Cell)
    requires Bounded(t, d) && forall x :: Lookup(s1, x) == Lookup(s, x)
    ensures Reads(s1, t, d, c) <==> Reads(s, t, d, c)
    decreases d
  {
    if t.Read? && t.cell != c {
      ReadsSame(s, s1, t.next(Lookup(s, t.cell)), Below(t, d, Lookup(s, t.cell)), c);
    }
  }

  lemma RegisterLevel(s: State, n: Id, c: Cell, l: int)
    ensures Register(s, n, c, l).level == s.level[n := Max(l + 1, if n in s.level then s.level[n] else 0)]
  {
  }

  lemma InitializeLevel(s: State, n: Id)
    ensures Initialize(s, n).level == s.level
  {
  }

  lemma GetCellLevel(s: State, n: Id, c: Cell)
    requires c != PropertyCell(n)
    ensures GetCell(s, n, c).level == s.level[n := Max(CellLevel(s.level, c) + 1, if n in s.level then s.level[n] else 0)]
  {
    match c
    case MutableCell(_) => RegisterLevel(s, n, c, 0);
    case PropertyCell(p) =>
      InitializeLevel(s, p);
      RegisterLevel(Initialize(s, p), n, c, LevelOf(s, p));
    case IndexCell(r) => RegisterLevel(EnsureKeyset(s, r), n, c, 0);
  }

  // Running a computation of `n` changes the level of `n` only.
  lemma {:induction false} RunReadingLevel(s: State, n: Id, t: Reading, d: ORDINAL, cleaning: set<Id>)
    requires Inv(s, cleaning) && n in s.initialized && n in s.rank && n in s.level
    requires Bounded(t, d) && ReadsBelow(s.rank, s.indexRank, t, s.rank[n])
    ensures var level := RunReading(s, n, t, d).0.level;
            n in level && level == s.level[n := level[n]] && JustAbove(s, t, d, s.level, s.level[n], level[n])
    decreases d
  {
    if t.Read? {
      var c := t.cell;
      var s1 := GetCell(s, n, c);
      var v := Lookup(s1, c);
      GetCellKeeps(s, n, c, cleaning);
      GetCellLevel(s, n, c);
      RunReadingLevel(s1, n, t.next(v), Below(t, d, v), cleaning);
      var level := RunReading(s1, n, t.next(v), Below(t, d, v)).0.level;
      LevelStep(s, s1, n, t, d, level[n]);
      SetTwice(s.level, n, s1.level[n], level[n]);
    }
  }

  lemma LevelStep(s: State, s1: State, n: Id, t: Reading, d: ORDINAL, l: int)
    requires t.Read? && Bounded(t, d) && n in s.rank && n in s.level && s1.rank == s.rank && s1.indexRank == s.indexRank
    requires ReadsBelow(s.rank, s.indexRank, t, s.rank[n]) && forall x :: Lookup(s1, x) == Lookup(s, x)
    requires s1.level == s.level[n := Max(CellLevel(s.level, t.cell) + 1, s.level[n])]
    requires JustAbove(s1, t.next(Lookup(s, t.cell)), Below(t, d, Lookup(s, t.cell)), s1.level, s1.level[n], l)
    ensures JustAbove(s, t, d, s.level, s.level[n], l)
  {
    var v := Lookup(s, t.cell);
    var rest, e := t.next(v), Below(t, d, v);
    forall c
      ensures Reads(s, t, d, c) <==> c == t.cell || Reads(s1, rest, e, c)
      ensures Reads(s1, rest, e, c) ==> CellLevel(s1.level, c) == CellLevel(s.level, c)
    {
      ReadsSame(s, s1, rest, e, c);
      if Reads(s, rest, e, c) {
        ReadsIsBelow(s, rest, e, c, s.rank[n]);
      }
    }
  }

  lemma OnChangedLevel(s: State, c: Cell)
    ensures OnChanged(s, c).level == s.level
  {
  }

  lemma UpdateKeysetLevel(s: State, r: Slot, k: Key, amount: int)
    ensures UpdateKeyset(s, r, k, amount).level == s.level
  {
    OnChangedLevel(EnsureKeyset(s, r), IndexCell(r));
  }

  lemma RunUpdaterLevel(s: State, n: Id, i: IndexId, p: Id, k: Key)
    ensures RunUpdater(s, n, i, p, k).level == GetCell(s, n, PropertyCell(p)).level
  {
    var s1 := GetCell(s, n, PropertyCell(p));
    var current := ValueOf(s1.values, p);
    if !(n in s1.lastValue && s1.lastValue[n] == current) {
      ReindexLevel(s1, n, i, k, current);
    }
  }

  lemma ReindexLevel(s: State, n: Id, i: IndexId, k: Key, current: Value)
    ensures Reindex(s, n, i, k, current).level == s.level
  {
    var s1 := if n in s.lastValue then UpdateKeyset(s, Slot(i, s.lastValue[n]), k, -1) else s;
    if n in s.lastValue {
      UpdateKeysetLevel(s, Slot(i, s.lastValue[n]), k, -1);
    }
    UpdateKeysetLevel(s1, Slot(i, current), k, 1);
  }

  // Storing and publishing the value leave the level that the computation ended with.
  lemma MakeCleanLevel(s: State, n: Id)
    requires n in s.defs && n in s.dirty
    ensures Clean(s, n).level == Compute(s.(level := s.level[n := MinLevelOf(s, n)]), n).0.level
  {
    var (t, v) := Compute(s.(level := s.level[n := MinLevelOf(s, n)]), n);
    OnChangedLevel(t.(values := t.values[n := v]), PropertyCell(n));
  }

  // The least level from which the computation starts does not change what it reads.
  lemma StartingLevel(s: State, n: Id, t: Reading, d: ORDINAL, low: int, l: int)
    requires Bounded(t, d) && n in s.rank && ReadsBelow(s.rank, s.indexRank, t, s.rank[n])
    requires var s0 := s.(level := s.level[n := low]); JustAbove(s0, t, d, s0.level, low, l)
    ensures JustAbove(s, t, d, s.level, low, l)
  {
    var s0 := s.(level := s.level[n := low]);
    forall c
      ensures Reads(s, t, d, c) <==> Reads(s0, t, d, c)
      ensures Reads(s, t, d, c) ==> CellLevel(s0.level, c) == CellLevel(s.level, c)
    {
      ReadsSame(s, s0, t, d, c);
      if Reads(s, t, d, c) {
        ReadsIsBelow(s, t, d, c, s.rank[n]);
      }
    }
  }

  lemma SetTwice(level: map<Id, int>, n: Id, low: int, l: int)
    ensures level[n := low][n := l] == level[n := l]
  {
  }

  lemma ComputedLevel(s: State, n: Id, body: Computation, low: int, s0: State, level: map<Id, int>)
    requires Inv(s, {n}) && n in s.defs && s.defs[n] == Computed(body)
    requires s0 == s.(level := s.level[n := low]) && level == RunReading(s0, n, body, Length(body)).0.level
    ensures n in level && level == s.level[n := level[n]] && JustAbove(s, body, Length(body), s.level, low, level[n])
  {
    assert Inv(s0, {n}) by {
      LevelKeeps(s, s0.level, {n});
    }
    assert DefinitionBelow(s.rank, s.indexRank, s.defs[n], s.rank[n]);
    RunReadingLevel(s0, n, body, Length(body), {n});
    SetTwice(s.level, n, low, level[n]);
    StartingLevel(s, n, body, Length(body), low, level[n]);
  }

  // A cleaned property ends at the greatest of its least level and the levels just above what it read.
  lemma CleanedLevel(s: State, n: Id, body: Computation)
    requires Inv(s, {n}) && n in s.defs && n in s.dirty && s.defs[n] == Computed(body)
    ensures var level := Clean(s, n).level;
            && n in level && level == s.level[n := level[n]]
            && JustAbove(s, body, Length(body), s.level, if n in s.minLevel then s.minLevel[n] else 0, level[n])
  {
    MakeCleanLevel(s, n);
    ComputedLevel(s, n, body, MinLevelOf(s, n), s.(level := s.level[n := MinLevelOf(s, n)]), Clean(s, n).level);
  }

  lemma RaisedTwice(before: map<Id, int>, n: Id, c: Cell, low: int, after: map<Id, int>)
    requires c != PropertyCell(n)
    requires var started := before[n := low]; after == started[n := Max(CellLevel(started, c) + 1, started[n])]
    ensures after == before[n := Max(CellLevel(before, c) + 1, low)]
  {
  }

  lemma CleanUpdaterLevel(s: State, n: Id, i: IndexId, p: Id, k: Key, s0: State)
    requires n in s.defs && n in s.dirty && s.defs[n] == Updater(i, p, k) && s0 == s.(level := s.level[n := MinLevelOf(s, n)])
    ensures Clean(s, n).level == GetCell(s0, n, PropertyCell(p)).level
  {
    MakeCleanLevel(s, n);
    RunUpdaterLevel(s0, n, i, p, k);
  }

  lemma StartedUpdaterLevel(s: State, n: Id, p: Id, s0: State, low: int)
    requires p != n && s0.level == s.level[n := low]
    ensures GetCell(s0, n, PropertyCell(p)).level == s.level[n := Max(CellLevel(s.level, PropertyCell(p)) + 1, low)]
  {
    GetCellLevel(s0, n, PropertyCell(p));
    RaisedTwice(s.level, n, PropertyCell(p), low, GetCell(s0, n, PropertyCell(p)).level);
  }

  // So does an updater, which reads its property.
  lemma CleanedUpdaterLevel(s: State, n: Id, i: IndexId, p: Id, k: Key)
    requires p != n && n in s.defs && n in s.dirty && s.defs[n] == Updater(i, p, k)
    ensures var low := if n in s.minLevel then s.minLevel[n] else 0;
            Clean(s, n).level == s.level[n := Max(CellLevel(s.level, PropertyCell(p)) + 1, low)]
  {
    var low := MinLevelOf(s, n);
    StartedUpdaterLevel(s, n, p, s.(level := s.level[n := low]), low);
    CleanUpdaterLevel(s, n, i, p, k, s.(level := s.level[n := low]));
  }

  // ----- The level a property is queued at -----

  ghost predicate QueuedAtItsLevel(q: map<int, seq<Id>>, level: map<Id, int>, n: Id) {
    var l := if n in level then level[n] else 0;
    l in q && n in q[l]
  }

  lemma PushQueuesAt(q: map<int, seq<Id>>, level: map<Id, int>, l: int, n: Id, m: Id)
    requires QueuedAtItsLevel(q, level, m)
    ensures QueuedAtItsLevel(Push(q, l, n), level, m)
  {
  }

  // Whatever a notification makes dirty is queued at the level it has then.
  lemma {:induction false} MarkedAtLevel(m: Marks, level: map<Id, int>, alive: set<Id>, ls: seq<Id>, n: Id)
    requires n in MarkAll(m, level, alive, ls).dirty && (n in m.dirty ==> QueuedAtItsLevel(m.queue, level, n))
    ensures QueuedAtItsLevel(MarkAll(m, level, alive, ls).queue, level, n)
    decreases |ls|
  {
    if ls != [] {
      var m1 := if ls[0] in alive then Mark(m, level, ls[0]) else m;
      if n in m1.dirty {
        MarkQueues(m, level, ls[0], n);
      }
      MarkedAtLevel(m1, level, alive, ls[1..], n);
    }
  }

  lemma MarkQueues(m: Marks, level: map<Id, int>, x: Id, n: Id)
    requires n in Mark(m, level, x).dirty && (n in m.dirty ==> QueuedAtItsLevel(m.queue, level, n))
    ensures QueuedAtItsLevel(Mark(m, level, x).queue, level, n)
  {
    if x !in m.dirty {
      var l := if x in level then level[x] else 0;
      if n != x {
        PushQueuesAt(m.queue, level, l, x, n);
      }
    }
  }
}
