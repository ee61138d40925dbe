/** Cleaning one property: its value becomes its meaning, the index stays exact, and only higher ranks are disturbed. */
module DependencyGraphCleaning {
  import opened DependencyGraphState
  import opened DependencyGraphInvariant
  import opened DependencyGraphSteps

  // What cleaning `n` may do to other properties: dirty those above it, or start new ones.
  ghost predicate Disturbs(s: State, s1: State, n: Id) {
    && n in s.rank
    && s1.defs == s.defs && s1.rank == s.rank && s1.indexRank == s.indexRank && s1.known == s.known
    && s1.mutables == s.mutables && s1.keyUpdaters == s.keyUpdaters
    && s.initialized <= s1.initialized && s.dirty <= s1.dirty
    && (s.lastValue.Keys <= s.defs.Keys ==> s1.lastValue.Keys <= s.defs.Keys)
    && forall m :: m in s1.dirty && m !in s.dirty ==> m !in s.initialized || (m in s.rank && s.rank[n] < s.rank[m])
  }

  lemma DisturbsTransitive(s: State, s1: State, s2: State, n: Id)
    requires Disturbs(s, s1, n) && Disturbs(s1, s2, n)
    ensures Disturbs(s, s2, n)
  {
  }

  // The cells whose subscribers are all above `n`.
  ghost predicate CellAtOrAbove(s: State, n: Id, c: Cell) {
    match c
    case MutableCell(_) => false
    case PropertyCell(p) => p == n
    case IndexCell(slot) => n in s.rank && slot.index in s.indexRank && s.rank[n] < s.indexRank[slot.index]
  }

  lemma NotifiedDisturbs(s: State, s1: State, c: Cell, n: Id, cleaning: set<Id>)
    requires Inv(s, cleaning) && n in s.defs && CellAtOrAbove(s, n, c)
    requires Notified(s, s1, c)
    ensures Disturbs(s, s1, n)
  {
    forall m | m in s1.dirty && m !in s.dirty
      ensures m in s.rank && s.rank[n] < s.rank[m]
    {
      assert m in ListenersOf(s.listeners, c) && m in s.defs;
    }
  }

  // ----- One adjustment of the index -----

  ghost predicate Adjusted(ks: map<Slot, map<Key, int>>, ks1: map<Slot, map<Key, int>>, r: Slot, k: Key, amount: int) {
    && (forall r', k' :: CountIn(KeysetOf(ks1, r'), k') ==
                         CountIn(KeysetOf(ks, r'), k') + (if r' == r && k' == k then amount else 0))
    && (NoZeros(ks) ==> NoZeros(ks1))
  }

  lemma SetCountCounts(m: map<Key, int>, k: Key, count: int, k': Key)
    ensures CountIn(SetCount(m, k, count), k') == if k' == k then count else CountIn(m, k')
  {
  }

  lemma AdjustKeysetsHere(ks: map<Slot, map<Key, int>>, r: Slot, k: Key, amount: int)
    ensures KeysetOf(AdjustKeysets(ks, r, k, amount), r) ==
            SetCount(KeysetOf(ks, r), k, CountIn(KeysetOf(ks, r), k) + amount)
    ensures forall r' :: r' != r ==> KeysetOf(AdjustKeysets(ks, r, k, amount), r') == KeysetOf(ks, r')
  {
  }

  lemma AdjustKeysetsAdjusts(ks: map<Slot, map<Key, int>>, r: Slot, k: Key, amount: int)
    ensures Adjusted(ks, AdjustKeysets(ks, r, k, amount), r, k, amount)
    ensures forall r' :: r' != r ==> KeysetOf(AdjustKeysets(ks, r, k, amount), r') == KeysetOf(ks, r')
  {
    var before, after := KeysetOf(ks, r), KeysetOf(AdjustKeysets(ks, r, k, amount), r);
    AdjustKeysetsHere(ks, r, k, amount);
    forall k'
      ensures CountIn(after, k') == CountIn(before, k') + (if k' == k then amount else 0)
    {
      SetCountCounts(before, k, CountIn(before, k) + amount, k');
    }
    if NoZeros(ks) {
      assert forall k' :: k' in after ==> after[k'] != 0;
    }
  }

  // What an adjustment leaves alone.
  ghost predicate OnlyIndexChanged(s: State, s1: State) {
    && s1.lastValue == s.lastValue && s1.values == s.values && s1.initialized == s.initialized
    && (forall c: Cell :: !c.IndexCell? ==> ListenersOf(s1.listeners, c) == ListenersOf(s.listeners, c))
  }

  // After its listeners were told, the content of an index cell may change.
  lemma KeysetsChange(t0: State, t: State, r: Slot, ks: map<Slot, map<Key, int>>, cleaning: set<Id>)
    requires Inv(t0, cleaning) && Inv(t, cleaning) && Notified(t0, t, IndexCell(r))
    requires forall r' :: r' != r ==> KeysetOf(ks, r') == KeysetOf(t0.keysets, r')
    ensures Inv(t.(keysets := ks), cleaning)
  {
    var s1 := t.(keysets := ks);
    forall d | d != IndexCell(r)
      ensures Lookup(s1, d) == Lookup(t0, d)
    {
    }
    ClearedKeepsSettled(t0, s1, IndexCell(r), cleaning);
  }

  lemma UpdateKeysetKeeps(s: State, n: Id, r: Slot, k: Key, amount: int, cleaning: set<Id>)
    requires Inv(s, cleaning) && n in s.defs && r.index in s.indexRank && s.rank[n] < s.indexRank[r.index]
    ensures Inv(UpdateKeyset(s, r, k, amount), cleaning) && Disturbs(s, UpdateKeyset(s, r, k, amount), n)
  {
    var c := IndexCell(r);
    var t0 := EnsureKeyset(s, r);
    var t := OnChanged(t0, c);
    EnsureKeysetKeeps(s, r, cleaning);
    OnChangedKeeps(t0, c, cleaning);
    NotifiedDisturbs(t0, t, c, n, cleaning);
    AdjustKeysetsHere(t.keysets, r, k, amount);
    KeysetsChange(t0, t, r, AdjustKeysets(t.keysets, r, k, amount), cleaning);
  }

  lemma UpdateKeysetFrame(s: State, r: Slot, k: Key, amount: int)
    ensures OnlyIndexChanged(s, UpdateKeyset(s, r, k, amount))
    ensures UpdateKeyset(s, r, k, amount).keysets == AdjustKeysets(EnsureKeyset(s, r).keysets, r, k, amount)
  {
  }

  lemma UpdateKeysetAdjusts(s: State, r: Slot, k: Key, amount: int)
    ensures var s1 := UpdateKeyset(s, r, k, amount);
            Adjusted(s.keysets, s1.keysets, r, k, amount) && OnlyIndexChanged(s, s1)
  {
    var ks0 := EnsureKeyset(s, r).keysets;
    UpdateKeysetFrame(s, r, k, amount);
    AdjustKeysetsAdjusts(ks0, r, k, amount);
    EnsuredKeysets(s, r);
  }

  lemma EnsuredKeysets(s: State, r: Slot)
    ensures var ks0 := EnsureKeyset(s, r).keysets;
            (forall r' :: KeysetOf(ks0, r') == KeysetOf(s.keysets, r')) && (NoZeros(s.keysets) ==> NoZeros(ks0))
  {
  }

  lemma CountDown(defs: map<Id, Definition>, lv: map<Id, Value>, ks: map<Slot, map<Key, int>>,
                  ks1: map<Slot, map<Key, int>>, n: Id)
    requires Counted(defs, lv, ks) && n in defs && defs[n].Updater? && n in lv
    requires Adjusted(ks, ks1, Slot(defs[n].index, lv[n]), defs[n].key, -1)
    ensures Counted(defs, lv - {n}, ks1)
  {
    forall r, k
      ensures CountIn(KeysetOf(ks1, r), k) == |Holders(defs, lv - {n}, r, k)|
    {
      assert Holders(defs, lv - {n}, r, k) == Holders(defs, lv, r, k) - {n};
      assert n in Holders(defs, lv, r, k) <==> r == Slot(defs[n].index, lv[n]) && k == defs[n].key;
    }
  }

  lemma HoldersUp(defs: map<Id, Definition>, lv: map<Id, Value>, n: Id, v: Value, r: Slot, k: Key)
    requires n in defs && defs[n].Updater? && n !in lv
    ensures |Holders(defs, lv[n := v], r, k)| ==
            |Holders(defs, lv, r, k)| + (if r == Slot(defs[n].index, v) && k == defs[n].key then 1 else 0)
  {
    var before, after := Holders(defs, lv, r, k), Holders(defs, lv[n := v], r, k);
    forall u | u != n
      ensures u in after <==> u in before
    {
      assert Holds(defs, lv[n := v], u, r, k) <==> Holds(defs, lv, u, r, k);
    }
    assert n !in before;
    assert after == if r == Slot(defs[n].index, v) && k == defs[n].key then before + {n} else before;
  }

  lemma CountUp(defs: map<Id, Definition>, lv: map<Id, Value>, ks: map<Slot, map<Key, int>>,
                ks1: map<Slot, map<Key, int>>, n: Id, v: Value)
    requires Counted(defs, lv, ks) && n in defs && defs[n].Updater? && n !in lv
    requires Adjusted(ks, ks1, Slot(defs[n].index, v), defs[n].key, 1)
    ensures Counted(defs, lv[n := v], ks1)
  {
    forall r, k
      ensures CountIn(KeysetOf(ks1, r), k) == |Holders(defs, lv[n := v], r, k)|
    {
      HoldersUp(defs, lv, n, v, r, k);
    }
  }

  lemma RecordKeeps(s: State, n: Id, lv: map<Id, Value>, cleaning: set<Id>)
    requires Inv(s, cleaning) && n in s.dirty
    requires forall m :: m in s.lastValue && m != n ==> m in lv && lv[m] == s.lastValue[m]
    ensures Inv(s.(lastValue := lv), cleaning)
  {
    UnseenKeepsSettled(s, s.(lastValue := lv));
  }

  lemma TakeOutKeeps(s: State, n: Id, i: IndexId, k: Key, cleaning: set<Id>)
    requires Inv(s, cleaning) && n in s.defs && s.defs[n].Updater? && s.defs[n].index == i && s.defs[n].key == k
    requires Counted(s.defs, s.lastValue, s.keysets)
    ensures var s1 := if n in s.lastValue then UpdateKeyset(s, Slot(i, s.lastValue[n]), k, -1) else s;
            && Inv(s1, cleaning) && Disturbs(s, s1, n) && OnlyIndexChanged(s, s1)
            && Counted(s1.defs, s.lastValue - {n}, s1.keysets)
  {
    if n in s.lastValue {
      UpdateKeysetKeeps(s, n, Slot(i, s.lastValue[n]), k, -1, cleaning);
      UpdateKeysetAdjusts(s, Slot(i, s.lastValue[n]), k, -1);
      CountDown(s.defs, s.lastValue, s.keysets, UpdateKeyset(s, Slot(i, s.lastValue[n]), k, -1).keysets, n);
    } else {
      assert s.lastValue - {n} == s.lastValue;
    }
  }

  lemma PutInCounts(s: State, n: Id, i: IndexId, k: Key, v: Value, ks1: map<Slot, map<Key, int>>)
    requires n in s.defs && s.defs[n].Updater? && s.defs[n].index == i && s.defs[n].key == k
    requires Counted(s.defs, s.lastValue - {n}, s.keysets) && Adjusted(s.keysets, ks1, Slot(i, v), k, 1)
    ensures Counted(s.defs, s.lastValue[n := v], ks1)
  {
    CountUp(s.defs, s.lastValue - {n}, s.keysets, ks1, n, v);
    assert s.lastValue[n := v] == (s.lastValue - {n})[n := v];
  }

  lemma PutInKeeps(s: State, n: Id, i: IndexId, k: Key, v: Value)
    requires Inv(s, {n}) && n in s.defs && s.defs[n].Updater? && s.defs[n].index == i && s.defs[n].key == k
    requires Counted(s.defs, s.lastValue - {n}, s.keysets)
    ensures var s1 := UpdateKeyset(s, Slot(i, v), k, 1);
            var s2 := s1.(lastValue := s1.lastValue[n := v]);
            && Inv(s2, {n}) && Disturbs(s, s2, n) && OnlyIndexChanged(s, s1)
            && Counted(s2.defs, s2.lastValue, s2.keysets)
  {
    var s1 := UpdateKeyset(s, Slot(i, v), k, 1);
    UpdateKeysetKeeps(s, n, Slot(i, v), k, 1, {n});
    UpdateKeysetAdjusts(s, Slot(i, v), k, 1);
    PutInCounts(s, n, i, k, v, s1.keysets);
    RecordKeeps(s1, n, s1.lastValue[n := v], {n});
  }

  lemma ReindexKeeps(s: State, n: Id, i: IndexId, k: Key, v: Value)
    requires Inv(s, {n}) && n in s.defs && s.defs[n].Updater? && s.defs[n].index == i && s.defs[n].key == k
    requires Counted(s.defs, s.lastValue, s.keysets)
    ensures var s1 := Reindex(s, n, i, k, v);
            && Inv(s1, {n}) && Disturbs(s, s1, n) && s1.values == s.values && s1.initialized == s.initialized
            && (forall c: Cell :: !c.IndexCell? ==> ListenersOf(s1.listeners, c) == ListenersOf(s.listeners, c))
            && n in s1.lastValue && s1.lastValue[n] == v && Counted(s1.defs, s1.lastValue, s1.keysets)
  {
    var t := if n in s.lastValue then UpdateKeyset(s, Slot(i, s.lastValue[n]), k, -1) else s;
    TakeOutKeeps(s, n, i, k, {n});
    PutInKeeps(t, n, i, k, v);
    DisturbsTransitive(s, t, Reindex(s, n, i, k, v), n);
  }

  lemma StirredDisturbs(s: State, t: State, n: Id)
    requires Stirred(s, t) && n in s.rank
    ensures Disturbs(s, t, n)
  {
  }

  // The updater's read of its property.
  lemma UpdaterReads(s: State, n: Id, p: Id)
    requires Inv(s, {n}) && n in s.defs && CellBelow(s.rank, s.indexRank, PropertyCell(p), s.rank[n])
    requires Counted(s.defs, s.lastValue, s.keysets)
    ensures var s1 := GetCell(s, n, PropertyCell(p));
            && Inv(s1, {n}) && Disturbs(s, s1, n) && s1.values == s.values && s1.lastValue == s.lastValue
            && n in ListenersOf(s1.listeners, PropertyCell(p)) && p in s1.initialized
            && Counted(s1.defs, s1.lastValue, s1.keysets)
  {
    var s1 := GetCell(s, n, PropertyCell(p));
    GetCellKeeps(s, n, PropertyCell(p), {n});
    StirredDisturbs(s, s1, n);
    StirredCounts(s, s1);
  }

  lemma RunUpdaterKeeps(s: State, n: Id, i: IndexId, p: Id, k: Key)
    requires Inv(s, {n}) && n in s.defs && s.defs[n] == Updater(i, p, k) && Counted(s.defs, s.lastValue, s.keysets)
    ensures var s1 := RunUpdater(s, n, i, p, k);
            && Inv(s1, {n}) && Disturbs(s, s1, n) && s1.values == s.values
            && n in ListenersOf(s1.listeners, PropertyCell(p)) && p in s1.initialized
            && n in s1.lastValue && s1.lastValue[n] == ValueOf(s1.values, p)
            && Counted(s1.defs, s1.lastValue, s1.keysets)
  {
    var s1 := GetCell(s, n, PropertyCell(p));
    UpdaterReads(s, n, p);
    var v := ValueOf(s1.values, p);
    if !(n in s1.lastValue && s1.lastValue[n] == v) {
      ReindexKeeps(s1, n, i, k, v);
      DisturbsTransitive(s, s1, Reindex(s1, n, i, k, v), n);
    }
  }

  // ----- Cleaning -----

  lemma LevelKeeps(s: State, level: map<Id, int>, cleaning: set<Id>)
    requires Inv(s, cleaning)
    ensures Inv(s.(level := level), cleaning)
  {
    UnseenKeepsSettled(s, s.(level := level));
  }

  // `n` would be consistent if its value were `v`.
  ghost predicate Would(s: State, n: Id, v: Value) {
    n in s.defs &&
    match s.defs[n]
    case Computed(body) => Subscribed(s, n, body, Length(body)) && v == Eval(s, body, Length(body))
    case Updater(_, p, _) =>
      && n in ListenersOf(s.listeners, PropertyCell(p)) && p in s.initialized
      && n in s.lastValue && s.lastValue[n] == ValueOf(s.values, p)
      && v == Num(0)
  }

  lemma ComputeKeeps(s: State, n: Id)
    requires Inv(s, {n}) && n in s.defs && Counted(s.defs, s.lastValue, s.keysets)
    ensures var (t, v) := Compute(s, n);
            && Inv(t, {n}) && Disturbs(s, t, n) && Would(t, n, v) && Counted(t.defs, t.lastValue, t.keysets)
  {
    match s.defs[n]
    case Computed(body) =>
      RunReadingKeeps(s, n, body, Length(body), {n});
      var t := RunReading(s, n, body, Length(body)).0;
      EvalStirred(s, t, body, Length(body));
      StirredCounts(s, t);
    case Updater(i, p, k) =>
      RunUpdaterKeeps(s, n, i, p, k);
  }

  lemma StirredCounts(s: State, t: State)
    requires Stirred(s, t) && Counted(s.defs, s.lastValue, s.keysets)
    ensures Counted(t.defs, t.lastValue, t.keysets)
  {
    forall r
      ensures KeysetOf(t.keysets, r) == KeysetOf(s.keysets, r)
    {
      assert Lookup(t, IndexCell(r)) == Lookup(s, IndexCell(r));
    }
  }

  // A property does not subscribe to itself, so publishing its new value leaves it consistent.
  lemma PublishedIsConsistent(t: State, s1: State, n: Id, v: Value)
    requires Inv(t, {n}) && Would(t, n, v)
    requires s1.defs == t.defs && s1.rank == t.rank && s1.indexRank == t.indexRank && s1.lastValue == t.lastValue
    requires t.initialized <= s1.initialized && ValueOf(s1.values, n) == v
    requires forall c :: c != PropertyCell(n) ==>
               ListenersOf(s1.listeners, c) == ListenersOf(t.listeners, c) && Lookup(s1, c) == Lookup(t, c)
    ensures Consistent(s1, n)
  {
    forall c | n in ListenersOf(t.listeners, c)
      ensures c != PropertyCell(n)
    {
      assert CellBelow(t.rank, t.indexRank, c, t.rank[n]);
    }
    match t.defs[n]
    case Computed(body) =>
      ReadingFrame(t, s1, n, body, Length(body), t.rank[n]);
    case Updater(_, p, _) =>
      assert Lookup(s1, PropertyCell(p)) == Lookup(t, PropertyCell(p));
  }

  lemma PublishKeeps(t: State, n: Id, v: Value)
    requires Inv(t, {n}) && Would(t, n, v) && Counted(t.defs, t.lastValue, t.keysets)
    ensures var s1 := OnChanged(t.(values := t.values[n := v]), PropertyCell(n));
            && Inv(s1, {n}) && Disturbs(t, s1, n) && Consistent(s1, n) && Counted(s1.defs, s1.lastValue, s1.keysets)
  {
    var c := PropertyCell(n);
    var vs := t.values[n := v];
    forall d | d != c
      ensures Lookup(t.(values := vs, mutables := t.mutables), d) == Lookup(t, d)
    {
    }
    WriteKeeps(t, c, vs, t.mutables, {n});
    var s1 := OnChanged(t.(values := vs), c);
    assert s1 == OnChanged(t.(values := vs, mutables := t.mutables), c);
    NotifiedDisturbs(t, OnChanged(t, c), c, n, {n});
    forall d | d != c
      ensures ListenersOf(s1.listeners, d) == ListenersOf(t.listeners, d) && Lookup(s1, d) == Lookup(t, d)
    {
    }
    PublishedIsConsistent(t, s1, n, v);
  }

  lemma MakeCleanKeeps(s: State, n: Id)
    requires Inv(s, {n}) && n in s.defs && Counted(s.defs, s.lastValue, s.keysets)
    ensures var s1 := MakeClean(s, n);
            && Inv(s1, {n}) && Disturbs(s, s1, n) && Consistent(s1, n) && Counted(s1.defs, s1.lastValue, s1.keysets)
  {
    var s0 := s.(level := s.level[n := MinLevelOf(s, n)]);
    LevelKeeps(s, s0.level, {n});
    ComputeKeeps(s0, n);
    var (t, v) := Compute(s0, n);
    if v == ValueOf(t.values, n) {
      PublishedIsConsistent(t, t, n, v);
    } else {
      PublishKeeps(t, n, v);
      DisturbsTransitive(s, t, MakeClean(s, n), n);
    }
  }

  // The flag is cleared last, when the property is consistent.
  lemma UnmarkKeeps(t: State, n: Id)
    requires Inv(t, {n}) && n in t.defs && Consistent(t, n)
    ensures Inv(t.(dirty := t.dirty - {n}), {})
  {
    var s1 := t.(dirty := t.dirty - {n});
    assert s1.dirty - {} == t.dirty - {n};
    forall c
      ensures Lookup(s1, c) == Lookup(t, c)
    {
    }
    forall m | m in s1.initialized && m !in s1.dirty
      ensures Consistent(s1, m)
    {
      assert Consistent(t, m);
      ConsistentFrame(t, s1, m);
    }
  }

  lemma CleanKeeps(s: State, n: Id)
    requires Inv(s, {n}) && n in s.defs && Indexed(s)
    ensures Inv(Clean(s, n), {}) && Indexed(Clean(s, n)) && n !in Clean(s, n).dirty
    ensures Disturbs(s, MakeClean(s, n), n) && Clean(s, n) == MakeClean(s, n).(dirty := MakeClean(s, n).dirty - {n})
  {
    MakeCleanKeeps(s, n);
    var t := MakeClean(s, n);
    assert n in s.dirty;
    UnmarkKeeps(t, n);
  }

  // ----- Whom a cleaning makes dirty -----

  lemma RegisterListeners(s: State, n: Id, c: Cell, l: int, other: Cell)
    requires c != other
    ensures ListenersOf(Register(s, n, c, l).listeners, other) == ListenersOf(s.listeners, other)
  {
  }

  lemma GetCellListeners(s: State, n: Id, c: Cell, other: Cell)
    requires c != other
    ensures ListenersOf(GetCell(s, n, c).listeners, other) == ListenersOf(s.listeners, other)
  {
    match c
    case MutableCell(_) => RegisterListeners(s, n, c, 0, other);
    case PropertyCell(p) => RegisterListeners(Initialize(s, p), n, c, LevelOf(Initialize(s, p), p), other);
    case IndexCell(r) => RegisterListeners(EnsureKeyset(s, r), n, c, 0, other);
  }

  // A computation subscribes to nothing at its own rank or above.
  lemma {:induction false} RunReadingListeners(s: State, n: Id, t: Reading, d: ORDINAL, rank: map<Id, nat>,
                                               indexRank: map<IndexId, nat>, c: Cell, r: nat)
    requires Bounded(t, d) && ReadsBelow(rank, indexRank, t, r) && !CellBelow(rank, indexRank, c, r)
    ensures ListenersOf(RunReading(s, n, t, d).0.listeners, c) == ListenersOf(s.listeners, c)
    decreases d
  {
    if t.Read? {
      var s1 := GetCell(s, n, t.cell);
      var v := Lookup(s1, t.cell);
      GetCellListeners(s, n, t.cell, c);
      RunReadingListeners(s1, n, t.next(v), Below(t, d, v), rank, indexRank, c, r);
    }
  }

  // What the computation has done when its value is published.
  lemma ComputedStirs(s: State, n: Id, body: Computation, s0: State)
    requires Inv(s, {n}) && n in s.defs && s.defs[n] == Computed(body)
    requires s0 == s.(level := s.level[n := MinLevelOf(s, n)])
    ensures var t := Compute(s0, n).0;
            && Inv(t, {n}) && t.defs == s.defs && t.values == s.values && s.initialized <= t.initialized
            && t.dirty == s.dirty + (t.initialized - s.initialized)
            && ListenersOf(t.listeners, PropertyCell(n)) == ListenersOf(s.listeners, PropertyCell(n))
  {
    LevelKeeps(s, s0.level, {n});
    assert n in s.dirty && DefinitionBelow(s.rank, s.indexRank, s.defs[n], s.rank[n]);
    RunReadingKeeps(s0, n, body, Length(body), {n});
    RunReadingListeners(s0, n, body, Length(body), s.rank, s.indexRank, PropertyCell(n), s.rank[n]);
  }

  // What publishing the value of `n` and clearing its flag make dirty.
  lemma PublishingSpreads(t: State, n: Id, v: Value)
    requires Inv(t, {n})
    ensures var t1 := OnChanged(t.(values := t.values[n := v]), PropertyCell(n));
            && t1.initialized == t.initialized && t1.values == t.values[n := v]
            && t1.dirty == t.dirty + set m | m in ListenersOf(t.listeners, PropertyCell(n)) && m in t.defs
  {
    MarkAllQueues(Marks(t.dirty, t.queue), t.level, t.defs.Keys, t.known - t.defs.Keys,
                  ListenersOf(t.listeners, PropertyCell(n)), {n});
  }

  // The listeners of a cleaned property become dirty exactly when its value changes; besides them only properties that the
  // computation started do.
  lemma CleaningSpreads(s: State, n: Id, body: Computation)
    requires Inv(s, {n}) && n in s.defs && s.defs[n] == Computed(body)
    ensures var t := Clean(s, n);
            var before, after := if n in s.values then s.values[n] else Num(0), if n in t.values then t.values[n] else Num(0);
            && s.initialized <= t.initialized
            && forall m :: m in t.dirty <==> m != n && (m in s.dirty || m in t.initialized - s.initialized ||
                                                        (after != before && m in s.defs &&
                                                         HasListener(s.listeners, PropertyCell(n), m)))
  {
    var s0 := s.(level := s.level[n := MinLevelOf(s, n)]);
    ComputedStirs(s, n, body, s0);
    var (t, v) := Compute(s0, n);
    PublishingSpreads(t, n, v);
    assert n in s.dirty;
  }
}
