/** What client code does between recomputes keeps the invariant: writing mutables, binding, indexing and
    destroying properties. */
module DependencyGraphClients {
  import opened DependencyGraphState
  import opened DependencyGraphInvariant
  import opened DependencyGraphSteps
  import opened DependencyGraphCleaning

  lemma OtherCells(s: State, m: Id, v: Value, c: Cell)
    requires c != MutableCell(m)
    ensures Lookup(s.(values := s.values, mutables := s.mutables[m := v]), c) == Lookup(s, c)
  {
  }

  lemma WriteMutableKeeps(s: State, m: Id, v: Value)
    requires Inv(s, {}) && Indexed(s)
    ensures var s1 := OnChanged(s.(values := s.values, mutables := s.mutables[m := v]), MutableCell(m));
            Inv(s1, {}) && Indexed(s1)
  {
    forall c | c != MutableCell(m)
      ensures Lookup(s.(values := s.values, mutables := s.mutables[m := v]), c) == Lookup(s, c)
    {
      OtherCells(s, m, v, c);
    }
    WriteKeeps(s, MutableCell(m), s.values, s.mutables[m := v], {});
  }

  lemma SetMutableKeeps(s: State, m: Id, v: Value, force: bool)
    requires Inv(s, {}) && Indexed(s)
    ensures Inv(SetMutable(s, m, v, force), {}) && Indexed(SetMutable(s, m, v, force))
  {
    WriteMutableKeeps(s, m, v);
  }

  ghost predicate SpreadsTo(s: State, t: State, c: Cell) {
    forall n :: n in t.dirty <==> n in s.dirty || (n in s.defs && HasListener(s.listeners, c, n))
  }

  // A write of a differing value, or a forced one, is stored and makes exactly the live listeners dirty; any other does
  // nothing.
  ghost predicate Written(s: State, t: State, m: Id, v: Value, force: bool) {
    if force || v != (if m in s.mutables then s.mutables[m] else Num(0)) then
      t.mutables == s.mutables[m := v] && SpreadsTo(s, t, MutableCell(m))
    else t == s
  }

  lemma SetMutableSays(s: State, m: Id, v: Value, force: bool)
    requires Inv(s, {})
    ensures Written(s, SetMutable(s, m, v, force), m, v, force)
  {
    if force || v != (if m in s.mutables then s.mutables[m] else Num(0)) {
      WriteMutableSays(s, m, v);
    }
  }

  lemma WriteMutableSays(s: State, m: Id, v: Value)
    requires Inv(s, {})
    ensures var t := OnChanged(s.(mutables := s.mutables[m := v]), MutableCell(m));
            t.mutables == s.mutables[m := v] && SpreadsTo(s, t, MutableCell(m))
  {
    var ls := ListenersOf(s.listeners, MutableCell(m));
    MarkAllQueues(Marks(s.dirty, s.queue), s.level, s.defs.Keys, s.known - s.defs.Keys, ls, {});
  }

  // Levels only schedule: nothing else depends on them.
  lemma SetMinLevelKeeps(s: State, n: Id, l: int)
    requires Inv(s, {}) && Indexed(s)
    ensures Inv(SetMinLevel(s, n, l), {}) && Indexed(SetMinLevel(s, n, l))
  {
    UnseenKeepsSettled(s, SetMinLevel(s, n, l));
  }

  lemma {:induction false} ReadsBelowWider(rank: map<Id, nat>, rank1: map<Id, nat>, indexRank: map<IndexId, nat>,
                                           t: Reading, d: ORDINAL, r: nat)
    requires Bounded(t, d) && ReadsBelow(rank, indexRank, t, r)
    requires forall q :: q in rank ==> q in rank1 && rank1[q] == rank[q]
    ensures ReadsBelow(rank1, indexRank, t, r)
    decreases d
  {
    if t.Read? {
      forall v
        ensures ReadsBelow(rank1, indexRank, t.next(v), r)
      {
        ReadsBelowWider(rank, rank1, indexRank, t.next(v), Below(t, d, v), r);
      }
    }
  }

  lemma BindRanked(s: State, n: Id, def: Definition, r: nat)
    requires Ranked(s.defs, s.rank, s.indexRank) && n !in s.defs && DefinitionBelow(s.rank, s.indexRank, def, r)
    ensures Ranked(s.defs[n := def], s.rank[n := r], s.indexRank)
  {
    var rank1 := s.rank[n := r];
    forall m | m in s.defs[n := def]
      ensures DefinitionBelow(rank1, s.indexRank, s.defs[n := def][m], rank1[m])
    {
      var d := if m == n then def else s.defs[m];
      var rm := if m == n then r else s.rank[m];
      assert DefinitionBelow(s.rank, s.indexRank, d, rm);
      if d.Computed? {
        ReadsBelowWider(s.rank, rank1, s.indexRank, d.body, Length(d.body), rm);
      }
    }
  }

  lemma BindSubscribers(s: State, n: Id, r: nat)
    requires Subscribers(s.listeners, s.known, s.initialized, s.rank, s.indexRank) && n !in s.known
    requires s.rank.Keys <= s.known
    ensures Subscribers(s.listeners, s.known + {n}, s.initialized, s.rank[n := r], s.indexRank)
  {
    forall c, m | m in ListenersOf(s.listeners, c) && m in s.rank[n := r]
      ensures m in s.initialized && CellBelow(s.rank[n := r], s.indexRank, c, s.rank[n := r][m])
    {
      assert m in s.known && m in s.rank;
    }
  }

  lemma BindSettled(s: State, n: Id, def: Definition, r: nat, ku: map<Id, seq<Id>>)
    requires Inv(s, {}) && n !in s.known && DefinitionBelow(s.rank, s.indexRank, def, r)
    ensures s.initialized <= Bind(s, n, def, r, ku).defs.Keys && Settled(Bind(s, n, def, r, ku))
  {
    BindRanked(s, n, def, r);
    UnseenKeepsSettled(s, Bind(s, n, def, r, ku));
  }

  lemma BindKeeps(s: State, n: Id, def: Definition, r: nat, ku: map<Id, seq<Id>>)
    requires Inv(s, {}) && n !in s.known && DefinitionBelow(s.rank, s.indexRank, def, r)
    ensures Inv(Bind(s, n, def, r, ku), {})
  {
    BindRanked(s, n, def, r);
    BindSubscribers(s, n, r);
    BindSettled(s, n, def, r, ku);
  }

  lemma BindCounts(s: State, n: Id, def: Definition, r: nat)
    requires Counted(s.defs, s.lastValue, s.keysets) && n !in s.defs && n !in s.lastValue
    ensures Counted(s.defs[n := def], s.lastValue, s.keysets)
  {
    forall v, k
      ensures CountIn(KeysetOf(s.keysets, v), k) == |Holders(s.defs[n := def], s.lastValue, v, k)|
    {
      forall u
        ensures u in Holders(s.defs[n := def], s.lastValue, v, k) <==> u in Holders(s.defs, s.lastValue, v, k)
      {
        assert Holds(s.defs[n := def], s.lastValue, u, v, k) <==> Holds(s.defs, s.lastValue, u, v, k);
      }
      assert Holders(s.defs[n := def], s.lastValue, v, k) == Holders(s.defs, s.lastValue, v, k);
    }
  }

  lemma BindRegistered(s: State, n: Id, body: Computation)
    requires Registered(s.defs, s.initialized, s.lastValue, s.keyUpdaters) && n !in s.defs
    ensures Registered(s.defs[n := Computed(body)], s.initialized, s.lastValue, s.keyUpdaters)
  {
    var defs := s.defs[n := Computed(body)];
    forall p | p in s.keyUpdaters
      ensures p in defs && defs[p].Computed? && UpdatersFor(defs, s.keyUpdaters[p], p)
    {
      assert UpdatersFor(s.defs, s.keyUpdaters[p], p);
    }
  }

  lemma BindPropertyKeeps(s: State, n: Id, body: Computation, r: nat)
    requires Inv(s, {}) && Indexed(s) && n !in s.known && ReadsBelow(s.rank, s.indexRank, body, r)
    ensures var s1 := Bind(s, n, Computed(body), r, s.keyUpdaters); Inv(s1, {}) && Indexed(s1)
  {
    assert Inv(Bind(s, n, Computed(body), r, s.keyUpdaters), {}) by {
      BindKeeps(s, n, Computed(body), r, s.keyUpdaters);
    }
    BindCounts(s, n, Computed(body), r);
    BindRegistered(s, n, body);
  }

  lemma InitializeFrame(s: State, p: Id)
    ensures var s1 := Initialize(s, p);
            s1 == s.(initialized := s.initialized + {p}, dirty := s1.dirty, queue := s1.queue)
  {
    assert p in s.initialized ==> s.initialized == s.initialized + {p};
  }

  lemma RegisteredWider(defs: map<Id, Definition>, initialized: set<Id>, more: set<Id>, lastValue: map<Id, Value>,
                        keyUpdaters: map<Id, seq<Id>>)
    requires Registered(defs, initialized, lastValue, keyUpdaters) && initialized <= more
    ensures Registered(defs, more, lastValue, keyUpdaters)
  {
  }

  lemma GetPropertyKeeps(s: State, p: Id)
    requires Inv(s, {}) && Indexed(s) && p in s.defs
    ensures Inv(Initialize(s, p), {}) && Indexed(Initialize(s, p))
  {
    assert Inv(Initialize(s, p), {}) by {
      InitializeKeeps(s, p, {});
    }
    InitializeFrame(s, p);
    RegisteredWider(s.defs, s.initialized, s.initialized + {p}, s.lastValue, s.keyUpdaters);
  }

  lemma EnsureKeysetKeepsIndex(s: State, r: Slot)
    requires Inv(s, {}) && Indexed(s)
    ensures Inv(EnsureKeyset(s, r), {}) && Indexed(EnsureKeyset(s, r))
  {
    EnsuredKeysets(s, r);
    assert Inv(EnsureKeyset(s, r), {}) by {
      EnsureKeysetKeeps(s, r, {});
    }
  }

  // The property is in the index, which keeps one updater for it.
  predicate IsListed(defs: map<Id, Definition>, keyUpdaters: map<Id, seq<Id>>, p: Id, i: IndexId) {
    exists u :: u in UpdatersOf(keyUpdaters, p) && u in defs && defs[u].Updater? && defs[u].index == i
  }

  lemma RegisterUpdater(s: State, i: IndexId, p: Id, key: Key, u: Id)
    requires Registered(s.defs, s.initialized, s.lastValue, s.keyUpdaters) && u !in s.defs
    requires p in s.defs && s.defs[p].Computed?
    ensures var ku := s.keyUpdaters[p := UpdatersOf(s.keyUpdaters, p) + [u]];
            Registered(s.defs[u := Updater(i, p, key)], s.initialized + {u}, s.lastValue, ku)
  {
    var us, defs := UpdatersOf(s.keyUpdaters, p) + [u], s.defs[u := Updater(i, p, key)];
    var ku := s.keyUpdaters[p := us];
    assert UpdatersFor(defs, us, p);
    forall q | q in ku
      ensures q in defs && defs[q].Computed? && UpdatersFor(defs, ku[q], q)
    {
      assert q != p ==> UpdatersFor(s.defs, s.keyUpdaters[q], q);
    }
    forall x | x in defs && defs[x].Updater?
      ensures x in UpdatersOf(ku, defs[x].property)
    {
      assert x != u ==> x in UpdatersOf(s.keyUpdaters, s.defs[x].property);
    }
  }

  lemma IndexAddIndexed(s: State, i: IndexId, p: Id, key: Key, u: Id)
    requires Indexed(s) && u !in s.defs && p in s.defs && s.defs[p].Computed? && p in s.rank
    ensures Indexed(IndexAdd(s, i, p, key, u))
  {
    var s1 := IndexAdd(s, i, p, key, u);
    InitializeFrame(BindUpdater(s, i, p, key, u), u);
    assert Counted(s1.defs, s1.lastValue, s1.keysets) by {
      BindCounts(s, u, Updater(i, p, key), s.rank[p] + 1);
    }
    assert Registered(s1.defs, s1.initialized, s1.lastValue, s1.keyUpdaters) by {
      RegisterUpdater(s, i, p, key, u);
    }
  }

  lemma IndexAddKeeps(s: State, i: IndexId, p: Id, key: Key, u: Id)
    requires Inv(s, {}) && Indexed(s) && u !in s.known
    requires p in s.defs && s.defs[p].Computed? && i in s.indexRank && s.rank[p] + 1 < s.indexRank[i]
    ensures Inv(IndexAdd(s, i, p, key, u), {}) && Indexed(IndexAdd(s, i, p, key, u))
  {
    BindKeeps(s, u, Updater(i, p, key), s.rank[p] + 1, s.keyUpdaters[p := UpdatersOf(s.keyUpdaters, p) + [u]]);
    InitializeKeeps(BindUpdater(s, i, p, key, u), u, {});
    IndexAddIndexed(s, i, p, key, u);
  }

  // The updater is started and queued at once.
  lemma IndexAddSays(s: State, i: IndexId, p: Id, key: Key, u: Id)
    requires Inv(s, {}) && u !in s.known && p in s.rank
    ensures var t := IndexAdd(s, i, p, key, u);
            t.defs == s.defs[u := Updater(i, p, key)] && u in t.initialized && u in t.dirty
  {
  }

  lemma KeyUpdatersKeep(s: State, ku: map<Id, seq<Id>>)
    requires Inv(s, {})
    ensures Inv(s.(keyUpdaters := ku), {})
  {
    UnseenKeepsSettled(s, s.(keyUpdaters := ku));
  }

  // ----- Destruction -----

  // `p` can be destroyed: it is not queued, and no other live computation can read it.
  ghost predicate Unused(s: State, p: Id) {
    && p in s.defs && s.defs[p].Computed?
    && p !in s.dirty
    && (forall n :: n in s.defs && n in s.rank && n !in Gone(s.keyUpdaters, p) ==>
          DefinitionBelow(s.rank - Gone(s.keyUpdaters, p), s.indexRank, s.defs[n], s.rank[n]))
  }

  lemma ForgetSettled(s: State, gone: set<Id>)
    requires Inv(s, {})
    requires forall n :: n in s.defs && n !in gone ==>
               DefinitionBelow(s.rank - gone, s.indexRank, s.defs[n], s.rank[n])
    ensures Forget(s, gone).initialized <= Forget(s, gone).defs.Keys && Settled(Forget(s, gone))
  {
    var s1 := Forget(s, gone);
    forall m | m in s1.initialized && m !in s1.dirty
      ensures Consistent(s1, m)
    {
      assert Consistent(s, m);
      ForgetConsistent(s, gone, m);
    }
  }

  lemma ForgetSubscribers(s: State, gone: set<Id>)
    requires Subscribers(s.listeners, s.known, s.initialized, s.rank, s.indexRank)
    ensures var s1 := Forget(s, gone);
            Subscribers(s1.listeners, s1.known, s1.initialized, s1.rank, s1.indexRank)
  {
    var s1 := Forget(s, gone);
    forall c, m | m in ListenersOf(s1.listeners, c)
      ensures m in ListenersOf(s.listeners, c) && (c.PropertyCell? ==> c.p !in gone)
    {
    }
  }

  // What is queued and destroyed stays in the queue as a dead entry.
  lemma ForgetQueues(s: State, gone: set<Id>)
    requires Queues(s.queue, s.dirty - {}, s.known - s.defs.Keys) && gone <= s.defs.Keys <= s.known
    ensures Queues(s.queue, s.dirty - gone - {}, s.known - (s.defs - gone).Keys)
  {
    assert s.known - (s.defs - gone).Keys == s.known - s.defs.Keys + gone;
    forall n | n in s.dirty - gone - {}
      ensures exists l, i :: QueuedAt(s.queue, l, i, n)
    {
      assert n in s.dirty - {};
    }
  }

  lemma ForgetKeeps(s: State, gone: set<Id>)
    requires Inv(s, {}) && gone <= s.defs.Keys
    requires forall n :: n in s.defs && n !in gone ==>
               DefinitionBelow(s.rank - gone, s.indexRank, s.defs[n], s.rank[n])
    ensures Inv(Forget(s, gone), {})
  {
    ForgetQueues(s, gone);
    ForgetSettled(s, gone);
    ForgetSubscribers(s, gone);
  }

  // Only cells of the properties that are gone change, and `m` reads none of them.
  lemma ForgetConsistent(s: State, gone: set<Id>, m: Id)
    requires m in s.defs && m !in gone && Consistent(s, m) && s.rank.Keys == s.defs.Keys && s.initialized <= s.defs.Keys
    requires DefinitionBelow(s.rank - gone, s.indexRank, s.defs[m], s.rank[m])
    ensures m in Forget(s, gone).defs && Consistent(Forget(s, gone), m)
  {
    var s1 := Forget(s, gone);
    match s.defs[m]
    case Computed(body) => ForgetReading(s, gone, m, body, Length(body), s.rank[m]);
    case Updater(_, p, _) => assert p in s.rank - gone;
  }

  lemma {:induction false} ForgetReading(s: State, gone: set<Id>, m: Id, t: Reading, d: ORDINAL, r: nat)
    requires Bounded(t, d) && Subscribed(s, m, t, d) && ReadsBelow(s.rank - gone, s.indexRank, t, r)
    ensures Subscribed(Forget(s, gone), m, t, d) && Eval(Forget(s, gone), t, d) == Eval(s, t, d)
    decreases d
  {
    if t.Read? {
      var s1 := Forget(s, gone);
      assert Lookup(s1, t.cell) == Lookup(s, t.cell);
      assert ListenersOf(s1.listeners, t.cell) == ListenersOf(s.listeners, t.cell);
      ForgetReading(s, gone, m, t.next(Lookup(s, t.cell)), Below(t, d, Lookup(s, t.cell)), r);
    }
  }

  lemma ForgetCounts(s: State, gone: set<Id>)
    requires Counted(s.defs, s.lastValue - gone, s.keysets)
    ensures Counted(s.defs - gone, s.lastValue - gone, s.keysets)
  {
    forall v, k
      ensures CountIn(KeysetOf(s.keysets, v), k) == |Holders(s.defs - gone, s.lastValue - gone, v, k)|
    {
      forall u
        ensures u in Holders(s.defs - gone, s.lastValue - gone, v, k) <==> u in Holders(s.defs, s.lastValue - gone, v, k)
      {
        assert Holds(s.defs - gone, s.lastValue - gone, u, v, k) <==> Holds(s.defs, s.lastValue - gone, u, v, k);
      }
      assert Holders(s.defs - gone, s.lastValue - gone, v, k) == Holders(s.defs, s.lastValue - gone, v, k);
    }
  }

  // A property that is not an updater records nothing.
  lemma DropUnrecorded(s: State, p: Id, gone: set<Id>)
    requires Counted(s.defs, s.lastValue - gone, s.keysets) && p in s.defs && s.defs[p].Computed?
    ensures Counted(s.defs, s.lastValue - (gone + {p}), s.keysets)
  {
    forall v, k
      ensures CountIn(KeysetOf(s.keysets, v), k) == |Holders(s.defs, s.lastValue - (gone + {p}), v, k)|
    {
      forall u
        ensures u in Holders(s.defs, s.lastValue - (gone + {p}), v, k) <==> u in Holders(s.defs, s.lastValue - gone, v, k)
      {
        assert Holds(s.defs, s.lastValue - (gone + {p}), u, v, k) <==> Holds(s.defs, s.lastValue - gone, u, v, k);
      }
      assert Holders(s.defs, s.lastValue - (gone + {p}), v, k) == Holders(s.defs, s.lastValue - gone, v, k);
    }
  }

  lemma StaysClean(s: State, t: State, u: Id, g: Id)
    requires Inv(s, {}) && Inv(t, {}) && Disturbs(s, t, u) && t.initialized == s.initialized
    requires g in s.rank && g !in s.dirty && s.rank[g] <= s.rank[u]
    ensures g !in t.dirty
  {
  }

  // What taking out the updaters in `us` of `p`, after those in `done`, leaves of the state.
  ghost predicate TakenOut(s: State, t: State, p: Id, done: set<Id>) {
    && Inv(t, {}) && OnlyIndexChanged(s, t) && t.known == s.known
    && t.defs == s.defs && t.rank == s.rank && t.indexRank == s.indexRank && t.keyUpdaters == s.keyUpdaters
    && Counted(t.defs, t.lastValue - done, t.keysets) && (p !in s.dirty ==> p !in t.dirty)
  }

  lemma TakeOutOneKeeps(s: State, p: Id, u: Id, done: set<Id>)
    requires Inv(s, {}) && u in s.defs && s.defs[u].Updater? && s.defs[u].property == p && u !in done
    requires Counted(s.defs, s.lastValue - done, s.keysets)
    ensures TakenOut(s, TakeOut(s, u), p, done + {u})
  {
    assert DefinitionBelow(s.rank, s.indexRank, s.defs[u], s.rank[u]);
    var lv := s.lastValue - done;
    assert lv - {u} == s.lastValue - (done + {u});
    if u in s.lastValue {
      var r, k := Slot(s.defs[u].index, s.lastValue[u]), s.defs[u].key;
      UpdateKeysetKeeps(s, u, r, k, -1, {});
      UpdateKeysetAdjusts(s, r, k, -1);
      CountDown(s.defs, lv, s.keysets, TakeOut(s, u).keysets, u);
      if p !in s.dirty {
        StaysClean(s, TakeOut(s, u), u, p);
      }
    } else {
      assert lv - {u} == lv;
    }
  }

  lemma TakenOutTransitive(s: State, t: State, t1: State, p: Id, before: set<Id>, done: set<Id>)
    requires TakenOut(s, t, p, before) && TakenOut(t, t1, p, done)
    ensures TakenOut(s, t1, p, done)
  {
  }

  lemma {:induction false} TakeOutAllKeeps(s: State, p: Id, us: seq<Id>, done: set<Id>)
    requires Inv(s, {}) && UpdatersFor(s.defs, us, p) && forall u :: u in us ==> u !in done
    requires Counted(s.defs, s.lastValue - done, s.keysets)
    ensures TakenOut(s, TakeOutAll(s, us), p, done + set u | u in us)
    decreases |us|
  {
    if us == [] {
      assert done + (set u | u in us) == done;
    } else {
      var t, more := TakeOut(s, us[0]), done + {us[0]};
      assert us == [us[0]] + us[1..];
      TakeOutOneKeeps(s, p, us[0], done);
      TakeOutAllKeeps(t, p, us[1..], more);
      assert more + (set u | u in us[1..]) == done + (set u | u in us);
      TakenOutTransitive(s, t, TakeOutAll(t, us[1..]), p, more, done + set u | u in us);
    }
  }

  lemma UnregisterKeeps(t: State, p: Id)
    requires Registered(t.defs, t.initialized, t.lastValue, t.keyUpdaters)
    requires p in t.defs && t.defs[p].Computed?
    ensures var gone := Gone(t.keyUpdaters, p);
            Registered(t.defs - gone, t.initialized - gone, t.lastValue - gone, t.keyUpdaters - {p})
  {
    var gone := Gone(t.keyUpdaters, p);
    var defs, ku := t.defs - gone, t.keyUpdaters - {p};
    forall q | q in ku
      ensures q in defs && defs[q].Computed? && UpdatersFor(defs, ku[q], q)
    {
      assert UpdatersFor(t.defs, t.keyUpdaters[q], q);
    }
    forall x | x in defs && defs[x].Updater?
      ensures x in UpdatersOf(ku, defs[x].property)
    {
      assert x in UpdatersOf(t.keyUpdaters, t.defs[x].property);
    }
  }

  lemma GoneIsDefined(s: State, p: Id)
    requires Registered(s.defs, s.initialized, s.lastValue, s.keyUpdaters) && p in s.defs
    ensures Gone(s.keyUpdaters, p) <= s.defs.Keys && UpdatersFor(s.defs, UpdatersOf(s.keyUpdaters, p), p)
  {
  }

  lemma DestroyIndexed(t: State, p: Id)
    requires Registered(t.defs, t.initialized, t.lastValue, t.keyUpdaters) && p in t.defs && t.defs[p].Computed?
    requires Counted(t.defs, t.lastValue - (set u | u in UpdatersOf(t.keyUpdaters, p)), t.keysets)
    ensures Indexed(Forget(t, Gone(t.keyUpdaters, p)).(keyUpdaters := t.keyUpdaters - {p}))
  {
    var us, gone := (set u | u in UpdatersOf(t.keyUpdaters, p)), Gone(t.keyUpdaters, p);
    assert Counted(t.defs - gone, t.lastValue - gone, t.keysets) by {
      DropUnrecorded(t, p, us);
      assert us + {p} == gone;
      ForgetCounts(t, gone);
    }
    UnregisterKeeps(t, p);
  }

  lemma DestroyKeeps(s: State, p: Id)
    requires Inv(s, {}) && Indexed(s) && Unused(s, p)
    ensures Inv(Destroy(s, p), {}) && Indexed(Destroy(s, p))
  {
    var us, gone := UpdatersOf(s.keyUpdaters, p), Gone(s.keyUpdaters, p);
    var t := TakeOutAll(s, us);
    GoneIsDefined(s, p);
    assert s.lastValue - {} == s.lastValue;
    TakeOutAllKeeps(s, p, us, {});
    assert {} + (set u | u in us) == set u | u in us;
    ForgetKeeps(t, gone);
    DestroyIndexed(t, p);
    KeyUpdatersKeep(Forget(t, gone), t.keyUpdaters - {p});
  }

  lemma UpdatersAre(s: State, p: Id)
    requires Registered(s.defs, s.initialized, s.lastValue, s.keyUpdaters) && p in s.defs
    ensures Gone(s.keyUpdaters, p) == {p} + set u | u in s.defs && s.defs[u].Updater? && s.defs[u].property == p
  {
    var us := UpdatersOf(s.keyUpdaters, p);
    GoneIsDefined(s, p);
    assert forall u :: u in us <==> u in s.defs && s.defs[u].Updater? && s.defs[u].property == p;
  }

  // What is gone afterwards is the property, and every updater made for it.
  lemma DestroySays(s: State, p: Id)
    requires Inv(s, {}) && Indexed(s) && Unused(s, p)
    ensures Destroy(s, p).defs == s.defs - {p} - set u | u in s.defs && s.defs[u].Updater? && s.defs[u].property == p
  {
    var us := UpdatersOf(s.keyUpdaters, p);
    assert TakeOutAll(s, us).defs == s.defs by {
      GoneIsDefined(s, p);
      assert s.lastValue - {} == s.lastValue;
      TakeOutAllKeeps(s, p, us, {});
    }
    UpdatersAre(s, p);
    assert Destroy(s, p).defs == s.defs - Gone(s.keyUpdaters, p);
  }
}
