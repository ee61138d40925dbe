/** Client code of the recompute graph: the basic run of its own test, and computations that the graph can hold. */
module DependencyGraphExamples {
  import opened DependencyGraphState
  import opened DependencyGraphInvariant
  import opened DependencyGraphProgress
  import opened DependencyGraphClients
  import opened DependencyGraph

  function AddOne(v: Value): Value {
    if v.Num? then Num(v.n + 1) else v
  }

  function AddOneTo(m: Id): Computation {
    AddOneEnds(m);
    Read(MutableCell(m), v => Return(AddOne(v)))
  }

  lemma AddOneEnds(m: Id)
    ensures Ends(Read(MutableCell(m), v => Return(AddOne(v))))
  {
    assert forall v :: Ends(Return(AddOne(v)));
  }

  lemma AddOneReads(rank: map<Id, nat>, indexRank: map<IndexId, nat>, m: Id)
    ensures ReadsBelow(rank, indexRank, AddOneTo(m), 0)
  {
    assert forall v :: ReadsBelow(rank, indexRank, Return(AddOne(v)), 0);
  }

  lemma AddOneMeans(s: State, m: Id, d: ORDINAL)
    requires Bounded(AddOneTo(m), d)
    ensures Eval(s, AddOneTo(m), d) == AddOne(Lookup(s, MutableCell(m)))
  {
    var t, v := AddOneTo(m), Lookup(s, MutableCell(m));
    assert t.Read? && t.cell == MutableCell(m) && t.next(v) == Return(AddOne(v));
    assert Eval(s, Return(AddOne(v)), Below(t, d, v)) == AddOne(v);
  }

  // `p` is bound to adding one to the mutable `m`, which holds `n`.
  ghost predicate Adds(g: Graph, m: Id, p: Id, n: int)
    reads g
  {
    && g.Valid() && p in g.defs && g.defs[p] == Computed(AddOneTo(m))
    && m in g.mutables && g.mutables[m] == Num(n)
  }

  // A graph with nothing else in it, in which `p` has not been read.
  method StartAdding(m: Id, p: Id, n: int, indexRank: map<IndexId, nat>) returns (g: Graph)
    requires n != 0
    ensures fresh(g) && Adds(g, m, p, n) && ValueOf(g.values, p) == Num(0)
    ensures g.indexRank == indexRank && g.rank == map[p := 0] && g.known == {p}
    ensures g.initialized == {} && g.keyUpdaters == map[]
  {
    g := new Graph(indexRank);
    AddOneReads(g.rank, g.indexRank, m);
    g.BindProperty(p, AddOneTo(m), 0);
    g.Set(m, Num(n), false);
  }

  method ReadSum(g: Graph, m: Id, p: Id, ghost n: int) returns (v: Value)
    requires Adds(g, m, p, n)
    modifies g
    ensures Adds(g, m, p, n) && v == ValueOf(old(g.values), p)
    ensures p in g.initialized && g.values == old(g.values)
  {
    InitializeFrame(g.Now(), p);
    v := g.Peek(p);
  }

  method RecomputeSum(g: Graph, m: Id, p: Id, ghost n: int)
    requires Adds(g, m, p, n) && p in g.initialized
    modifies g
    ensures Adds(g, m, p, n) && p in g.initialized && ValueOf(g.values, p) == Num(n + 1)
  {
    var count := g.Recompute();
    AddOneMeans(g.Now(), m, Length(AddOneTo(m)));
  }

  lemma SetLeaves(s: State, m: Id, v: Value)
    ensures var t := SetMutable(s, m, v, false);
            && t.values == s.values && t.defs == s.defs && t.initialized == s.initialized
            && (m in s.mutables ==> m in t.mutables && t.mutables[m] == v)
  {
    if Lookup(s, MutableCell(m)) != v {
      OnChangedLeaves(s.(mutables := s.mutables[m := v]), MutableCell(m));
    }
  }

  lemma OnChangedLeaves(s: State, c: Cell)
    ensures var t := OnChanged(s, c);
            t.values == s.values && t.defs == s.defs && t.initialized == s.initialized && t.mutables == s.mutables
  {
  }

  method ChangeTo(g: Graph, m: Id, p: Id, n: int, ghost n0: int)
    requires Adds(g, m, p, n0) && p in g.initialized
    modifies g
    ensures Adds(g, m, p, n) && p in g.initialized && g.values == old(g.values)
  {
    SetLeaves(g.Now(), m, Num(n));
    g.Set(m, Num(n), false);
  }

  // A property that adds one to a mutable is first read as the default, keeps its value until the next recompute, and
  // follows the mutable afterwards.
  method AddOneScenario(m: Id, p: Id) returns (early: Value, first: Value, stale: Value, second: Value)
    ensures early == Num(0) && first == Num(11) && stale == Num(11) && second == Num(21)
  {
    var g := StartAdding(m, p, 10, map[]);
    early := ReadSum(g, m, p, 10);
    RecomputeSum(g, m, p, 10);
    first := ReadSum(g, m, p, 10);
    ChangeTo(g, m, p, 20, 10);
    stale := ReadSum(g, m, p, 20);
    RecomputeSum(g, m, p, 20);
    second := ReadSum(g, m, p, 20);
  }

  // ----- One property in an index -----

  lemma ListedValue(s: State, m: Id, p: Id, n: int, u: Id)
    requires Drained(s) && UpToDate(s) && u in s.initialized && s.defs[u].Updater? && s.defs[u].property == p
    requires p in s.defs && s.defs[p] == Computed(AddOneTo(m)) && m in s.mutables && s.mutables[m] == Num(n)
    ensures ValueOf(s.values, p) == Num(n + 1)
  {
    assert Consistent(s, u);
    AddOneMeans(s, m, Length(AddOneTo(m)));
  }

  lemma MatchingOne(defs: map<Id, Definition>, values: map<Id, Value>, p: Id, u: Id, i: IndexId, k: Key, v: Value, x: Key)
    requires defs.Keys == {p, u} && defs[p].Computed? && defs[u] == Updater(i, p, k) && ValueOf(values, p) == v
    ensures Matching(defs, values, Slot(i, v), x) == if x == k then {u} else {}
  {
  }

  lemma ListedOnce(s: State, m: Id, p: Id, n: int, i: IndexId, k: Key, u: Id)
    requires Drained(s) && UpToDate(s) && s.defs.Keys == {p, u} && u in s.initialized && s.defs[u] == Updater(i, p, k)
    requires s.defs[p] == Computed(AddOneTo(m)) && m in s.mutables && s.mutables[m] == Num(n)
    ensures KeysetOf(s.keysets, Slot(i, Num(n + 1))) == map[k := 1]
  {
    var r := Slot(i, Num(n + 1));
    ListedValue(s, m, p, n, u);
    DrainedAnswers(s, r);
    forall x: Key
      ensures x in KeysetOf(s.keysets, r) <==> x == k
      ensures CountIn(KeysetOf(s.keysets, r), k) == 1
    {
      MatchingOne(s.defs, s.values, p, u, i, k, r.value, x);
      MatchingOne(s.defs, s.values, p, u, i, k, r.value, k);
    }
    OnlyKey(KeysetOf(s.keysets, r), k);
  }

  lemma OnlyKey(keys: map<Key, int>, k: Key)
    requires forall x: Key :: x in keys <==> x == k
    requires CountIn(keys, k) == 1
    ensures keys == map[k := 1]
  {
  }

  lemma UpdateKeysetDefs(s: State, r: Slot, k: Key, amount: int)
    ensures var t := UpdateKeyset(s, r, k, amount); t.defs == s.defs && t.keyUpdaters == s.keyUpdaters
  {
  }

  lemma ForgetDefs(s: State, gone: set<Id>)
    ensures Forget(s, gone).defs == s.defs - gone
  {
  }

  lemma {:induction false} TakeOutAllDefs(s: State, us: seq<Id>)
    ensures TakeOutAll(s, us).defs == s.defs && TakeOutAll(s, us).keyUpdaters == s.keyUpdaters
    decreases |us|
  {
    if us != [] {
      TakeOutDefs(s, us[0]);
      TakeOutAllDefs(TakeOut(s, us[0]), us[1..]);
    }
  }

  lemma TakeOutDefs(s: State, u: Id)
    ensures TakeOut(s, u).defs == s.defs && TakeOut(s, u).keyUpdaters == s.keyUpdaters
  {
    if u in s.lastValue && u in s.defs && s.defs[u].Updater? {
      UpdateKeysetDefs(s, Slot(s.defs[u].index, s.lastValue[u]), s.defs[u].key, -1);
    }
  }

  lemma DestroyLeaves(s: State, p: Id)
    ensures Destroy(s, p).defs == s.defs - Gone(s.keyUpdaters, p)
  {
    TakeOutAllDefs(s, UpdatersOf(s.keyUpdaters, p));
    ForgetDefs(TakeOutAll(s, UpdatersOf(s.keyUpdaters, p)), Gone(s.keyUpdaters, p));
  }

  lemma NoneListed(s: State, r: Slot)
    requires Drained(s) && s.defs == map[]
    ensures KeysetOf(s.keysets, r) == map[]
  {
    DrainedAnswers(s, r);
    assert forall k :: Matching(s.defs, s.values, r, k) == {};
  }

  // Besides `p`, the graph holds only the updater `u` that lists it in the index `i` with the key `k`.
  ghost predicate Lists(g: Graph, m: Id, p: Id, n: int, i: IndexId, k: Key, u: Id)
    reads g
  {
    && Adds(g, m, p, n) && p != u && g.defs.Keys == {p, u} && g.defs[u] == Updater(i, p, k)
    && u in g.initialized && g.keyUpdaters == map[p := [u]]
  }

  method StartListing(m: Id, p: Id, n: int, i: IndexId, k: Key, u: Id) returns (g: Graph)
    requires p != u && n != 0
    ensures fresh(g) && Lists(g, m, p, n, i, k, u) && p !in g.dirty
  {
    g := StartAdding(m, p, n, map[i := 2]);
    InitializeFrame(BindUpdater(g.Now(), i, p, k, u), u);
    assert UpdatersOf(g.keyUpdaters, p) + [u] == [u];
    g.Add(i, k, p, u);
  }

  // After the recompute the key is listed once, under the value of the property.
  method RecomputeListed(g: Graph, m: Id, p: Id, n: int, i: IndexId, k: Key, u: Id) returns (keys: map<Key, int>)
    requires Lists(g, m, p, n, i, k, u)
    modifies g
    ensures Lists(g, m, p, n, i, k, u) && p !in g.dirty && keys == map[k := 1]
  {
    var count := g.Recompute();
    AddOneMeans(g.Now(), m, Length(AddOneTo(m)));
    ListedOnce(g.Now(), m, p, n, i, k, u);
    keys := g.GetKeys(Slot(i, Num(n + 1)));
  }

  // Nothing is listed once the property is gone, even if its updater never ran.
  method DestroyListed(g: Graph, m: Id, p: Id, ghost n: int, i: IndexId, k: Key, u: Id, v: Value)
    returns (keys: map<Key, int>)
    requires Lists(g, m, p, n, i, k, u) && p !in g.dirty
    modifies g
    ensures keys == map[]
  {
    DestroyLeaves(g.Now(), p);
    assert Gone(g.keyUpdaters, p) == {p, u};
    g.DestroyProperty(p);
    var count := g.Recompute();
    NoneListed(g.Now(), Slot(i, v));
    keys := g.GetKeys(Slot(i, v));
  }

  method IndexScenario(m: Id, p: Id, i: IndexId, k: Key, u: Id) returns (listed: map<Key, int>, gone: map<Key, int>)
    requires p != u
    ensures listed == map[k := 1] && gone == map[]
  {
    var g := StartListing(m, p, 10, i, k, u);
    listed := RecomputeListed(g, m, p, 10, i, k, u);
    gone := DestroyListed(g, m, p, 10, i, k, u, Num(11));
  }

  // The property is destroyed before any recompute, while its updater is queued.
  method EarlyDestroyScenario(m: Id, p: Id, i: IndexId, k: Key, u: Id) returns (gone: map<Key, int>)
    requires p != u
    ensures gone == map[]
  {
    var g := StartListing(m, p, 10, i, k, u);
    gone := DestroyListed(g, m, p, 10, i, k, u, Num(11));
  }

  // ----- Computations whose number of reads depends on what they read -----

  function ReadAll(cells: seq<Cell>, result: Value): Reading
    decreases |cells|
  {
    if cells == [] then Return(result) else Read(cells[0], v => ReadAll(cells[1..], result))
  }

  lemma {:induction false} ReadAllEnds(cells: seq<Cell>, result: Value)
    ensures Ends(ReadAll(cells, result))
    decreases |cells|
  {
    if cells != [] {
      ReadAllEnds(cells[1..], result);
    }
  }

  // Reading an index and then a cell for each thing listed there, however many, is a computation.
  lemma SweepEnds(r: Slot, cells: Value -> seq<Cell>, result: Value)
    ensures Ends(Read(IndexCell(r), v => ReadAll(cells(v), result)))
  {
    forall v
      ensures Ends(ReadAll(cells(v), result))
    {
      ReadAllEnds(cells(v), result);
    }
  }
}
