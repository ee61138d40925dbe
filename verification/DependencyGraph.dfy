/** The recompute graph as a mutable object: the methods of DependencyGraph.cpp and DependencyGraph.hpp over the
    fields of all mutables, properties and indexes, each proved against the state function it implements. */
module DependencyGraph {
  import opened Collections
  import opened DependencyGraphState
  import opened DependencyGraphInvariant
  import opened DependencyGraphProgress
  import opened DependencyGraphClients

  class Graph {
    ghost var rank: map<Id, nat>
    ghost const indexRank: map<IndexId, nat>
    ghost var known: set<Id>
    var defs: map<Id, Definition>
    var mutables: map<Id, Value>
    var values: map<Id, Value>
    var level: map<Id, int>
    var minLevel: map<Id, int>
    var initialized: set<Id>
    var dirty: set<Id>
    var queue: map<int, seq<Id>>
    var listeners: map<Cell, seq<Id>>
    var keysets: map<Slot, map<Key, int>>
    var lastValue: map<Id, Value>
    var keyUpdaters: map<Id, seq<Id>>

    ghost function Now(): State
      reads this
    {
      State(defs, rank, indexRank, known, mutables, values, level, minLevel, initialized, dirty, queue, listeners,
            keysets, lastValue, keyUpdaters)
    }

    ghost predicate Valid()
      reads this
    {
      Inv(Now(), {}) && Indexed(Now())
    }

    constructor (indexRank: map<IndexId, nat>)
      ensures Valid() && Drained(Now()) && this.indexRank == indexRank
      ensures defs == map[] && known == {} && initialized == {} && keyUpdaters == map[]
      ensures mutables == map[] && values == map[] && level == map[] && minLevel == map[] && queue == map[]
    {
      this.indexRank := indexRank;
      rank, known, defs, mutables, values, level, minLevel := map[], {}, map[], map[], map[], map[], map[];
      initialized, dirty, queue, listeners := {}, {}, map[], map[];
      keysets, lastValue, keyUpdaters := map[], map[], map[];
      new;
      assert forall r, k :: Holders(defs, lastValue, r, k) == {};
    }

    // ----- Dirtyable and Changeable -----

    method MarkOneDirty(n: Id)
      modifies `dirty, `queue
      ensures Now() == MarkDirty(old(Now()), n)
    {
      if n !in dirty {
        dirty := dirty + {n};
        var l := if n in level then level[n] else 0;
        queue := queue[l := (if l in queue then queue[l] else []) + [n]];
      }
    }

    method InitializeDirtyable(n: Id)
      modifies `initialized, `dirty, `queue
      ensures Now() == Initialize(old(Now()), n)
    {
      if n in initialized {
        return;
      }
      initialized := initialized + {n};
      MarkOneDirty(n);
    }

    method NotifyChanged(c: Cell)
      modifies `dirty, `queue, `listeners
      ensures Now() == OnChanged(old(Now()), c)
      ensures listeners == old(listeners)[c := []]
      ensures forall n :: n in dirty <==> n in old(dirty) || (n in defs && HasListener(old(listeners), c, n))
    {
      var ls := if c in listeners then listeners[c] else [];
      ghost var s := Now();
      var i := 0;
      while i < |ls|
        invariant 0 <= i <= |ls|
        invariant Now() == s.(dirty := dirty, queue := queue)
        invariant forall n :: n in dirty <==> n in s.dirty || (n in defs && n in ls[..i])
        invariant MarkAll(Marks(dirty, queue), level, defs.Keys, ls[i..]) ==
                  MarkAll(Marks(s.dirty, s.queue), s.level, s.defs.Keys, ls)
      {
        assert ls[i..][1..] == ls[i + 1..];
        if ls[i] in defs {
          MarkOneDirty(ls[i]);
        }
        i := i + 1;
      }
      listeners := listeners[c := []];
    }

    // ----- Reading inside the computation of `n` -----

    method RegisterDependency(n: Id, c: Cell, l: int)
      modifies `listeners, `level
      ensures Now() == Register(old(Now()), n, c, l)
    {
      listeners := listeners[c := (if c in listeners then listeners[c] else []) + [n]];
      level := level[n := Max(l + 1, if n in level then level[n] else 0)];
    }

    method CreateKeyset(r: Slot)
      modifies `keysets
      ensures Now() == EnsureKeyset(old(Now()), r)
    {
      if r !in keysets {
        keysets := keysets[r := map[]];
      }
    }

    method Get(n: Id, c: Cell) returns (v: Value)
      modifies this
      ensures Now() == GetCell(old(Now()), n, c) && v == Lookup(Now(), c)
      ensures c.MutableCell? ==> v == if c.m in old(mutables) then old(mutables)[c.m] else Num(0)
      ensures c.PropertyCell? ==> v == if c.p in old(values) then old(values)[c.p] else Num(0)
      ensures c.IndexCell? ==> v == Counts(if c.r in old(keysets) then old(keysets)[c.r] else map[])
    {
      match c
      case MutableCell(m) =>
        RegisterDependency(n, c, 0);
        v := if m in mutables then mutables[m] else DEFAULT;
      case PropertyCell(p) =>
        InitializeDirtyable(p);
        RegisterDependency(n, c, if p in level then level[p] else 0);
        v := if p in values then values[p] else DEFAULT;
      case IndexCell(r) =>
        CreateKeyset(r);
        RegisterDependency(n, c, 0);
        v := Counts(if r in keysets then keysets[r] else map[]);
    }

    method Run(n: Id, t: Reading, ghost d: ORDINAL) returns (v: Value)
      requires Bounded(t, d)
      modifies this
      ensures (Now(), v) == RunReading(old(Now()), n, t, d)
      decreases d
    {
      match t
      case Return(result) => v := result;
      case Read(c, next) =>
        var got := Get(n, c);
        v := Run(n, next(got), Below(t, d, got));
    }

    // ----- Index -----

    method Update(r: Slot, k: Key, amount: int)
      modifies this
      ensures Now() == UpdateKeyset(old(Now()), r, k, amount)
    {
      CreateKeyset(r);
      NotifyChanged(IndexCell(r));
      CountKey(r, k, amount);
      UpdateByHand(old(Now()), Now(), r, k, amount);
    }

    method CountKey(r: Slot, k: Key, amount: int)
      requires r in keysets
      modifies `keysets
      ensures keysets == AdjustedByHand(old(keysets), r, k, amount)
    {
      var m := keysets[r];
      m := m[k := (if k in m then m[k] else 0) + amount];
      if m[k] == 0 {
        m := m - {k};
      }
      keysets := keysets[r := m];
      if m == map[] {
        keysets := keysets - {r};
      }
    }

    method UpdateKeyProperty(n: Id, i: IndexId, p: Id, k: Key) returns (v: Value)
      modifies this
      ensures Now() == RunUpdater(old(Now()), n, i, p, k) && v == Num(0)
    {
      v := Num(0);
      var newResult := Get(n, PropertyCell(p));
      if n in lastValue && lastValue[n] == newResult {
        return;
      }
      MoveKey(n, i, k, newResult);
    }

    method MoveKey(n: Id, i: IndexId, k: Key, newResult: Value)
      modifies this
      ensures Now() == Reindex(old(Now()), n, i, k, newResult)
    {
      if n in lastValue {
        Update(Slot(i, lastValue[n]), k, -1);
      }
      Update(Slot(i, newResult), k, 1);
      lastValue := lastValue[n := newResult];
    }

    // ----- Cleaning -----

    method ComputeValue(n: Id) returns (v: Value)
      requires n in defs
      modifies this
      ensures (Now(), v) == Compute(old(Now()), n)
    {
      match defs[n]
      case Computed(body) => v := Run(n, body, Length(body));
      case Updater(i, p, k) => v := UpdateKeyProperty(n, i, p, k);
    }

    method CleanOne(n: Id)
      requires n in defs
      modifies this
      ensures Now() == Clean(old(Now()), n)
    {
      if n in dirty {
        level := level[n := if n in minLevel then minLevel[n] else 0];
        var v := ComputeValue(n);
        if v != (if n in values then values[n] else DEFAULT) {
          values := values[n := v];
          NotifyChanged(PropertyCell(n));
        }
        assert Now() == MakeClean(old(Now()), n);
        dirty := dirty - {n};
      }
    }

    // One turn of either recompute loop, on the lowest level; says whether a queued property was taken.
    method TakeTurn(l: int) returns (cleaned: bool)
      requires l in queue
      modifies this
      ensures Now() == Turn(old(Now()), l) && cleaned == (old(queue[l]) != [])
    {
      var elements := queue[l];
      cleaned := elements != [];
      if cleaned {
        var n := elements[|elements| - 1];
        queue := queue[l := elements[..|elements| - 1]];
        if n in defs {
          CleanOne(n);
        }
      } else {
        queue := queue - {l};
      }
    }

    method LowestQueued() returns (l: int)
      requires queue != map[]
      ensures LowestLevel(queue, l)
    {
      assert queue.Keys != {};
      l := Least(queue.Keys);
    }

    // What a recompute leaves as it was.
    twostate predicate InputsKept()
      reads this
    {
      && defs == old(defs) && rank == old(rank) && mutables == old(mutables) && keyUpdaters == old(keyUpdaters)
      && old(initialized) <= initialized
    }

    // The body of the recompute loops.
    method Round(l: int, count0: nat, ghost start: State, ghost n: nat, ghost top: nat) returns (count: nat)
      requires Valid() && LowestLevel(queue, l) && Ran(start, n, Now(), count0)
      requires forall m :: m in rank ==> rank[m] < top
      modifies this
      ensures Valid() && InputsKept() && Ran(start, n + 1, Now(), count)
      ensures Fallen(old(Uninitialized(Now())), old(DirtyWeight(Now(), top)), old(Entries(queue)),
                     Uninitialized(Now()), DirtyWeight(Now(), top), Entries(queue))
      ensures forall level :: l < level && StaysBelow(start, n, level) ==> StaysBelow(start, n + 1, level)
    {
      TurnKeeps(Now(), l, top);
      ProgressFalls(Now(), Turn(Now(), l), top);
      NextTurn(start, n, Now(), count0, l);
      var cleaned := TakeTurn(l);
      count := if cleaned then count0 + 1 else count0;
    }

    // Ends, with every initialised property up to date and the index exact.
    method Recompute() returns (count: nat)
      requires Valid()
      modifies this
      ensures Valid() && queue == map[] && dirty == {}
      ensures Current(defs, values, mutables, initialized) && IndexExact(defs, values, keysets)
      ensures Drained(Now()) && UpToDate(Now())
      ensures InputsKept()
      ensures exists n :: Ran(old(Now()), n, Now(), count)
    {
      count := 0;
      ghost var top := RankBound(rank);
      ghost var n := 0;
      while queue != map[]
        invariant Valid() && InputsKept()
        invariant Ran(old(Now()), n, Now(), count)
        decreases Uninitialized(Now()), DirtyWeight(Now(), top), Entries(queue)
      {
        var l := LowestQueued();
        count := Round(l, count, old(Now()), n, top);
        n := n + 1;
      }
      EmptyQueueIsDrained(Now());
      DrainedIsCurrent(Now());
    }

    // Ends with every queue entry at `dirtynessLevel` or above it.
    method RecomputeBelow(dirtynessLevel: int) returns (count: nat)
      requires Valid()
      modifies this
      ensures Valid() && InputsKept()
      ensures forall l :: l in queue ==> dirtynessLevel <= l
      ensures exists n :: Ran(old(Now()), n, Now(), count) && StaysBelow(old(Now()), n, dirtynessLevel)
    {
      count := 0;
      ghost var top := RankBound(rank);
      ghost var n := 0;
      while queue != map[]
        invariant Valid() && InputsKept()
        invariant Ran(old(Now()), n, Now(), count) && StaysBelow(old(Now()), n, dirtynessLevel)
        decreases Uninitialized(Now()), DirtyWeight(Now(), top), Entries(queue)
      {
        var l := LowestQueued();
        if l >= dirtynessLevel {
          break;
        }
        count := Round(l, count, old(Now()), n, top);
        n := n + 1;
      }
    }

    // ----- Client operations -----

    method Set(m: Id, v: Value, force: bool)
      requires Valid()
      modifies this
      ensures Valid() && Now() == SetMutable(old(Now()), m, v, force)
      ensures Written(old(Now()), Now(), m, v, force)
    {
      ghost var s := Now();
      SetMutableSays(s, m, v, force);
      SetMutableKeeps(s, m, v, force);
      WriteMutable(m, v, force);
    }

    method WriteMutable(m: Id, v: Value, force: bool)
      modifies `mutables, `dirty, `queue, `listeners
      ensures Now() == SetMutable(old(Now()), m, v, force)
    {
      if (if m in mutables then mutables[m] else DEFAULT) != v || force {
        mutables := mutables[m := v];
        NotifyChanged(MutableCell(m));
      }
    }

    method ChangeMinLevel(n: Id, l: int)
      requires Valid() && n in defs
      modifies `minLevel, `level
      ensures Valid() && Now() == SetMinLevel(old(Now()), n, l)
      ensures minLevel == old(minLevel)[n := l]
      ensures level == if (if n in old(level) then old(level)[n] else 0) < l then old(level)[n := l] else old(level)
    {
      ghost var s := Now();
      SetMinLevelKeeps(s, n, l);
      WriteMinLevel(n, l);
    }

    method WriteMinLevel(n: Id, l: int)
      modifies `minLevel, `level
      ensures Now() == SetMinLevel(old(Now()), n, l)
    {
      minLevel := minLevel[n := l];
      if (if n in level then level[n] else 0) < l {
        level := level[n := l];
      }
    }

    method BindProperty(n: Id, body: Computation, ghost r: nat)
      requires Valid() && n !in known && ReadsBelow(rank, indexRank, body, r)
      modifies this
      ensures Valid() && Now() == Bind(old(Now()), n, Computed(body), r, old(keyUpdaters))
      ensures defs == old(defs)[n := Computed(body)] && n !in initialized && n in rank && rank[n] == r
    {
      ghost var s := Now();
      BindPropertyKeeps(s, n, body, r);
      InstallProperty(n, body, r);
    }

    method InstallProperty(n: Id, body: Computation, ghost r: nat)
      modifies `defs, `rank, `known
      ensures Now() == Bind(old(Now()), n, Computed(body), r, keyUpdaters)
    {
      defs, rank, known := defs[n := Computed(body)], rank[n := r], known + {n};
    }

    // `ComputedProperty::get` outside any computation: the value may still be the default one.
    method Peek(p: Id) returns (v: Value)
      requires Valid() && p in defs
      modifies this
      ensures Valid() && Now() == Initialize(old(Now()), p) && v == if p in values then values[p] else Num(0)
      ensures values == old(values) && initialized == old(initialized) + {p} && (p !in old(initialized) ==> p in dirty)
    {
      ghost var s := Now();
      v := if p in values then values[p] else DEFAULT;
      InitializeDirtyable(p);
      GetPropertyKeeps(s, p);
    }

    // `Index::get` outside any computation.
    method GetKeys(r: Slot) returns (keys: map<Key, int>)
      requires Valid()
      modifies `keysets
      ensures Valid() && Now() == EnsureKeyset(old(Now()), r)
      ensures keys == if r in old(keysets) then old(keysets)[r] else map[]
      ensures old(Drained(Now())) ==> Answers(defs, values, r, keys)
    {
      ghost var s := Now();
      EnsureKeysetKeepsIndex(s, r);
      keys := FetchKeyset(r);
      if Drained(s) {
        DrainedAnswers(s, r);
      }
    }

    method FetchKeyset(r: Slot) returns (keys: map<Key, int>)
      modifies `keysets
      ensures Now() == EnsureKeyset(old(Now()), r) && keys == KeysetOf(old(keysets), r)
    {
      CreateKeyset(r);
      keys := keysets[r];
    }

    method Add(i: IndexId, key: Key, p: Id, updater: Id)
      requires Valid() && updater !in known
      requires p in defs && defs[p].Computed? && !IsListed(defs, keyUpdaters, p, i)
      requires i in indexRank && rank[p] + 1 < indexRank[i]
      modifies this
      ensures Valid() && Now() == IndexAdd(old(Now()), i, p, key, updater)
      ensures defs == old(defs)[updater := Updater(i, p, key)] && updater in initialized && updater in dirty
    {
      ghost var s := Now();
      IndexAddKeeps(s, i, p, key, updater);
      IndexAddSays(s, i, p, key, updater);
      InstallUpdater(i, key, p, updater);
    }

    method InstallUpdater(i: IndexId, key: Key, p: Id, updater: Id)
      requires p in rank
      modifies `rank, `known, `defs, `keyUpdaters, `initialized, `dirty, `queue
      ensures Now() == IndexAdd(old(Now()), i, p, key, updater)
    {
      rank, known := rank[updater := rank[p] + 1], known + {updater};
      defs := defs[updater := Updater(i, p, key)];
      keyUpdaters := keyUpdaters[p := (if p in keyUpdaters then keyUpdaters[p] else []) + [updater]];
      assert Now() == BindUpdater(old(Now()), i, p, key, updater);
      InitializeDirtyable(updater);
    }

    method DestroyProperty(p: Id)
      requires Valid() && Unused(Now(), p)
      modifies this
      ensures Valid() && Now() == Destroy(old(Now()), p)
      ensures defs == old(defs) - {p} - set u | u in old(defs) && old(defs)[u].Updater? && old(defs)[u].property == p
    {
      ghost var s := Now();
      DestroySays(s, p);
      DestroyKeeps(s, p);
      DropKeyProperties(p);
    }

    // The destructor of the property: what it was told to do on destruction, once for each index it is in.
    method DropKeyProperties(p: Id)
      modifies this
      ensures Now() == Destroy(old(Now()), p)
    {
      ghost var s := Now();
      var us := if p in keyUpdaters then keyUpdaters[p] else [];
      var i := 0;
      while i < |us|
        invariant 0 <= i <= |us| && keyUpdaters == s.keyUpdaters
        invariant TakeOutAll(Now(), us[i..]) == TakeOutAll(s, us)
      {
        assert us[i..][1..] == us[i + 1..];
        DropKeyProperty(us[i]);
        i := i + 1;
      }
      Release(Gone(keyUpdaters, p));
      keyUpdaters := keyUpdaters - {p};
    }

    method DropKeyProperty(u: Id)
      modifies this
      ensures Now() == TakeOut(old(Now()), u) && keyUpdaters == old(keyUpdaters)
    {
      if u in lastValue && u in defs && defs[u].Updater? {
        Update(Slot(defs[u].index, lastValue[u]), defs[u].key, -1);
      }
    }

    method Release(gone: set<Id>)
      modifies `defs, `rank, `initialized, `dirty, `values, `lastValue, `listeners
      ensures Now() == Forget(old(Now()), gone)
    {
      UnbindAll(gone);
      values, lastValue, listeners := values - gone, lastValue - gone, listeners - PropertyCells(gone);
    }

    method UnbindAll(gone: set<Id>)
      modifies `defs, `rank, `initialized, `dirty
      ensures Now() == Unbind(old(Now()), gone)
    {
      defs, rank, initialized, dirty := defs - gone, rank - gone, initialized - gone, dirty - gone;
    }
  }

  // The in-place count update of `Index::update` is the adjustment.
  lemma UpdateByHand(s: State, s1: State, r: Slot, k: Key, amount: int)
    requires var t := OnChanged(EnsureKeyset(s, r), IndexCell(r));
             r in t.keysets && s1 == t.(keysets := AdjustedByHand(t.keysets, r, k, amount))
    ensures s1 == UpdateKeyset(s, r, k, amount)
  {
    AdjustByHand(OnChanged(EnsureKeyset(s, r), IndexCell(r)).keysets, r, k, amount);
  }

  function AdjustedByHand(ks: map<Slot, map<Key, int>>, r: Slot, k: Key, amount: int): map<Slot, map<Key, int>>
    requires r in ks
  {
    var m := ks[r][k := CountIn(ks[r], k) + amount];
    var m1 := if m[k] == 0 then m - {k} else m;
    if m1 == map[] then ks[r := m1] - {r} else ks[r := m1]
  }

  lemma AdjustByHand(ks: map<Slot, map<Key, int>>, r: Slot, k: Key, amount: int)
    requires r in ks
    ensures AdjustedByHand(ks, r, k, amount) == AdjustKeysets(ks, r, k, amount)
  {
    var count := CountIn(ks[r], k) + amount;
    CountByHand(ks, r, k, count, ks[r][k := count] - {k});
  }

  lemma CountByHand(ks: map<Slot, map<Key, int>>, r: Slot, k: Key, count: int, m: map<Key, int>)
    requires r in ks
    ensures ks[r][k := count] - {k} == ks[r] - {k}
    ensures ks[r := m] - {r} == ks - {r}
  {
  }
}
