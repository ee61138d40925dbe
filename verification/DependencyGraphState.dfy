/** The state of one recompute graph and what each operation of DependencyGraph.hpp does to it.
    Objects are named by ids; the fields of all objects of a class are gathered in maps from ids. */
module DependencyGraphState {
  import opened Collections

  type Id(==, !new)
  type Key(==, !new)
  type IndexId(==, !new)

  // A property's value. `Num(0)` is the default-constructed value; the value of an index cell is the map
  // from keys to counts that `Index::get` hands out.
  datatype Value = Num(n: int) | Counts(counts: map<Key, int>)

  // One value in one index: the keys of the properties that have the value are kept for it.
  datatype Slot = Slot(index: IndexId, value: Value)

  // What a computation can read and subscribe to.
  datatype Cell = MutableCell(m: Id) | PropertyCell(p: Id) | IndexCell(r: Slot)

  // A pure computation: it either returns, or reads a cell and continues with the value it got.
  datatype Reading = Return(v: Value) | Read(cell: Cell, next: Value -> Reading)

  // Whatever values it is given, the computation returns, after however many reads.
  least predicate Ends(t: Reading) {
    t.Read? ==> forall v :: Ends(t.next(v))
  }

  type Computation = t: Reading | Ends(t) witness Return(Num(0))

  // A property bound to a computation, or the updater that `Index::add` creates for a property.
  datatype Definition = Computed(body: Computation) | Updater(index: IndexId, property: Id, key: Key)

  datatype State = State(
    defs: map<Id, Definition>,
    rank: map<Id, nat>,             // every read goes to a lower rank
    indexRank: map<IndexId, nat>,   // the updaters of an index are below it, its readers are not
    known: set<Id>,                 // ids used so far; a destroyed object's id is never used again
    mutables: map<Id, Value>,
    values: map<Id, Value>,
    level: map<Id, int>,
    minLevel: map<Id, int>,
    initialized: set<Id>,
    dirty: set<Id>,
    queue: map<int, seq<Id>>,       // mDirtyElementsByLevel
    listeners: map<Cell, seq<Id>>,
    keysets: map<Slot, map<Key, int>>,
    lastValue: map<Id, Value>,      // by updater; absent while null
    keyUpdaters: map<Id, seq<Id>>)  // by property: one for each index it is in, in the order of addition

  const DEFAULT: Value := Num(0)

  // ----- How long a computation can be, as an ordinal -----

  ghost predicate Bounded(t: Reading, d: ORDINAL) {
    Ends#[d](t)
  }

  lemma {:induction false} BelowExists(t: Reading, d: ORDINAL, v: Value)
    requires t.Read? && Bounded(t, d)
    ensures exists e: ORDINAL :: e < d && Bounded(t.next(v), e)
    decreases d
  {
    if d.Offset != 0 {
      assert Bounded(t.next(v), d - 1);
    } else {
      var e: ORDINAL :| e < d && Ends#[e](t);
      BelowExists(t, e, v);
      var f: ORDINAL :| f < e && Bounded(t.next(v), f);
      assert f < d;
    }
  }

  // A smaller bound for what remains once `v` has been read.
  ghost function Below(t: Reading, d: ORDINAL, v: Value): (e: ORDINAL)
    requires t.Read? && Bounded(t, d)
    ensures e < d && Bounded(t.next(v), e)
  {
    BelowExists(t, d, v);
    var e: ORDINAL :| e < d && Bounded(t.next(v), e);
    e
  }

  ghost function Length(t: Computation): (d: ORDINAL)
    ensures Bounded(t, d)
  {
    var d: ORDINAL :| Ends#[d](t);
    d
  }

  // ----- Lookups -----

  function ValueOf(values: map<Id, Value>, p: Id): Value {
    if p in values then values[p] else DEFAULT
  }

  function LevelOf(s: State, p: Id): int {
    if p in s.level then s.level[p] else 0
  }

  function MinLevelOf(s: State, p: Id): int {
    if p in s.minLevel then s.minLevel[p] else 0
  }

  function KeysetOf(keysets: map<Slot, map<Key, int>>, r: Slot): map<Key, int> {
    if r in keysets then keysets[r] else map[]
  }

  function ListenersOf(listeners: map<Cell, seq<Id>>, c: Cell): seq<Id> {
    if c in listeners then listeners[c] else []
  }

  function Lookup(s: State, c: Cell): Value {
    match c
    case MutableCell(m) => if m in s.mutables then s.mutables[m] else DEFAULT
    case PropertyCell(p) => ValueOf(s.values, p)
    case IndexCell(r) => Counts(KeysetOf(s.keysets, r))
  }

  function UpdatersOf(keyUpdaters: map<Id, seq<Id>>, p: Id): seq<Id> {
    if p in keyUpdaters then keyUpdaters[p] else []
  }

  // ----- Marking and queueing -----

  function Push(q: map<int, seq<Id>>, l: int, n: Id): map<int, seq<Id>> {
    q[l := (if l in q then q[l] else []) + [n]]
  }

  // The dirty flags and the queue, which change together.
  datatype Marks = Marks(dirty: set<Id>, queue: map<int, seq<Id>>)

  function Mark(m: Marks, level: map<Id, int>, n: Id): Marks {
    if n in m.dirty then m
    else Marks(m.dirty + {n}, Push(m.queue, if n in level then level[n] else 0, n))
  }

  // Listeners are weak pointers: one whose object is gone is skipped.
  function MarkAll(m: Marks, level: map<Id, int>, alive: set<Id>, ls: seq<Id>): Marks
    decreases |ls|
  {
    if ls == [] then m
    else MarkAll(if ls[0] in alive then Mark(m, level, ls[0]) else m, level, alive, ls[1..])
  }

  function WithMarks(s: State, m: Marks): State {
    s.(dirty := m.dirty, queue := m.queue)
  }

  function MarkDirty(s: State, n: Id): State {
    WithMarks(s, Mark(Marks(s.dirty, s.queue), s.level, n))
  }

  function Initialize(s: State, n: Id): State {
    if n in s.initialized then s else MarkDirty(s.(initialized := s.initialized + {n}), n)
  }

  function OnChanged(s: State, c: Cell): State {
    WithMarks(s, MarkAll(Marks(s.dirty, s.queue), s.level, s.defs.Keys, ListenersOf(s.listeners, c)))
      .(listeners := s.listeners[c := []])
  }

  // ----- Reading inside a computation of `n` -----

  function Register(s: State, n: Id, c: Cell, l: int): State {
    s.(listeners := s.listeners[c := ListenersOf(s.listeners, c) + [n]],
       level := s.level[n := Max(l + 1, LevelOf(s, n))])
  }

  function EnsureKeyset(s: State, r: Slot): State {
    s.(keysets := if r in s.keysets then s.keysets else s.keysets[r := map[]])
  }

  function GetCell(s: State, n: Id, c: Cell): State {
    match c
    case MutableCell(m) => Register(s, n, c, 0)
    case PropertyCell(p) => var t := Initialize(s, p); Register(t, n, c, LevelOf(t, p))
    case IndexCell(r) => Register(EnsureKeyset(s, r), n, c, 0)
  }

  function RunReading(s: State, n: Id, t: Reading, ghost d: ORDINAL): (r: (State, Value))
    requires Bounded(t, d)
    decreases d
  {
    match t
    case Return(v) => (s, v)
    case Read(c, next) =>
      var s1 := GetCell(s, n, c);
      RunReading(s1, n, next(Lookup(s1, c)), Below(t, d, Lookup(s1, c)))
  }

  // ----- Index -----

  function CountIn(m: map<Key, int>, k: Key): int {
    if k in m then m[k] else 0
  }

  function SetCount(m: map<Key, int>, k: Key, count: int): map<Key, int> {
    if count == 0 then m - {k} else m[k := count]
  }

  function AdjustKeysets(keysets: map<Slot, map<Key, int>>, r: Slot, k: Key, amount: int): map<Slot, map<Key, int>> {
    var m := SetCount(KeysetOf(keysets, r), k, CountIn(KeysetOf(keysets, r), k) + amount);
    if m == map[] then keysets - {r} else keysets[r := m]
  }

  function UpdateKeyset(s: State, r: Slot, k: Key, amount: int): State {
    var t := OnChanged(EnsureKeyset(s, r), IndexCell(r));
    t.(keysets := AdjustKeysets(t.keysets, r, k, amount))
  }

  // Moves the key from the result the updater recorded, if any, to `current`.
  function Reindex(s: State, n: Id, i: IndexId, k: Key, current: Value): State {
    var s1 := if n in s.lastValue then UpdateKeyset(s, Slot(i, s.lastValue[n]), k, -1) else s;
    var s2 := UpdateKeyset(s1, Slot(i, current), k, 1);
    s2.(lastValue := s2.lastValue[n := current])
  }

  function RunUpdater(s: State, n: Id, i: IndexId, p: Id, k: Key): State {
    var s1 := GetCell(s, n, PropertyCell(p));
    var current := ValueOf(s1.values, p);
    if n in s1.lastValue && s1.lastValue[n] == current then s1 else Reindex(s1, n, i, k, current)
  }

  // ----- Cleaning -----

  function Compute(s: State, n: Id): (r: (State, Value))
    requires n in s.defs
  {
    match s.defs[n]
    case Computed(body) => RunReading(s, n, body, Length(body))
    case Updater(i, p, k) => (RunUpdater(s, n, i, p, k), Num(0))
  }

  function MakeClean(s: State, n: Id): State
    requires n in s.defs
  {
    var (t, v) := Compute(s.(level := s.level[n := MinLevelOf(s, n)]), n);
    if v == ValueOf(t.values, n) then t else OnChanged(t.(values := t.values[n := v]), PropertyCell(n))
  }

  function Clean(s: State, n: Id): State
    requires n in s.defs
  {
    if n !in s.dirty then s
    else
      var t := MakeClean(s, n);
      t.(dirty := t.dirty - {n})
  }

  // One turn of the recompute loop on the level `l`. An entry whose object only the queue still kept is skipped.
  function Turn(s: State, l: int): State
    requires l in s.queue
  {
    var elements := s.queue[l];
    if elements == [] then s.(queue := s.queue - {l})
    else
      var n := elements[|elements| - 1];
      var t := s.(queue := s.queue[l := elements[..|elements| - 1]]);
      if n in t.defs then Clean(t, n) else t
  }

  predicate LowestLevel(q: map<int, seq<Id>>, l: int) {
    l in q && forall k :: k in q ==> l <= k
  }

  // ----- Client operations -----

  function SetMutable(s: State, m: Id, v: Value, force: bool): State {
    if Lookup(s, MutableCell(m)) == v && !force then s
    else OnChanged(s.(mutables := s.mutables[m := v]), MutableCell(m))
  }

  function SetMinLevel(s: State, n: Id, l: int): State {
    s.(minLevel := s.minLevel[n := l], level := if LevelOf(s, n) < l then s.level[n := l] else s.level)
  }

  function Bind(s: State, n: Id, def: Definition, r: nat, keyUpdaters: map<Id, seq<Id>>): State {
    s.(defs := s.defs[n := def], rank := s.rank[n := r], known := s.known + {n}, keyUpdaters := keyUpdaters)
  }

  function BindUpdater(s: State, i: IndexId, p: Id, key: Key, updater: Id): State
    requires p in s.rank
  {
    Bind(s, updater, Updater(i, p, key), s.rank[p] + 1, s.keyUpdaters[p := UpdatersOf(s.keyUpdaters, p) + [updater]])
  }

  function IndexAdd(s: State, i: IndexId, p: Id, key: Key, updater: Id): State
    requires p in s.rank
  {
    Initialize(BindUpdater(s, i, p, key, updater), updater)
  }

  // What an updater recorded leaves its index.
  function TakeOut(s: State, u: Id): State {
    if u in s.lastValue && u in s.defs && s.defs[u].Updater?
    then UpdateKeyset(s, Slot(s.defs[u].index, s.lastValue[u]), s.defs[u].key, -1) else s
  }

  function TakeOutAll(s: State, us: seq<Id>): State
    decreases |us|
  {
    if us == [] then s else TakeOutAll(TakeOut(s, us[0]), us[1..])
  }

  function Gone(keyUpdaters: map<Id, seq<Id>>, p: Id): set<Id> {
    {p} + set u | u in UpdatersOf(keyUpdaters, p)
  }

  // Destroys property `p`, and with it the updaters that only the maps of the indexes kept alive. A queued updater is
  // dropped when its entry is taken.
  function Destroy(s: State, p: Id): State {
    var t := TakeOutAll(s, UpdatersOf(s.keyUpdaters, p));
    Forget(t, Gone(s.keyUpdaters, p)).(keyUpdaters := t.keyUpdaters - {p})
  }

  function PropertyCells(gone: set<Id>): set<Cell> {
    set g | g in gone :: PropertyCell(g)
  }

  function Unbind(s: State, gone: set<Id>): State {
    s.(defs := s.defs - gone, rank := s.rank - gone, initialized := s.initialized - gone, dirty := s.dirty - gone)
  }

  function Forget(s: State, gone: set<Id>): State {
    Unbind(s, gone).(values := s.values - gone, lastValue := s.lastValue - gone,
                     listeners := s.listeners - PropertyCells(gone))
  }
}
