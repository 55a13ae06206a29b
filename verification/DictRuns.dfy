/** Whole runs of dictionary calls: the two tables answer as one finite map, and the growth
    policy together with the per-call rehash step bounds the load of the insertion table. */
module DictRuns {
  import opened Powers
  import opened Words
  import opened Bytes
  import opened DictModel

  /** One call. Delete stands for dictDelete and dictUnlink, Find for dictFind and
      dictFetchValue; SetIterators for safe iterators coming and going. */
  datatype Op =
    | OpAdd(k: Key, v: Value)
    | OpReplace(k: Key, v: Value)
    | OpDelete(k: Key)
    | OpFind(k: Key)
    | OpExpand(size: nat)
    | OpResize
    | OpRehash(n: nat)
    | OpAllowResize(on: bool)
    | OpSetIterators(count: nat)

  /** What the caller learns about the stored data. */
  datatype Answer = New(added: bool) | Content(value: Option<Value>) | Silent

  ghost function Apply(h: Hash, s: State, op: Op): (State, Answer)
    requires Ok(h, s) && CanGrow(s)
  {
    match op
    case OpAdd(k, v) => (Add(h, s, k, v).0, New(Add(h, s, k, v).1))
    case OpReplace(k, v) => (Replace(h, s, k, v).0, New(Replace(h, s, k, v).1))
    case OpDelete(k) => (Delete(h, s, k).0, Content(Delete(h, s, k).1))
    case OpFind(k) => (Find(h, s, k).0, Content(Find(h, s, k).1))
    case OpExpand(size) => (Expand(s, size).0, Silent)
    case OpResize => (Resize(s).0, Silent)
    case OpRehash(n) => (Rehash(h, s, n).0, Silent)
    case OpAllowResize(on) => (s.(canResize := on), Silent)
    case OpSetIterators(count) => (s.(iterators := count), Silent)
  }

  /** The same call on a plain finite map. */
  function ApplyMap(m: map<Key, Value>, op: Op): (map<Key, Value>, Answer)
  {
    match op
    case OpAdd(k, v) => (if k in m then m else m[k := v], New(k !in m))
    case OpReplace(k, v) => (m[k := v], New(k !in m))
    case OpDelete(k) => (m - {k}, Content(MapGet(m, k)))
    case OpFind(k) => (m, Content(MapGet(m, k)))
    case OpExpand(_) => (m, Silent)
    case OpResize => (m, Silent)
    case OpRehash(_) => (m, Silent)
    case OpAllowResize(_) => (m, Silent)
    case OpSetIterators(_) => (m, Silent)
  }

  lemma InsertRefines(h: Hash, s: State, m: map<Key, Value>, k: Key, v: Value)
    requires Ok(h, s) && s.ht0.buckets != [] && Agrees(h, s, m) && k !in m
    ensures Ok(h, Insert(h, s, Entry(k, v))) && Agrees(h, Insert(h, s, Entry(k, v)), m[k := v])
  {
    InsertOk(h, s, Entry(k, v));
  }

  lemma AssignRefines(h: Hash, s: State, m: map<Key, Value>, k: Key, v: Value)
    requires Ok(h, s) && Agrees(h, s, m) && k in m
    ensures Lookup(h, s, k).Some?
    ensures Ok(h, Assign(h, s, k, v)) && Agrees(h, Assign(h, s, k, v), m[k := v])
  {
    assert Lookup(h, s, k) == MapGet(m, k);
    AssignOk(h, s, k, v);
    assert m[k := v].Keys == m.Keys;
  }

  lemma AddRefines(h: Hash, s: State, m: map<Key, Value>, k: Key, v: Value)
    requires Ok(h, s) && CanGrow(s) && Agrees(h, s, m)
    ensures var r := Add(h, s, k, v);
            Ok(h, r.0) && Agrees(h, r.0, if k in m then m else m[k := v]) && r.1 == (k !in m)
  {
    PrepareOk(h, s);
    var t := Prepare(h, s).0;
    AgreesSame(h, s, t, m);
    assert Lookup(h, t, k) == MapGet(m, k);
    if k !in m {
      InsertRefines(h, t, m, k, v);
    }
  }

  lemma ReplaceRefines(h: Hash, s: State, m: map<Key, Value>, k: Key, v: Value)
    requires Ok(h, s) && CanGrow(s) && Agrees(h, s, m)
    ensures var r := Replace(h, s, k, v);
            Ok(h, r.0) && Agrees(h, r.0, m[k := v]) && r.1 == (k !in m)
  {
    PrepareOk(h, s);
    var t := Prepare(h, s).0;
    AgreesSame(h, s, t, m);
    assert Lookup(h, t, k) == MapGet(m, k);
    if k in m {
      AssignRefines(h, t, m, k, v);
    } else {
      InsertRefines(h, t, m, k, v);
    }
  }

  lemma DeleteRefines(h: Hash, s: State, m: map<Key, Value>, k: Key)
    requires Ok(h, s) && Agrees(h, s, m)
    ensures var r := Delete(h, s, k);
            Ok(h, r.0) && Agrees(h, r.0, m - {k}) && r.1 == MapGet(m, k)
  {
    StepOk(h, s);
    AgreesSame(h, s, Step(h, s), m);
    if s.Total() == 0 {
      assert m == map[] && m - {k} == m;
    } else {
      RemoveRefines(h, Step(h, s), m, k);
    }
  }

  lemma RemoveRefines(h: Hash, s: State, m: map<Key, Value>, k: Key)
    requires Ok(h, s) && Agrees(h, s, m)
    ensures var r := RemoveKey(h, s, k);
            Ok(h, r.0) && Agrees(h, r.0, m - {k}) && r.1 == MapGet(m, k)
  {
    assert Lookup(h, s, k) == MapGet(m, k);
    if k in m {
      UnlinkOk(h, s, k);
      RemovalCount(m, k);
    } else {
      assert m - {k} == m;
    }
  }

  lemma RemovalCount(m: map<Key, Value>, k: Key)
    requires k in m
    ensures |m - {k}| == |m| - 1
  {
    assert (m - {k}).Keys == m.Keys - {k};
    assert |m - {k}| == |(m - {k}).Keys| && |m| == |m.Keys|;
  }

  lemma FindRefines(h: Hash, s: State, m: map<Key, Value>, k: Key)
    requires Ok(h, s) && Agrees(h, s, m)
    ensures var r := Find(h, s, k);
            Ok(h, r.0) && Agrees(h, r.0, m) && r.1 == MapGet(m, k)
  {
    StepOk(h, s);
    if s.Total() == 0 {
      assert m == map[];
    }
  }

  /** Every call answers as the map does and leaves a state that still stands for the map;
      in particular the rehash steps hidden in lookups change nothing. */
  lemma ApplyRefines(h: Hash, s: State, m: map<Key, Value>, op: Op)
    requires Ok(h, s) && CanGrow(s) && Agrees(h, s, m)
    ensures var r := Apply(h, s, op);
            Ok(h, r.0) && Agrees(h, r.0, ApplyMap(m, op).0) && r.1 == ApplyMap(m, op).1
  {
    match op
    case OpAdd(k, v) => AddRefines(h, s, m, k, v);
    case OpReplace(k, v) => ReplaceRefines(h, s, m, k, v);
    case OpDelete(k) => DeleteRefines(h, s, m, k);
    case OpFind(k) => FindRefines(h, s, m, k);
    case _ => ShapeRefines(h, s, m, op);
  }

  /** The calls that only change the shape, or the switches. */
  lemma ShapeRefines(h: Hash, s: State, m: map<Key, Value>, op: Op)
    requires Ok(h, s) && CanGrow(s) && Agrees(h, s, m)
    requires op.OpExpand? || op.OpResize? || op.OpRehash? || op.OpAllowResize? || op.OpSetIterators?
    ensures var t := Apply(h, s, op).0; Ok(h, t) && Agrees(h, t, m)
  {
    match op
    case OpExpand(size) => ExpandOk(h, s, size);
    case OpResize => ResizeOk(h, s);
    case OpRehash(n) => RehashOk(h, s, n);
    case OpAllowResize(_) =>
    case OpSetIterators(_) =>
  }

  lemma MapGrows(m: map<Key, Value>, op: Op)
    ensures |ApplyMap(m, op).0| <= |m| + 1
  {
    if op.OpDelete? {
      assert (m - {op.k}).Keys <= m.Keys;
      assert |(m - {op.k}).Keys| <= |m.Keys|;
    }
  }

  // -------------------------------------------------------------------- runs

  /** Room for one more entry per call, so that doubling `used` never wraps. */
  ghost predicate Room(s: State, ops: seq<Op>) { s.Total() + |ops| < 0x4000_0000_0000_0000 }

  function MapRun(m: map<Key, Value>, ops: seq<Op>): (map<Key, Value>, seq<Answer>)
    decreases |ops|
  {
    if ops == [] then (m, [])
    else
      var (m1, a) := ApplyMap(m, ops[0]);
      var (m2, rest) := MapRun(m1, ops[1..]);
      (m2, [a] + rest)
  }

  /** The run of the two-table structure, with the map it stands for as a witness. */
  ghost function Run(h: Hash, s: State, m: map<Key, Value>, ops: seq<Op>): (r: (State, seq<Answer>))
    requires Ok(h, s) && Agrees(h, s, m) && Room(s, ops)
    decreases |ops|
  {
    if ops == [] then (s, [])
    else
      ApplyRefines(h, s, m, ops[0]);
      MapGrows(m, ops[0]);
      var (s1, a) := Apply(h, s, ops[0]);
      var (s2, rest) := Run(h, s1, ApplyMap(m, ops[0]).0, ops[1..]);
      (s2, [a] + rest)
  }

  /** Map refinement: in any run, every answer is the map's answer, and the final tables
      are well formed and stand for the final map. */
  lemma {:induction false} MapRefinement(h: Hash, s: State, m: map<Key, Value>, ops: seq<Op>)
    requires Ok(h, s) && Agrees(h, s, m) && Room(s, ops)
    ensures var r := Run(h, s, m, ops);
            && r.1 == MapRun(m, ops).1
            && Ok(h, r.0) && Agrees(h, r.0, MapRun(m, ops).0)
    decreases |ops|
  {
    if ops != [] {
      ApplyRefines(h, s, m, ops[0]);
      MapGrows(m, ops[0]);
      MapRefinement(h, Apply(h, s, ops[0]).0, ApplyMap(m, ops[0]).0, ops[1..]);
    }
  }

  // ------------------------------------------------------------- load factor

  predicate Ordinary(op: Op) { op.OpAdd? || op.OpReplace? || op.OpDelete? || op.OpFind? }

  /** The calls the bound holds for; unless resizing is to stay enabled, it may be switched too. */
  predicate OrdinaryIf(op: Op, enabled: bool) { Ordinary(op) || (!enabled && op.OpAllowResize?) }

  /** The size of the table that insertions go to. */
  function TargetSize(s: State): nat
  {
    if s.Rehashing() then |s.ht1.buckets| else |s.ht0.buckets|
  }

  /** How many entries n buckets hold at most before they grow: as many as there are buckets with
      resizing enabled, and once the forced ratio is passed otherwise. */
  function Most(n: nat, enabled: bool): nat { if enabled then n else (FORCE_RATIO + 1) * n }

  /** The table grows to twice its size with resizing enabled, and at least to that otherwise. */
  predicate Grown(s: State, enabled: bool)
  {
    if enabled then |s.ht1.buckets| == 2 * |s.ht0.buckets| else |s.ht1.buckets| >= 2 * |s.ht0.buckets|
  }

  /** While growing from N buckets, each entry beyond one more than N buckets hold at most has been
      paid for by a bucket already passed. */
  ghost predicate Loaded(s: State, enabled: bool)
  {
    && s.iterators == 0 && (enabled ==> s.canResize)
    && (!s.Rehashing() ==> s.Total() <= Most(|s.ht0.buckets|, enabled))
    && (s.Rehashing() ==> Grown(s, enabled) && s.Total() <= Most(|s.ht0.buckets|, enabled) + 1 + s.rehashidx)
  }

  /** As Loaded, with the room an insertion is about to use. */
  ghost predicate LoadedForInsert(s: State, enabled: bool)
  {
    && s.iterators == 0 && (enabled ==> s.canResize)
    && (!s.Rehashing() ==> s.Total() < Most(|s.ht0.buckets|, enabled))
    && (s.Rehashing() ==> Grown(s, enabled) && s.Total() <= Most(|s.ht0.buckets|, enabled) + s.rehashidx)
  }

  lemma StepLoaded(h: Hash, s: State, enabled: bool)
    requires Ok(h, s) && Loaded(s, enabled)
    ensures Loaded(Step(h, s), enabled)
    ensures s.Rehashing() && Step(h, s).Rehashing() ==> LoadedForInsert(Step(h, s), enabled)
  {
    StepOk(h, s);
  }

  lemma DoubleSize(n: nat)
    requires IsTableSize(n) && 2 * n < LONG_MAX
    ensures NextPower(2 * n) == 2 * n
  {
    NextPowerOk(2 * n);
    SizeAtLeast(n);
    var r := NextPower(2 * n);
    var i: nat :| 2 <= i < BITS && Pow2(i) == n;
    var j: nat :| 2 <= j < BITS && Pow2(j) == r;
    assert Pow2(i + 1) == 2 * n;
    if j > i + 1 { Pow2Strict(i + 1, j); }
    if j < i + 1 { Pow2Strict(j, i + 1); }
  }

  /** Past the forced ratio a table grows even with resizing disabled. */
  lemma ForcedAt(used: nat, n: nat)
    requires n > 0
    ensures used / n > FORCE_RATIO <==> used >= (FORCE_RATIO + 1) * n
  {
    var q := used / n;
    assert used == q * n + used % n;
    if q >= 6 {
      MulMonotone(6, q, n);
    } else {
      MulMonotone(q, 5, n);
    }
  }

  lemma ExpandLoaded(h: Hash, s: State, enabled: bool)
    requires Ok(h, s) && CanGrow(s) && Loaded(s, enabled) && !s.Rehashing()
    ensures LoadedForInsert(ExpandIfNeeded(s).0, enabled)
  {
    var n, used := |s.ht0.buckets|, s.ht0.used;
    if n == 0 {
      NextPowerOk(INITIAL_SIZE);
    } else {
      ForcedAt(used, n);
      if used >= n && (s.canResize || used / n > FORCE_RATIO) {
        assert 2 * used % 0x1_0000_0000_0000_0000 == 2 * used;
        NextPowerOk(2 * used);
        if enabled { DoubleSize(n); }
        assert ExpandIfNeeded(s).0 == s.(ht1 := Table(EmptyBuckets(NextPower(2 * used)), 0), rehashidx := 0);
      }
    }
  }

  lemma PrepareLoaded(h: Hash, s: State, enabled: bool)
    requires Ok(h, s) && CanGrow(s) && Loaded(s, enabled)
    ensures LoadedForInsert(Prepare(h, s).0, enabled)
  {
    StepLoaded(h, s, enabled);
    StepOk(h, s);
    if !Step(h, s).Rehashing() {
      ExpandLoaded(h, Step(h, s), enabled);
    }
  }

  lemma ChangedLoaded(h: Hash, s: State, e: Entry, enabled: bool)
    requires Ok(h, s) && LoadedForInsert(s, enabled) && s.ht0.buckets != []
    ensures Loaded(Insert(h, s, e), enabled)
    ensures Lookup(h, s, e.key).Some? ==> Loaded(Assign(h, s, e.key, e.val), enabled)
  {
  }

  lemma InsertingLoaded(h: Hash, s: State, k: Key, v: Value, enabled: bool)
    requires Ok(h, s) && CanGrow(s) && Loaded(s, enabled)
    ensures Loaded(Add(h, s, k, v).0, enabled) && Loaded(Replace(h, s, k, v).0, enabled)
  {
    PrepareOk(h, s);
    PrepareLoaded(h, s, enabled);
    ChangedLoaded(h, Prepare(h, s).0, Entry(k, v), enabled);
  }

  lemma RemoveLoaded(h: Hash, s: State, k: Key, enabled: bool)
    requires Ok(h, s) && Loaded(s, enabled)
    ensures Loaded(RemoveKey(h, s, k).0, enabled)
  {
    if Lookup(h, s, k).Some? {
      UnlinkOk(h, s, k);
    }
  }

  lemma ReadingLoaded(h: Hash, s: State, k: Key, enabled: bool)
    requires Ok(h, s) && Loaded(s, enabled)
    ensures Loaded(Find(h, s, k).0, enabled) && Loaded(Delete(h, s, k).0, enabled)
  {
    StepOk(h, s);
    StepLoaded(h, s, enabled);
    RemoveLoaded(h, Step(h, s), k, enabled);
  }

  lemma ApplyLoaded(h: Hash, s: State, op: Op, enabled: bool)
    requires Ok(h, s) && CanGrow(s) && Loaded(s, enabled) && OrdinaryIf(op, enabled)
    ensures Loaded(Apply(h, s, op).0, enabled)
  {
    match op
    case OpAdd(k, v) => InsertingLoaded(h, s, k, v, enabled);
    case OpReplace(k, v) => InsertingLoaded(h, s, k, v, enabled);
    case OpDelete(k) => ReadingLoaded(h, s, k, enabled);
    case OpFind(k) => ReadingLoaded(h, s, k, enabled);
    case OpAllowResize(_) =>
  }

  lemma LoadedBound(h: Hash, s: State, enabled: bool)
    requires Ok(h, s) && Loaded(s, enabled)
    ensures s.Total() <= Most(TargetSize(s), enabled)
  {
  }

  /** Load-factor bound: a dictionary that sees no iterators and no explicit resizing never holds
      more entries than its insertion table has buckets, if resizing stays enabled, and never more
      than six times as many, however it is switched on and off. */
  lemma {:induction false} LoadFactor(h: Hash, s: State, m: map<Key, Value>, ops: seq<Op>, enabled: bool)
    requires Ok(h, s) && Agrees(h, s, m) && Room(s, ops) && Loaded(s, enabled)
    requires forall i | 0 <= i < |ops| :: OrdinaryIf(ops[i], enabled)
    ensures var t := Run(h, s, m, ops).0;
            && Ok(h, t) && Loaded(t, enabled) && t.Total() <= Most(TargetSize(t), enabled)
    decreases |ops|
  {
    if ops == [] {
      LoadedBound(h, s, enabled);
    } else {
      ApplyRefines(h, s, m, ops[0]);
      MapGrows(m, ops[0]);
      ApplyLoaded(h, s, ops[0], enabled);
      LoadFactor(h, Apply(h, s, ops[0]).0, ApplyMap(m, ops[0]).0, ops[1..], enabled);
    }
  }

  /** The same for runs from the empty dictionary: ordinary calls with resizing enabled, and ordinary
      calls with resizing switched at will. */
  lemma LoadFactorFromEmpty(h: Hash, ops: seq<Op>, enabled: bool)
    requires |ops| < 0x4000_0000_0000_0000
    requires forall i | 0 <= i < |ops| :: OrdinaryIf(ops[i], enabled)
    ensures forall on | enabled ==> on ::
              var t := (EmptyOk(h, on); Run(h, Empty(on), map[], ops).0);
              t.Total() <= if enabled then TargetSize(t) else 6 * TargetSize(t)
  {
    forall on | enabled ==> on
      ensures var t := (EmptyOk(h, on); Run(h, Empty(on), map[], ops).0);
              t.Total() <= if enabled then TargetSize(t) else 6 * TargetSize(t)
    {
      EmptyOk(h, on);
      LoadFactor(h, Empty(on), map[], ops, enabled);
    }
  }
}
