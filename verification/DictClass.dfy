/** The dictionary of dict.c with its bucket arrays, counters and rehash index updated in
    place. Every method is proved to be the operation of DictModel on the state it stands for. */
module DictClass {
  import opened Bytes
  import opened DictModel

  /** _dictNextPower: doubling from the initial size. */
  method NextPowerOf(size: nat) returns (n: nat)
    ensures n == NextPower(size)
  {
    var i := INITIAL_SIZE;
    if size >= LONG_MAX { return LONG_MAX + 1; }
    while i < size
      invariant i > 0 && NextPowerFrom(i, size) == NextPowerFrom(INITIAL_SIZE, size)
    {
      i := i * 2;
    }
    return i;
  }

  /** Walk a chain looking for a key; the position is that of its first entry. */
  method WalkChain(c: Chain, key: Key) returns (found: bool, pos: nat)
    ensures found ==> ChainAt(c, pos, key)
    ensures found <==> FindIn(c, key).Some?
  {
    pos := 0;
    while pos < |c|
      invariant pos <= |c| && forall i | 0 <= i < pos :: c[i].key != key
      invariant FindIn(c, key) == FindIn(c[pos..], key)
    {
      if c[pos].key == key {
        return true, pos;
      }
      pos := pos + 1;
    }
    return false, pos;
  }

  class Dict {
    const hash: Hash
    var table0: array<Chain>
    var used0: nat
    var table1: array<Chain>
    var used1: nat
    var rehashidx: int
    var iterators: nat
    var canResize: bool

    ghost function View(): State
      reads this, table0, table1
    {
      State(Table(table0[..], used0), Table(table1[..], used1), rehashidx, iterators, canResize)
    }

    ghost predicate Valid()
      reads this, table0, table1
    {
      table0 != table1 && Ok(hash, View())
    }

    ghost function Tables(): set<object>
      reads this
    {
      {table0, table1}
    }

    constructor (hash: Hash)
      ensures Valid() && fresh(Tables())
      ensures this.hash == hash && View() == Empty(true)
    {
      this.hash := hash;
      table0 := new Chain[0];
      used0 := 0;
      table1 := new Chain[0];
      used1 := 0;
      rehashidx := -1;
      iterators := 0;
      canResize := true;
      new;
      EmptyOk(hash, true);
    }

    method ExpandTo(size: nat) returns (ok: bool)
      requires Valid()
      modifies this
      ensures Valid() && fresh(Tables() - old(Tables()))
      ensures (View(), ok) == Expand(old(View()), size)
    {
      ExpandOk(hash, View(), size);
      if rehashidx != -1 || used0 > size {
        return false;
      }
      var realsize := NextPowerOf(size);
      if realsize == table0.Length {
        return false;
      }
      var n := new Chain[realsize](_ => []);
      assert n[..] == EmptyBuckets(realsize);
      if table0.Length == 0 {
        table0 := n;
        used0 := 0;
        return true;
      }
      table1 := n;
      used1 := 0;
      rehashidx := 0;
      return true;
    }

    method ResizeToFit() returns (ok: bool)
      requires Valid()
      modifies this
      ensures Valid() && fresh(Tables() - old(Tables()))
      ensures (View(), ok) == Resize(old(View()))
    {
      if !canResize || rehashidx != -1 {
        return false;
      }
      var minimal := ToInt32(used0);
      if minimal < INITIAL_SIZE {
        minimal := INITIAL_SIZE;
      }
      ok := ExpandTo(minimal);
    }

    /** The inner loop of dictRehash: push the entries of the bucket at rehashidx, one by one,
        onto the heads of their new buckets, then clear the old bucket. */
    method MoveCurrentBucket()
      requires Moving(hash, View()) && table0 != table1
      requires View().Rehashing() && rehashidx < table0.Length
      modifies this`used0, this`used1, this`rehashidx, table0, table1
      ensures old(|table0[rehashidx]|) <= old(used0)
      ensures View() == MoveBucket(hash, old(View()))
    {
      ghost var c, dst, u0, u1 := table0[rehashidx], table1[..], used0, used1;
      BucketWithin(table0[..], rehashidx);
      var de := table0[rehashidx];
      while de != []
        invariant |de| <= |c| <= u0
        invariant used0 == u0 - (|c| - |de|) && used1 == u1 + (|c| - |de|)
        invariant MoveChain(hash, de, table1[..]) == MoveChain(hash, c, dst)
        invariant table0[..] == old(table0[..]) && rehashidx == old(rehashidx)
        decreases |de|
      {
        var e := de[0];
        var i := Slot(hash, e.key, table1.Length);
        ghost var before := table1[..];
        table1[i] := [e] + table1[i];
        assert table1[..] == PushFront(hash, before, e);
        used0 := used0 - 1;
        used1 := used1 + 1;
        de := de[1..];
      }
      table0[rehashidx] := [];
      rehashidx := rehashidx + 1;
    }

    /** Step the index over empty buckets, at most `visits` of them. */
    method SkipEmptyBuckets(visits: nat) returns (left: nat)
      requires visits > 0 && 0 <= rehashidx < table0.Length
      requires exists j :: rehashidx <= j < table0.Length && table0[j] != []
      modifies this`rehashidx
      ensures (rehashidx as int, left) == SkipEmpty(table0[..], old(rehashidx), visits)
    {
      left := visits;
      while table0[rehashidx] == []
        invariant left > 0 && 0 <= rehashidx < table0.Length
        invariant exists j :: rehashidx <= j < table0.Length && table0[j] != []
        invariant SkipEmpty(table0[..], rehashidx, left) == SkipEmpty(table0[..], old(rehashidx), visits)
        decreases table0.Length - rehashidx
      {
        rehashidx := rehashidx + 1;
        left := left - 1;
        if left == 0 { return; }
      }
    }

    /** One turn of the outer loop: find the next bucket and move it, unless the budget of
        empty visits runs out first. */
    method RehashTurn(ghost s: State, k: nat, visits: nat, ghost goal: State)
      returns (left: nat, ghost t: State)
      requires s == View() && table0 != table1
      requires used0 != 0 && k > 0 && Pending(hash, s, k, visits, goal)
      modifies this`used0, this`used1, this`rehashidx, table0, table1
      ensures t == View()
      ensures left == 0 ==> t == goal && t.ht0.used != 0
      ensures left > 0 ==> Pending(hash, t, k - 1, left, goal)
    {
      MoreToMove(hash, s);
      TurnOk(hash, s, visits);
      SkipEmptyOk(hash, s, visits);
      left := SkipEmptyBuckets(visits);
      t := View();
      if left > 0 {
        MoveBucketOk(hash, t);
        MoveCurrentBucket();
        t := View();
      }
      assert (t, left) == Turn(hash, s, visits);
    }

    /** The old table is released; the new one takes its place. */
    method FinishRehash()
      modifies this
      ensures View() == Finish(old(View()))
      ensures table0 == old(table1) && fresh(table1)
    {
      table0 := table1;
      used0 := used1;
      table1 := new Chain[0];
      used1 := 0;
      rehashidx := -1;
    }

    /** The outer loop of dictRehash. It stops where DictModel.RehashVisits bounds its work. */
    method RehashTurns(ghost s: State, n: nat) returns (outOfVisits: bool, ghost t: State)
      requires s == View() && Moving(hash, s) && table0 != table1 && s.Rehashing()
      modifies this`used0, this`used1, this`rehashidx, table0, table1
      ensures t == View() && t == Stopped(hash, s, n, 10 * n)
      ensures outOfVisits ==> t.ht0.used != 0
    {
      var visits: nat := 10 * n;
      var k: nat := n;
      t := s;
      ghost var goal := Stopped(hash, s, n, visits);
      while k > 0 && used0 != 0
        invariant t == View() && Pending(hash, t, k, visits, goal)
        decreases k
      {
        visits, t := RehashTurn(t, k, visits, goal);
        if visits == 0 { return true, t; }
        k := k - 1;
      }
      return false, t;
    }

    method RehashSteps(n: nat) returns (more: bool)
      requires Valid()
      modifies this, table0, table1
      ensures Valid() && fresh(Tables() - old(Tables()))
      ensures (View(), more) == Rehash(hash, old(View()), n)
    {
      RehashKeepsOk(hash, View(), n);
      if rehashidx == -1 {
        return false;
      }
      ghost var t;
      var outOfVisits;
      outOfVisits, t := RehashTurns(View(), n);
      if outOfVisits {
        return true;
      }
      if used0 == 0 {
        FinishRehash();
        return false;
      }
      return true;
    }

    /** _dictRehashStep: iterators keep the tables as they are. */
    method RehashStep()
      requires Valid()
      modifies this, table0, table1
      ensures Valid() && fresh(Tables() - old(Tables()))
      ensures View() == Step(hash, old(View()))
    {
      if iterators == 0 {
        var _ := RehashSteps(1);
      }
    }

    method ExpandAsNeeded() returns (ok: bool)
      requires Valid()
      modifies this
      ensures Valid() && fresh(Tables() - old(Tables()))
      ensures (View(), ok) == ExpandIfNeeded(old(View()))
    {
      if rehashidx != -1 {
        return true;
      }
      if table0.Length == 0 {
        ok := ExpandTo(INITIAL_SIZE);
        return;
      }
      if used0 >= table0.Length && (canResize || used0 / table0.Length > FORCE_RATIO) {
        ok := ExpandTo(2 * used0 % 0x1_0000_0000_0000_0000);
        return;
      }
      return true;
    }

    /** The two-table walk shared by dictFind and _dictKeyIndex. */
    method Search(key: Key) returns (he: Option<Ref>)
      requires Valid() && table0.Length > 0
      ensures he.None? <==> Lookup(hash, View(), key).None?
      ensures he.Some? ==> PointsTo(hash, View(), he.value, key)
    {
      var idx := Slot(hash, key, table0.Length);
      var found, pos := WalkChain(table0[idx], key);
      if found {
        return Some(Ref(0, idx, pos));
      }
      if rehashidx == -1 {
        return None;
      }
      idx := Slot(hash, key, table1.Length);
      found, pos := WalkChain(table1[idx], key);
      if found {
        return Some(Ref(1, idx, pos));
      }
      return None;
    }

    method ReadValue(he: Ref, ghost key: Key) returns (v: Value)
      requires Valid() && PointsTo(hash, View(), he, key)
      ensures Lookup(hash, View(), key) == Some(v)
    {
      PointsToMeans(hash, View(), he, key, []);
      v := if he.table == 0 then table0[he.bucket][he.pos].val else table1[he.bucket][he.pos].val;
    }

    /** dictSetVal through an entry pointer. */
    method WriteValue(he: Ref, key: Key, v: Value)
      requires Valid() && PointsTo(hash, View(), he, key)
      modifies table0, table1
      ensures Valid() && Lookup(hash, old(View()), key).Some?
      ensures View() == Assign(hash, old(View()), key, v)
    {
      PointsToMeans(hash, View(), he, key, v);
      AssignOk(hash, View(), key, v);
      if he.table == 0 {
        table0[he.bucket] := table0[he.bucket][he.pos := Entry(key, v)];
      } else {
        table1[he.bucket] := table1[he.bucket][he.pos := Entry(key, v)];
      }
    }

    method InsertEntry(e: Entry)
      requires Valid() && table0.Length > 0 && Lookup(hash, View(), e.key).None?
      modifies this`used0, this`used1, table0, table1
      ensures Valid() && View() == Insert(hash, old(View()), e)
    {
      InsertOk(hash, View(), e);
      if rehashidx != -1 {
        var index := Slot(hash, e.key, table1.Length);
        table1[index] := [e] + table1[index];
        used1 := used1 + 1;
      } else {
        var index := Slot(hash, e.key, table0.Length);
        table0[index] := [e] + table0[index];
        used0 := used0 + 1;
      }
    }

    /** The search-and-insert part of dictAddRaw. */
    method InsertUnlessPresent(key: Key, v: Value) returns (existing: Option<Ref>)
      requires Valid() && table0.Length > 0
      modifies this`used0, this`used1, table0, table1
      ensures Valid()
      ensures existing.None? <==> Lookup(hash, old(View()), key).None?
      ensures existing.Some? ==> View() == old(View()) && PointsTo(hash, View(), existing.value, key)
      ensures existing.None? ==> View() == Insert(hash, old(View()), Entry(key, v))
    {
      existing := Search(key);
      if existing.None? {
        InsertEntry(Entry(key, v));
      }
    }

    /** The two steps before the search of _dictKeyIndex: a rehash step, an expansion if due. */
    method PrepareTables() returns (ok: bool)
      requires Valid()
      modifies this, table0, table1
      ensures Valid() && fresh(Tables() - old(Tables()))
      ensures (View(), ok) == Prepare(hash, old(View()))
    {
      PrepareFits(hash, View());
      if rehashidx != -1 {
        RehashStep();
      }
      ok := ExpandAsNeeded();
    }

    /** dictAddRaw, with the value dictAdd and dictReplace store in the new entry. On failure
        `existing` is the entry in the way; it is null only if an expansion overflowed. */
    method AddRaw(key: Key, v: Value) returns (added: bool, existing: Option<Ref>)
      requires Valid()
      modifies this, table0, table1
      ensures Valid() && fresh(Tables() - old(Tables()))
      ensures (View(), added) == Add(hash, old(View()), key, v)
      ensures !added && existing.None? ==> !CanGrow(old(View()))
      ensures existing.Some? ==> !added && PointsTo(hash, View(), existing.value, key)
    {
      PrepareFits(hash, View());
      var ok := PrepareTables();
      if !ok {
        return false, None;
      }
      existing := InsertUnlessPresent(key, v);
      added := existing.None?;
    }

    method AddEntry(key: Key, v: Value) returns (ok: bool)
      requires Valid()
      modifies this, table0, table1
      ensures Valid() && fresh(Tables() - old(Tables()))
      ensures (View(), ok) == Add(hash, old(View()), key, v)
    {
      var existing;
      ok, existing := AddRaw(key, v);
    }

    /** dictReplace is total: if no entry was added there is one to overwrite. */
    method ReplaceEntry(key: Key, v: Value) returns (added: bool)
      requires Valid() && CanGrow(View())
      modifies this, table0, table1
      ensures Valid() && fresh(Tables() - old(Tables()))
      ensures (View(), added) == Replace(hash, old(View()), key, v)
    {
      PrepareOk(hash, View());
      var existing;
      added, existing := AddRaw(key, v);
      if !added {
        WriteValue(existing.value, key, v);
      }
    }

    method FindEntry(key: Key) returns (he: Option<Ref>)
      requires Valid()
      modifies this, table0, table1
      ensures Valid() && fresh(Tables() - old(Tables()))
      ensures View() == Find(hash, old(View()), key).0
      ensures he.None? <==> Lookup(hash, old(View()), key).None?
      ensures he.Some? ==> PointsTo(hash, View(), he.value, key)
    {
      StepOk(hash, View());
      if used0 + used1 == 0 {
        EmptyHasNoKeys(hash, View());
        return None;
      }
      if rehashidx != -1 {
        RehashStep();
      }
      he := Search(key);
    }

    method FetchValue(key: Key) returns (v: Option<Value>)
      requires Valid()
      modifies this, table0, table1
      ensures Valid() && fresh(Tables() - old(Tables()))
      ensures (View(), v) == Find(hash, old(View()), key)
    {
      StepOk(hash, View());
      if used0 + used1 == 0 {
        EmptyHasNoKeys(hash, View());
      }
      var he := FindEntry(key);
      if he.None? {
        return None;
      }
      var value := ReadValue(he.value, key);
      return Some(value);
    }

    /** Take the entry out of its chain. */
    method UnlinkEntry(he: Ref, ghost key: Key)
      requires Valid() && PointsTo(hash, View(), he, key)
      requires Lookup(hash, View(), key).Some?
      requires if Get(hash, View().ht0.buckets, key).Some? then used0 > 0 else used1 > 0
      modifies this`used0, this`used1, table0, table1
      ensures Valid() && View() == Unlink(hash, old(View()), key)
    {
      var Ref(t, i, j) := he;
      PointsToMeans(hash, View(), he, key, []);
      ChainAtMeans(if t == 0 then table0[i] else table1[i], j, key, []);
      UnlinkOk(hash, View(), key);
      if t == 0 {
        table0[i] := table0[i][..j] + table0[i][j + 1..];
        used0 := used0 - 1;
      } else {
        table1[i] := table1[i][..j] + table1[i][j + 1..];
        used1 := used1 - 1;
      }
    }

    /** The search-and-unlink part of dictGenericDelete. */
    method UnlinkKey(key: Key) returns (removed: Option<Value>)
      requires Valid() && table0.Length > 0
      modifies this`used0, this`used1, table0, table1
      ensures Valid() && removed == Lookup(hash, old(View()), key)
      ensures removed.None? ==> View() == old(View())
      ensures removed.Some? ==>
                && (if Get(hash, old(View()).ht0.buckets, key).Some? then old(used0) > 0 else old(used1) > 0)
                && View() == Unlink(hash, old(View()), key)
    {
      var he := Search(key);
      if he.None? {
        return None;
      }
      var v := ReadValue(he.value, key);
      UnlinkOk(hash, View(), key);
      UnlinkEntry(he.value, key);
      return Some(v);
    }

    /** dictGenericDelete; what it returns stands for the unlinked entry. */
    method GenericDelete(key: Key) returns (removed: Option<Value>)
      requires Valid()
      modifies this, table0, table1
      ensures Valid() && fresh(Tables() - old(Tables()))
      ensures (View(), removed) == Delete(hash, old(View()), key)
    {
      if used0 == 0 && used1 == 0 {
        return None;
      }
      StepKeepsTable(hash, View());
      if rehashidx != -1 {
        RehashStep();
      }
      removed := UnlinkKey(key);
    }
  }
}
