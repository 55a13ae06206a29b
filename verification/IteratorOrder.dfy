/** The order of an iteration: the old table from its first bucket to its last, then the new one,
    and each chain from its head. */
module IteratorOrder {
  import opened Bytes
  import opened DictModel
  import opened DictIterator

  function KeysOf(c: Chain): seq<Key>
  {
    if c == [] then [] else [c[0].key] + KeysOf(c[1..])
  }

  /** The keys of the buckets from i on. */
  function KeysFrom(b: seq<Chain>, i: nat): seq<Key>
    decreases |b| - i
  {
    if i >= |b| then [] else KeysOf(b[i]) + KeysFrom(b, i + 1)
  }

  /** What is still to come in the chain the iterator rests in. */
  function InChain(s: State, it: Iter): seq<Key>
  {
    if it.entry.Some? && it.next.Some? && 0 <= it.index < |Buckets(s, it.table)|
    then KeysOf(Suffix(Buckets(s, it.table)[it.index], it.next.value)) else []
  }

  /** What is still to come behind bucket i of a table. */
  function Behind(s: State, table: nat, i: int): seq<Key>
    requires i >= -1
  {
    KeysFrom(Buckets(s, table), i + 1) + if table == 0 then KeysFrom(s.ht1.buckets, 0) else []
  }

  function Listing(s: State, it: Iter): seq<Key>
    requires it.index >= -1
  {
    InChain(s, it) + Behind(s, it.table, it.index)
  }

  /** The result of dictNext takes the first key of the listing, or there is none. */
  ghost predicate Ordered(s: State, list: seq<Key>, r: (Iter, Option<Key>))
  {
    if r.1.None? then list == [] else r.0.index >= -1 && list == [r.1.value] + Listing(s, r.0)
  }

  lemma SuffixLists(c: Chain, k: Key)
    requires Distinct(c) && FindIn(c, k).Some?
    ensures KeysOf(Suffix(c, k)) == [k] + if After(c, k).Some? then KeysOf(Suffix(c, After(c, k).value)) else []
  {
    SuffixStarts(c, k);
    if After(c, k).Some? {
      SuffixOfNext(c, k);
    } else {
      assert Suffix(c, k)[1..] == [];
    }
  }

  /** Coming to rest on an entry. */
  lemma RestInOrder(h: Hash, s: State, table: nat, i: nat, k: Key)
    requires Ok(h, s) && table <= 1 && i < |Buckets(s, table)| && FindIn(Buckets(s, table)[i], k).Some?
    ensures var c := Buckets(s, table)[i];
            Ordered(s, KeysOf(Suffix(c, k)) + Behind(s, table, i), (Iter(table, i, Some(k), After(c, k)), Some(k)))
  {
    var c := Buckets(s, table)[i];
    SuffixLists(c, k);
    var rest: seq<Key> := if After(c, k).Some? then KeysOf(Suffix(c, After(c, k).value)) else [];
    assert ([k] + rest) + Behind(s, table, i) == [k] + (rest + Behind(s, table, i));
  }

  lemma {:induction false} EnterInOrder(h: Hash, s: State, table: nat, i: nat)
    requires Ok(h, s) && table <= 1 && i < |Buckets(s, table)| && (table == 1 ==> s.Rehashing())
    ensures Ordered(s, Behind(s, table, i - 1), Enter(s, table, i))
    decreases 2 - table, |Buckets(s, table)| - i, 1
  {
    var c := Buckets(s, table)[i];
    BehindSteps(s, table, i);
    if c == [] {
      NextBucketInOrder(h, s, table, i);
      assert [] + Behind(s, table, i) == Behind(s, table, i);
    } else {
      assert Suffix(c, c[0].key) == c;
      RestInOrder(h, s, table, i, c[0].key);
    }
  }

  lemma BehindSteps(s: State, table: nat, i: nat)
    requires i < |Buckets(s, table)|
    ensures Behind(s, table, i - 1) == KeysOf(Buckets(s, table)[i]) + Behind(s, table, i)
  {
  }

  lemma {:induction false} NextBucketInOrder(h: Hash, s: State, table: nat, i: int)
    requires Ok(h, s) && table <= 1 && -1 <= i < |Buckets(s, table)| && (table == 1 ==> s.Rehashing())
    ensures Ordered(s, Behind(s, table, i), NextFrom(s, Between(table, i)))
    decreases 2 - table, |Buckets(s, table)| - i, 0
  {
    if i + 1 < |Buckets(s, table)| {
      EnterInOrder(h, s, table, i + 1);
    } else if s.Rehashing() && table == 0 {
      EnterInOrder(h, s, 1, 0);
      assert Behind(s, 0, i) == [] + KeysFrom(s.ht1.buckets, 0) == Behind(s, 1, -1);
    }
  }

  /** dictNext returns the next key of the listing, and leaves the rest of it. */
  lemma NextInOrder(h: Hash, s: State, it: Iter)
    requires Ok(h, s) && Usable(s, it)
    ensures Ordered(s, Listing(s, it), NextFrom(s, it))
  {
    if it.entry.Some? && it.next.Some? {
      RestInOrder(h, s, it.table, it.index, it.next.value);
    } else {
      NextBucketInOrder(h, s, it.table, it.index);
      assert [] + Behind(s, it.table, it.index) == Behind(s, it.table, it.index);
    }
  }

  /** The listing at the start: all of the old table, then all of the new one. */
  lemma StartsWithAll(s: State)
    ensures Listing(s, START) == KeysFrom(s.ht0.buckets, 0) + KeysFrom(s.ht1.buckets, 0)
  {
  }
}
