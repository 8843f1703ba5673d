/** The LRU cache of raw blocks, keyed by file number and block offset. */
module Cache {
  import opened Bytes

  type Key = (nat, nat)

  function Without(s: seq<Key>, k: Key): (r: seq<Key>)
    ensures |r| <= |s|
    ensures forall x :: x in r <==> x in s && x != k
  {
    if s == [] then [] else (if s[0] == k then [] else [s[0]]) + Without(s[1..], k)
  }

  predicate Distinct(s: seq<Key>) {
    forall i, j :: 0 <= i < j < |s| ==> s[i] != s[j]
  }

  function Take(s: seq<Key>, n: nat): seq<Key> {
    if |s| <= n then s else s[..n]
  }

  /** The recency list after a use of k. */
  function Touch(s: seq<Key>, k: Key): seq<Key> {
    [k] + Without(s, k)
  }

  lemma {:induction false} WithoutConcat(a: seq<Key>, b: seq<Key>, k: Key)
    ensures Without(a + b, k) == Without(a, k) + Without(b, k)
  {
    if a == [] {
      assert a + b == b;
    } else {
      assert (a + b)[1..] == a[1..] + b;
      WithoutConcat(a[1..], b, k);
    }
  }

  lemma {:induction false} WithoutAbsent(s: seq<Key>, k: Key)
    requires k !in s
    ensures Without(s, k) == s
  {
    if s != [] {
      WithoutAbsent(s[1..], k);
    }
  }

  /** Removing one key of a list without repetition. */
  lemma {:induction false} WithoutOne(s: seq<Key>, i: nat)
    requires Distinct(s) && i < |s|
    ensures Without(s, s[i]) == s[..i] + s[i + 1..]
  {
    var tail := s[1..];
    if i == 0 {
      WithoutAbsent(tail, s[0]);
    } else {
      WithoutOne(tail, i - 1);
      assert s[..i] == [s[0]] + tail[..i - 1] && s[i + 1..] == tail[i..];
    }
  }

  lemma TouchDistinct(s: seq<Key>, k: Key)
    requires Distinct(s)
    ensures Distinct(Touch(s, k))
  {
    hide Without;
    if k in s {
      var i :| 0 <= i < |s| && s[i] == k;
      WithoutOne(s, i);
    } else {
      WithoutAbsent(s, k);
    }
  }

  /** The n most recent of the n most recent are the n most recent. */
  lemma TakeTouch(s: seq<Key>, k: Key, n: nat)
    requires Distinct(s)
    ensures Take(Touch(Take(s, n), k), n) == Take(Touch(s, k), n)
  {
    hide Without;
    if |s| > n > 0 {
      var a, b := s[..n], s[n..];
      assert s == a + b;
      WithoutConcat(a, b, k);
      if k in a {
        var i :| 0 <= i < |a| && a[i] == k;
        WithoutOne(a, i);
        WithoutAbsent(b, k);
      } else {
        WithoutAbsent(a, k);
      }
    }
  }

  /** Recency after a list of uses, with and without a bound. */
  function Uses(n: nat, ks: seq<Key>): seq<Key> {
    if ks == [] then [] else Take(Touch(Uses(n, ks[..|ks| - 1]), ks[|ks| - 1]), n)
  }

  function Recency(ks: seq<Key>): seq<Key> {
    if ks == [] then [] else Touch(Recency(ks[..|ks| - 1]), ks[|ks| - 1])
  }

  lemma {:induction false} RecencyDistinct(ks: seq<Key>)
    ensures Distinct(Recency(ks))
  {
    if ks != [] {
      RecencyDistinct(ks[..|ks| - 1]);
      TouchDistinct(Recency(ks[..|ks| - 1]), ks[|ks| - 1]);
    }
  }

  /** A bounded cache holds exactly the n most recently used keys, however long the run. */
  lemma {:induction false} LruPrefix(n: nat, ks: seq<Key>)
    ensures Uses(n, ks) == Take(Recency(ks), n)
  {
    if ks != [] {
      var init, k := ks[..|ks| - 1], ks[|ks| - 1];
      LruPrefix(n, init);
      RecencyDistinct(init);
      TakeTouch(Recency(init), k, n);
    }
  }

  class BlockCache {
    const capacity: nat
    var entries: seq<Key>
    var index: map<Key, Blob>
    var hits: nat
    var misses: nat

    /** The list and the index hold the same keys. */
    ghost predicate Valid()
      reads this
    {
      && Distinct(entries) && |entries| <= capacity
      && forall k :: k in entries <==> k in index
    }

    constructor (capacity: nat)
      ensures Valid() && this.capacity == capacity && entries == [] && index == map[]
    {
      this.capacity, entries, index, hits, misses := capacity, [], map[], 0, 0;
    }

    /** A hit returns the stored block and makes it the most recent. */
    method Get(k: Key) returns (block: Option<Blob>)
      requires Valid()
      modifies this
      ensures Valid() && index == old(index)
      ensures block == if k in index then Some(index[k]) else None
      ensures entries == if k in index then Touch(old(entries), k) else old(entries)
      ensures hits + misses == old(hits + misses) + 1 && (hits > old(hits) <==> block.Some?)
    {
      if capacity == 0 || k !in index {
        misses := misses + 1;
        return None;
      }
      Splice(k);
      hits := hits + 1;
      block := Some(index[k]);
    }

    /** Move a present key to the front. */
    method Splice(k: Key)
      requires Valid() && k in index
      modifies this`entries
      ensures Valid() && entries == Touch(old(entries), k)
    {
      hide Without;
      var i := 0;
      while entries[i] != k
        invariant i < |entries| && k !in entries[..i]
        decreases |entries| - i
      {
        i := i + 1;
      }
      WithoutOne(entries, i);
      TouchDistinct(entries, k);
      entries := [entries[i]] + (entries[..i] + entries[i + 1..]);
    }

    /** The block is stored in front; the least recent key goes when there is no room. */
    method Put(k: Key, block: Blob)
      requires Valid()
      modifies this`entries, this`index
      ensures Valid()
      ensures entries == Take(Touch(old(entries), k), capacity)
      ensures forall x :: x in index <==> x in entries
      ensures forall x :: x in index && x != k ==> x in old(index) && index[x] == old(index)[x]
      ensures k in index ==> index[k] == block
    {
      hide Without;
      if capacity == 0 {
        return;
      }
      if k in index {
        index := index[k := block];
        Splice(k);
        return;
      }
      WithoutAbsent(entries, k);
      TouchDistinct(entries, k);
      ghost var was := entries;
      entries, index := [k] + entries, index[k := block];
      if |entries| > capacity {
        var last := entries[|entries| - 1];
        index := map x | x in index && x != last :: index[x];
        entries := entries[..|entries| - 1];
        assert ([k] + was)[..capacity] == entries;
        assert forall x :: x in [k] + was <==> x in entries || x == last;
      }
    }
  }
}
