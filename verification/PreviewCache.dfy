/**
 The least-recently-used cache of preview bases. load() holds the lock twice, once to look the key up
 and once to store what it built in between, so each half is one step and other loads may run between
 the two.
 */
module PreviewCache {
  import opened Lists
  import opened Wrappers

  // Resolved path, modification time, size and requested dimension.
  datatype Key = Key(path: string, mtime: int, size: nat, maxDim: nat)

  datatype Entry<Base> = Entry(key: Key, base: Base)

  function Keys<Base>(items: seq<Entry<Base>>): (r: seq<Key>)
    ensures |r| == |items| && forall i :: 0 <= i < |r| ==> r[i] == items[i].key
  {
    seq(|items|, i requires 0 <= i < |items| => items[i].key)
  }

  // ---- recency ----

  function Without(keys: seq<Key>, k: Key): (r: seq<Key>)
    ensures k !in r && |r| <= |keys|
    ensures forall x :: x in r <==> x in keys && x != k
  {
    if keys == [] then []
    else (if keys[0] == k then [] else [keys[0]]) + Without(keys[1..], k)
  }

  /** The distinct keys used so far, the most recently used last. */
  function Recent(uses: seq<Key>): seq<Key> {
    if uses == [] then []
    else Without(Recent(uses[..|uses| - 1]), uses[|uses| - 1]) + [uses[|uses| - 1]]
  }

  lemma {:induction false} WithoutNoRepeats(keys: seq<Key>, k: Key)
    requires NoRepeats(keys)
    ensures NoRepeats(Without(keys, k))
    ensures |Without(keys, k)| == if k in keys then |keys| - 1 else |keys|
  {
    if keys != [] {
      WithoutNoRepeats(keys[1..], k);
      assert keys[0] !in keys[1..];
    }
  }

  lemma {:induction false} RecentNoRepeats(uses: seq<Key>)
    ensures NoRepeats(Recent(uses))
    decreases |uses|
  {
    if uses != [] {
      RecentNoRepeats(uses[..|uses| - 1]);
      WithoutNoRepeats(Recent(uses[..|uses| - 1]), uses[|uses| - 1]);
    }
  }

  lemma {:induction false} WithoutConcat(a: seq<Key>, b: seq<Key>, k: Key)
    ensures Without(a + b, k) == Without(a, k) + Without(b, k)
    decreases |a|
  {
    if a == [] {
      assert a + b == b;
    } else {
      assert (a + b)[1..] == a[1..] + b;
      WithoutConcat(a[1..], b, k);
    }
  }

  /** Using a key moves it to the end of the recent ones and pushes at most the oldest out. */
  lemma UseKeepsLast(recent: seq<Key>, k: Key, n: nat)
    requires NoRepeats(recent)
    ensures Suffix(Without(recent, k) + [k], n) == Suffix(Without(Suffix(recent, n), k) + [k], n)
  {
    var last := Suffix(recent, n);
    if |last| < n {
      ShortLast(recent, n);
    } else {
      var older := recent[..|recent| - |last|];
      assert recent == older + last;
      UseFull(older, last, k, n);
    }
  }

  lemma UseFull(older: seq<Key>, last: seq<Key>, k: Key, n: nat)
    requires NoRepeats(older + last) && |last| >= n
    ensures Suffix(Without(older + last, k) + [k], n) == Suffix(Without(last, k) + [k], n)
  {
    WithoutConcat(older, last, k);
    StillFull(older, last, k);
    hide *;
    assert (Without(older, k) + Without(last, k)) + [k] == Without(older, k) + (Without(last, k) + [k]);
    SuffixOfSuffix(Without(older, k), Without(last, k) + [k], n);
  }

  lemma ShortLast(recent: seq<Key>, n: nat)
    requires |Suffix(recent, n)| < n
    ensures Suffix(recent, n) == recent
  {
  }

  lemma StillFull(older: seq<Key>, last: seq<Key>, k: Key)
    requires NoRepeats(older + last)
    ensures |Without(last, k) + [k]| >= |last|
  {
    assert forall i :: 0 <= i < |last| ==> (older + last)[|older| + i] == last[i];
    WithoutNoRepeats(last, k);
  }

  lemma SuffixOfSuffix(a: seq<Key>, b: seq<Key>, n: nat)
    requires n <= |b|
    ensures Suffix(a + b, n) == Suffix(b, n)
  {
  }

  // ---- the cache ----

  class PreviewBaseCache<Base(==)> {
    const capacity: nat
    var items: seq<Entry<Base>>
    ghost var uses: seq<Key>
    // what load_preview_base makes of the file a key identifies
    ghost const decoded: Key -> Base

    /** The capacity most recently used keys, each with the base of its own file. */
    ghost predicate Valid()
      reads this
    {
      && Keys(items) == Suffix(Recent(uses), capacity)
      && (forall e :: e in items ==> e.base == decoded(e.key))
    }

    constructor (capacity: nat, ghost decoded: Key -> Base)
      ensures Valid() && this.capacity == capacity && this.decoded == decoded && uses == []
    {
      this.capacity, this.decoded, items, uses := capacity, decoded, [], [];
    }

    /** The first locked section of load: a hit counts as a use. */
    method LookUp(key: Key) returns (base: Option<Base>)
      requires Valid()
      modifies this
      ensures Valid()
      ensures base.Some? <==> key in Suffix(Recent(old(uses)), capacity)
      ensures base.Some? ==> base.value == decoded(key) && uses == old(uses) + [key]
      ensures base == None ==> items == old(items) && uses == old(uses)
    {
      var at := Find(key);
      if at < |items| {
        base := Some(items[at].base);
        Use(key, items[at].base);
        return;
      }
      assert key !in Keys(items);
      return None;
    }

    /** The second locked section: store what was built and evict the oldest beyond the capacity. */
    method Store(key: Key, base: Base)
      requires Valid() && base == decoded(key)
      modifies this
      ensures Valid() && uses == old(uses) + [key]
    {
      Use(key, base);
    }

    method Find(key: Key) returns (at: nat)
      ensures at <= |items| && (at < |items| ==> items[at].key == key)
      ensures forall j :: 0 <= j < at ==> items[j].key != key
    {
      at := 0;
      while at < |items|
        invariant at <= |items| && forall j :: 0 <= j < at ==> items[j].key != key
      {
        if items[at].key == key {
          return;
        }
        at := at + 1;
      }
    }

    /** Put the entry at the end (replacing one of its key), then drop from the front. */
    method Use(key: Key, base: Base)
      requires Valid() && base == decoded(key)
      modifies this
      ensures Valid() && uses == old(uses) + [key]
    {
      ghost var recent := Recent(uses);
      RecentNoRepeats(uses);
      UseKeepsLast(recent, key, capacity);
      assert (uses + [key])[..|uses|] == uses;
      items := Others(items, key) + [Entry(key, base)];
      uses := uses + [key];
      assert Recent(uses) == Without(recent, key) + [key];
      assert Keys(items) == Without(Suffix(recent, capacity), key) + [key];
      hide Recent, Without, Suffix;
      Evict();
    }

    method Evict()
      modifies this`items
      ensures Keys(items) == Suffix(old(Keys(items)), capacity)
      ensures forall e :: e in items ==> e in old(items)
    {
      while |items| > capacity
        invariant Suffix(Keys(items), capacity) == Suffix(old(Keys(items)), capacity)
        invariant forall e :: e in items ==> e in old(items)
      {
        assert Keys(items[1..]) == Keys(items)[1..];
        items := items[1..];
      }
    }
  }

  /** The entries of all other keys, in order. */
  function Others<Base>(items: seq<Entry<Base>>, key: Key): (r: seq<Entry<Base>>)
    ensures Keys(r) == Without(Keys(items), key)
    ensures forall e :: e in r ==> e in items
  {
    if items == [] then []
    else
      assert Keys(items)[1..] == Keys(items[1..]);
      (if items[0].key == key then [] else [items[0]]) + Others(items[1..], key)
  }
}
