/** The self-growing hash table of code/lib/hash.cc. */
module HashTables {
  import opened Wrappers

  const INITIAL_BUCKETS: nat := 4
  const RESIZE_RATIO: nat := 3
  const INCREASE_SIZE_BY: nat := 4

  /** The items of a table, however they are spread over the buckets. */
  ghost function Bag<T>(bs: seq<seq<T>>): (items: multiset<T>)
  {
    if bs == [] then multiset{} else Bag(bs[..|bs| - 1]) + multiset(bs[|bs| - 1])
  }

  lemma Cancel<T>(a: multiset<T>, b: multiset<T>, c: multiset<T>)
    requires a + c == b + c
    ensures a == b
  {
    assert (a + c) - c == a && (b + c) - c == b;
  }

  lemma AddSame<T>(a': multiset<T>, p: multiset<T>, a: multiset<T>, q: multiset<T>, r: multiset<T>)
    requires a' + p == a + q
    ensures (a' + r) + p == (a + r) + q
  {
    assert (a' + r) + p == (a' + p) + r;
    assert (a + r) + q == (a + q) + r;
  }

  /** Replacing one bucket. */
  lemma BagUpdate<T>(bs: seq<seq<T>>, i: nat, b: seq<T>)
    requires i < |bs|
    ensures Bag(bs[i := b]) + multiset(bs[i]) == Bag(bs) + multiset(b)
  {
    var n, bs' := |bs| - 1, bs[i := b];
    if i < n {
      assert bs'[..n] == bs[..n][i := b];
      BagUpdate(bs[..n], i, b);
      AddSame(Bag(bs'[..n]), multiset(bs[i]), Bag(bs[..n]), multiset(b), multiset(bs[n]));
    } else {
      assert bs'[..n] == bs[..n];
    }
  }

  lemma BagAppend<T>(bs: seq<seq<T>>, i: nat, x: T)
    requires i < |bs|
    ensures Bag(bs[i := bs[i] + [x]]) == Bag(bs) + multiset{x}
  {
    var now := bs[i] + [x];
    BagUpdate(bs, i, now);
    assert multiset(now) == multiset(bs[i]) + multiset{x};
    assert Bag(bs) + (multiset(bs[i]) + multiset{x}) == (Bag(bs) + multiset{x}) + multiset(bs[i]);
    Cancel(Bag(bs[i := now]), Bag(bs) + multiset{x}, multiset(bs[i]));
  }

  /** Taking the item at position `j` out of a bucket. */
  lemma {:induction false} BagRemove<T>(bs: seq<seq<T>>, i: nat, j: nat)
    requires i < |bs| && j < |bs[i]|
    ensures Bag(bs[i := Without(bs[i], j)]) + multiset{bs[i][j]} == Bag(bs)
  {
    var b, x := Without(bs[i], j), bs[i][j];
    BagUpdate(bs, i, b);
    WithoutOne(bs[i], j);
    assert Bag(bs[i := b]) + (multiset(b) + multiset{x}) == (Bag(bs[i := b]) + multiset{x}) + multiset(b);
    Cancel(Bag(bs[i := b]) + multiset{x}, Bag(bs), multiset(b));
  }

  /** List::Remove, of the item at position `j`. */
  function Without<T>(s: seq<T>, j: nat): (r: seq<T>)
    requires j < |s|
  {
    s[..j] + s[j + 1..]
  }

  lemma WithoutOne<T>(s: seq<T>, j: nat)
    requires j < |s|
    ensures multiset(Without(s, j)) + multiset{s[j]} == multiset(s)
  {
    assert s == s[..j] + [s[j]] + s[j + 1..];
  }

  lemma {:induction false} BagEmpty<T>(bs: seq<seq<T>>)
    requires forall i :: 0 <= i < |bs| ==> bs[i] == []
    ensures Bag(bs) == multiset{}
  {
    if bs != [] {
      BagEmpty(bs[..|bs| - 1]);
    }
  }

  lemma {:induction false} InBag<T>(bs: seq<seq<T>>, i: nat, x: T)
    requires i < |bs| && x in bs[i]
    ensures x in Bag(bs)
  {
    if i < |bs| - 1 {
      InBag(bs[..|bs| - 1], i, x);
    }
  }

  lemma BagHas<T>(bs: seq<seq<T>>, x: T) returns (i: nat)
    requires x in Bag(bs)
    ensures i < |bs| && x in bs[i]
  {
    var n := |bs| - 1;
    if x in bs[n] {
      i := n;
    } else {
      i := BagHas(bs[..n], x);
    }
  }

  /** Every item of a bucket hashes to `i`, of `n` buckets. */
  ghost predicate AllHome<T(!new)>(b: seq<T>, home: T -> nat, n: nat, i: nat)
  {
    n > 0 && forall x :: x in b ==> home(x) % n == i
  }

  /** Every item of the first `k` buckets is in the one it hashes to. */
  ghost predicate Placed<T(!new)>(bs: seq<seq<T>>, home: T -> nat, k: nat)
    requires k <= |bs|
  {
    k == 0 || (Placed(bs, home, k - 1) && AllHome(bs[k - 1], home, |bs|, k - 1))
  }

  lemma {:induction false} PlacedAt<T(!new)>(bs: seq<seq<T>>, home: T -> nat, k: nat, i: nat)
    requires i < k <= |bs| && Placed(bs, home, k)
    ensures AllHome(bs[i], home, |bs|, i)
  {
    if i < k - 1 {
      PlacedAt(bs, home, k - 1, i);
    }
  }

  lemma PlacedUpdate<T(!new)>(bs: seq<seq<T>>, home: T -> nat, k: nat, i: nat, b: seq<T>)
    requires k <= |bs| && i < |bs| && Placed(bs, home, k) && AllHome(b, home, |bs|, i)
    ensures Placed(bs[i := b], home, k)
  {
    if k > 0 {
      PlacedUpdate(bs, home, k - 1, i, b);
    }
  }

  lemma {:induction false} PlacedEmpty<T(!new)>(bs: seq<seq<T>>, home: T -> nat, k: nat)
    requires k <= |bs| && forall i :: 0 <= i < |bs| ==> bs[i] == []
    ensures Placed(bs, home, k)
  {
    if k > 0 {
      PlacedEmpty(bs, home, k - 1);
    }
  }

  /** The test of Insert keeps the number of items within the ratio. */
  lemma NotFull(items: nat, n: nat)
    requires n > 0
    ensures items / n < RESIZE_RATIO <==> items < RESIZE_RATIO * n
  {
  }

  /** Every item is there once, and no two have the same key. */
  ghost predicate Unique<Key, T(!new)>(items: multiset<T>, getKey: T -> Key)
  {
    && (forall x :: x in items ==> items[x] == 1)
    && (forall x, y :: x in items && y in items && getKey(x) == getKey(y) ==> x == y)
  }

  /** Some item has this key. */
  ghost predicate HasKey<Key, T(!new)>(items: multiset<T>, getKey: T -> Key, key: Key)
  {
    exists x :: x in items && getKey(x) == key
  }

  lemma UniqueAdd<Key, T(!new)>(items: multiset<T>, getKey: T -> Key, item: T)
    requires Unique(items, getKey) && !HasKey(items, getKey, getKey(item))
    ensures Unique(items + multiset{item}, getKey)
  {
  }

  lemma UniqueRemove<Key, T(!new)>(items: multiset<T>, getKey: T -> Key, item: T, rest: multiset<T>)
    requires Unique(items, getKey) && rest + multiset{item} == items
    ensures Unique(rest, getKey) && !HasKey(rest, getKey, getKey(item)) && |rest| + 1 == |items|
  {
    assert items[item] == rest[item] + 1;
    forall x | x in rest
      ensures x in items && rest[x] == 1 && x != item
    {
      assert items[x] == rest[x] + (if x == item then 1 else 0);
    }
  }

  lemma MoveOne<T>(a: multiset<T>, rest: seq<T>)
    requires rest != []
    ensures (a + multiset{rest[0]}) + multiset(rest[1..]) == a + multiset(rest)
  {
    assert rest == [rest[0]] + rest[1..];
  }

  lemma BagNext<T>(bs: seq<seq<T>>, i: nat)
    requires i < |bs|
    ensures Bag(bs[..i + 1]) == Bag(bs[..i]) + multiset(bs[i])
  {
    assert bs[..i + 1][..i] == bs[..i];
  }

  /** The items from bucket `i` on, in the order the iterator meets them. */
  ghost function FlatFrom<T>(bs: seq<seq<T>>, i: nat): (items: seq<T>)
    decreases |bs| - i
  {
    if i >= |bs| then [] else bs[i] + FlatFrom(bs, i + 1)
  }

  /** The order of the iterator has every item of the table just as often. */
  lemma {:induction false} FlatIsBag<T>(bs: seq<seq<T>>, i: nat)
    requires i <= |bs|
    ensures Bag(bs[..i]) + multiset(FlatFrom(bs, i)) == Bag(bs)
    decreases |bs| - i
  {
    if i == |bs| {
      assert bs[..i] == bs;
    } else {
      FlatIsBag(bs, i + 1);
      BagNext(bs, i);
      assert multiset(FlatFrom(bs, i)) == multiset(bs[i]) + multiset(FlatFrom(bs, i + 1));
    }
  }

  class HashTable<Key(==), T(==, !new)> {
    var buckets: seq<seq<T>>
    var numBuckets: nat
    var numItems: nat
    const getKey: T -> Key
    const hash: Key -> nat

    /** The items in the table. */
    ghost function Items(): (items: multiset<T>)
      reads this
    {
      Bag(buckets)
    }

    function Home(x: T): (h: nat)
    {
      hash(getKey(x))
    }

    ghost predicate Valid()
      reads this
    {
      && |buckets| == numBuckets > 0 && Placed(buckets, Home, |buckets|) && numItems == |Bag(buckets)|
      && numItems <= RESIZE_RATIO * numBuckets && Unique(Bag(buckets), getKey)
    }

    constructor (get: T -> Key, hFunc: Key -> nat)
      ensures Valid() && Items() == multiset{} && getKey == get && hash == hFunc
    {
      numItems, numBuckets := 0, INITIAL_BUCKETS;
      buckets := seq(INITIAL_BUCKETS, _ => []);
      getKey, hash := get, hFunc;
      new;
      BagEmpty(buckets);
      PlacedEmpty(buckets, Home, |buckets|);
    }

    function HashValue(key: Key): (bucket: nat)
      requires numBuckets > 0
      reads this
      ensures bucket < numBuckets
    {
      hash(key) % numBuckets
    }

    /** The position in its bucket of the item with this key, or -1. */
    method FindInBucket(bucket: nat, key: Key) returns (j: int)
      requires bucket < |buckets|
      ensures j == -1 ==> forall x :: x in buckets[bucket] ==> getKey(x) != key
      ensures j != -1 ==> 0 <= j < |buckets[bucket]| && getKey(buckets[bucket][j]) == key
    {
      for i := 0 to |buckets[bucket]|
        invariant forall k :: 0 <= k < i ==> getKey(buckets[bucket][k]) != key
      {
        if getKey(buckets[bucket][i]) == key {
          return i;
        }
      }
      return -1;
    }

    /** Finds the item with a key, in the one bucket where it can be. */
    method Find(key: Key) returns (item: Option<T>)
      requires Valid()
      ensures item.Some? <==> HasKey(Items(), getKey, key)
      ensures item.Some? ==> item.value in Items() && getKey(item.value) == key
    {
      var bucket := HashValue(key);
      var j := FindInBucket(bucket, key);
      if j == -1 {
        NotThere(key);
        return None;
      }
      InBag(buckets, bucket, buckets[bucket][j]);
      return Some(buckets[bucket][j]);
    }

    lemma NotThere(key: Key)
      requires Valid() && forall x :: x in buckets[HashValue(key)] ==> getKey(x) != key
      ensures !HasKey(Items(), getKey, key)
    {
      forall x | x in Items()
        ensures getKey(x) != key
      {
        var i := BagHas(buckets, x);
        PlacedAt(buckets, Home, |buckets|, i);
        assert Home(x) % |buckets| == i;
      }
    }

    /** Puts an item into the bucket it hashes to. */
    method Place(item: T)
      requires |buckets| == numBuckets > 0 && Placed(buckets, Home, |buckets|)
      modifies this`buckets
      ensures |buckets| == numBuckets && Placed(buckets, Home, |buckets|) && Items() == old(Items()) + multiset{item}
    {
      var i := HashValue(getKey(item));
      BagAppend(buckets, i, item);
      PlacedAt(buckets, Home, |buckets|, i);
      PlacedUpdate(buckets, Home, |buckets|, i, buckets[i] + [item]);
      buckets := buckets[i := buckets[i] + [item]];
    }

    /** Moves the items of an old bucket into the table. */
    method MoveBucket(bucket: seq<T>)
      requires |buckets| == numBuckets > 0 && Placed(buckets, Home, |buckets|)
      modifies this`buckets
      ensures |buckets| == numBuckets && Placed(buckets, Home, |buckets|) && Items() == old(Items()) + multiset(bucket)
    {
      var rest := bucket;
      while rest != []
        invariant |buckets| == numBuckets && Placed(buckets, Home, |buckets|)
        invariant Items() + multiset(rest) == old(Items()) + multiset(bucket)
        decreases |rest|
      {
        MoveOne(Items(), rest);
        Place(rest[0]);
        rest := rest[1..];
      }
    }

    /** Moves every item to a larger array of buckets. */
    method ReHash()
      requires Valid()
      modifies this`buckets, this`numBuckets
      ensures Valid() && Items() == old(Items()) && numBuckets == old(numBuckets) * INCREASE_SIZE_BY
    {
      var oldTable := buckets;
      numBuckets := numBuckets * INCREASE_SIZE_BY;
      buckets := seq(numBuckets, _ => []);
      BagEmpty(buckets);
      PlacedEmpty(buckets, Home, |buckets|);
      for i := 0 to |oldTable|
        invariant numBuckets == old(numBuckets) * INCREASE_SIZE_BY
        invariant |buckets| == numBuckets && Placed(buckets, Home, |buckets|)
        invariant Items() == Bag(oldTable[..i])
      {
        MoveBucket(oldTable[i]);
        BagNext(oldTable, i);
      }
      assert oldTable[..|oldTable|] == oldTable;
    }

    /** Adds an item with a new key, first growing the table when it is full. */
    method Insert(item: T)
      requires Valid() && !HasKey(Items(), getKey, getKey(item))
      modifies this
      ensures Valid() && Items() == old(Items()) + multiset{item}
    {
      NotFull(numItems, numBuckets);
      if numItems / numBuckets >= RESIZE_RATIO {
        ReHash();
      }
      UniqueAdd(Items(), getKey, item);
      Place(item);
      numItems := numItems + 1;
    }

    /** Takes out the item with a key that is there. */
    method Remove(key: Key) returns (item: T)
      requires Valid() && HasKey(Items(), getKey, key)
      modifies this
      ensures Valid() && getKey(item) == key && item in old(Items()) && Items() + multiset{item} == old(Items())
      ensures !HasKey(Items(), getKey, key)
    {
      var bucket := HashValue(key);
      var j := FindInBucket(bucket, key);
      if j == -1 {
        NotThere(key);
      }
      item := buckets[bucket][j];
      InBag(buckets, bucket, item);
      BagRemove(buckets, bucket, j);
      PlacedAt(buckets, Home, |buckets|, bucket);
      PlacedUpdate(buckets, Home, |buckets|, bucket, Without(buckets[bucket], j));
      UniqueRemove(Items(), getKey, item, Bag(buckets[bucket := Without(buckets[bucket], j)]));
      buckets := buckets[bucket := Without(buckets[bucket], j)];
      numItems := numItems - 1;
    }

    /** The first bucket with an item in it, from `start` on. */
    method FindNextFullBucket(start: nat) returns (bucket: nat)
      requires |buckets| == numBuckets && start <= numBuckets
      ensures start <= bucket <= numBuckets && (bucket < numBuckets ==> buckets[bucket] != [])
      ensures FlatFrom(buckets, bucket) == FlatFrom(buckets, start)
    {
      bucket := start;
      while bucket < numBuckets
        invariant start <= bucket <= numBuckets && FlatFrom(buckets, bucket) == FlatFrom(buckets, start)
      {
        if buckets[bucket] != [] {
          break;
        }
        bucket := bucket + 1;
      }
    }
  }

  class HashIterator<Key(==), T(==, !new)> {
    const table: HashTable<Key, T>
    var bucket: nat
    var at: nat

    ghost predicate Valid()
      reads this, table
    {
      && |table.buckets| == table.numBuckets && bucket <= table.numBuckets
      && (bucket < table.numBuckets ==> at < |table.buckets[bucket]|)
    }

    /** The items still to be met. */
    ghost function Ahead(): (items: seq<T>)
      requires Valid()
      reads this, table
    {
      if bucket == table.numBuckets then [] else table.buckets[bucket][at..] + FlatFrom(table.buckets, bucket + 1)
    }

    /** Every item of the table is still to be met, once. */
    constructor (tbl: HashTable<Key, T>)
      requires tbl.Valid()
      ensures table == tbl && Valid() && multiset(Ahead()) == tbl.Items()
    {
      table := tbl;
      at := 0;
      var first := tbl.FindNextFullBucket(0);
      bucket := first;
      new;
      FlatIsBag(table.buckets, 0);
      assert Ahead() == FlatFrom(table.buckets, first);
    }

    predicate IsDone()
      requires Valid()
      reads this, table
      ensures IsDone() <==> Ahead() == []
    {
      bucket == table.numBuckets
    }

    function Item(): (item: T)
      requires Valid() && !IsDone()
      reads this, table
      ensures Ahead() != [] && item == Ahead()[0]
    {
      table.buckets[bucket][at]
    }

    /** Passes the item at hand, and no other. */
    method Next()
      requires Valid() && !IsDone()
      modifies this
      ensures Valid() && Ahead() == old(Ahead())[1..]
    {
      ghost var was := Ahead();
      at := at + 1;
      if at == |table.buckets[bucket]| {
        assert was[1..] == FlatFrom(table.buckets, bucket + 1);
        bucket := table.FindNextFullBucket(bucket + 1);
        at := 0;
        assert Ahead() == FlatFrom(table.buckets, bucket);
      } else {
        assert Ahead() == was[1..];
      }
    }
  }

  lemma VisitOne<T>(visited: seq<T>, ahead: seq<T>)
    requires ahead != []
    ensures (visited + [ahead[0]]) + ahead[1..] == visited + ahead
  {
  }

  /** The iterator, run until it is done, meets every item of the table exactly once. */
  method VisitAll<Key(==), T(==, !new)>(table: HashTable<Key, T>) returns (visited: seq<T>)
    requires table.Valid()
    ensures multiset(visited) == table.Items()
  {
    ghost var items := table.Items();
    var it := new HashIterator<Key, T>(table);
    ghost var ahead := it.Ahead();
    visited := [];
    assert visited + ahead == ahead;
    while !it.IsDone()
      invariant it.table == table && it.Valid() && ahead == it.Ahead() && multiset(visited + ahead) == items
      decreases |ahead|
    {
      VisitOne(visited, ahead);
      visited := visited + [it.Item()];
      it.Next();
      ahead := ahead[1..];
    }
    assert visited + ahead == visited;
  }
}
