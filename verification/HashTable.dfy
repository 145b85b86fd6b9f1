/** The growable chained hash table. Bucket lists are sequences of record references; the records are objects,
    so a pointer handed out by Add or Find can be seen to survive a doubling. */
module HashTable {
  import opened Arith
  import opened Bits

  const INITHASHSIZE: nat := 6
  const MAXHASHSIZE: nat := 11

  type Key = seq<byte>

  class BucketRec {
    const key: Key
    var data: seq<byte>

    constructor (key: Key, data: seq<byte>)
      ensures this.key == key && this.data == data
    {
      this.key, this.data := key, data;
    }
  }

  type Buckets = seq<seq<BucketRec>>

  type Hash = (Key, nat) -> nat

  /** Every value of the hash fits in the number of bits asked for. */
  ghost predicate GoodHash(hash: Hash) {
    forall k: Key, bits: nat :: bits <= MAXHASHSIZE ==> hash(k, bits) < Pow2(bits)
  }

  /** 0 exactly for equal keys. */
  ghost predicate GoodCompare(compare: (Key, Key) -> int) {
    forall a: Key, b: Key :: compare(a, b) == 0 <==> a == b
  }

  // ----- buckets as values -----

  function Total(bs: Buckets): nat {
    if bs == [] then 0 else |bs[0]| + Total(bs[1..])
  }

  ghost function Bag(bs: Buckets): multiset<BucketRec> {
    if bs == [] then multiset{} else multiset(bs[0]) + Bag(bs[1..])
  }

  /** Every record is in the bucket its key hashes to. */
  ghost predicate Placed(hash: Hash, bits: nat, bs: Buckets) {
    forall i, j :: 0 <= i < |bs| && 0 <= j < |bs[i]| ==> hash(bs[i][j].key, bits) == i
  }

  function Empty(n: nat): Buckets {
    seq(n, _ => [])
  }

  /** The first record of a list with this key. */
  function FirstWith(b: seq<BucketRec>, k: Key): BucketRec? {
    if b == [] then null else if b[0].key == k then b[0] else FirstWith(b[1..], k)
  }

  /** The list without its first record with this key. */
  function WithoutFirst(b: seq<BucketRec>, k: Key): seq<BucketRec> {
    if b == [] then [] else if b[0].key == k then b[1..] else [b[0]] + WithoutFirst(b[1..], k)
  }

  /** The records of a list with this key, in order. */
  function Filter(b: seq<BucketRec>, k: Key): seq<BucketRec> {
    if b == [] then [] else (if b[0].key == k then [b[0]] else []) + Filter(b[1..], k)
  }

  function Reverse(b: seq<BucketRec>): seq<BucketRec> {
    if b == [] then [] else Reverse(b[1..]) + [b[0]]
  }

  /** The inner loop of double_size: each record of a list goes to the front of its new bucket. */
  ghost function PushAll(hash: Hash, bits: nat, bs: Buckets, b: seq<BucketRec>): (r: Buckets)
    requires GoodHash(hash) && bits <= MAXHASHSIZE && |bs| == Pow2(bits)
    ensures |r| == |bs|
    decreases |b|
  {
    if b == [] then bs
    else
      var h := hash(b[0].key, bits);
      PushAll(hash, bits, bs[h := [b[0]] + bs[h]], b[1..])
  }

  /** The outer loop. */
  ghost function Rehash(hash: Hash, bits: nat, bs: Buckets, old': Buckets): (r: Buckets)
    requires GoodHash(hash) && bits <= MAXHASHSIZE && |bs| == Pow2(bits)
    ensures |r| == |bs|
    decreases |old'|
  {
    if old' == [] then bs else Rehash(hash, bits, PushAll(hash, bits, bs, old'[0]), old'[1..])
  }

  lemma {:induction false} TotalIsBagSize(bs: Buckets)
    ensures Total(bs) == |Bag(bs)|
  {
    if bs != [] {
      TotalIsBagSize(bs[1..]);
    }
  }

  /** Replacing one bucket. */
  lemma {:induction false} BagUpdate(bs: Buckets, i: nat, b: seq<BucketRec>)
    requires i < |bs|
    ensures Bag(bs[i := b]) + multiset(bs[i]) == Bag(bs) + multiset(b)
    ensures Total(bs[i := b]) + |bs[i]| == Total(bs) + |b|
  {
    if i > 0 {
      BagUpdate(bs[1..], i - 1, b);
      assert bs[i := b][1..] == bs[1..][i - 1 := b];
      var first, rest, rest' := multiset(bs[0]), Bag(bs[1..]), Bag(bs[1..][i - 1 := b]);
      assert rest' + multiset(bs[i]) == rest + multiset(b);
      assert (first + rest') + multiset(bs[i]) == first + (rest' + multiset(bs[i]));
      assert (first + rest) + multiset(b) == first + (rest + multiset(b));
    } else {
      assert bs[0 := b][1..] == bs[1..];
    }
  }

  lemma {:induction false} BagMember(bs: Buckets, r: BucketRec)
    ensures r in Bag(bs) <==> exists i :: 0 <= i < |bs| && r in bs[i]
  {
    if bs != [] {
      BagMember(bs[1..], r);
      if i :| 0 <= i < |bs| && r in bs[i] {
        if i > 0 {
          assert r in bs[1..][i - 1];
        }
      }
      if r in Bag(bs) && r !in bs[0] {
        var i :| 0 <= i < |bs[1..]| && r in bs[1..][i];
        assert r in bs[i + 1];
      }
    }
  }

  lemma {:induction false} EmptyBag(n: nat)
    ensures Bag(Empty(n)) == multiset{} && Total(Empty(n)) == 0
  {
    if n > 0 {
      assert Empty(n)[1..] == Empty(n - 1);
      EmptyBag(n - 1);
    }
  }

  lemma MoveOver(next: multiset<BucketRec>, m: multiset<BucketRec>, bag: multiset<BucketRec>, one: multiset<BucketRec>)
    requires next + m == bag + (one + m)
    ensures next == bag + one
  {
    forall r ensures next[r] == (bag + one)[r] {
      assert (next + m)[r] == (bag + (one + m))[r];
    }
  }

  /** Pushing a list keeps all records, and puts each where its key hashes to. */
  lemma {:induction false} PushAllKeeps(hash: Hash, bits: nat, bs: Buckets, b: seq<BucketRec>)
    requires GoodHash(hash) && bits <= MAXHASHSIZE && |bs| == Pow2(bits) && Placed(hash, bits, bs)
    ensures Bag(PushAll(hash, bits, bs, b)) == Bag(bs) + multiset(b)
    ensures Placed(hash, bits, PushAll(hash, bits, bs, b))
    decreases |b|
  {
    if b != [] {
      var h := hash(b[0].key, bits);
      var next := bs[h := [b[0]] + bs[h]];
      BagUpdate(bs, h, [b[0]] + bs[h]);
      PushAllKeeps(hash, bits, next, b[1..]);
      assert b == [b[0]] + b[1..];
      assert multiset(b) == multiset{b[0]} + multiset(b[1..]);
      assert multiset([b[0]] + bs[h]) == multiset{b[0]} + multiset(bs[h]);
      MoveOver(Bag(next), multiset(bs[h]), Bag(bs), multiset{b[0]});
      assert (Bag(bs) + multiset{b[0]}) + multiset(b[1..]) == Bag(bs) + multiset(b);
    }
  }

  /** Rehashing keeps every record and leaves each in bucket hash(key, bits). */
  lemma {:induction false} RehashKeeps(hash: Hash, bits: nat, bs: Buckets, old': Buckets)
    requires GoodHash(hash) && bits <= MAXHASHSIZE && |bs| == Pow2(bits) && Placed(hash, bits, bs)
    ensures Bag(Rehash(hash, bits, bs, old')) == Bag(bs) + Bag(old')
    ensures Placed(hash, bits, Rehash(hash, bits, bs, old'))
    decreases |old'|
  {
    if old' != [] {
      PushAllKeeps(hash, bits, bs, old'[0]);
      RehashKeeps(hash, bits, PushAll(hash, bits, bs, old'[0]), old'[1..]);
    }
  }

  lemma {:induction false} PushAllFilter(hash: Hash, bits: nat, bs: Buckets, b: seq<BucketRec>, k: Key)
    requires GoodHash(hash) && bits <= MAXHASHSIZE && |bs| == Pow2(bits)
    ensures Filter(PushAll(hash, bits, bs, b)[hash(k, bits)], k)
            == Reverse(Filter(b, k)) + Filter(bs[hash(k, bits)], k)
    decreases |b|
  {
    hide Pow2, Filter, Reverse, PushAll;
    PushAllStep(hash, bits, bs, b);
    if b == [] {
      NoneWith(b, k);
      ReverseNone();
    } else {
      var h, hk := hash(b[0].key, bits), hash(k, bits);
      var next := bs[h := [b[0]] + bs[h]];
      assert next[hk] == if h == hk then [b[0]] + bs[h] else bs[hk];
      PushAllFilter(hash, bits, next, b[1..], k);
      assert b == [b[0]] + b[1..];
      FilterCons(b[0], b[1..], k);
      FilterCons(b[0], bs[h], k);
      if b[0].key == k {
        var tail, kept := Reverse(Filter(b[1..], k)), Filter(bs[h], k);
        assert tail + ([b[0]] + kept) == (tail + [b[0]]) + kept;
      }
    }
  }

  lemma PushAllStep(hash: Hash, bits: nat, bs: Buckets, b: seq<BucketRec>)
    requires GoodHash(hash) && bits <= MAXHASHSIZE && |bs| == Pow2(bits)
    ensures b == [] ==> PushAll(hash, bits, bs, b) == bs
    ensures b != [] ==> var h := hash(b[0].key, bits);
              h < |bs| && PushAll(hash, bits, bs, b) == PushAll(hash, bits, bs[h := [b[0]] + bs[h]], b[1..])
  {}

  lemma FilterCons(x: BucketRec, b: seq<BucketRec>, k: Key)
    ensures Filter([x] + b, k) == if x.key == k then [x] + Filter(b, k) else Filter(b, k)
    ensures Reverse([x] + Filter(b, k)) == Reverse(Filter(b, k)) + [x]
  {
    assert ([x] + b)[1..] == b;
    assert ([x] + Filter(b, k))[1..] == Filter(b, k);
  }

  /** All records with one key sit in one bucket, so rehashing reverses their order. */
  lemma {:induction false} RehashFilter(hash: Hash, bits: nat, bs: Buckets, old': Buckets, oldBits: nat, from: nat, k: Key)
    requires GoodHash(hash) && bits <= MAXHASHSIZE && oldBits <= MAXHASHSIZE && |bs| == Pow2(bits)
    requires |old'| + from == Pow2(oldBits)
    requires forall i, j :: 0 <= i < |old'| && 0 <= j < |old'[i]| ==> hash(old'[i][j].key, oldBits) == from + i
    ensures Filter(Rehash(hash, bits, bs, old')[hash(k, bits)], k)
            == (if hash(k, oldBits) >= from then Reverse(Filter(old'[hash(k, oldBits) - from], k)) else [])
               + Filter(bs[hash(k, bits)], k)
    decreases |old'|
  {
    hide Filter, Reverse, PushAll, Pow2;
    var hk := hash(k, oldBits);
    if old' != [] {
      PushAllFilter(hash, bits, bs, old'[0], k);
      RehashFilter(hash, bits, PushAll(hash, bits, bs, old'[0]), old'[1..], oldBits, from + 1, k);
      if hk != from {
        forall j | 0 <= j < |old'[0]| ensures old'[0][j].key != k {
          assert hash(old'[0][j].key, oldBits) == from + 0;
        }
        NoneWith(old'[0], k);
        ReverseNone();
      }
    }
  }

  lemma ReverseNone()
    ensures Reverse([]) == []
  {}

  lemma {:induction false} NoneWith(b: seq<BucketRec>, k: Key)
    requires forall j :: 0 <= j < |b| ==> b[j].key != k
    ensures Filter(b, k) == []
  {
    if b != [] {
      NoneWith(b[1..], k);
    }
  }

  lemma {:induction false} FirstIsFilter(b: seq<BucketRec>, k: Key)
    ensures FirstWith(b, k) == if Filter(b, k) == [] then null else Filter(b, k)[0]
  {
    if b != [] {
      FirstIsFilter(b[1..], k);
    }
  }

  /** What a search finds after a doubling is the last record with the key before it. The answer is the same
      exactly if the first and the last record with the key are one and the same, as when the key was added once. */
  lemma DoublingAnswer(hash: Hash, bits: nat, bs: Buckets, k: Key)
    requires GoodHash(hash) && bits < MAXHASHSIZE && |bs| == Pow2(bits) && Placed(hash, bits, bs)
    ensures var before, after := FirstWith(bs[hash(k, bits)], k),
                                 FirstWith(Rehash(hash, bits + 1, Empty(Pow2(bits + 1)), bs)[hash(k, bits + 1)], k);
            var all := Filter(bs[hash(k, bits)], k);
            && after == (if all == [] then null else all[|all| - 1])
            && (before == after <==> all == [] || all[0] == all[|all| - 1])
  {
    hide Filter, Reverse, Rehash, FirstWith, Pow2;
    var empty := Empty(Pow2(bits + 1));
    NoneWith([], k);
    RehashFilter(hash, bits + 1, empty, bs, bits, 0, k);
    var all := Filter(bs[hash(k, bits)], k);
    FirstIsFilter(bs[hash(k, bits)], k);
    FirstIsFilter(Rehash(hash, bits + 1, empty, bs)[hash(k, bits + 1)], k);
    ReverseEnds(all);
  }

  lemma {:induction false} ReverseEnds(b: seq<BucketRec>)
    ensures |Reverse(b)| == |b| && (b != [] ==> Reverse(b)[0] == b[|b| - 1])
  {
    if b != [] {
      ReverseEnds(b[1..]);
    }
  }

  // ----- as a finite map -----

  /** No key occurs twice. */
  ghost predicate DistinctKeys(bag: multiset<BucketRec>) {
    && (forall r :: r in bag ==> bag[r] == 1)
    && (forall r, q :: r in bag && q in bag && r.key == q.key ==> r == q)
  }

  /** The finite map from keys to records. */
  ghost function KeyMap(bag: multiset<BucketRec>): (m: map<Key, BucketRec>)
    requires DistinctKeys(bag)
    ensures forall r :: r in bag ==> r.key in m && m[r.key] == r
    ensures forall k :: k in m ==> m[k] in bag && m[k].key == k
  {
    map r | r in bag :: r.key := r
  }

  ghost predicate Represents(bag: multiset<BucketRec>, m: map<Key, BucketRec>) {
    && (forall r :: r in bag ==> r.key in m && m[r.key] == r)
    && (forall k :: k in m ==> m[k] in bag && m[k].key == k)
  }

  lemma RepresentsOne(bag: multiset<BucketRec>, m: map<Key, BucketRec>, n: map<Key, BucketRec>)
    requires Represents(bag, m) && Represents(bag, n)
    ensures m == n
  {
    assert forall k :: k in m ==> k in n && n[k] == m[k];
    assert forall k :: k in n ==> k in m;
  }

  lemma MapAdd(bag: multiset<BucketRec>, r: BucketRec)
    requires DistinctKeys(bag) && r.key !in KeyMap(bag)
    ensures DistinctKeys(bag + multiset{r})
    ensures KeyMap(bag + multiset{r}) == KeyMap(bag)[r.key := r]
  {
    hide KeyMap;
    var more := bag + multiset{r};
    assert r !in bag;
    assert forall q :: q in more <==> q in bag || q == r;
    assert Represents(more, KeyMap(bag)[r.key := r]);
    assert DistinctKeys(more);
    RepresentsOne(more, KeyMap(more), KeyMap(bag)[r.key := r]);
  }

  lemma MapRemove(bag: multiset<BucketRec>, r: BucketRec)
    requires DistinctKeys(bag) && r in bag
    ensures DistinctKeys(bag - multiset{r})
    ensures KeyMap(bag - multiset{r}) == KeyMap(bag) - {r.key}
  {
    hide KeyMap;
    var less := bag - multiset{r};
    assert forall q :: q in less <==> q in bag && q != r;
    assert Represents(less, KeyMap(bag) - {r.key});
    assert DistinctKeys(less);
    RepresentsOne(less, KeyMap(less), KeyMap(bag) - {r.key});
  }

  lemma MapMissing(bag: multiset<BucketRec>, k: Key)
    requires DistinctKeys(bag) && forall q :: q in bag ==> q.key != k
    ensures KeyMap(bag) - {k} == KeyMap(bag)
  {
    hide KeyMap;
    assert k !in KeyMap(bag);
  }

  // ----- the code -----

  /** Which of the allocations of one ht_add succeed. */
  datatype Memory = Memory(elem: bool, key: bool, data: bool, table: bool)

  class HashTable {
    const keySize: nat
    const dataSize: nat
    const hash: Hash
    const compare: (Key, Key) -> int
    var elements: int
    var bucketBits: nat
    var buckets: array<seq<BucketRec>>

    ghost predicate Shape()
      reads this, buckets
    {
      && GoodHash(hash) && GoodCompare(compare)
      && INITHASHSIZE <= bucketBits <= MAXHASHSIZE && buckets.Length == Pow2(bucketBits)
      && Placed(hash, bucketBits, buckets[..])
      && elements == Total(buckets[..])
    }

    /** The table is also not overfull, unless it has its largest size. */
    ghost predicate Valid()
      reads this, buckets
    {
      Shape() && (elements <= 4 * Pow2(bucketBits) || bucketBits == MAXHASHSIZE)
    }

    ghost function Contents(): multiset<BucketRec>
      reads this, buckets
    {
      Bag(buckets[..])
    }

    /** ht_create, when its allocations succeed. */
    constructor (keySize: nat, dataSize: nat, hash: Hash, compare: (Key, Key) -> int)
      requires GoodHash(hash) && GoodCompare(compare)
      ensures Valid() && fresh(buckets) && Contents() == multiset{} && elements == 0
      ensures bucketBits == INITHASHSIZE && buckets[..] == Empty(Pow2(INITHASHSIZE))
      ensures this.keySize == keySize && this.dataSize == dataSize && this.hash == hash && this.compare == compare
    {
      this.keySize, this.dataSize, this.hash, this.compare := keySize, dataSize, hash, compare;
      elements, bucketBits := 0, INITHASHSIZE;
      var fresh' := new seq<BucketRec>[Pow2(INITHASHSIZE)](_ => []);
      buckets := fresh';
      new;
      assert buckets[..] == Empty(Pow2(INITHASHSIZE));
      EmptyBag(Pow2(INITHASHSIZE));
    }

    /** ht_find */
    method Find(key: Key) returns (r: BucketRec?)
      requires Valid()
      ensures r == FirstWith(buckets[hash(key, bucketBits)], key)
      ensures r != null ==> r in Contents() && r.key == key
      ensures r == null ==> forall q :: q in Contents() ==> q.key != key
      ensures DistinctKeys(Contents()) ==>
                (r == null <==> key !in KeyMap(Contents())) && (r != null ==> KeyMap(Contents())[key] == r)
    {
      hide Bag, KeyMap, Total, Placed, FirstWith;
      var bucket := buckets[hash(key, bucketBits)];
      var i := SearchBucket(bucket, key);
      r := if i < |bucket| then bucket[i] else null;
      SearchFinds(hash, bucketBits, buckets[..], key);
    }

    /** The loop over one bucket list. */
    method SearchBucket(bucket: seq<BucketRec>, key: Key) returns (i: nat)
      requires GoodCompare(compare)
      ensures i <= |bucket|
      ensures FirstWith(bucket, key) == if i < |bucket| then bucket[i] else null
      ensures WithoutFirst(bucket, key) == if i < |bucket| then bucket[..i] + bucket[i + 1..] else bucket
    {
      i := 0;
      while i < |bucket|
        invariant 0 <= i <= |bucket|
        invariant FirstWith(bucket, key) == FirstWith(bucket[i..], key)
        invariant WithoutFirst(bucket, key) == bucket[..i] + WithoutFirst(bucket[i..], key)
      {
        assert bucket[i..][1..] == bucket[i + 1..];
        if compare(key, bucket[i].key) == 0 {
          return;
        }
        i := i + 1;
      }
    }

    /** ht_remove */
    method Remove(key: Key)
      requires Valid()
      modifies this`elements, buckets
      ensures Valid()
      ensures var index, was := hash(key, bucketBits), old(buckets[..]);
              && buckets[..] == was[index := WithoutFirst(was[index], key)]
              && (FirstWith(was[index], key) == null ==> Contents() == old(Contents()))
              && (FirstWith(was[index], key) != null ==>
                    Contents() == old(Contents()) - multiset{FirstWith(was[index], key)} && elements == old(elements) - 1)
      ensures old(DistinctKeys(Contents())) ==>
                DistinctKeys(Contents()) && KeyMap(Contents()) == old(KeyMap(Contents())) - {key}
    {
      hide Bag, KeyMap, DistinctKeys, Total, Placed, FirstWith, WithoutFirst, Pow2;
      var index := hash(key, bucketBits);
      var bucket := buckets[index];
      ghost var was := buckets[..];
      SearchFinds(hash, bucketBits, was, key);
      RemovalKeeps(hash, bucketBits, was, key);
      var i := SearchBucket(bucket, key);
      if i < |bucket| {
        buckets[index] := bucket[..i] + bucket[i + 1..];
        elements := elements - 1;
        if DistinctKeys(Bag(was)) {
          MapRemove(Bag(was), bucket[i]);
        }
      } else if DistinctKeys(Bag(was)) {
        MapMissing(Bag(was), key);
      }
      assert buckets[..] == was[index := WithoutFirst(bucket, key)];
    }

    /** double_size; tableOk says whether the new bucket array could be allocated. */
    method DoubleSize(tableOk: bool) returns (ok: bool)
      requires Shape() && bucketBits < MAXHASHSIZE
      modifies this`bucketBits, this`buckets, buckets
      ensures ok == tableOk
      ensures !ok ==> buckets == old(buckets) && buckets[..] == old(buckets[..]) && bucketBits == old(bucketBits)
      ensures ok ==> Shape() && fresh(buckets) && bucketBits == old(bucketBits) + 1
      ensures ok ==> buckets[..] == Rehash(hash, bucketBits, Empty(Pow2(bucketBits)), old(buckets[..]))
      ensures ok ==> Contents() == old(Contents())
    {
      var newBucketBits := bucketBits + 1;
      if !tableOk {
        return false;
      }
      ghost var was := buckets[..];
      var newBuckets := new seq<BucketRec>[Pow2(newBucketBits)](_ => []);
      assert newBuckets[..] == Empty(Pow2(newBucketBits));
      ghost var target := Rehash(hash, newBucketBits, newBuckets[..], was);
      RehashShape(hash, newBucketBits, was);
      var c := 0;
      while c < buckets.Length
        invariant 0 <= c <= buckets.Length == |was| && buckets[c..] == was[c..]
        invariant newBuckets.Length == Pow2(newBucketBits)
        invariant Rehash(hash, newBucketBits, newBuckets[..], was[c..]) == target
        modifies buckets, newBuckets
      {
        assert was[c..][0] == was[c] && was[c..][1..] == was[c + 1..];
        assert buckets[c] == was[c];
        ghost var pushed := PushAll(hash, newBucketBits, newBuckets[..], was[c]);
        while buckets[c] != []
          invariant newBuckets.Length == Pow2(newBucketBits) && buckets[c + 1..] == was[c + 1..]
          invariant PushAll(hash, newBucketBits, newBuckets[..], buckets[c]) == pushed
          decreases |buckets[c]|
        {
          var it := buckets[c][0];
          var h := hash(it.key, newBucketBits);
          ghost var before := newBuckets[..];
          buckets[c] := buckets[c][1..];
          newBuckets[h] := [it] + newBuckets[h];
          assert newBuckets[..] == before[h := [it] + before[h]];
        }
        c := c + 1;
      }
      buckets, bucketBits := newBuckets, newBucketBits;
      ok := true;
    }

    /** ht_add: on success the new record is in the table with zeroed data, every earlier record is still the same
        object, and the table has doubled if it was full; on failure nothing has changed. */
    method Add(key: Key, mem: Memory) returns (r: BucketRec?)
      requires Valid()
      modifies this`elements, this`bucketBits, this`buckets, buckets
      ensures Valid() && (buckets == old(buckets) || fresh(buckets))
      ensures r == null <==> !mem.elem || !mem.key || (dataSize != 0 && !mem.data)
                             || (old(elements) + 1 > 4 * Pow2(old(bucketBits)) && old(bucketBits) < MAXHASHSIZE && !mem.table)
      ensures r == null ==>
                && elements == old(elements) && bucketBits == old(bucketBits)
                && buckets == old(buckets) && buckets[..] == old(buckets[..])
      ensures r != null ==>
                && fresh(r) && r.key == key && r.data == seq(dataSize, _ => 0)
                && elements == old(elements) + 1 && Contents() == old(Contents()) + multiset{r}
                && bucketBits == (if old(elements) + 1 > 4 * Pow2(old(bucketBits)) && old(bucketBits) < MAXHASHSIZE
                                  then old(bucketBits) + 1 else old(bucketBits))
      ensures r != null ==> buckets[..] == Grown(hash, old(buckets[..]), old(bucketBits), bucketBits, r)
      ensures r != null && old(DistinctKeys(Contents())) && old(key !in KeyMap(Contents())) ==>
                DistinctKeys(Contents()) && KeyMap(Contents()) == old(KeyMap(Contents()))[key := r]
    {
      hide Bag, KeyMap, DistinctKeys, Shape, Pow2, Grown;
      var index := hash(key, bucketBits);
      if !mem.elem || !mem.key || (dataSize != 0 && !mem.data) {
        return null;
      }
      var elem := new BucketRec(key, seq(dataSize, _ => 0));
      ghost var bag := Contents();
      var ok := LinkRecord(elem, index, mem.table);
      if !ok {
        return null;
      }
      if DistinctKeys(bag) && key !in KeyMap(bag) {
        MapAdd(bag, elem);
      }
      r := elem;
    }

    /** Linking the record in, doubling the table if it is now too full, and unlinking the record again if that fails. */
    method LinkRecord(elem: BucketRec, index: nat, tableOk: bool) returns (ok: bool)
      requires Valid() && index == hash(elem.key, bucketBits)
      modifies this`elements, this`bucketBits, this`buckets, buckets
      ensures Valid() && (buckets == old(buckets) || fresh(buckets))
      ensures var full := old(elements) + 1 > 4 * Pow2(old(bucketBits)) && old(bucketBits) < MAXHASHSIZE;
              && (ok <==> !full || tableOk)
              && (ok ==> bucketBits == if full then old(bucketBits) + 1 else old(bucketBits))
      ensures ok ==> elements == old(elements) + 1 && Contents() == old(Contents()) + multiset{elem}
      ensures ok ==> buckets[..] == Grown(hash, old(buckets[..]), old(bucketBits), bucketBits, elem)
      ensures !ok ==>
                && elements == old(elements) && bucketBits == old(bucketBits)
                && buckets == old(buckets) && buckets[..] == old(buckets[..])
    {
      hide Bag, Total, Placed, Rehash, GoodHash, GoodCompare;
      ghost var was := buckets[..];
      IndexInRange(hash, elem.key, bucketBits);
      ListAdd(elem, index);
      ok := true;
      if elements > 4 * Pow2(bucketBits) && bucketBits < MAXHASHSIZE {
        ok := DoubleSize(tableOk);
        if !ok {
          elements := elements - 1;
          buckets[index] := buckets[index][1..];
          assert buckets[..] == was;
        }
      }
    }

    /** xorg_list_add and the count. */
    method ListAdd(elem: BucketRec, index: nat)
      requires Valid() && index == hash(elem.key, bucketBits)
      modifies this`elements, buckets
      ensures Shape() && elements == old(elements) + 1
      ensures buckets[..] == old(buckets[..])[index := [elem] + old(buckets[index])]
      ensures Contents() == old(Contents()) + multiset{elem}
    {
      ghost var was := buckets[..];
      BagUpdate(was, index, [elem] + was[index]);
      assert multiset([elem] + was[index]) == multiset{elem} + multiset(was[index]);
      MoveOver(Bag(was[index := [elem] + was[index]]), multiset(was[index]), Bag(was), multiset{elem});
      buckets[index] := [elem] + buckets[index];
      elements := elements + 1;
      assert buckets[..] == was[index := [elem] + was[index]];
    }
  }

  /** The buckets once a record is linked in front of its bucket, and all rehashed if the table has doubled. */
  ghost function Grown(hash: Hash, bs: Buckets, bits: nat, newBits: nat, r: BucketRec): Buckets
    requires GoodHash(hash) && bits <= MAXHASHSIZE && newBits <= MAXHASHSIZE && |bs| == Pow2(bits)
  {
    var index := hash(r.key, bits);
    var linked := bs[index := [r] + bs[index]];
    if newBits == bits then linked else Rehash(hash, newBits, Empty(Pow2(newBits)), linked)
  }

  lemma IndexInRange(hash: Hash, key: Key, bits: nat)
    requires GoodHash(hash) && bits <= MAXHASHSIZE
    ensures hash(key, bits) < Pow2(bits)
  {}

  /** Searching one bucket is enough. */
  lemma SearchFinds(hash: Hash, bits: nat, bs: Buckets, key: Key)
    requires GoodHash(hash) && bits <= MAXHASHSIZE && |bs| == Pow2(bits) && Placed(hash, bits, bs)
    ensures var r := FirstWith(bs[hash(key, bits)], key);
            && (r != null ==> r in Bag(bs) && r.key == key)
            && (r == null ==> forall q :: q in Bag(bs) ==> q.key != key)
  {
    var b := bs[hash(key, bits)];
    FirstWithMeans(b, key);
    var r := FirstWith(b, key);
    if r != null {
      BagMember(bs, r);
    } else {
      forall q | q in Bag(bs) ensures q.key != key {
        BagMember(bs, q);
        var i :| 0 <= i < |bs| && q in bs[i];
        var j :| 0 <= j < |bs[i]| && bs[i][j] == q;
        assert hash(bs[i][j].key, bits) == i;
      }
    }
  }

  lemma {:induction false} FirstWithMeans(b: seq<BucketRec>, k: Key)
    ensures var r := FirstWith(b, k);
            && (r != null ==> r in b && r.key == k && multiset(WithoutFirst(b, k)) == multiset(b) - multiset{r}
                              && |WithoutFirst(b, k)| == |b| - 1)
            && (r == null ==> WithoutFirst(b, k) == b && forall q :: q in b ==> q.key != k)
    ensures forall q :: q in WithoutFirst(b, k) ==> q in b
  {
    if b != [] {
      assert b == [b[0]] + b[1..];
      FirstWithMeans(b[1..], k);
    }
  }

  lemma RemovalKeeps(hash: Hash, bits: nat, bs: Buckets, key: Key)
    requires GoodHash(hash) && bits <= MAXHASHSIZE && |bs| == Pow2(bits) && Placed(hash, bits, bs)
    ensures var index := hash(key, bits);
            var r, less := FirstWith(bs[index], key), bs[index := WithoutFirst(bs[index], key)];
            && Placed(hash, bits, less)
            && (r == null ==> less == bs)
            && (r != null ==> Bag(less) == Bag(bs) - multiset{r} && Total(less) == Total(bs) - 1)
  {
    hide Bag, Total, FirstWith, WithoutFirst, Pow2;
    var index := hash(key, bits);
    var b, less := bs[index], WithoutFirst(bs[index], key);
    FirstWithMeans(b, key);
    BagUpdate(bs, index, less);
    forall j | 0 <= j < |less| ensures hash(less[j].key, bits) == index {
      assert less[j] in b;
      var i :| 0 <= i < |b| && b[i] == less[j];
      assert hash(bs[index][i].key, bits) == index;
    }
    var r := FirstWith(b, key);
    if r != null {
      BagMember(bs, r);
      TakeOver(Bag(bs[index := less]), multiset(b), Bag(bs), multiset(less), r);
    }
  }

  lemma TakeOver(now: multiset<BucketRec>, m: multiset<BucketRec>, bag: multiset<BucketRec>, less: multiset<BucketRec>,
                 r: BucketRec)
    requires now + m == bag + less && less == m - multiset{r} && r in m && r in bag
    ensures now == bag - multiset{r}
  {
    forall q ensures now[q] == (bag - multiset{r})[q] {
      assert (now + m)[q] == (bag + less)[q];
    }
  }

  lemma RehashShape(hash: Hash, bits: nat, bs: Buckets)
    requires GoodHash(hash) && bits <= MAXHASHSIZE
    ensures var r := Rehash(hash, bits, Empty(Pow2(bits)), bs);
            Placed(hash, bits, r) && Bag(r) == Bag(bs) && Total(r) == Total(bs)
  {
    EmptyBag(Pow2(bits));
    RehashKeeps(hash, bits, Empty(Pow2(bits)), bs);
    TotalIsBagSize(Rehash(hash, bits, Empty(Pow2(bits)), bs));
    TotalIsBagSize(bs);
  }

  /** The records with a key number n, the first of them is `newest`, and the last one `oldest`. */
  ghost predicate Kept(hash: Hash, bits: nat, bs: Buckets, k: Key, n: nat, newest: BucketRec, oldest: BucketRec) {
    && n > 0 && hash(k, bits) < |bs|
    && var all := Filter(bs[hash(k, bits)], k);
       |all| == n && all[0] == newest && all[n - 1] == oldest
  }

  /** A record more with the key, as long as the table does not double. */
  lemma KeptMore(hash: Hash, bits: nat, bs: Buckets, k: Key, n: nat, newest: BucketRec, oldest: BucketRec, r: BucketRec)
    requires GoodHash(hash) && bits <= MAXHASHSIZE && |bs| == Pow2(bits) && r.key == k
    requires Kept(hash, bits, bs, k, n, newest, oldest)
    ensures Kept(hash, bits, Grown(hash, bs, bits, bits, r), k, n + 1, r, oldest)
  {
    hide Filter, Pow2;
    FilterCons(r, bs[hash(k, bits)], k);
  }

  lemma KeptFirst(hash: Hash, bits: nat, k: Key, r: BucketRec)
    requires GoodHash(hash) && bits <= MAXHASHSIZE && r.key == k
    ensures Kept(hash, bits, Grown(hash, Empty(Pow2(bits)), bits, bits, r), k, 1, r, r)
  {
    hide Filter, Pow2;
    NoneWith([], k);
    FilterCons(r, [], k);
  }

  lemma KeptFound(hash: Hash, bits: nat, bs: Buckets, k: Key, n: nat, newest: BucketRec, oldest: BucketRec)
    requires Kept(hash, bits, bs, k, n, newest, oldest)
    ensures FirstWith(bs[hash(k, bits)], k) == newest
  {
    hide Filter, FirstWith;
    FirstIsFilter(bs[hash(k, bits)], k);
  }

  /** The record that is found when the next one makes the table double. */
  lemma KeptDoubled(hash: Hash, bits: nat, bs: Buckets, k: Key, n: nat, newest: BucketRec, oldest: BucketRec,
                    r: BucketRec)
    requires GoodHash(hash) && bits < MAXHASHSIZE && |bs| == Pow2(bits) && Placed(hash, bits, bs) && r.key == k
    requires Kept(hash, bits, bs, k, n, newest, oldest)
    ensures hash(k, bits + 1) < |Grown(hash, bs, bits, bits + 1, r)|
    ensures FirstWith(Grown(hash, bs, bits, bits + 1, r)[hash(k, bits + 1)], k) == oldest
  {
    hide Filter, FirstWith, Pow2, Rehash;
    KeptMore(hash, bits, bs, k, n, newest, oldest, r);
    DoublingAnswer(hash, bits, Grown(hash, bs, bits, bits, r), k);
  }

  lemma SmallestSize()
    ensures Pow2(INITHASHSIZE) == 64
  {
    assert Pow2(3) == 8;
  }

  /** Adds a key until the table holds it n times, without a doubling. */
  method AddTimes(ht: HashTable, k: Key, n: nat) returns (first: BucketRec, newest: BucketRec)
    requires ht.Valid() && ht.dataSize == 0 && ht.elements == 0 && ht.bucketBits == INITHASHSIZE && 1 < n <= 256
    requires ht.buckets[..] == Empty(Pow2(INITHASHSIZE))
    modifies ht, ht.buckets
    ensures ht.Valid() && ht.dataSize == 0 && (ht.buckets == old(ht.buckets) || fresh(ht.buckets))
    ensures ht.elements == n && ht.bucketBits == INITHASHSIZE && first != newest
    ensures Kept(ht.hash, INITHASHSIZE, ht.buckets[..], k, n, newest, first)
  {
    hide Rehash, Filter, FirstWith, Bag, Total, Placed, KeyMap, DistinctKeys, Pow2, Grown, Kept, GoodHash, GoodCompare;
    SmallestSize();
    var enough := Memory(true, true, true, true);
    var r := ht.Add(k, enough);
    KeptFirst(ht.hash, INITHASHSIZE, k, r);
    first, newest := r, r;
    var i := 1;
    while i < n
      invariant 1 <= i <= n && ht.Valid() && (ht.buckets == old(ht.buckets) || fresh(ht.buckets))
      invariant ht.elements == i && ht.bucketBits == INITHASHSIZE && (i > 1 ==> newest != first)
      invariant Kept(ht.hash, INITHASHSIZE, ht.buckets[..], k, i, newest, first)
    {
      ghost var bs := ht.buckets[..];
      r := ht.Add(k, enough);
      KeptMore(ht.hash, INITHASHSIZE, bs, k, i, newest, first, r);
      newest, i := r, i + 1;
    }
  }

  /** A table that is given one key 257 times: until then the record found is the last one added, and after the
      257th, which doubles the table, it is the first one. */
  method DuplicatesReversed(hash: Hash, compare: (Key, Key) -> int, k: Key)
    returns (first: BucketRec, newest: BucketRec, found: BucketRec?, last: BucketRec, foundLast: BucketRec?)
    requires GoodHash(hash) && GoodCompare(compare)
    ensures first != newest && first != last && found == newest && foundLast == first
  {
    hide Rehash, Filter, FirstWith, Bag, Total, Placed, KeyMap, DistinctKeys, Pow2, Grown, Kept, GoodHash, GoodCompare;
    SmallestSize();
    var ht := new HashTable(|k|, 0, hash, compare);
    first, newest := AddTimes(ht, k, 256);
    ghost var full := ht.buckets[..];
    found := ht.Find(k);
    assert ht.buckets[..] == full && ht.hash == hash;
    assert hash(k, INITHASHSIZE) < |full| by { IndexInRange(hash, k, INITHASHSIZE); }
    assert found == FirstWith(full[hash(k, INITHASHSIZE)], k);
    KeptFound(hash, INITHASHSIZE, full, k, 256, newest, first);
    last := ht.Add(k, Memory(true, true, true, true));
    KeptDoubled(hash, INITHASHSIZE, full, k, 256, newest, first, last);
    foundLast := ht.Find(k);
  }
}
