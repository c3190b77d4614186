/** The self-expanding hash table of lib/hash.cc.  A bucket is a list, here the
    sequence that it holds. */
module HashTables {
  import opened Collections
  import Words

  const InitialBuckets := 4
  const ResizeRatio := 3
  const IncreaseSizeBy := 4

  function Slot<Key>(hash: Key -> nat, key: Key, n: nat): (b: nat)
    requires n > 0
    ensures b < n
  {
    hash(key) % n
  }

  /** The bucket of a key is its hash value modulo the number of buckets. */
  lemma SlotExact<Key>(hash: Key -> nat, key: Key, n: nat, q: nat, b: nat)
    requires b < n && hash(key) == q * n + b
    ensures Slot(hash, key, n) == b
  {
    Words.ModUnique(hash(key), n, q, b);
  }

  /** The buckets hold exactly the items of the map, each once and in the bucket
      that its key hashes to. */
  ghost predicate Placed<Key, T>(bs: seq<seq<T>>, m: map<Key, T>, getKey: T -> Key, hash: Key -> nat) {
    && |bs| > 0
    && (forall b | 0 <= b < |bs| :: NoDup(bs[b]) && AllFit(bs[b], b, |bs|, m, getKey, hash))
    && (forall k | k in m :: getKey(m[k]) == k && m[k] in bs[Slot(hash, k, |bs|)])
  }

  ghost predicate AllFit<Key, T>(s: seq<T>, b: nat, n: nat, m: map<Key, T>, getKey: T -> Key, hash: Key -> nat)
    requires n > 0
  {
    forall v | v in s :: getKey(v) in m && m[getKey(v)] == v && Slot(hash, getKey(v), n) == b
  }

  function Total<T>(bs: seq<seq<T>>): nat {
    if bs == [] then 0 else Total(bs[..|bs| - 1]) + |bs[|bs| - 1]|
  }

  /** Appending a new item to its bucket. */
  lemma PlacedAdds<Key, T>(bs: seq<seq<T>>, m: map<Key, T>, getKey: T -> Key, hash: Key -> nat, item: T)
    requires Placed(bs, m, getKey, hash) && getKey(item) !in m
    ensures var b := Slot(hash, getKey(item), |bs|);
      Placed(bs[b := bs[b] + [item]], m[getKey(item) := item], getKey, hash)
  {
    var k := getKey(item);
    var b := Slot(hash, k, |bs|);
    var bs', m' := bs[b := bs[b] + [item]], m[k := item];
    assert AllFit(bs[b], b, |bs|, m, getKey, hash);
    forall c | 0 <= c < |bs'| ensures NoDup(bs'[c]) && AllFit(bs'[c], c, |bs'|, m', getKey, hash) {
      assert NoDup(bs[c]) && AllFit(bs[c], c, |bs|, m, getKey, hash);
    }
  }

  function Without<T(==)>(s: seq<T>, i: nat): seq<T>
    requires i < |s|
  {
    s[..i] + s[i + 1..]
  }

  lemma WithoutItem<T>(s: seq<T>, i: nat)
    requires NoDup(s) && i < |s|
    ensures NoDup(Without(s, i)) && forall v :: v in Without(s, i) <==> v in s && v != s[i]
  {
    forall v | v in s && v != s[i] ensures v in Without(s, i) {
      var j :| 0 <= j < |s| && s[j] == v;
      assert v == if j < i then Without(s, i)[j] else Without(s, i)[j - 1];
    }
  }

  lemma WithoutFirst<T>(s: seq<T>)
    requires s != []
    ensures Without(s, 0) == s[1..]
  {}

  lemma ItemFits<Key, T>(bs: seq<seq<T>>, m: map<Key, T>, getKey: T -> Key, hash: Key -> nat, b: nat, v: T)
    requires Placed(bs, m, getKey, hash) && b < |bs| && v in bs[b]
    ensures getKey(v) in m && m[getKey(v)] == v && Slot(hash, getKey(v), |bs|) == b
  {
    assert AllFit(bs[b], b, |bs|, m, getKey, hash);
  }

  /** Taking an item out of its bucket. */
  lemma PlacedRemoves<Key, T>(bs: seq<seq<T>>, m: map<Key, T>, getKey: T -> Key, hash: Key -> nat, key: Key, i: nat)
    requires Placed(bs, m, getKey, hash) && key in m
    requires var b := Slot(hash, key, |bs|); i < |bs[b]| && bs[b][i] == m[key]
    ensures var b := Slot(hash, key, |bs|);
      Placed(bs[b := Without(bs[b], i)], m - {key}, getKey, hash)
  {
    var b := Slot(hash, key, |bs|);
    var bs', m' := bs[b := Without(bs[b], i)], m - {key};
    WithoutItem(bs[b], i);
    forall c | 0 <= c < |bs'| ensures NoDup(bs'[c]) && AllFit(bs'[c], c, |bs'|, m', getKey, hash) {
      assert NoDup(bs[c]) && AllFit(bs[c], c, |bs|, m, getKey, hash);
    }
  }

  lemma PlacedNone<Key, T>(bs: seq<seq<T>>, getKey: T -> Key, hash: Key -> nat)
    requires |bs| > 0 && forall b | 0 <= b < |bs| :: bs[b] == []
    ensures Placed(bs, map[], getKey, hash) && Total(bs) == 0
  {
    TotalEmpty(bs);
  }

  lemma PlacedSomewhere<Key, T>(bs: seq<seq<T>>, m: map<Key, T>, getKey: T -> Key, hash: Key -> nat)
    requires Placed(bs, m, getKey, hash)
    ensures |bs| > 0
  {}

  /** The test for resizing is exact. */
  lemma RatioTest(n: nat, size: nat)
    requires size > 0
    ensures n / size >= ResizeRatio <==> n >= ResizeRatio * size
  {
    var q, r := n / size, n % size;
    assert n == q * size + r;
    if q >= ResizeRatio {
      assert q * size == ResizeRatio * size + (q - ResizeRatio) * size;
    } else {
      assert (ResizeRatio - 1 - q) * size >= 0;
      assert q * size + (ResizeRatio - 1 - q) * size == (ResizeRatio - 1) * size;
    }
  }

  // ------------------------------------------------------------------- counting

  lemma {:induction false} TotalUpdate<T>(bs: seq<seq<T>>, b: nat, s: seq<T>)
    requires b < |bs|
    ensures Total(bs[b := s]) == Total(bs) - |bs[b]| + |s|
  {
    var n := |bs| - 1;
    if b == n {
      assert bs[b := s][..n] == bs[..n];
    } else {
      assert bs[b := s][..n] == bs[..n][b := s];
      TotalUpdate(bs[..n], b, s);
    }
  }

  lemma {:induction false} TotalEmpty<T>(bs: seq<seq<T>>)
    requires forall b | 0 <= b < |bs| :: bs[b] == []
    ensures Total(bs) == 0
  {
    if bs != [] { TotalEmpty(bs[..|bs| - 1]); }
  }

  // ------------------------------------------------------------------ iteration

  /** The buckets laid end to end. */
  function Flatten<T>(bs: seq<seq<T>>): seq<T> {
    if bs == [] then [] else bs[0] + Flatten(bs[1..])
  }

  lemma {:induction false} FlattenSkips<T>(bs: seq<seq<T>>, b: nat, k: nat)
    requires b <= k <= |bs| && forall j | b <= j < k :: bs[j] == []
    ensures Flatten(bs[b..]) == Flatten(bs[k..])
    decreases k - b
  {
    if b < k {
      assert bs[b..][1..] == bs[b + 1..];
      FlattenSkips(bs, b + 1, k);
    }
  }

  /** The items from position p of bucket b on. */
  function From<T>(bs: seq<seq<T>>, b: nat, p: nat): seq<T>
    requires b <= |bs| && (b < |bs| ==> p <= |bs[b]|)
  {
    if b == |bs| then [] else bs[b][p..] + Flatten(bs[b + 1..])
  }

  lemma FromStart<T>(bs: seq<seq<T>>, b: nat, k: nat)
    requires b <= k <= |bs| && forall j | b <= j < k :: bs[j] == []
    ensures From(bs, k, 0) == Flatten(bs[b..])
  {
    FlattenSkips(bs, b, k);
    if k < |bs| { assert bs[k..][1..] == bs[k + 1..]; }
  }

  lemma FromNext<T>(bs: seq<seq<T>>, b: nat, p: nat)
    requires b < |bs| && p < |bs[b]|
    ensures From(bs, b, p) == [bs[b][p]] + From(bs, b, p + 1)
    ensures p + 1 == |bs[b]| ==> From(bs, b, p + 1) == Flatten(bs[b + 1..])
  {}

  /** From bucket b on, the items laid end to end are those of those buckets, and
      no item comes twice. */
  lemma {:induction false} FlattenFrom<Key, T>(bs: seq<seq<T>>, m: map<Key, T>, getKey: T -> Key, hash: Key -> nat,
    b: nat)
    requires Placed(bs, m, getKey, hash) && b <= |bs|
    ensures NoDup(Flatten(bs[b..]))
    ensures forall v | v in Flatten(bs[b..]) ::
      getKey(v) in m && m[getKey(v)] == v && Slot(hash, getKey(v), |bs|) >= b
    ensures forall k | k in m && Slot(hash, k, |bs|) >= b :: m[k] in Flatten(bs[b..])
    decreases |bs| - b
  {
    hide Slot;
    if b < |bs| {
      assert bs[b..][1..] == bs[b + 1..];
      FlattenFrom(bs, m, getKey, hash, b + 1);
      assert NoDup(bs[b]) && AllFit(bs[b], b, |bs|, m, getKey, hash);
      var rest := Flatten(bs[b + 1..]);
      assert Flatten(bs[b..]) == bs[b] + rest;
      assert forall i | 0 <= i < |rest| :: rest[i] in rest;
      assert forall i | 0 <= i < |bs[b]| :: bs[b][i] in bs[b];
    }
  }

  class HashTable<Key(==), T(==)> {
    const getKey: T -> Key
    const hash: Key -> nat
    var buckets: array<seq<T>>
    var numItems: nat
    ghost var contents: map<Key, T>

    /** Every item in its place, the count right, and never more than three items
        to a bucket on average. */
    ghost predicate Valid()
      reads this, buckets
    {
      && Placed(buckets[..], contents, getKey, hash)
      && numItems == Total(buckets[..]) == |contents|
      && numItems <= ResizeRatio * buckets.Length
    }

    function HashValue(key: Key): (b: nat)
      reads this
      requires buckets.Length > 0
      ensures b < buckets.Length
    {
      Slot(hash, key, buckets.Length)
    }

    constructor (getKey: T -> Key, hash: Key -> nat)
      ensures Valid() && fresh(buckets) && contents == map[] && buckets.Length == InitialBuckets
      ensures this.getKey == getKey && this.hash == hash
    {
      this.getKey, this.hash := getKey, hash;
      numItems := 0;
      contents := map[];
      buckets := new seq<T>[InitialBuckets](_ => []);
      new;
      TotalEmpty(buckets[..]);
    }

    method FindInBucket(bucket: nat, key: Key) returns (r: Option<nat>)
      requires bucket < buckets.Length
      ensures r.Some? ==> r.value < |buckets[bucket]| && getKey(buckets[bucket][r.value]) == key
      ensures r.None? ==> forall v | v in buckets[bucket] :: getKey(v) != key
    {
      var list := buckets[bucket];
      for i := 0 to |list|
        invariant forall j | 0 <= j < i :: getKey(list[j]) != key
      {
        if key == getKey(list[i]) { return Some(i); }
      }
      return None;
    }

    /** Find agrees with lookup in the map. */
    method Find(key: Key) returns (r: Option<T>)
      requires Valid()
      ensures r == if key in contents then Some(contents[key]) else None
    {
      var b := HashValue(key);
      var i := FindInBucket(b, key);
      assert AllFit(buckets[..][b], b, buckets.Length, contents, getKey, hash);
      if i.None? { return None; }
      assert buckets[b][i.value] in buckets[..][b];
      return Some(buckets[b][i.value]);
    }

    method Insert(item: T)
      requires Valid() && getKey(item) !in contents
      modifies this, buckets
      ensures Valid() && contents == old(contents)[getKey(item) := item]
      ensures buckets == old(buckets) || fresh(buckets)
      ensures buckets.Length ==
        if old(numItems) >= ResizeRatio * old(buckets.Length) then IncreaseSizeBy * old(buckets.Length)
        else old(buckets.Length)
    {
      hide Placed, Total, Slot;
      PlacedSomewhere(buckets[..], contents, getKey, hash);
      RatioTest(numItems, buckets.Length);
      if numItems / buckets.Length >= ResizeRatio { ReHash(); }
      var b := HashValue(getKey(item));
      PlacedAdds(buckets[..], contents, getKey, hash, item);
      TotalUpdate(buckets[..], b, buckets[b] + [item]);
      ghost var before := buckets[..];
      buckets[b] := buckets[b] + [item];
      assert buckets[..] == before[b := before[b] + [item]];
      contents := contents[getKey(item) := item];
      numItems := numItems + 1;
    }

    method Remove(key: Key) returns (item: T)
      requires Valid() && key in contents
      modifies this, buckets
      ensures Valid() && item == old(contents)[key] && contents == old(contents) - {key}
    {
      var b := HashValue(key);
      var i := FindInBucket(b, key);
      assert AllFit(buckets[..][b], b, buckets.Length, contents, getKey, hash) && contents[key] in buckets[..][b];
      assert i.Some? && buckets[b][i.value] in buckets[..][b];
      item := buckets[b][i.value];
      PlacedRemoves(buckets[..], contents, getKey, hash, key, i.value);
      TotalUpdate(buckets[..], b, Without(buckets[b], i.value));
      ghost var before := buckets[..];
      buckets[b] := Without(buckets[b], i.value);
      assert buckets[..] == before[b := Without(before[b], i.value)];
      contents := contents - {key};
      numItems := numItems - 1;
    }

    /** ReHash: four times the buckets, the same contents. */
    method ReHash()
      requires Valid()
      modifies this, buckets
      ensures Valid() && fresh(buckets) && buckets.Length == IncreaseSizeBy * old(buckets.Length)
      ensures contents == old(contents) && numItems == old(numItems)
    {
      hide Placed, Total, Unmoved, Slot, AllFit;
      var oldTable := buckets;
      var size := IncreaseSizeBy * oldTable.Length;
      PlacedSomewhere(buckets[..], contents, getKey, hash);
      NoneMoved(buckets[..], contents);
      buckets := new seq<T>[size](_ => []);
      PlacedNone(buckets[..], getKey, hash);
      ghost var moved: map<Key, T> := map[];
      for i := 0 to oldTable.Length
        modifies buckets, oldTable
        invariant Placed(buckets[..], moved, getKey, hash) && Total(buckets[..]) == |moved|
        invariant Unmoved(oldTable[..], contents, moved)
        invariant forall j | 0 <= j < i :: oldTable[j] == []
      {
        moved := MoveBucket(oldTable, i, moved);
      }
      AllMoved(oldTable[..], contents, moved);
    }

    /** An old bucket emptied into the new ones. */
    method MoveBucket(oldTable: array<seq<T>>, i: nat, ghost moved: map<Key, T>) returns (ghost moved': map<Key, T>)
      requires oldTable != buckets && i < oldTable.Length && buckets.Length > 0
      requires Placed(buckets[..], moved, getKey, hash) && Total(buckets[..]) == |moved|
      requires Unmoved(oldTable[..], contents, moved)
      modifies buckets, oldTable
      ensures Placed(buckets[..], moved', getKey, hash) && Total(buckets[..]) == |moved'|
      ensures Unmoved(oldTable[..], contents, moved')
      ensures oldTable[..] == old(oldTable[..])[i := []]
    {
      hide Placed, Total, Unmoved;
      moved' := moved;
      while oldTable[i] != []
        invariant Placed(buckets[..], moved', getKey, hash) && Total(buckets[..]) == |moved'|
        invariant Unmoved(oldTable[..], contents, moved')
        invariant oldTable[..] == old(oldTable[..])[i := oldTable[i]]
        decreases |oldTable[i]|
      {
        moved' := MoveFront(oldTable, i, moved');
      }
    }

    /** What is left in the old table is what has not moved. */
    ghost predicate Unmoved(left: seq<seq<T>>, c: map<Key, T>, moved: map<Key, T>) {
      && Placed(left, c - moved.Keys, getKey, hash)
      && moved.Keys <= c.Keys && forall k | k in moved :: moved[k] == c[k]
    }

    lemma NoneMoved(left: seq<seq<T>>, c: map<Key, T>)
      requires Placed(left, c, getKey, hash)
      ensures Unmoved(left, c, map[])
    {
      var none: map<Key, T> := map[];
      assert c - none.Keys == c;
    }

    lemma AllMoved(left: seq<seq<T>>, c: map<Key, T>, moved: map<Key, T>)
      requires Unmoved(left, c, moved) && forall j | 0 <= j < |left| :: left[j] == []
      ensures moved == c
    {
      var rest := c - moved.Keys;
      forall k | k in c ensures k in moved {
        assert k in rest || k in moved;
      }
    }

    /** One item from the front of an old bucket to its new bucket. */
    method MoveFront(oldTable: array<seq<T>>, i: nat, ghost moved: map<Key, T>) returns (ghost moved': map<Key, T>)
      requires oldTable != buckets && i < oldTable.Length && oldTable[i] != [] && buckets.Length > 0
      requires Placed(buckets[..], moved, getKey, hash) && Total(buckets[..]) == |moved|
      requires Unmoved(oldTable[..], contents, moved)
      modifies buckets, oldTable
      ensures Placed(buckets[..], moved', getKey, hash) && Total(buckets[..]) == |moved'|
      ensures Unmoved(oldTable[..], contents, moved')
      ensures oldTable[..] == old(oldTable[..])[i := old(oldTable[i])[1..]]
    {
      hide Placed, Total, Slot, Unmoved;
      var item := oldTable[i][0];
      ghost var left, bs := oldTable[..], buckets[..];
      MoveStep(left, bs, moved, i);
      var b := HashValue(getKey(item));
      oldTable[i] := oldTable[i][1..];
      buckets[b] := buckets[b] + [item];
      assert buckets[..] == bs[b := bs[b] + [item]];
      assert oldTable[..] == left[i := left[i][1..]];
      moved' := moved[getKey(item) := item];
    }

    /** Moving the first item of bucket i of left to its bucket of bs. */
    lemma MoveStep(left: seq<seq<T>>, bs: seq<seq<T>>, moved: map<Key, T>, i: nat)
      requires i < |left| && left[i] != [] && |bs| > 0
      requires Placed(bs, moved, getKey, hash) && Total(bs) == |moved| && Unmoved(left, contents, moved)
      ensures var item := left[i][0];
        var b := Slot(hash, getKey(item), |bs|);
        var bs', moved' := bs[b := bs[b] + [item]], moved[getKey(item) := item];
        && Placed(bs', moved', getKey, hash) && Total(bs') == |moved'|
        && Unmoved(left[i := left[i][1..]], contents, moved')
    {
      hide Placed, Total, Slot, Without;
      var item := left[i][0];
      var k, rest := getKey(item), contents - moved.Keys;
      ItemFits(left, rest, getKey, hash, i, item);
      PlacedRemoves(left, rest, getKey, hash, k, 0);
      WithoutFirst(left[i]);
      PlacedAdds(bs, moved, getKey, hash, item);
      var b := Slot(hash, k, |bs|);
      TotalUpdate(bs, b, bs[b] + [item]);
      var moved' := moved[k := item];
      assert contents - moved'.Keys == rest - {k};
    }

    /** The checks of SanityCheck: every item hashes to its bucket, and the count is
        right. */
    method SanityCheck() returns (ok: bool)
      requires Valid()
      ensures ok
    {
      ok := true;
      var numFound := 0;
      for i := 0 to buckets.Length
        invariant ok && numFound == Total(buckets[..i])
      {
        numFound := numFound + |buckets[i]|;
        assert buckets[..i + 1][..i] == buckets[..i];
        var list := buckets[i];
        assert AllFit(buckets[..][i], i, buckets.Length, contents, getKey, hash);
        for j := 0 to |list|
          invariant ok
        {
          assert list[j] in buckets[..][i];
          ok := ok && i == HashValue(getKey(list[j]));
        }
      }
      assert buckets[..buckets.Length] == buckets[..];
      ok := ok && numItems == numFound;
    }

    /** The next bucket from b on that holds anything. */
    method FindNextFullBucket(b: nat) returns (k: nat)
      requires b <= buckets.Length
      ensures b <= k <= buckets.Length && (k < buckets.Length ==> buckets[k] != [])
      ensures forall j | b <= j < k :: buckets[j] == []
    {
      k := b;
      while k < buckets.Length
        invariant b <= k <= buckets.Length && forall j | b <= j < k :: buckets[j] == []
      {
        if buckets[k] != [] { break; }
        k := k + 1;
      }
    }
  }

  class HashIterator<Key(==), T(==)> {
    const table: HashTable<Key, T>
    var bucket: nat
    var position: nat

    ghost predicate Valid()
      reads this, table, table.buckets
    {
      bucket <= table.buckets.Length && (bucket < table.buckets.Length ==> position < |table.buckets[bucket]|)
    }

    /** The items still to come, the current one first. */
    ghost function Remaining(): seq<T>
      reads this, table, table.buckets
      requires Valid()
    {
      From(table.buckets[..], bucket, position)
    }

    constructor (table: HashTable<Key, T>)
      ensures Valid() && this.table == table && Remaining() == Flatten(table.buckets[..])
    {
      this.table := table;
      var b := table.FindNextFullBucket(0);
      bucket, position := b, 0;
      new;
      FromStart(table.buckets[..], 0, b);
      assert table.buckets[..][0..] == table.buckets[..];
    }

    predicate IsDone()
      reads this, table
    {
      bucket == table.buckets.Length
    }

    method Item() returns (item: T)
      requires Valid() && !IsDone()
      ensures Remaining() != [] && item == Remaining()[0]
    {
      FromNext(table.buckets[..], bucket, position);
      item := table.buckets[bucket][position];
    }

    method Next()
      requires Valid() && !IsDone()
      modifies this
      ensures Valid() && old(Remaining()) != [] && Remaining() == old(Remaining())[1..]
    {
      hide From, Flatten;
      ghost var bs, b := table.buckets[..], bucket;
      FromNext(bs, bucket, position);
      position := position + 1;
      if position == |table.buckets[bucket]| {
        bucket := table.FindNextFullBucket(bucket + 1);
        position := 0;
        FromStart(bs, b + 1, bucket);
      }
    }
  }

  method Walk<Key(==), T(==)>(table: HashTable<Key, T>) returns (seen: seq<T>)
    ensures seen == Flatten(table.buckets[..])
  {
    hide Flatten;
    ghost var all := Flatten(table.buckets[..]);
    var iter := new HashIterator(table);
    seen := [];
    ghost var rest := all;
    while !iter.IsDone()
      invariant fresh(iter) && iter.table == table && iter.Valid() && iter.Remaining() == rest && all == seen + rest
      decreases |rest|
    {
      var item := iter.Item();
      seen := seen + [item];
      iter.Next();
      rest := rest[1..];
    }
  }

  /** Stepping an iterator to the end meets every item of the table exactly once. */
  method VisitAll<Key(==), T(==)>(table: HashTable<Key, T>) returns (seen: seq<T>)
    requires table.Valid()
    ensures NoDup(seen)
    ensures forall v | v in seen :: table.getKey(v) in table.contents && table.contents[table.getKey(v)] == v
    ensures forall k | k in table.contents :: table.contents[k] in seen
  {
    assert table.buckets[..][0..] == table.buckets[..];
    FlattenFrom(table.buckets[..], table.contents, table.getKey, table.hash, 0);
    seen := Walk(table);
  }
}
