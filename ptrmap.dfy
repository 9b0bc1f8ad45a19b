/**
 * The chaining hash map from 32-bit keys to pointers (`ptrmap`): `size` buckets, each a
 * singly linked chain of entries, a `count` of stored entries, and two ratios that decide
 * when `set` grows the table. A chain is modelled as the sequence of its entries in link
 * order, the bucket table as an array of chains (NULL table = array of length 0), and the
 * stored pointers as values of a type parameter `V`.
 *
 * `Contents` is the abstract map the buckets represent. Every key sits in bucket
 * key % size, at most once per chain. `deinit` empties the table but keeps `count`,
 * so the general invariant only bounds |Contents| by `count`; `Counted()` says the two
 * agree, which every operation except `Deinit` preserves.
 */
module PtrMaps {
  import opened Fabric

  datatype Entry<V> = Entry(key: u32, value: V)

  /** Where an entry lives: its bucket and its position in that bucket's chain. */
  datatype Slot = Slot(bucket: nat, pos: nat)

  /** The resize ratio `set_size` installs (a float in the source, a real here). */
  const RESIZE_RATIO: real := 0.7

  ghost predicate InChain<V>(chain: seq<Entry<V>>, k: u32)
  {
    exists t :: 0 <= t < |chain| && chain[t].key == k
  }

  ghost predicate DistinctKeys<V>(chain: seq<Entry<V>>)
  {
    forall i, j :: 0 <= i < j < |chain| ==> chain[i].key != chain[j].key
  }

  /** The bucket of key `k` in a table of `n` buckets: k mod n. */
  function Bucket(k: nat, n: nat): (b: nat)
    requires n > 0
    ensures b < n
    decreases k
  {
    if k < n then k else Bucket(k - n, n)
  }

  lemma {:induction false} BucketIsMod(k: nat, n: nat)
    requires n > 0
    ensures Bucket(k, n) == k % n
    decreases k
  {
    if k >= n {
      BucketIsMod(k - n, n);
      DivModUnique(k, n, (k - n) / n + 1, (k - n) % n);
    }
  }

  /**
   * Bucket table `bs` represents `m`: each entry is in the bucket its key hashes to and
   * agrees with `m`, no chain repeats a key, and each key of `m` is in its bucket.
   */
  ghost predicate Hashed<V>(bs: seq<seq<Entry<V>>>, m: map<u32, V>)
  {
    && (forall b, t :: 0 <= b < |bs| && 0 <= t < |bs[b]| ==>
          Bucket(bs[b][t].key, |bs|) == b && bs[b][t].key in m && m[bs[b][t].key] == bs[b][t].value)
    && (forall b :: 0 <= b < |bs| ==> DistinctKeys(bs[b]))
    && (forall k :: k in m ==> |bs| > 0 && InChain(bs[Bucket(k, |bs|)], k))
  }

  /** Linking a new entry at the head of its bucket (the rehash in `set_size`). */
  lemma {:induction false} HashedPrepend<V>(bs: seq<seq<Entry<V>>>, m: map<u32, V>, e: Entry<V>)
    requires Hashed(bs, m) && |bs| > 0 && e.key !in m
    ensures Hashed(bs[Bucket(e.key, |bs|) := [e] + bs[Bucket(e.key, |bs|)]], m[e.key := e.value])
  {
    var b := Bucket(e.key, |bs|);
    var bs' := bs[b := [e] + bs[b]];
    var m' := m[e.key := e.value];
    forall k | k in m'
      ensures InChain(bs'[Bucket(k, |bs'|)], k)
    {
      if k == e.key {
        assert bs'[b][0].key == k;
      } else {
        var t :| 0 <= t < |bs[Bucket(k, |bs|)]| && bs[Bucket(k, |bs|)][t].key == k;
        if Bucket(k, |bs|) == b {
          assert bs'[b][t + 1].key == k;
        } else {
          assert bs'[Bucket(k, |bs|)][t].key == k;
        }
      }
    }
    forall i, j | 0 <= i < j < |bs'[b]|
      ensures bs'[b][i].key != bs'[b][j].key
    {
      if i > 0 {
        assert bs'[b][i] == bs[b][i - 1] && bs'[b][j] == bs[b][j - 1];
      } else {
        assert bs'[b][j] == bs[b][j - 1];
      }
    }
  }

  /** Linking a new entry at the tail of its bucket (a new key in `set`). */
  lemma {:induction false} HashedAppend<V>(bs: seq<seq<Entry<V>>>, m: map<u32, V>, e: Entry<V>)
    requires Hashed(bs, m) && |bs| > 0 && e.key !in m
    ensures Hashed(bs[Bucket(e.key, |bs|) := bs[Bucket(e.key, |bs|)] + [e]], m[e.key := e.value])
  {
    var b := Bucket(e.key, |bs|);
    var bs' := bs[b := bs[b] + [e]];
    var m' := m[e.key := e.value];
    forall k | k in m'
      ensures InChain(bs'[Bucket(k, |bs'|)], k)
    {
      if k == e.key {
        assert bs'[b][|bs[b]|].key == k;
      } else {
        var t :| 0 <= t < |bs[Bucket(k, |bs|)]| && bs[Bucket(k, |bs|)][t].key == k;
        assert bs'[Bucket(k, |bs|)][t].key == k;
      }
    }
    forall i, j | 0 <= i < j < |bs'[b]|
      ensures bs'[b][i].key != bs'[b][j].key
    {
      assert bs'[b][i] == bs[b][i];
    }
  }

  /** Overwriting the value of an entry in place (`set` on a present key, `*get_ref = v`). */
  lemma {:induction false} HashedReplace<V>(bs: seq<seq<Entry<V>>>, m: map<u32, V>, s: Slot, v: V)
    requires Hashed(bs, m) && s.bucket < |bs| && s.pos < |bs[s.bucket]|
    ensures Hashed(bs[s.bucket := bs[s.bucket][s.pos := Entry(bs[s.bucket][s.pos].key, v)]],
                   m[bs[s.bucket][s.pos].key := v])
  {
    var k0 := bs[s.bucket][s.pos].key;
    var bs' := bs[s.bucket := bs[s.bucket][s.pos := Entry(k0, v)]];
    var m' := m[k0 := v];
    forall k | k in m'
      ensures InChain(bs'[Bucket(k, |bs'|)], k)
    {
      var t :| 0 <= t < |bs[Bucket(k, |bs|)]| && bs[Bucket(k, |bs|)][t].key == k;
      assert bs'[Bucket(k, |bs|)][t].key == k;
    }
    forall b, t | 0 <= b < |bs'| && 0 <= t < |bs'[b]|
      ensures bs'[b][t].key == bs[b][t].key
      ensures bs'[b][t].key in m' && m'[bs'[b][t].key] == bs'[b][t].value
    {
      if b == s.bucket && t != s.pos {
        assert bs[b][t].key != k0;
      }
    }
    forall b | 0 <= b < |bs'|
      ensures DistinctKeys(bs'[b])
    {
      assert DistinctKeys(bs[b]);
    }
  }

  /** Sizes in bytes of a bucket pointer and of an entry on an LP64 target. */
  const POINTER_SIZE: nat := 8
  const ENTRY_SIZE: nat := 24

  /**
   * The bucket the source reaches for bucket index `i`. It adds `scale * i` to a pointer
   * to bucket pointers, and C scales that sum once more by the pointer size, so the slot
   * reached is bucket number `scale * i`. Lookup, `set`, `deinit` and the rehash's read of
   * a new chain's head use scale POINTER_SIZE; the rehash reads old chains and stores new
   * chain heads with ENTRY_SIZE.
   * The model itself indexes bucket `i`.
   */
  function AddressedBucket(i: nat, scale: nat): (r: nat)
    ensures i > 0 && scale > 1 ==> r > i
  {
    scale * i
  }

  /**
   * As written, every table of two or more buckets is addressed past its end (the last
   * bucket index reaches bucket 8 * (size - 1)), and the rehash links a moved entry to
   * the chain read from one slot but stores it as the head of another.
   */
  lemma {:induction false} AddressedBucketOverruns(size: nat)
    requires size >= 2
    ensures AddressedBucket(size - 1, POINTER_SIZE) >= size
    ensures AddressedBucket(1, POINTER_SIZE) != AddressedBucket(1, ENTRY_SIZE)
  {
  }

  /**
   * As written, `set` links an entry at slot 8 * i for bucket i, while the rehash of
   * `set_size` reads old chains only at slots 24 * j. When i is not a multiple of 3 no
   * old bucket j reads slot 8 * i, so that chain is never moved, even where slot 8 * i is
   * in range (key 1 of a 9-bucket table sits at slot 8).
   */
  lemma SetSlotUnreadByRehash(i: nat, j: nat)
    requires i % 3 != 0
    ensures AddressedBucket(j, ENTRY_SIZE) != AddressedBucket(i, POINTER_SIZE)
  {
    assert i != 3 * j;
    assert 8 * i - 24 * j == 8 * (i - 3 * j);
  }

  /**
   * A fill ratio: the float quotient `num / den` of a count by a table size, kept as the
   * exact pair it is computed from (den > 0).
   */
  datatype Quotient = Quotient(num: nat, den: nat)

  /** The value of a quotient. */
  ghost function Value(q: Quotient): (r: real)
    requires q.den > 0
    ensures r >= 0.0
  {
    q.num as real / q.den as real
  }

  /**
   * The growth test `resizeRatio < fillRatio` of `ptrmap_set`, for the two resize ratios a
   * map can hold (0 when zero-filled, RESIZE_RATIO once sized), in integer arithmetic.
   */
  predicate Exceeds(q: Quotient, resizeRatio: real)
  {
    if resizeRatio == 0.0 then q.num > 0 else 10 * q.num > 7 * q.den
  }

  lemma ScaleLess(a: real, b: real, d: real)
    requires a < b && d > 0.0
    ensures a * d < b * d
  {
    assert b * d - a * d == (b - a) * d;
  }

  /** For `v` = num / den: RESIZE_RATIO < v exactly when 10 * num > 7 * den. */
  lemma AboveResizeRatio(num: nat, den: nat, v: real)
    requires den > 0 && v * den as real == num as real
    ensures RESIZE_RATIO < v <==> 10 * num > 7 * den
  {
    var d := den as real;
    if RESIZE_RATIO < v {
      ScaleLess(RESIZE_RATIO, v, d);
      assert 0.7 * d < num as real;
      assert 7.0 * d < 10.0 * num as real;
    } else {
      if v < RESIZE_RATIO {
        ScaleLess(v, RESIZE_RATIO, d);
      }
      assert num as real <= 0.7 * d;
      assert 10.0 * num as real <= 7.0 * d;
    }
  }

  /** `Exceeds` is the comparison of the resize ratio with the quotient's value. */
  lemma ExceedsIsLess(q: Quotient, resizeRatio: real)
    requires q.den > 0 && (resizeRatio == 0.0 || resizeRatio == RESIZE_RATIO)
    ensures Exceeds(q, resizeRatio) <==> resizeRatio < Value(q)
  {
    var v := Value(q);
    assert v * q.den as real == q.num as real;
    if resizeRatio == RESIZE_RATIO {
      AboveResizeRatio(q.num, q.den, v);
    } else if q.num > 0 {
      assert v != 0.0;
    }
  }

  /** Extending a distinct chain's prefix by one entry adds exactly that entry's new key. */
  lemma {:induction false} PrefixStep<V>(chain: seq<Entry<V>>, j: nat)
    requires j < |chain| && DistinctKeys(chain)
    ensures !InChain(chain[..j], chain[j].key)
    ensures forall k :: InChain(chain[..j + 1], k) <==> InChain(chain[..j], k) || k == chain[j].key
  {
    forall k | InChain(chain[..j + 1], k)
      ensures InChain(chain[..j], k) || k == chain[j].key
    {
      var t :| 0 <= t < j + 1 && chain[..j + 1][t].key == k;
      if t < j {
        assert chain[..j][t].key == k;
      }
    }
    forall k | InChain(chain[..j], k) || k == chain[j].key
      ensures InChain(chain[..j + 1], k)
    {
      if k == chain[j].key {
        assert chain[..j + 1][j].key == k;
      } else {
        var t :| 0 <= t < j && chain[..j][t].key == k;
        assert chain[..j + 1][t].key == k;
      }
    }
    forall t | 0 <= t < j
      ensures chain[..j][t].key != chain[j].key
    {
      assert chain[..j][t] == chain[t];
    }
  }

  /**
   * The inner loop of `ptrmap_set_size`: relinks the entries of one old chain, in chain
   * order, each at the head of bucket key % |newItems|. `moved` is the part of `m`
   * already relinked; the result is `moved` extended by the chain's entries.
   */
  method RelinkChain<V>(newItems: array<seq<Entry<V>>>, chain: seq<Entry<V>>,
                        ghost moved: map<u32, V>, ghost m: map<u32, V>)
    returns (ghost moved': map<u32, V>)
    requires newItems.Length > 0 && Hashed(newItems[..], moved) && DistinctKeys(chain)
    requires forall k :: k in moved ==> k in m && moved[k] == m[k]
    requires forall t :: 0 <= t < |chain| ==>
      chain[t].key !in moved && chain[t].key in m && m[chain[t].key] == chain[t].value
    modifies newItems
    ensures Hashed(newItems[..], moved')
    ensures forall k :: k in moved' ==> k in m && moved'[k] == m[k]
    ensures forall k :: k in moved' <==> k in moved || InChain(chain, k)
  {
    moved' := moved;
    var j := 0;
    while j < |chain|
      invariant j <= |chain|
      invariant Hashed(newItems[..], moved')
      invariant forall k :: k in moved' ==> k in m && moved'[k] == m[k]
      invariant forall k :: k in moved' <==> k in moved || InChain(chain[..j], k)
    {
      var e := chain[j];
      var b := e.key as int % newItems.Length;
      BucketIsMod(e.key, newItems.Length);
      PrefixStep(chain, j);
      HashedPrepend(newItems[..], moved', e);
      newItems[b] := [e] + newItems[b];
      moved' := moved'[e.key := e.value];
      j := j + 1;
    }
    assert chain[..j] == chain;
  }

  /**
   * The new table `ptrmap_set_size` builds: `n` empty buckets, into which every entry of
   * the old table is relinked when there was one.
   */
  method Rebuilt<V>(items: array<seq<Entry<V>>>, n: u32, ghost m: map<u32, V>) returns (newItems: array<seq<Entry<V>>>)
    requires n > 0 && Hashed(items[..], m)
    ensures fresh(newItems) && newItems.Length == n as int && Hashed(newItems[..], m)
  {
    newItems := new seq<Entry<V>>[n](_ => []);
    assert Hashed(newItems[..], map[]);
    if items.Length > 0 {
      Rehash(items, newItems, m);
    } else {
      assert m == map[];
    }
  }

  /**
   * The outer loop of `ptrmap_set_size`: relinks every chain of the old table `items`
   * (a map `m`) into the new, empty table `newItems`, which then represents `m`.
   */
  method Rehash<V>(items: array<seq<Entry<V>>>, newItems: array<seq<Entry<V>>>, ghost m: map<u32, V>)
    requires items.Length > 0 && newItems.Length > 0 && items != newItems
    requires Hashed(items[..], m) && Hashed(newItems[..], map[])
    modifies newItems
    ensures Hashed(newItems[..], m)
  {
    ghost var moved: map<u32, V> := map[];
    var i := 0;
    while i < items.Length
      invariant i <= items.Length && items[..] == old(items[..])
      invariant Hashed(newItems[..], moved)
      invariant forall k :: k in moved ==> k in m && moved[k] == m[k]
      invariant forall k :: k in moved <==> k in m && Bucket(k, items.Length) < i
    {
      assert items[..][i] == items[i];
      moved := RelinkChain(newItems, items[i], moved, m);
      forall k | k in m && Bucket(k, items.Length) == i
        ensures InChain(items[i], k)
      {
        assert InChain(items[..][Bucket(k, items.Length)], k);
      }
      i := i + 1;
    }
    assert moved == m;
  }

  /** Where `key` is found: the bucket key % |bs| holds it exactly when `m` maps it, to that entry's value. */
  lemma Lookup<V>(bs: seq<seq<Entry<V>>>, m: map<u32, V>, k: u32, b: nat)
    requires Hashed(bs, m) && |bs| > 0 && b == Bucket(k, |bs|)
    ensures k in m <==> InChain(bs[b], k)
    ensures forall t :: 0 <= t < |bs[b]| && bs[b][t].key == k ==> k in m && m[k] == bs[b][t].value
  {
  }

  /**
   * The chain walk of `ptrmap_has`, `get_or` and `get_ref`: the position of the entry for
   * `key`, or |chain| (the NULL the walk ends on) if there is none.
   */
  method FindInChain<V>(chain: seq<Entry<V>>, key: u32) returns (t: nat)
    ensures t <= |chain|
    ensures t < |chain| ==> chain[t].key == key
    ensures t == |chain| <==> !InChain(chain, key)
  {
    t := 0;
    while t < |chain|
      invariant t <= |chain|
      invariant forall u :: 0 <= u < t ==> chain[u].key != key
    {
      if chain[t].key == key {
        return;
      }
      t := t + 1;
    }
  }

  /**
   * The chain walk of `ptrmap_set`: an empty chain becomes the new entry alone; otherwise
   * the entry for `key` gets `value`, or, if there is none, a new entry is linked at the
   * tail. `pos` is where the entry for `key` ends up and `added` says whether it is new.
   */
  method PutInChain<V>(chain: seq<Entry<V>>, key: u32, value: V)
    returns (chain': seq<Entry<V>>, pos: nat, added: bool)
    ensures added <==> !InChain(chain, key)
    ensures added ==> pos == |chain| && chain' == chain + [Entry(key, value)]
    ensures !added ==> pos < |chain| && chain[pos].key == key && chain' == chain[pos := Entry(key, value)]
  {
    if |chain| == 0 {
      return [Entry(key, value)], 0, true;
    }
    var t := 0;
    while t < |chain|
      invariant t < |chain|
      invariant forall u :: 0 <= u < t ==> chain[u].key != key
    {
      if chain[t].key == key {
        return chain[t := Entry(key, value)], t, false;
      }
      if t == |chain| - 1 {
        return chain + [Entry(key, value)], |chain|, true;
      }
      t := t + 1;
    }
  }

  /**
   * The map's invariant over its field values: `size` buckets representing `m`, at most
   * `count` keys, a resize ratio of 0 (zero-filled) or RESIZE_RATIO (sized), and, once
   * sized, a fill ratio of count / size.
   */
  ghost predicate Inv<V>(size: u32, count: u32, resizeRatio: real, fillRatio: Quotient,
                         bs: seq<seq<Entry<V>>>, m: map<u32, V>)
  {
    && |bs| == size as int
    && Hashed(bs, m)
    && |m| <= count as int
    && fillRatio.den > 0
    && (resizeRatio == 0.0 ==> fillRatio.num == 0)
    && (resizeRatio == 0.0 || resizeRatio == RESIZE_RATIO)
    && (size > 0 ==> resizeRatio == RESIZE_RATIO && fillRatio == Quotient(count as nat, size as nat))
  }

  /** A table of `n > 0` buckets holding `m` satisfies the invariant once the ratios are set for it. */
  lemma SizedInv<V>(bs: seq<seq<Entry<V>>>, n: u32, count: u32, m: map<u32, V>)
    requires |bs| == n as int > 0 && Hashed(bs, m) && |m| <= count as int
    ensures Inv(n, count, RESIZE_RATIO, Quotient(count as nat, n as nat), bs, m)
  {
  }

  /** Storing `value` under `key` as `PutInChain` does keeps the invariant. */
  lemma PutKeepsInv<V>(size: u32, count: u32, count': u32, resizeRatio: real, fillRatio: Quotient,
                       bs: seq<seq<Entry<V>>>, m: map<u32, V>, key: u32, value: V,
                       b: nat, chain: seq<Entry<V>>, pos: nat, added: bool)
    requires Inv(size, count, resizeRatio, fillRatio, bs, m) && size > 0
    requires b == Bucket(key, size)
    requires added <==> !InChain(bs[b], key)
    requires added ==> chain == bs[b] + [Entry(key, value)]
    requires !added ==> pos < |bs[b]| && bs[b][pos].key == key && chain == bs[b][pos := Entry(key, value)]
    requires count' as int == if added then count as int + 1 else count as int
    ensures added <==> key !in m
    ensures Inv(size, count', resizeRatio, Quotient(count' as nat, size as nat), bs[b := chain], m[key := value])
  {
    if added {
      HashedAppend(bs, m, Entry(key, value));
    } else {
      HashedReplace(bs, m, Slot(b, pos), value);
    }
  }
  /** A store into one bucket of the table; the other buckets are untouched. */
  method StoreBucket<V>(items: array<seq<Entry<V>>>, b: nat, chain: seq<Entry<V>>)
    requires b < items.Length
    modifies items
    ensures items[..] == old(items[..])[b := chain]
  {
    items[b] := chain;
  }

  /**
   * The store of `set` on the table's values: the new chain for the key's bucket, whether
   * the key was new, and the new count, with the invariant they keep.
   */
  method PutInTable<V>(ghost bs: seq<seq<Entry<V>>>, ghost m: map<u32, V>, size: u32, count: u32,
                       ghost resizeRatio: real, ghost fillRatio: Quotient,
                       key: u32, value: V, b: u32, chain0: seq<Entry<V>>)
    returns (chain: seq<Entry<V>>, added: bool, count': u32)
    requires Inv(size, count, resizeRatio, fillRatio, bs, m) && size > 0
    requires b == key % size && chain0 == bs[b]
    requires key !in m ==> count < U32_MAX
    ensures added <==> key !in m
    ensures count' as int == if added then count as int + 1 else count as int
    ensures Inv(size, count', resizeRatio, Quotient(count' as nat, size as nat), bs[b := chain], m[key := value])
  {
    BucketIsMod(key, size);
    var pos;
    chain, pos, added := PutInChain(chain0, key, value);
    PutKeepsInv(size, count, if added then count + 1 else count, resizeRatio, fillRatio, bs, m, key, value,
                b as nat, chain, pos, added);
    count' := if added then count + 1 else count;
  }


  class PtrMap<V> {
    var size: u32
    var count: u32
    var resizeRatio: real
    var fillRatio: Quotient
    var items: array<seq<Entry<V>>>
    ghost var Contents: map<u32, V>

    ghost predicate Valid()
      reads this, items
    {
      Inv(size, count, resizeRatio, fillRatio, items[..], Contents)
    }

    /** `count` is the number of keys stored (false only after `Deinit` of a non-empty map). */
    ghost predicate Counted()
      reads this
    {
      |Contents| == count as int
    }

    /** A zero-filled struct: no table, no entries, both ratios 0. */
    constructor ()
      ensures Valid() && Counted() && size == 0 && Contents == map[]
      ensures resizeRatio == 0.0 && Value(fillRatio) == 0.0
    {
      size := 0;
      count := 0;
      resizeRatio := 0.0;
      fillRatio := Quotient(0, 1);
      items := new seq<Entry<V>>[0];
      Contents := map[];
    }

    /**
     * `ptrmap_set_size`: a new zeroed table of `n` buckets into which every entry of the
     * old table is relinked at the head of bucket key % n. A request for 0 buckets is a
     * zero-byte allocation and fails like an allocation failure, changing nothing.
     */
    method SetSize(n: u32, allocOk: bool) returns (rc: Status)
      requires Valid()
      modifies this
      ensures Valid()
      ensures rc == (if Allocates(n as nat, allocOk) then Ok else NoMem)
      ensures rc == NoMem ==>
        (size == old(size) && items == old(items) && count == old(count)
         && resizeRatio == old(resizeRatio) && fillRatio == old(fillRatio) && Contents == old(Contents))
      ensures rc == Ok ==> size == n && count == old(count) && Contents == old(Contents) && fresh(items)
      ensures rc == Ok ==> resizeRatio == RESIZE_RATIO && fillRatio == Quotient(count as nat, n as nat)
      ensures old(Counted()) ==> Counted()
    {
      if !Allocates(n as nat, allocOk) {
        return NoMem;
      }
      var newItems := Rebuilt(items, n, Contents);
      SizedInv(newItems[..], n, count, Contents);
      items := newItems;
      size := n;
      resizeRatio := RESIZE_RATIO;
      fillRatio := Quotient(count as nat, n as nat);
      return Ok;
    }

    /**
     * `ptrmap_deinit`: frees every chain and the table. The entry count and both ratios
     * are left as they were.
     */
    method Deinit()
      requires Valid()
      modifies this
      ensures Valid() && size == 0 && Contents == map[]
      ensures count == old(count) && resizeRatio == old(resizeRatio) && fillRatio == old(fillRatio)
      ensures items == old(items) || fresh(items)
    {
      if size == 0 {
        return;
      }
      items := new seq<Entry<V>>[0];
      size := 0;
      Contents := map[];
    }

    /** `ptrmap_reinit`: `deinit` followed by `set_size(n)`. */
    method Reinit(n: u32, allocOk: bool) returns (rc: Status)
      requires Valid()
      modifies this
      ensures Valid() && Contents == map[] && count == old(count)
      ensures rc == (if Allocates(n as nat, allocOk) then Ok else NoMem)
      ensures rc == NoMem ==> size == 0
      ensures rc == Ok ==> size == n && resizeRatio == RESIZE_RATIO && fillRatio == Quotient(count as nat, n as nat)
      ensures items == old(items) || fresh(items)
    {
      Deinit();
      rc := SetSize(n, allocOk);
    }

    /** `ptrmap_has`: whether the chain of bucket key % size holds `key`. */
    method Has(key: u32) returns (found: bool)
      requires Valid() && size > 0
      ensures found <==> key in Contents
    {
      var index := key % size;
      BucketIsMod(key, size);
      var t := FindInChain(items[index], key);
      Lookup(items[..], Contents, key, index as nat);
      return t < |items[index]|;
    }

    /** `ptrmap_get_or`: the value stored under `key`, or `def` if there is none. */
    method GetOr(key: u32, def: V) returns (v: V)
      requires Valid() && size > 0
      ensures key in Contents ==> v == Contents[key]
      ensures key !in Contents ==> v == def
    {
      var index := key % size;
      BucketIsMod(key, size);
      var current := items[index];
      var t := FindInChain(current, key);
      Lookup(items[..], Contents, key, index as nat);
      if t < |current| {
        return current[t].value;
      }
      return def;
    }

    /**
     * `ptrmap_get_ref`: the location of the entry for `key` (the address of its value
     * field in the source), or None (NULL) if the key is absent.
     */
    method GetRef(key: u32) returns (r: Option<Slot>)
      requires Valid() && size > 0
      ensures r.None? <==> key !in Contents
      ensures r.Some? ==>
        (r.value.bucket < items.Length && r.value.pos < |items[r.value.bucket]|
         && items[r.value.bucket][r.value.pos] == Entry(key, Contents[key]))
    {
      var index := key % size;
      BucketIsMod(key, size);
      var current := items[index];
      var t := FindInChain(current, key);
      Lookup(items[..], Contents, key, index as nat);
      if t < |current| {
        return Some(Slot(index as nat, t));
      }
      return None;
    }

    /** A store through a reference returned by `GetRef`: rebinds that entry's key to `v`. */
    method WriteRef(s: Slot, v: V)
      requires Valid() && s.bucket < items.Length && s.pos < |items[s.bucket]|
      modifies this, items
      ensures Valid() && size == old(size) && items == old(items) && count == old(count)
      ensures resizeRatio == old(resizeRatio) && fillRatio == old(fillRatio)
      ensures Contents == old(Contents)[old(items[s.bucket][s.pos].key) := v]
    {
      ghost var bs := items[..];
      HashedReplace(bs, Contents, s, v);
      var k := items[s.bucket][s.pos].key;
      items[s.bucket] := items[s.bucket][s.pos := Entry(k, v)];
      assert items[..] == bs[s.bucket := bs[s.bucket][s.pos := Entry(k, v)]];
      Contents := Contents[k := v];
    }

    /**
     * The second half of `ptrmap_set`, once the entry is allocated and the table is large
     * enough: stores `value` under `key` in bucket key % size and updates the count and
     * the fill ratio.
     */
    method Insert(key: u32, value: V)
      requires Valid() && size > 0
      requires key !in Contents ==> count < U32_MAX
      modifies this, items
      ensures Valid() && items == old(items) && size == old(size) && resizeRatio == old(resizeRatio)
      ensures Contents == old(Contents)[key := value]
      ensures count == (if key in old(Contents) then old(count) else old(count) + 1)
      ensures fillRatio == Quotient(count as nat, size as nat)
      ensures old(Counted()) ==> Counted()
    {
      var index := key % size;
      var chain, added, count' := PutInTable(items[..], Contents, size, count, resizeRatio, fillRatio,
                                             key, value, index, items[index]);
      StoreBucket(items, index as nat, chain);
      count, Contents, fillRatio := count', Contents[key := value], Quotient(count' as nat, size as nat);
    }

    /**
     * `ptrmap_set`: allocates the entry first, grows the table to 2*size+1 buckets when
     * the fill ratio exceeds the resize ratio, then overwrites the value of an existing
     * entry for `key` or links a new entry at the tail of its chain. `entryOk` and
     * `tableOk` are the outcomes of the two allocations.
     */
    method Set(key: u32, value: V, entryOk: bool, tableOk: bool) returns (rc: Status)
      requires Valid()
      requires size > 0 || Exceeds(fillRatio, resizeRatio)
      requires Exceeds(fillRatio, resizeRatio) ==> size < 0x8000_0000
      requires key !in Contents ==> count < U32_MAX
      modifies this, items
      ensures Valid()
      ensures rc == (if !entryOk || (old(Exceeds(fillRatio, resizeRatio)) && !tableOk) then NoMem else Ok)
      ensures rc == NoMem ==>
        (size == old(size) && items == old(items) && items[..] == old(items[..])
         && count == old(count) && Contents == old(Contents)
         && resizeRatio == old(resizeRatio) && fillRatio == old(fillRatio))
      ensures rc == Ok ==> Contents == old(Contents)[key := value]
      ensures rc == Ok ==> count == (if key in old(Contents) then old(count) else old(count) + 1)
      ensures rc == Ok ==> size == (if old(Exceeds(fillRatio, resizeRatio)) then 2 * old(size) + 1 else old(size))
      ensures rc == Ok ==> resizeRatio == RESIZE_RATIO && fillRatio == Quotient(count as nat, size as nat)
      ensures old(Counted()) ==> Counted()
      ensures items == old(items) || fresh(items)
    {
      if !entryOk {
        return NoMem;
      }
      if Exceeds(fillRatio, resizeRatio) {
        rc := SetSize(size * 2 + 1, tableOk);
        if rc != Ok {
          return rc;
        }
      }
      Insert(key, value);
      rc := Ok;
    }
  }
}
