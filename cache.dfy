/**
 * The tile cache of LocalTileDataLoader: an android.support.v4.util.LruCache
 * whose `sizeOf` is the bitmap's byte count and whose `entryRemoved`
 * recycles the displaced bitmap and marks its tile dirty.
 *
 * The library class is not part of this model; its documented contract is
 * implemented here directly: a map from tile identity to tile, an access
 * order (least recently used first), a running total of `sizeOf`, and
 * eviction from the least recently used end until the total fits.
 */
module Cache {
  import opened Tiles

  /** The capacity the loader gives its cache: 10 MiB of bitmap bytes. */
  const CACHE_CAPACITY: int := 10 * 1024 * 1024

  /** The overridden sizeOf: the bitmap's byte count. */
  function SizeOf(t: Tile): nat
  {
    if t.data == null then 0 else t.data.byteCount
  }

  /** The keys listed in `s`. */
  function Elems(s: seq<TileKey>): set<TileKey>
  {
    if s == [] then {} else {s[0]} + Elems(s[1..])
  }

  /** Total size of the entries named by `keys`. */
  function SumSizes(keys: seq<TileKey>, m: map<TileKey, Tile>): nat
  {
    if keys == [] then 0
    else (if keys[0] in m then SizeOf(m[keys[0]]) else 0) + SumSizes(keys[1..], m)
  }

  /** `keys` without `k`, order kept. */
  function Remove(keys: seq<TileKey>, k: TileKey): seq<TileKey>
  {
    if keys == [] then []
    else if keys[0] == k then Remove(keys[1..], k)
    else [keys[0]] + Remove(keys[1..], k)
  }

  /** Remove takes out exactly `k` and changes nothing when `k` is absent. */
  lemma {:induction false} RemoveSpec(keys: seq<TileKey>, k: TileKey)
    ensures Elems(Remove(keys, k)) == Elems(keys) - {k}
    ensures k !in Elems(keys) ==> Remove(keys, k) == keys
  {
    if keys != [] {
      RemoveSpec(keys[1..], k);
      if keys[0] != k {
        var r := Remove(keys, k);
        assert r == [keys[0]] + Remove(keys[1..], k);
        assert r[1..] == Remove(keys[1..], k);
      }
    }
  }

  lemma {:induction false} SumSizesAgree(keys: seq<TileKey>, m1: map<TileKey, Tile>, m2: map<TileKey, Tile>)
    requires forall k :: k in Elems(keys) ==> k in m1 && k in m2 && m1[k] == m2[k]
    ensures SumSizes(keys, m1) == SumSizes(keys, m2)
  {
    if keys != [] {
      SumSizesAgree(keys[1..], m1, m2);
    }
  }

  /** Each listed entry's size is part of the total. */
  lemma {:induction false} SumSizesCovers(keys: seq<TileKey>, m: map<TileKey, Tile>, k: TileKey)
    requires k in Elems(keys) && k in m
    ensures SizeOf(m[k]) <= SumSizes(keys, m)
  {
    if keys[0] != k {
      SumSizesCovers(keys[1..], m, k);
    }
  }

  /** Every position of a sequence holds one of its keys. */
  lemma {:induction false} ElemsHasIndex(s: seq<TileKey>, i: int)
    requires 0 <= i < |s|
    ensures s[i] in Elems(s)
  {
    if i > 0 {
      ElemsHasIndex(s[1..], i - 1);
    }
  }

  /** LRU eviction: drop keys from the least recently used end while the
      total exceeds `max` (LruCache.trimToSize). */
  function Trimmed(keys: seq<TileKey>, m: map<TileKey, Tile>, max: int): seq<TileKey>
    decreases |keys|
  {
    if keys == [] || SumSizes(keys, m) <= max then keys
    else Trimmed(keys[1..], m, max)
  }

  /** What eviction keeps is the most recently used end of the order, and
      it fits (or nothing is left). */
  lemma {:induction false} TrimmedIsFittingSuffix(keys: seq<TileKey>, m: map<TileKey, Tile>, max: int)
    ensures var r := Trimmed(keys, m, max);
            && |r| <= |keys| && r == keys[|keys| - |r|..]
            && (r == [] || SumSizes(r, m) <= max)
  {
    if keys != [] && SumSizes(keys, m) > max {
      TrimmedIsFittingSuffix(keys[1..], m, max);
      var r := Trimmed(keys[1..], m, max);
      assert keys[1..][|keys[1..]| - |r|..] == keys[|keys| - |r|..];
    }
  }

  /** Eviction stops as soon as the total fits: the last key evicted was
      needed to get under `max`. */
  lemma {:induction false} TrimmedMinimal(keys: seq<TileKey>, m: map<TileKey, Tile>, max: int)
    ensures var r := Trimmed(keys, m, max);
            r != keys ==> |r| < |keys| && SumSizes(keys[|keys| - |r| - 1..], m) > max
  {
    if keys != [] && SumSizes(keys, m) > max {
      var tail := keys[1..];
      var r := Trimmed(tail, m, max);
      assert Trimmed(keys, m, max) == r;
      if r == tail {
        assert |keys| - |r| - 1 == 0;
        assert keys[|keys| - |r| - 1..] == keys;
      } else {
        TrimmedMinimal(tail, m, max);
        assert |tail| - |r| - 1 == |keys| - |r| - 2;
        assert tail[|tail| - |r| - 1..] == keys[|keys| - |r| - 1..];
      }
    }
  }

  /** The entry just used is kept whenever it fits on its own. */
  lemma {:induction false} TrimmedKeepsLast(keys: seq<TileKey>, k: TileKey, m: map<TileKey, Tile>, max: int)
    requires k in m && SizeOf(m[k]) <= max
    ensures var r := Trimmed(keys + [k], m, max);
            r != [] && r[|r| - 1] == k
  {
    var s := keys + [k];
    if keys == [] {
      assert SumSizes(s, m) == SizeOf(m[k]) + SumSizes([], m);
    } else if SumSizes(s, m) > max {
      assert s[1..] == keys[1..] + [k];
      TrimmedKeepsLast(keys[1..], k, m, max);
    }
  }

  /** A negative bound evicts everything (evictAll is trimToSize(-1)). */
  lemma {:induction false} TrimmedNegativeEmpties(keys: seq<TileKey>, m: map<TileKey, Tile>, max: int)
    requires max < 0
    ensures Trimmed(keys, m, max) == []
  {
    if keys != [] {
      TrimmedNegativeEmpties(keys[1..], m, max);
    }
  }

  /** A cached tile is filed under its own key and has a bitmap that
      `owner` records as that key's. */
  ghost predicate Owned(k: TileKey, t: Tile, owner: map<Bitmap, TileKey>)
  {
    Keyed(k, t) && t.data != null && t.data in owner && owner[t.data] == k
  }

  /** The bookkeeping of an LRU cache: `order` lists every key of `values`
      exactly once, least recently used first, each entry is Owned, and
      `size` is the total of the entries' sizes. */
  ghost predicate Listed(order: seq<TileKey>, values: map<TileKey, Tile>, size: int,
                          owner: map<Bitmap, TileKey>)
    decreases |order|
  {
    if order == [] then values == map[] && size == 0
    else
      var k := order[0];
      && k in values
      && Owned(k, values[k], owner)
      && Listed(order[1..], values - {k}, size - SizeOf(values[k]), owner)
  }

  /** The order lists exactly the cached keys and the total is SumSizes. */
  lemma {:induction false} ListedElems(order: seq<TileKey>, values: map<TileKey, Tile>, size: int,
                                        owner: map<Bitmap, TileKey>)
    requires Listed(order, values, size, owner)
    ensures Elems(order) == values.Keys
    ensures size == SumSizes(order, values)
  {
    if order != [] {
      var rest := values - {order[0]};
      ListedElems(order[1..], rest, size - SizeOf(values[order[0]]), owner);
      SumSizesAgree(order[1..], rest, values);
    }
  }

  /** Every cached entry is Owned. */
  lemma {:induction false} ListedOwned(order: seq<TileKey>, values: map<TileKey, Tile>, size: int,
                                        owner: map<Bitmap, TileKey>, k: TileKey)
    requires Listed(order, values, size, owner) && k in values
    ensures Owned(k, values[k], owner)
  {
    var k0 := order[0];
    if k0 != k {
      ListedOwned(order[1..], values - {k0}, size - SizeOf(values[k0]), owner, k);
    }
  }

  /** The bookkeeping as the cache's methods see it: Listed, held behind a
      countdown so that the solver treats it as a unit there; IndexedIsListed
      opens it. */
  ghost predicate Indexed(order: seq<TileKey>, values: map<TileKey, Tile>, size: int,
                          owner: map<Bitmap, TileKey>)
  {
    Countdown(3, order, values, size, owner)
  }

  ghost predicate Countdown(n: nat, order: seq<TileKey>, values: map<TileKey, Tile>, size: int,
                            owner: map<Bitmap, TileKey>)
    decreases n
  {
    if n == 0 then Listed(order, values, size, owner) else Countdown(n - 1, order, values, size, owner)
  }

  lemma IndexedIsListed(order: seq<TileKey>, values: map<TileKey, Tile>, size: int,
                        owner: map<Bitmap, TileKey>)
    ensures Indexed(order, values, size, owner) <==> Listed(order, values, size, owner)
  {
    assert Countdown(3, order, values, size, owner) == Countdown(2, order, values, size, owner);
    assert Countdown(2, order, values, size, owner) == Countdown(1, order, values, size, owner);
    assert Countdown(1, order, values, size, owner) == Countdown(0, order, values, size, owner);
  }

  /** The cached keys are the listed ones and the total is SumSizes. */
  lemma IndexedElems(order: seq<TileKey>, values: map<TileKey, Tile>, size: int,
                     owner: map<Bitmap, TileKey>)
    requires Indexed(order, values, size, owner)
    ensures Elems(order) == values.Keys
    ensures size == SumSizes(order, values)
  {
    IndexedIsListed(order, values, size, owner);
    ListedElems(order, values, size, owner);
  }

  /** Every cached entry is Owned. */
  lemma IndexedOwned(order: seq<TileKey>, values: map<TileKey, Tile>, size: int,
                     owner: map<Bitmap, TileKey>, k: TileKey)
    requires Indexed(order, values, size, owner) && k in values
    ensures Owned(k, values[k], owner)
  {
    IndexedIsListed(order, values, size, owner);
    ListedOwned(order, values, size, owner, k);
  }

  /** The least recently used key is cached, and dropping it keeps the
      bookkeeping. */
  lemma IndexedRemoveFirst(order: seq<TileKey>, values: map<TileKey, Tile>, size: int,
                           owner: map<Bitmap, TileKey>)
    requires Indexed(order, values, size, owner) && order != []
    ensures order[0] in values && Owned(order[0], values[order[0]], owner)
    ensures Indexed(order[1..], values - {order[0]}, size - SizeOf(values[order[0]]), owner)
  {
    IndexedIsListed(order, values, size, owner);
    IndexedIsListed(order[1..], values - {order[0]}, size - SizeOf(values[order[0]]), owner);
  }

  /** Different keys hold different tiles with different bitmaps. */
  lemma IndexedUnaliased(order: seq<TileKey>, values: map<TileKey, Tile>, size: int,
                         owner: map<Bitmap, TileKey>, k1: TileKey, k2: TileKey)
    requires Indexed(order, values, size, owner)
    requires k1 in values && k2 in values && k1 != k2
    ensures values[k1] != values[k2] && values[k1].data != values[k2].data
  {
    IndexedOwned(order, values, size, owner, k1);
    IndexedOwned(order, values, size, owner, k2);
  }

  /** Taking a key out of the order takes its entry out of the map and its
      size out of the total. */
  lemma {:induction false} ListedRemove(order: seq<TileKey>, values: map<TileKey, Tile>, size: int,
                                         owner: map<Bitmap, TileKey>, k: TileKey)
    requires Listed(order, values, size, owner) && k in values
    ensures Listed(Remove(order, k), values - {k}, size - SizeOf(values[k]), owner)
  {
    var k0 := order[0];
    if k0 == k {
      ListedElems(order[1..], values - {k}, size - SizeOf(values[k]), owner);
      RemoveSpec(order[1..], k);
    } else {
      var rest := values - {k0};
      ListedRemove(order[1..], rest, size - SizeOf(values[k0]), owner, k);
      var r := Remove(order[1..], k);
      assert Remove(order, k) == [k0] + r;
      assert ([k0] + r)[1..] == r;
      assert rest - {k} == (values - {k}) - {k0};
    }
  }

  /** Appending a new key as the most recently used adds its entry and its
      size. */
  lemma {:induction false} ListedAppend(order: seq<TileKey>, values: map<TileKey, Tile>, size: int,
                                         owner: map<Bitmap, TileKey>, k: TileKey, t: Tile)
    requires Listed(order, values, size, owner) && k !in values
    requires Owned(k, t, owner)
    ensures Listed(order + [k], values[k := t], size + SizeOf(t), owner)
  {
    if order == [] {
      assert order + [k] == [k] && [k][1..] == [];
      assert values[k := t] - {k} == map[];
    } else {
      var k0 := order[0];
      var rest := values - {k0};
      ListedAppend(order[1..], rest, size - SizeOf(values[k0]), owner, k, t);
      assert (order + [k])[1..] == order[1..] + [k];
      assert rest[k := t] == values[k := t] - {k0};
    }
  }

  /** Growing the footprint and recording a bitmap no entry holds leaves
      the bookkeeping intact. */
  lemma {:induction false} ListedWiden(order: seq<TileKey>, values: map<TileKey, Tile>, size: int,
                                        owner: map<Bitmap, TileKey>, b: Bitmap, k: TileKey)
    requires Listed(order, values, size, owner)
    requires forall x :: x in values ==> values[x].data != b
    ensures Listed(order, values, size, owner[b := k])
  {
    if order != [] {
      var k0 := order[0];
      ListedWiden(order[1..], values - {k0}, size - SizeOf(values[k0]), owner, b, k);
    }
  }

  /** A tile whose bitmap no other cached tile holds, stored under its own
      key, shares its bitmap with no entry under another key. */
  lemma IndexedSharesNoBitmap(order: seq<TileKey>, values: map<TileKey, Tile>, size: int,
                              owner: map<Bitmap, TileKey>, k: TileKey, value: Tile)
    requires Indexed(order, values, size, owner) && Keyed(k, value)
    requires forall x :: x in values && values[x] != value ==> values[x].data != value.data
    ensures forall x :: x in values && x != k ==> values[x].data != value.data
  {
    forall x | x in values && x != k
      ensures values[x].data != value.data
    {
      IndexedOwned(order, values, size, owner, x);
    }
  }

  /** After a different tile replaces the one under `k`, no entry holds the
      displaced tile or its bitmap. */
  lemma IndexedDisplaced(order: seq<TileKey>, values: map<TileKey, Tile>, size: int,
                         owner: map<Bitmap, TileKey>, k: TileKey, value: Tile, stored: map<TileKey, Tile>)
    requires Indexed(order, values, size, owner) && k in values
    requires values[k] != value && values[k].data != value.data
    requires stored == values[k := value]
    ensures forall x :: x in stored ==> stored[x] != values[k] && stored[x].data != values[k].data
  {
    forall x | x in stored
      ensures stored[x] != values[k] && stored[x].data != values[k].data
    {
      if x != k {
        IndexedUnaliased(order, values, size, owner, x, k);
      }
    }
  }

  /** Moving a key to the most recently used end keeps the bookkeeping. */
  lemma IndexedTouch(order: seq<TileKey>, values: map<TileKey, Tile>, size: int,
                     owner: map<Bitmap, TileKey>, k: TileKey)
    requires Indexed(order, values, size, owner) && k in values
    ensures Indexed(Remove(order, k) + [k], values, size, owner)
  {
    IndexedIsListed(order, values, size, owner);
    IndexedIsListed(Remove(order, k) + [k], values, size, owner);
    ListedOwned(order, values, size, owner, k);
    ListedRemove(order, values, size, owner, k);
    ListedAppend(Remove(order, k), values - {k}, size - SizeOf(values[k]), owner, k, values[k]);
    assert (values - {k})[k := values[k]] == values;
  }

  /** Storing a tile under `k` as the most recently used entry keeps the
      bookkeeping, the total changing by the difference of the sizes,
      provided no other entry shares the tile's bitmap. */
  lemma IndexedStore(order: seq<TileKey>, values: map<TileKey, Tile>, size: int,
                     owner: map<Bitmap, TileKey>, k: TileKey, value: Tile)
    requires Indexed(order, values, size, owner)
    requires Keyed(k, value) && value.data != null
    requires forall x :: x in values && x != k ==> values[x].data != value.data
    ensures Indexed(Remove(order, k) + [k], values[k := value],
                    size + SizeOf(value) - (if k in values then SizeOf(values[k]) else 0),
                    owner[value.data := k])
  {
    var owner' := owner[value.data := k];
    IndexedIsListed(order, values, size, owner);
    IndexedIsListed(Remove(order, k) + [k], values[k := value],
                    size + SizeOf(value) - (if k in values then SizeOf(values[k]) else 0), owner');
    if k in values {
      var rest, size' := values - {k}, size - SizeOf(values[k]);
      ListedRemove(order, values, size, owner, k);
      ListedWiden(Remove(order, k), rest, size', owner, value.data, k);
      ListedAppend(Remove(order, k), rest, size', owner', k, value);
      assert rest[k := value] == values[k := value];
    } else {
      ListedElems(order, values, size, owner);
      RemoveSpec(order, k);
      ListedWiden(order, values, size, owner, value.data, k);
      ListedAppend(order, values, size, owner', k, value);
    }
  }

  /** While the total exceeds the bound, trimming drops the first key. */
  lemma TrimmedStep(keys: seq<TileKey>, m: map<TileKey, Tile>, max: int)
    requires keys != [] && SumSizes(keys, m) > max
    ensures Trimmed(keys, m, max) == Trimmed(keys[1..], m, max)
  {
  }

  /** The LruCache<Marker, Tile> of the loader. */
  class TileCache {
    const maxSize: int
    /** Access order, least recently used first. */
    var order: seq<TileKey>
    var values: map<TileKey, Tile>
    /** The running total of sizeOf over the entries. */
    var size: int
    /** The cache, every tile it has held and their bitmaps. */
    ghost var Repr: set<object>
    /** The key each bitmap was last cached under. */
    ghost var owner: map<Bitmap, TileKey>

    /** The bookkeeping holds and every cached tile and its bitmap lie in
        the footprint. */
    ghost predicate Bookkept()
      reads this
    {
      && this in Repr
      && Indexed(order, values, size, owner)
      && (forall k :: k in values ==>
            values[k] in Repr && values[k].data != null && values[k].data in Repr)
    }

    /** Every cached tile is live: not dirty, its bitmap not recycled. */
    ghost predicate Live()
      requires Bookkept()
      reads this, Repr
    {
      forall k :: k in values ==> !values[k].isDirty && !values[k].data.released
    }

    /** The bookkeeping holds and every entry is live. The size bound is
        not part of it: it is broken between an insertion and the trim that
        follows. */
    ghost predicate Consistent()
      reads this, Repr
    {
      Bookkept() && Live()
    }

    ghost predicate Valid()
      reads this, Repr
    {
      Consistent() && 0 < maxSize && size <= maxSize
    }

    /** `new LruCache(maxSize)`; the library refuses a non-positive size. */
    constructor (maxSize: int)
      requires maxSize > 0
      ensures Valid() && fresh(Repr)
      ensures this.maxSize == maxSize && order == [] && values == map[] && size == 0
    {
      this.maxSize := maxSize;
      order, values, size := [], map[], 0;
      Repr, owner := {this}, map[];
    }

    /** The overridden entryRemoved hook: a displaced tile that is not the
        new value has its bitmap recycled and is marked dirty. */
    method EntryRemoved(evicted: bool, key: TileKey, oldValue: Tile?, newValue: Tile?)
      requires oldValue != null ==> oldValue.data != null
      modifies if oldValue != null then {oldValue, oldValue.data} else {}
      ensures oldValue != null && oldValue != newValue ==>
                oldValue.isDirty && oldValue.data.released
      ensures oldValue != null && oldValue == newValue ==>
                oldValue.isDirty == old(oldValue.isDirty) && oldValue.data.released == old(oldValue.data.released)
    {
      if oldValue != null && oldValue != newValue {
        oldValue.data.released := true;
        oldValue.isDirty := true;
      }
    }

    /** LruCache.get: a hit returns the tile and makes it the most recently
        used; a miss returns null (`create` is not overridden to build one). */
    method Get(key: Marker) returns (t: Tile?)
      requires Valid()
      modifies this
      ensures Valid() && Repr == old(Repr)
      ensures values == old(values) && size == old(size)
      ensures KeyOf(key) in values ==>
                t == values[KeyOf(key)] && order == Remove(old(order), KeyOf(key)) + [KeyOf(key)]
      ensures KeyOf(key) !in values ==> t == null && order == old(order)
    {
      var k := KeyOf(key);
      if k in values {
        t := values[k];
        IndexedTouch(order, values, size, owner, k);
        order := Remove(order, k) + [k];
      } else {
        t := null;
      }
    }

    /** One eviction step of trimToSize: the least recently used entry
        leaves the cache and goes through the entryRemoved hook. */
    method RemoveEldest()
      requires Consistent() && order != [] && order[0] in values
      modifies this, values[order[0]], values[order[0]].data
      ensures Consistent() && Repr == old(Repr)
      ensures order == old(order)[1..]
      ensures values == old(values) - {old(order)[0]}
      ensures old(values)[old(order)[0]].isDirty && old(values)[old(order)[0]].data.released
    {
      var k := order[0];
      var value := values[k];
      IndexedRemoveFirst(order, values, size, owner);
      order, values, size := order[1..], values - {k}, size - SizeOf(value);
      label before:
      EntryRemoved(true, k, value, null);
      forall x | x in values
        ensures !values[x].isDirty && !values[x].data.released
      {
        var t := values[x];
        IndexedOwned(order, values, size, owner, x);
        assert t != value && t.data != value.data;
        assert !old@before(t.isDirty) && !old@before(t.data.released);
      }
    }

    /** One iteration of trimToSize's loop, with what the loop keeps:
        entries come from `ov`, the trim of the current order is the trim
        of `o0`, and every entry of `ov` that left has been recycled. */
    method EvictStep(ghost ov: map<TileKey, Tile>, ghost o0: seq<TileKey>, max: int)
      requires Consistent() && order != [] && order[0] in values && size > max
      requires forall k :: k in values ==> k in ov && values[k] == ov[k]
      requires Trimmed(order, ov, max) == Trimmed(o0, ov, max)
      requires forall k :: k in ov && k !in values ==> ov[k].data != null && ov[k].isDirty && ov[k].data.released
      modifies this, values[order[0]], values[order[0]].data
      ensures Consistent() && Repr == old(Repr) && |order| < old(|order|)
      ensures forall k :: k in values ==> k in ov && values[k] == ov[k]
      ensures Trimmed(order, ov, max) == Trimmed(o0, ov, max)
      ensures forall k :: k in ov && k !in values ==> ov[k].data != null && ov[k].isDirty && ov[k].data.released
    {
      var k0 := order[0];
      IndexedElems(order, values, size, owner);
      SumSizesAgree(order, values, ov);
      TrimmedStep(order, ov, max);
      ghost var pre := values;
      label L:
      RemoveEldest();
      forall k | k in ov && k !in values
        ensures ov[k].data != null && ov[k].isDirty && ov[k].data.released
      {
        var t := ov[k];
        if k == k0 {
          assert t == pre[k0];
        } else {
          // t was recycled before this step, the evicted entry was live
          assert k !in pre && old@L(t.isDirty) && old@L(t.data.released);
          assert !old@L(pre[k0].isDirty) && !old@L(pre[k0].data.released);
        }
      }
    }

    /** The cached tiles and their bitmaps: what eviction may change. */
    ghost function Entries(): set<object>
      reads this
    {
      (set k | k in values :: values[k] as object) +
      (set k | k in values && values[k].data != null :: values[k].data as object)
    }

    /** The cached tiles and their bitmaps lie in the footprint. */
    lemma EntriesInRepr()
      requires Bookkept()
      ensures Entries() <= Repr
    {
    }

    /** LruCache.trimToSize: evict least recently used entries, each through
        the entryRemoved hook, until the total is at most `max`. */
    method TrimToSize(max: int)
      requires Consistent()
      modifies this, Entries()
      ensures Consistent() && Repr == old(Repr)
      ensures order == Trimmed(old(order), old(values), max)
      ensures forall k :: k in values ==> k in old(values) && values[k] == old(values)[k]
      ensures forall k :: k in old(values) && k !in values ==>
                old(values)[k].isDirty && old(values)[k].data.released
      ensures size <= max || order == []
    {
      ghost var ov := values;
      while size > max && order != []
        invariant Consistent() && Repr == old(Repr)
        invariant forall k :: k in values ==> k in ov && values[k] == ov[k]
        invariant Trimmed(order, ov, max) == Trimmed(old(order), ov, max)
        invariant forall k :: k in ov && k !in values ==> ov[k].data != null && ov[k].isDirty && ov[k].data.released
        decreases |order|
      {
        IndexedRemoveFirst(order, values, size, owner);
        assert values[order[0]] in old(Entries()) && values[order[0]].data in old(Entries());
        EvictStep(ov, old(order), max);
      }
      IndexedElems(order, values, size, owner);
      SumSizesAgree(order, values, ov);
    }

    /** The map update of LruCache.put: `k` now holds `value` and is the
        most recently used key; nothing is recycled yet. */
    method Insert(k: TileKey, value: Tile) returns (previous: Tile?)
      requires Consistent()
      requires Keyed(k, value) && value.data != null
      requires !value.isDirty && !value.data.released
      requires forall x :: x in values && x != k ==> values[x].data != value.data
      modifies this
      ensures Consistent() && Repr == old(Repr) + {value, value.data}
      ensures previous == if k in old(values) then old(values)[k] else null
      ensures order == Remove(old(order), k) + [k] && values == old(values)[k := value]
    {
      previous := if k in values then values[k] else null;
      IndexedStore(order, values, size, owner, k, value);
      order, values, size, Repr, owner :=
        Remove(order, k) + [k], values[k := value],
        size + SizeOf(value) - (if previous != null then SizeOf(previous) else 0),
        Repr + {value, value.data}, owner[value.data := k];
    }

    /** The first half of LruCache.put: the map update, then a displaced
        different tile goes to entryRemoved; the size bound may be broken
        afterwards. */
    method Store(k: TileKey, value: Tile) returns (previous: Tile?)
      requires Consistent()
      requires Keyed(k, value) && value.data != null
      requires !value.isDirty && !value.data.released
      requires forall x :: x in values && values[x] != value ==> values[x].data != value.data
      modifies this, Entries()
      ensures Consistent() && Repr == old(Repr) + {value, value.data}
      ensures previous == if k in old(values) then old(values)[k] else null
      ensures order == Remove(old(order), k) + [k] && values == old(values)[k := value]
      ensures previous != null && previous != value ==>
                previous.isDirty && previous.data.released &&
                forall x :: x in values ==> values[x] != previous && values[x].data != previous.data
    {
      IndexedSharesNoBitmap(order, values, size, owner, k, value);
      if k in values && values[k] != value {
        IndexedDisplaced(order, values, size, owner, k, value, values[k := value]);
      }
      previous := Insert(k, value);
      ghost var order1, values1 := order, values;
      if previous != null {
        Displace(k, previous, value);
      }
      assert order == order1 && values == values1;
    }

    /** The entryRemoved call of LruCache.put for the tile it displaced; a
        different tile is recycled, which no entry shares. */
    method Displace(k: TileKey, previous: Tile, value: Tile)
      requires Consistent() && previous.data != null
      requires previous != value ==>
                 forall x :: x in values ==> values[x] != previous && values[x].data != previous.data
      modifies previous, previous.data
      ensures Consistent()
      ensures previous != value ==> previous.isDirty && previous.data.released
    {
      label before:
      EntryRemoved(false, k, previous, value);
      if previous != value {
        forall x | x in values
          ensures !values[x].isDirty && !values[x].data.released
        {
          var t := values[x];
          assert !old@before(t.isDirty) && !old@before(t.data.released);
        }
      }
    }

    /** LruCache.put: store the tile under its key as the most recently used
        entry, hand a displaced different tile to entryRemoved, then trim to
        the capacity. The tile must be live and its bitmap must not belong to
        another cached tile; the loader only ever puts a freshly loaded tile. */
    method Put(key: Marker, value: Tile) returns (previous: Tile?)
      requires Valid()
      requires Keyed(KeyOf(key), value) && value.data != null
      requires !value.isDirty && !value.data.released
      requires forall k :: k in values && values[k] != value ==> values[k].data != value.data
      modifies this, Entries(), value, value.data
      ensures Valid() && Repr == old(Repr) + {value, value.data}
      ensures previous == if KeyOf(key) in old(values) then old(values)[KeyOf(key)] else null
      ensures var m := old(values)[KeyOf(key) := value];
              && order == Trimmed(Remove(old(order), KeyOf(key)) + [KeyOf(key)], m, maxSize)
              && (forall k :: k in values ==> k in m && values[k] == m[k])
              && (forall k :: k in m && k !in values ==> m[k].isDirty && m[k].data.released)
      ensures previous != null && previous != value ==> previous.isDirty && previous.data.released
    {
      var k := KeyOf(key);
      previous := Store(k, value);
      assert previous != null && previous != value ==> previous !in Entries() && previous.data !in Entries();
      TrimToSize(maxSize);
    }

    /** LruCache.evictAll: trimToSize(-1), which hands every entry to the
        entryRemoved hook. */
    method EvictAll()
      requires Valid()
      modifies this, Entries()
      ensures Valid() && Repr == old(Repr)
      ensures order == [] && values == map[] && size == 0
      ensures forall k :: k in old(values) ==> old(values)[k].isDirty && old(values)[k].data.released
    {
      TrimmedNegativeEmpties(order, values, -1);
      TrimToSize(-1);
    }
  }
}
