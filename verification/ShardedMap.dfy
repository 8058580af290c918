/** The map split over 32 shards by key hash, and the single flat map it stands for. */
module ShardedMap {
  import opened Fnv
  import opened Options

  type Views<V> = seq<map<Key, V>>

  /** Every key sits in the shard its hash selects. */
  ghost predicate WellSharded<V>(views: Views<V>) {
    && |views| == SHARD_COUNT
    && forall i, k :: 0 <= i < |views| && k in views[i] ==> Index(k) == i
  }

  ghost function AllKeys<V>(views: Views<V>): set<Key> {
    set i, k | 0 <= i < |views| && k in views[i] :: k
  }

  /** The one map the shards represent together. */
  ghost function Flat<V>(views: Views<V>): (m: map<Key, V>)
    requires WellSharded(views)
    ensures m.Keys == AllKeys(views)
    ensures forall i, k :: 0 <= i < |views| && k in views[i] ==> k in m && m[k] == views[i][k]
  {
    map k | k in AllKeys(views) :: views[Index(k)][k]
  }

  /** A lookup in the home shard is a lookup in the flat map. */
  lemma FlatLookup<V>(views: Views<V>, key: Key)
    requires WellSharded(views)
    ensures Lookup(views[Index(key)], key) == Lookup(Flat(views), key)
  {
    if key in Flat(views) {
      var i :| 0 <= i < |views| && key in views[i];
      assert i == Index(key);
    }
  }

  /** Changing one key in its home shard changes that key of the flat map and no other. */
  lemma FlatPut<V>(views: Views<V>, key: Key, v: V)
    requires WellSharded(views)
    ensures var i := Index(key);
            var after := views[i := views[i][key := v]];
            WellSharded(after) && Flat(after) == Flat(views)[key := v]
  {
    var i := Index(key);
    var after := views[i := views[i][key := v]];
    forall k
      ensures k in Flat(after) <==> k in Flat(views)[key := v]
      ensures k in Flat(after) ==> Flat(after)[k] == Flat(views)[key := v][k]
    {
      FlatLookup(after, k);
      FlatLookup(views, k);
    }
  }

  lemma FlatDelete<V>(views: Views<V>, key: Key)
    requires WellSharded(views)
    ensures var i := Index(key);
            var after := views[i := views[i] - {key}];
            WellSharded(after) && Flat(after) == Flat(views) - {key}
  {
    var i := Index(key);
    var after := views[i := views[i] - {key}];
    forall k
      ensures k in Flat(after) <==> k in Flat(views) - {key}
      ensures k in Flat(after) ==> Flat(after)[k] == (Flat(views) - {key})[k]
    {
      FlatLookup(after, k);
      FlatLookup(views, k);
    }
  }

  class Shard<V> {
    var items: map<Key, V>

    constructor ()
      ensures items == map[]
    {
      items := map[];
    }
  }

  class ConcurrentMap<V> {
    const shards: seq<Shard<V>>

    ghost predicate Valid()
      reads shards
    {
      && (forall i, j :: 0 <= i < j < |shards| ==> shards[i] != shards[j])
      && WellSharded(Content())
    }

    ghost function Content(): Views<V>
      reads shards
    {
      seq(|shards|, i requires 0 <= i < |shards| reads shards => shards[i].items)
    }

    ghost function Contents(): map<Key, V>
      requires Valid()
      reads shards
    {
      Flat(Content())
    }

    constructor ()
      ensures Valid() && Contents() == map[]
      ensures forall s :: s in shards ==> fresh(s)
    {
      var m: seq<Shard<V>> := [];
      for i := 0 to SHARD_COUNT
        invariant |m| == i
        invariant forall s :: s in m ==> fresh(s) && s.items == map[]
        invariant forall j, k :: 0 <= j < k < |m| ==> m[j] != m[k]
      {
        var s := new Shard<V>();
        m := m + [s];
      }
      shards := m;
    }

    method GetShard(key: Key) returns (shard: Shard<V>)
      requires Valid()
      ensures shard in shards && shard == shards[Index(key)]
    {
      var hash := Fnv32(key);
      shard := shards[hash % SHARD_COUNT];
    }

    method Get(key: Key, updater: V -> V) returns (v: Option<V>)
      requires Valid()
      modifies shards
      ensures Valid() && v == old(Lookup(Contents(), key))
      ensures Contents() == if v.Some? then old(Contents())[key := updater(v.value)] else old(Contents())
    {
      var shard := GetShard(key);
      ghost var before := Content();
      FlatLookup(before, key);
      v := Lookup(shard.items, key);
      if v.Some? {
        shard.items := shard.items[key := updater(v.value)];
        FlatPut(before, key, updater(v.value));
        assert Content() == before[Index(key) := before[Index(key)][key := updater(v.value)]];
      }
    }

    method Upsert(key: Key, cb: Option<V> -> V) returns (res: V)
      requires Valid()
      modifies shards
      ensures Valid() && res == cb(old(Lookup(Contents(), key)))
      ensures Contents() == old(Contents())[key := res]
    {
      var shard := GetShard(key);
      ghost var before := Content();
      FlatLookup(before, key);
      var v := Lookup(shard.items, key);
      res := cb(v);
      shard.items := shard.items[key := res];
      FlatPut(before, key, res);
      assert Content() == before[Index(key) := before[Index(key)][key := res]];
    }

    /** Shows the stored value to a callback; `seen` is what the callback is given. */
    method Update(key: Key) returns (seen: Option<V>)
      requires Valid()
      ensures seen == Lookup(Contents(), key)
    {
      var shard := GetShard(key);
      FlatLookup(Content(), key);
      seen := Lookup(shard.items, key);
    }

    method Pop(key: Key) returns (v: Option<V>)
      requires Valid()
      modifies shards
      ensures Valid() && v == old(Lookup(Contents(), key))
      ensures Contents() == old(Contents()) - {key}
    {
      var shard := GetShard(key);
      ghost var before := Content();
      FlatLookup(before, key);
      v := Lookup(shard.items, key);
      shard.items := shard.items - {key};
      FlatDelete(before, key);
      assert Content() == before[Index(key) := before[Index(key)] - {key}];
    }

    method PopIf(key: Key, pred: Option<V> -> bool) returns (v: Option<V>)
      requires Valid()
      modifies shards
      ensures Valid() && v == old(Lookup(Contents(), key))
      ensures Contents() == if pred(v) then old(Contents()) - {key} else old(Contents())
    {
      var shard := GetShard(key);
      ghost var before := Content();
      FlatLookup(before, key);
      v := Lookup(shard.items, key);
      if pred(v) {
        shard.items := shard.items - {key};
        FlatDelete(before, key);
        assert Content() == before[Index(key) := before[Index(key)] - {key}];
      }
    }

    /** Items while nobody writes; Snapshot.dfy treats the concurrent case. */
    method Items() returns (tmp: map<Key, V>)
      requires Valid()
      ensures tmp == Contents()
    {
      tmp := map[];
      for i := 0 to |shards|
        invariant forall k :: k in tmp <==> k in Contents() && Index(k) < i
        invariant forall k :: k in tmp ==> tmp[k] == Contents()[k]
      {
        var keys := shards[i].items.Keys;
        assert shards[i].items == Content()[i];
        while keys != {}
          invariant keys <= shards[i].items.Keys
          invariant forall k :: k in tmp <==> k in Contents() && (Index(k) < i || (Index(k) == i && k !in keys))
          invariant forall k :: k in tmp ==> tmp[k] == Contents()[k]
        {
          var k :| k in keys;
          tmp := tmp[k := shards[i].items[k]];
          keys := keys - {k};
        }
        forall k
          ensures k in tmp <==> k in Contents() && Index(k) < i + 1
        {
        }
      }
    }
  }
}
