/** The storage of one instance: versioned records in a sharded map, and the messages it emits. */
module Storages {
  import opened Fnv
  import opened Options
  import opened Records
  import opened ShardedMap

  class Storage {
    const data: ConcurrentMap<Record>
    var setHandler: bool       // is a set handler installed?
    var removeHandler: bool    // is a remove handler installed?
    var emitted: seq<Message>  // the arguments of the handlers launched so far

    ghost predicate Valid()
      reads data.shards
    {
      data.Valid()
    }

    ghost function Contents(): Store
      requires Valid()
      reads data.shards
    {
      data.Contents()
    }

    constructor ()
      ensures Valid() && Contents() == map[]
      ensures !setHandler && !removeHandler && emitted == []
      ensures forall s :: s in data.shards ==> fresh(s)
    {
      data := new ConcurrentMap<Record>();
      setHandler, removeHandler, emitted := false, false, [];
    }

    method AddSetHandler()
      modifies this`setHandler
      ensures setHandler
    {
      setHandler := true;
    }

    method AddRemoveHandler()
      modifies this`removeHandler
      ensures removeHandler
    {
      removeHandler := true;
    }

    method Set(key: Key, value: Value)
      requires Valid()
      modifies this`emitted, data.shards
      ensures Valid() && Contents() == AfterSet(old(Contents()), key, value, Int64)
      ensures emitted == old(emitted)
                         + if setHandler then [SetMessage(old(Contents()), key, value, Int64)] else []
    {
      hide Flat, WellSharded, SetRecord;
      var rec := data.Upsert(key, r => SetRecord(r, value, Int64));
      SetRecordValue(old(Lookup(Contents(), key)), value, Int64);
      if setHandler {
        emitted := emitted + [Updated(key, rec.value, rec.ver)];
      }
    }

    method SetWithVersion(key: Key, value: Value, ver: int)
      requires Valid()
      modifies data.shards
      ensures Valid() && Contents() == AfterMessage(old(Contents()), Updated(key, value, ver))
    {
      var _ := data.Upsert(key, r => MergeRecord(r, value, ver));
    }

    /** Reading a key advances its local clock and tells nobody. */
    method Get(key: Key) returns (value: Option<Value>)
      requires Valid()
      modifies data.shards
      ensures Valid() && Contents() == AfterGet(old(Contents()), key, Int64)
      ensures value == if key in old(Contents()) then Some(old(Contents())[key].value) else None
    {
      var r := data.Get(key, rec => Touched(rec, Int64));
      value := if r.Some? then Some(r.value.value) else None;
    }

    method Remove(key: Key) returns (ok: bool)
      requires Valid()
      modifies this`emitted, data.shards
      ensures Valid() && Contents() == AfterRemove(old(Contents()), key)
      ensures ok == (key in old(Contents()))
      ensures emitted == old(emitted)
                         + if ok && removeHandler then [RemoveMessage(old(Contents()), key, Int64)] else []
    {
      hide Flat, WellSharded, Bump;
      var r := data.Pop(key);
      ok := r.Some?;
      if ok && removeHandler {
        emitted := emitted + [Removed(key, Bump(r.value.ver, Int64))];
      }
    }

    method RemoveWithVersion(key: Key, ver: int)
      requires Valid()
      modifies data.shards
      ensures Valid() && Contents() == AfterMessage(old(Contents()), Removed(key, ver))
    {
      var _ := data.PopIf(key, r => RemovableAt(r, ver));
    }

    method List() returns (result: map<Key, Value>)
      requires Valid()
      ensures result == ValuesOf(Contents())
      ensures forall k :: k in result <==> k in Contents()
      ensures forall k :: k in result ==> result[k] == Contents()[k].value
    {
      hide Flat, WellSharded;
      var items := data.Items();
      result := map[];
      var keys := items.Keys;
      while keys != {}
        invariant keys <= items.Keys
        invariant forall k :: k in result <==> k in items && k !in keys
        invariant forall k :: k in result ==> result[k] == items[k].value
      {
        var k :| k in keys;
        result := result[k := items[k].value];
        keys := keys - {k};
      }
    }
  }
}
