/** The versioned record and the rules by which one node's store changes. */
module Records {
  import opened Fnv
  import opened Options

  type Value = seq<Byte>

  datatype Record = Record(value: Value, ver: int)

  type Store = map<Key, Record>

  /** What a node tells its peers. */
  datatype Message =
    | Updated(key: Key, value: Value, ver: int)
    | Removed(key: Key, ver: int)

  /** Versions are int64 in the program; the unbounded clock is the one to reason about. */
  datatype Width = Unbounded | Int64

  const INT64_MAX: int := 0x7fff_ffff_ffff_ffff

  function Bump(ver: int, w: Width): int {
    if w == Int64 && ver == INT64_MAX then -INT64_MAX - 1 else ver + 1
  }

  function Touched(r: Record, w: Width): Record {
    r.(ver := Bump(r.ver, w))
  }

  function SetRecord(r: Option<Record>, value: Value, w: Width): Record {
    match r
    case Some(rec) => Touched(rec, w).(value := value)
    case None => Record(value, 1)
  }

  lemma SetRecordValue(r: Option<Record>, value: Value, w: Width)
    ensures SetRecord(r, value, w).value == value
  {
  }

  /** The replication guard: an equal version wins over the stored one. */
  function MergeRecord(r: Option<Record>, value: Value, ver: int): Record {
    match r
    case Some(rec) => if rec.ver <= ver then Record(value, ver) else rec
    case None => Record(value, ver)
  }

  predicate RemovableAt(r: Option<Record>, ver: int) {
    r.Some? && r.value.ver <= ver
  }

  function AfterSet(st: Store, key: Key, value: Value, w: Width): Store {
    st[key := SetRecord(Lookup(st, key), value, w)]
  }

  function AfterGet(st: Store, key: Key, w: Width): Store {
    if key in st then st[key := Touched(st[key], w)] else st
  }

  function AfterRemove(st: Store, key: Key): Store {
    st - {key}
  }

  /** The effect of a replicated message. */
  function AfterMessage(st: Store, m: Message): Store {
    match m
    case Updated(key, value, ver) => st[key := MergeRecord(Lookup(st, key), value, ver)]
    case Removed(key, ver) => if RemovableAt(Lookup(st, key), ver) then st - {key} else st
  }

  function SetMessage(st: Store, key: Key, value: Value, w: Width): Message {
    Updated(key, value, SetRecord(Lookup(st, key), value, w).ver)
  }

  function RemoveMessage(st: Store, key: Key, w: Width): Message
    requires key in st
  {
    Removed(key, Bump(st[key].ver, w))
  }

  function ValuesOf(st: Store): map<Key, Value> {
    map k | k in st :: st[k].value
  }
}
