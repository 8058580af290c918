/** Saving a node's values to its file, and what a restart from that file gives back. */
module Persistence {
  import opened Fnv
  import opened Options
  import opened Records
  import opened Storages

  type Values = map<Key, Value>

  /** What decoding the file would give; a new, cut off or foreign file decodes to nothing. */
  datatype File = Readable(values: Values) | Unreadable

  datatype Saving = CreateFails | EncodeFails | Saves

  /** Creating the file empties it, so an encoding that then fails has destroyed the earlier save. */
  function AfterSave(f: File, outcome: Saving, values: Values): File {
    match outcome
    case CreateFails => f
    case EncodeFails => Unreadable
    case Saves => Readable(values)
  }

  /** Every saved pair set on top of a store. */
  function Loaded(st: Store, values: Values): Store {
    map k | k in st.Keys + values.Keys ::
      if k in values then SetRecord(Lookup(st, k), values[k], Int64) else st[k]
  }

  function AfterLoad(st: Store, f: File, canOpen: bool): Store {
    if canOpen && f.Readable? then Loaded(st, f.values) else st
  }

  class Persister {
    var file: File
    const storage: Storage

    constructor (file: File, storage: Storage)
      ensures this.file == file && this.storage == storage
    {
      this.file := file;
      this.storage := storage;
    }

    method Load(canOpen: bool)
      requires storage.Valid()
      modifies storage`emitted, storage.data.shards
      ensures storage.Valid() && storage.Contents() == AfterLoad(old(storage.Contents()), file, canOpen)
      ensures !canOpen || file.Unreadable? ==> storage.Contents() == old(storage.Contents())
      ensures canOpen && file.Readable? ==>
                ValuesOf(storage.Contents()) == old(ValuesOf(storage.Contents())) + file.values
      ensures !storage.setHandler ==> storage.emitted == old(storage.emitted)
    {
      if !canOpen || file.Unreadable? {
        return;
      }
      LoadedValues(storage.Contents(), file.values);
      SetEach(file.values);
    }

    /** The pairs in some order. */
    method SetEach(values: Values)
      requires storage.Valid()
      modifies storage`emitted, storage.data.shards
      ensures storage.Valid() && storage.Contents() == Loaded(old(storage.Contents()), values)
      ensures !storage.setHandler ==> storage.emitted == old(storage.emitted)
    {
      hide Loaded;
      ghost var before := storage.Contents();
      ghost var done: Values := map[];
      NothingLoaded(before);
      var left := values.Keys;
      while left != {}
        invariant storage.Valid() && left <= values.Keys && done.Keys == values.Keys - left
        invariant forall k :: k in done ==> done[k] == values[k]
        invariant storage.Contents() == Loaded(before, done)
        invariant !storage.setHandler ==> storage.emitted == old(storage.emitted)
      {
        var k :| k in left;
        SetOne(k, values[k], before, done);
        done := done[k := values[k]];
        left := left - {k};
      }
      assert done == values;
    }

    method SetOne(k: Key, v: Value, ghost before: Store, ghost done: Values)
      requires storage.Valid() && storage.Contents() == Loaded(before, done) && k !in done
      modifies storage`emitted, storage.data.shards
      ensures storage.Valid() && storage.Contents() == Loaded(before, done[k := v])
      ensures !storage.setHandler ==> storage.emitted == old(storage.emitted)
    {
      LoadedSnoc(before, done, k, v);
      hide Loaded, AfterSet, SetMessage;
      storage.Set(k, v);
    }

    method Persists(outcome: Saving)
      requires storage.Valid()
      modifies this`file
      ensures file == AfterSave(old(file), outcome, ValuesOf(storage.Contents()))
    {
      if outcome == CreateFails {
        return;
      }
      file := Unreadable;
      var values := storage.List();
      if outcome == Saves {
        file := Readable(values);
      }
    }
  }

  lemma FreshlyLoaded(file: File, canOpen: bool)
    ensures var st := AfterLoad(map[], file, canOpen);
            && ValuesOf(st) == (if canOpen && file.Readable? then file.values else map[])
            && forall k :: k in st ==> st[k].ver == 1
  {
  }

  /** Starting a node: the file is loaded before the handlers that would announce its values exist. */
  method StartNode(file: File, canOpen: bool) returns (s: Storage, p: Persister)
    ensures fresh(s) && fresh(p) && p.storage == s && p.file == file
    ensures s.Valid() && s.Contents() == AfterLoad(map[], file, canOpen)
    ensures ValuesOf(s.Contents()) == if canOpen && file.Readable? then file.values else map[]
    ensures forall k :: k in s.Contents() ==> s.Contents()[k].ver == 1
    ensures s.setHandler && s.removeHandler && s.emitted == []
  {
    hide AfterLoad, ValuesOf;
    FreshlyLoaded(file, canOpen);
    s := new Storage();
    p := new Persister(file, s);
    assert forall i :: 0 <= i < |s.data.shards| ==> s.data.shards[i] in s.data.shards;
    p.Load(canOpen);
    s.AddRemoveHandler();
    s.AddSetHandler();
  }

  // ----- the order in which the saved map is enumerated -----

  lemma LoadedValues(st: Store, values: Values)
    ensures ValuesOf(Loaded(st, values)) == ValuesOf(st) + values
  {
  }

  lemma NothingLoaded(st: Store)
    ensures Loaded(st, map[]) == st
  {
  }

  lemma LoadedSnoc(st: Store, done: Values, k: Key, v: Value)
    requires k !in done
    ensures AfterSet(Loaded(st, done), k, v, Int64) == Loaded(st, done[k := v])
  {
    assert Lookup(Loaded(st, done), k) == Lookup(st, k);
  }

  function SetAll(st: Store, order: seq<Key>, values: Values): Store
    requires forall k :: k in order ==> k in values
    decreases |order|
  {
    if order == [] then st
    else SetAll(AfterSet(st, order[0], values[order[0]], Int64), order[1..], values)
  }

  ghost predicate Enumerates(order: seq<Key>, keys: set<Key>) {
    && (forall k :: k in order <==> k in keys)
    && (forall i, j :: 0 <= i < j < |order| ==> order[i] != order[j])
  }

  /** The saved pairs that an enumeration visits. */
  function Visited(order: seq<Key>, values: Values): Values
    requires forall k :: k in order ==> k in values
  {
    map k | k in order :: values[k]
  }

  lemma NothingVisited(done: Values, values: Values)
    ensures done + Visited([], values) == done
  {
  }

  lemma VisitedHead(order: seq<Key>, done: Values, values: Values)
    requires order != [] && order[0] !in order[1..]
    requires forall k :: k in order ==> k in values && k !in done
    ensures done + Visited(order, values) == done[order[0] := values[order[0]]] + Visited(order[1..], values)
  {
    assert order == [order[0]] + order[1..];
  }

  lemma {:induction false} SetAllFrom(st: Store, order: seq<Key>, done: Values, values: Values)
    requires forall k :: k in order ==> k in values && k !in done
    requires forall i, j :: 0 <= i < j < |order| ==> order[i] != order[j]
    ensures SetAll(Loaded(st, done), order, values) == Loaded(st, done + Visited(order, values))
    decreases |order|
  {
    hide Loaded, AfterSet, Visited;
    if order == [] {
      NothingVisited(done, values);
    } else {
      var k := order[0];
      LoadedSnoc(st, done, k, values[k]);
      SetAllFrom(st, order[1..], done[k := values[k]], values);
      VisitedHead(order, done, values);
    }
  }

  /** Whatever order the saved pairs come in, loading gives the same store. */
  lemma LoadOrderIrrelevant(st: Store, order: seq<Key>, values: Values)
    requires Enumerates(order, values.Keys)
    ensures SetAll(st, order, values) == Loaded(st, values)
  {
    var none: Values := map[];
    NothingLoaded(st);
    SetAllFrom(st, order, none, values);
    assert none + Visited(order, values) == values;
  }

  // ----- save, then restart -----

  /** A restart gives back every value, and forgets every clock. */
  lemma RestartKeepsValues(st: Store, f: File)
    ensures var st' := AfterLoad(map[], AfterSave(f, Saves, ValuesOf(st)), true);
            ValuesOf(st') == ValuesOf(st) && forall k :: k in st' ==> st'[k].ver == 1
  {
  }

  /** The store itself comes back exactly when no record had been written or read since it was created. */
  lemma RestartKeepsStoreIff(st: Store, f: File)
    ensures AfterLoad(map[], AfterSave(f, Saves, ValuesOf(st)), true) == st <==>
            forall k :: k in st ==> st[k].ver == 1
  {
  }

  datatype Attempt = Attempt(outcome: Saving, values: Values)

  function AfterSaves(f: File, attempts: seq<Attempt>): File
    decreases |attempts|
  {
    if attempts == [] then f
    else AfterSaves(AfterSave(f, attempts[0].outcome, attempts[0].values), attempts[1..])
  }

  /** Attempt i is the last one that got as far as touching the file. */
  ghost predicate LastTouch(attempts: seq<Attempt>, i: nat) {
    && i < |attempts| && attempts[i].outcome != CreateFails
    && forall j :: i < j < |attempts| ==> attempts[j].outcome == CreateFails
  }

  lemma {:induction false} UntouchedFile(f: File, attempts: seq<Attempt>)
    requires forall j :: 0 <= j < |attempts| ==> attempts[j].outcome == CreateFails
    decreases |attempts|
    ensures AfterSaves(f, attempts) == f
  {
    if attempts != [] {
      UntouchedFile(f, attempts[1..]);
    }
  }

  /** The file is what the last attempt that created it made of it; an older good save never shows through. */
  lemma {:induction false} FileIsLastTouch(f: File, attempts: seq<Attempt>, i: nat)
    requires LastTouch(attempts, i)
    decreases i
    ensures AfterSaves(f, attempts) ==
            if attempts[i].outcome == Saves then Readable(attempts[i].values) else Unreadable
  {
    var f' := AfterSave(f, attempts[0].outcome, attempts[0].values);
    if i == 0 {
      UntouchedFile(f', attempts[1..]);
    } else {
      FileIsLastTouch(f', attempts[1..], i - 1);
    }
  }

  /** A restart after any history of saves gives back a wanted map exactly when the file's last touch wrote it. */
  lemma RestartRecoversIff(f: File, attempts: seq<Attempt>, i: nat, wanted: Values)
    requires LastTouch(attempts, i) && wanted != map[]
    ensures ValuesOf(AfterLoad(map[], AfterSaves(f, attempts), true)) == wanted <==>
            attempts[i].outcome == Saves && attempts[i].values == wanted
  {
    FileIsLastTouch(f, attempts, i);
    if attempts[i].outcome == Saves {
      var st' := AfterLoad(map[], AfterSaves(f, attempts), true);
      assert ValuesOf(st') == attempts[i].values;
    }
  }

  // ----- a restarted node among peers that kept their clocks -----

  /** n Sets of one key, the last of them with the given value. */
  function SetTimes(st: Store, key: Key, value: Value, n: nat): Store {
    if n == 0 then st else AfterSet(SetTimes(st, key, value, n - 1), key, value, Int64)
  }

  lemma {:induction false} ClockAfterSets(st: Store, key: Key, value: Value, n: nat)
    requires key in st && st[key].ver + n <= INT64_MAX
    ensures var st' := SetTimes(st, key, value, n);
            key in st' && st'[key].ver == st[key].ver + n && (n > 0 ==> st'[key].value == value)
  {
    if n > 0 {
      ClockAfterSets(st, key, value, n - 1);
    }
  }

  /** A peer with another value takes the restarted node's n-th Set exactly when n + 1 reaches its own version. */
  lemma RestartedNodeIsHeardIff(st: Store, f: File, peer: Store, key: Key, value: Value, n: nat)
    requires key in st && key in peer && peer[key].value != value && 1 <= n < INT64_MAX
    ensures var restarted := AfterLoad(map[], AfterSave(f, Saves, ValuesOf(st)), true);
            var said := SetMessage(SetTimes(restarted, key, value, n - 1), key, value, Int64);
            AfterMessage(peer, said)[key].value == value <==> peer[key].ver <= n + 1
  {
    var restarted := AfterLoad(map[], AfterSave(f, Saves, ValuesOf(st)), true);
    ClockAfterSets(restarted, key, value, n - 1);
  }
}
