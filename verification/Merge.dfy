/** What a bag of replicated updates does to a store, whatever the order of delivery. */
module Merge {
  import opened Fnv
  import opened Options
  import opened Records

  ghost predicate AllUpdates(ms: seq<Message>) {
    forall m :: m in ms ==> m.Updated?
  }

  /** The messages applied in the order of the sequence. */
  function ApplyAll(st: Store, ms: seq<Message>): Store {
    if ms == [] then st else AfterMessage(ApplyAll(st, ms[..|ms| - 1]), ms[|ms| - 1])
  }

  ghost predicate SameMessages(a: seq<Message>, b: seq<Message>) {
    forall m :: m in a <==> m in b
  }

  /** m carries the highest version for its key, and the store has nothing newer. */
  ghost predicate IsTop(st: Store, ms: seq<Message>, m: Message) {
    && m in ms
    && (m.key in st ==> st[m.key].ver <= m.ver)
    && forall x :: x in ms && x.key == m.key ==> x.ver <= m.ver
  }

  /** r is the record that the per-key maximum selects. */
  ghost predicate IsMerged(st: Store, ms: seq<Message>, key: Key, r: Option<Record>) {
    if exists m :: IsTop(st, ms, m) && m.key == key then
      exists m :: IsTop(st, ms, m) && m.key == key && m.Updated? && r == Some(Record(m.value, m.ver))
    else
      r == Lookup(st, key)
  }

  /** The winning messages of one key carry one value. */
  ghost predicate TopsAgree(st: Store, ms: seq<Message>) {
    forall m, x :: IsTop(st, ms, m) && IsTop(st, ms, x) && m.key == x.key ==> m == x
  }

  lemma SnocMembers(init: seq<Message>, last: Message)
    ensures forall m :: m in init + [last] <==> m in init || m == last
  {
  }

  /** A message for another key changes nothing about this one. */
  lemma MergedDespite(st: Store, init: seq<Message>, last: Message, key: Key, r: Option<Record>)
    requires IsMerged(st, init, key, r) && last.key != key
    ensures IsMerged(st, init + [last], key, r)
  {
    SnocMembers(init, last);
    assert forall m: Message :: m.key == key ==> (IsTop(st, init + [last], m) <==> IsTop(st, init, m));
  }

  lemma MergedNext(st: Store, init: seq<Message>, last: Message, r: Option<Record>)
    requires AllUpdates(init + [last]) && AllUpdates(init) && IsMerged(st, init, last.key, r)
    ensures IsMerged(st, init + [last], last.key, Some(MergeRecord(r, last.value, last.ver)))
  {
    SnocMembers(init, last);
    TopOrStored(st, init, last.key, r);
    if r.Some? && r.value.ver > last.ver {
      assert forall m: Message :: m.key == last.key ==> (IsTop(st, init + [last], m) <==> IsTop(st, init, m));
    } else {
      assert IsTop(st, init + [last], last);
    }
  }

  /** Applying updates in any order leaves, for each key, a record of maximal version. */
  lemma {:induction false} MergePicksTop(st: Store, ms: seq<Message>, key: Key)
    requires AllUpdates(ms)
    ensures IsMerged(st, ms, key, Lookup(ApplyAll(st, ms), key))
  {
    if ms != [] {
      var init, last := ms[..|ms| - 1], ms[|ms| - 1];
      assert ms == init + [last];
      MergePicksTop(st, init, key);
      hide IsMerged;
      if last.key == key {
        MergedNext(st, init, last, Lookup(ApplyAll(st, init), key));
      } else {
        MergedDespite(st, init, last, key, Lookup(ApplyAll(st, init), key));
      }
    }
  }

  /** The merged record is at least as new as the stored one and every message for the key. */
  lemma TopOrStored(st: Store, ms: seq<Message>, key: Key, r: Option<Record>)
    requires AllUpdates(ms) && IsMerged(st, ms, key, r)
    ensures key in st ==> r.Some? && st[key].ver <= r.value.ver
    ensures forall m :: m in ms && m.key == key ==> r.Some? && m.ver <= r.value.ver
  {
    if m :| m in ms && m.key == key {
      var top := Newest(ms, key, m);
      if !(exists x :: IsTop(st, ms, x) && x.key == key) {
        assert !IsTop(st, ms, top);
      }
    }
  }

  lemma {:induction false} Newest(ms: seq<Message>, key: Key, m: Message) returns (top: Message)
    requires m in ms && m.key == key
    ensures top in ms && top.key == key
    ensures forall x :: x in ms && x.key == key ==> x.ver <= top.ver
  {
    top := m;
    for i := 0 to |ms|
      invariant top in ms && top.key == key
      invariant forall j :: 0 <= j < i && ms[j].key == key ==> ms[j].ver <= top.ver
    {
      if ms[i].key == key && top.ver < ms[i].ver {
        top := ms[i];
      }
    }
  }

  lemma SameTops(st: Store, a: seq<Message>, b: seq<Message>)
    requires SameMessages(a, b)
    ensures forall m :: IsTop(st, a, m) <==> IsTop(st, b, m)
  {
  }

  /** Permuting and duplicating the deliveries changes nothing when the winners agree. */
  lemma OrderIndependence(st: Store, a: seq<Message>, b: seq<Message>)
    requires AllUpdates(a) && SameMessages(a, b) && TopsAgree(st, a)
    ensures ApplyAll(st, a) == ApplyAll(st, b)
  {
    SameTops(st, a, b);
    forall key
      ensures Lookup(ApplyAll(st, a), key) == Lookup(ApplyAll(st, b), key)
    {
      MergePicksTop(st, a, key);
      MergePicksTop(st, b, key);
    }
    MapsEqual(ApplyAll(st, a), ApplyAll(st, b));
  }

  lemma MapsEqual(x: Store, y: Store)
    requires forall key :: Lookup(x, key) == Lookup(y, key)
    ensures x == y
  {
    forall key
      ensures key in x <==> key in y
      ensures key in x ==> x[key] == y[key]
    {
      assert Lookup(x, key) == Lookup(y, key);
    }
  }

  lemma SameWithOneMore(a: seq<Message>, m: Message)
    requires m in a
    ensures SameMessages(a, a + [m])
  {
  }

  /** Either of two winning updates can be made to win. */
  lemma TwoTopsTwoOutcomes(st: Store, a: seq<Message>, m: Message, x: Message)
    requires AllUpdates(a) && IsTop(st, a, m) && IsTop(st, a, x) && m.key == x.key && m != x
    ensures ApplyAll(st, a + [m]) != ApplyAll(st, a + [x])
    ensures SameMessages(a, a + [m]) && SameMessages(a, a + [x])
  {
    SameWithOneMore(a, m);
    SameWithOneMore(a, x);
    hide ApplyAll, SameMessages;
    LastTopWins(st, a, m);
    LastTopWins(st, a, x);
    assert m.value == x.value && m.ver == x.ver ==> m == x;
  }

  /** Order matters exactly when two winning updates of one key carry different values. */
  lemma OrderIndependenceIff(st: Store, a: seq<Message>)
    requires AllUpdates(a)
    ensures (forall b :: SameMessages(a, b) ==> ApplyAll(st, b) == ApplyAll(st, a)) <==> TopsAgree(st, a)
  {
    hide ApplyAll, AllUpdates, SameMessages, IsTop;
    if TopsAgree(st, a) {
      forall b | SameMessages(a, b)
        ensures ApplyAll(st, b) == ApplyAll(st, a)
      {
        OrderIndependence(st, a, b);
      }
    } else {
      var m, x :| IsTop(st, a, m) && IsTop(st, a, x) && m.key == x.key && m != x;
      TwoTopsTwoOutcomes(st, a, m, x);
    }
  }

  /** Delivering a winning update once more makes it the stored record. */
  lemma LastTopWins(st: Store, a: seq<Message>, m: Message)
    requires AllUpdates(a) && IsTop(st, a, m)
    ensures Lookup(ApplyAll(st, a + [m]), m.key) == Some(Record(m.value, m.ver))
  {
    MergePicksTop(st, a, m.key);
    assert (a + [m])[..|a|] == a;
  }
}
