/** One revoking key/value store of the node, and the two operations the
    snapshot feature performs on it: dumping it into memory and restoring it
    from a dump by a single diffing pass. */
module StateStore {
  import opened Common

  type Image = map<Bytes, Bytes>

  /** One entry as the raw database cursor yields it; either part may be null. */
  datatype RawEntry = RawEntry(key: Option<Bytes>, value: Option<Bytes>) {
    predicate Live() {
      key.Some? && value.Some?
    }
    predicate Tombstone() {
      key.Some? && value.None?
    }
  }

  /** What a cursor opened on `m` yields, in whatever order: every pair of `m`
      exactly once, and besides possibly null keys and value-less entries for
      keys that `m` does not hold. It goes on yielding what it was opened on, whatever
      is written to the store meanwhile. */
  ghost predicate Lists(cursor: seq<RawEntry>, m: Image) {
    && (forall i, j :: 0 <= i < j < |cursor| && cursor[i].key.Some? ==> cursor[i].key != cursor[j].key)
    && (forall i :: 0 <= i < |cursor| && cursor[i].Live() ==>
          cursor[i].key.value in m && m[cursor[i].key.value] == cursor[i].value.value)
    && (forall i :: 0 <= i < |cursor| && cursor[i].Tombstone() ==> cursor[i].key.value !in m)
    && (forall k :: k in m ==> RawEntry(Some(k), Some(m[k])) in cursor)
  }

  /** `k` is held by exactly one of the images, or with different values. */
  predicate Differs(k: Bytes, a: Image, b: Image) {
    (k in a) != (k in b) || (k in a && a[k] != b[k])
  }

  class RevokingStore {
    var contents: Image
    /** How often each key has been written or deleted. */
    ghost var touched: multiset<Bytes>

    constructor (initial: Image)
      ensures contents == initial && touched == multiset{}
    {
      contents := initial;
      touched := multiset{};
    }

    method Put(k: Bytes, v: Bytes)
      modifies this
      ensures contents == old(contents)[k := v]
      ensures touched == old(touched) + multiset{k}
    {
      contents := contents[k := v];
      touched := touched + multiset{k};
    }

    method Delete(k: Bytes)
      modifies this
      ensures contents == old(contents) - {k}
      ensures touched == old(touched) + multiset{k}
    {
      contents := contents - {k};
      touched := touched + multiset{k};
    }
  }

  /** The dump is the store's contents, whatever the cursor's order and noise. */
  method DumpStore(store: RevokingStore, cursor: seq<RawEntry>) returns (out: Image)
    requires Lists(cursor, store.contents)
    ensures out == store.contents
  {
    out := map[];
    for i := 0 to |cursor|
      invariant forall k :: k in out ==> k in store.contents && out[k] == store.contents[k]
      invariant forall j :: 0 <= j < i && cursor[j].Live() ==> cursor[j].key.value in out
    {
      var e := cursor[i];
      if e.key.Some? && e.value.Some? {
        out := out[e.key.value := e.value.value];
      }
    }
    forall k | k in store.contents
      ensures k in out
    {
      assert RawEntry(Some(k), Some(store.contents[k])) in cursor;
    }
  }

  /** The keys among the first `n` entries of a cursor. */
  ghost function Seen(cursor: seq<RawEntry>, n: nat): set<Bytes>
    requires n <= |cursor|
  {
    if n == 0 then {}
    else if cursor[n - 1].key.None? then Seen(cursor, n - 1)
    else Seen(cursor, n - 1) + {cursor[n - 1].key.value}
  }

  lemma {:induction false} SeenMeans(k: Bytes, cursor: seq<RawEntry>, n: nat)
    requires n <= |cursor|
    ensures k in Seen(cursor, n) <==> exists j :: 0 <= j < n && cursor[j].key == Some(k)
  {
    if n > 0 {
      SeenMeans(k, cursor, n - 1);
    }
  }

  /** An entry with a key brings a new key, and says what the store holds for it. */
  lemma EntryTells(cursor: seq<RawEntry>, m: Image, i: nat)
    requires Lists(cursor, m) && i < |cursor| && cursor[i].key.Some?
    ensures cursor[i].key.value !in Seen(cursor, i)
    ensures cursor[i].value == if cursor[i].key.value in m then Some(m[cursor[i].key.value]) else None
  {
    SeenMeans(cursor[i].key.value, cursor, i);
  }

  /** A key shows up under the cursor exactly when the store holds it or a
      value-less entry names it. */
  lemma SeenIff(k: Bytes, cursor: seq<RawEntry>, m: Image)
    requires Lists(cursor, m)
    ensures k in Seen(cursor, |cursor|) <==> k in m || RawEntry(Some(k), None) in cursor
  {
    if k in m {
      assert RawEntry(Some(k), Some(m[k])) in cursor;
    }
    SeenMeans(k, cursor, |cursor|);
    if k in Seen(cursor, |cursor|) && k !in m {
      var j :| 0 <= j < |cursor| && cursor[j].key == Some(k);
      assert cursor[j] == RawEntry(Some(k), None);
    }
  }

  /** What the pass has done after `n` entries: the keys collected for deletion,
      the keys overwritten, and the contents left. */
  ghost function Added(cursor: seq<RawEntry>, n: nat, snapshot: Image): multiset<Bytes>
    requires n <= |cursor|
  {
    if n == 0 then multiset{}
    else
      var e := cursor[n - 1];
      if e.key.Some? && e.key.value !in snapshot then Added(cursor, n - 1, snapshot) + multiset{e.key.value}
      else Added(cursor, n - 1, snapshot)
  }

  ghost predicate Overwrites(e: RawEntry, snapshot: Image) {
    e.key.Some? && e.key.value in snapshot && e.value != Some(snapshot[e.key.value])
  }

  ghost function Modified(cursor: seq<RawEntry>, n: nat, snapshot: Image): multiset<Bytes>
    requires n <= |cursor|
  {
    if n == 0 then multiset{}
    else
      var e := cursor[n - 1];
      if Overwrites(e, snapshot) then Modified(cursor, n - 1, snapshot) + multiset{e.key.value}
      else Modified(cursor, n - 1, snapshot)
  }

  ghost function Overwritten(cursor: seq<RawEntry>, n: nat, m: Image, snapshot: Image): Image
    requires n <= |cursor|
  {
    if n == 0 then m
    else
      var e := cursor[n - 1];
      var before := Overwritten(cursor, n - 1, m, snapshot);
      if Overwrites(e, snapshot) then before[e.key.value := snapshot[e.key.value]] else before
  }

  /** The same three, key by key, for a cursor on `m`. */
  lemma {:induction false} AddedMeans(cursor: seq<RawEntry>, m: Image, n: nat, snapshot: Image, k: Bytes)
    requires Lists(cursor, m) && n <= |cursor|
    ensures Added(cursor, n, snapshot)[k] == if k in Seen(cursor, n) && k !in snapshot then 1 else 0
  {
    if n > 0 {
      AddedMeans(cursor, m, n - 1, snapshot, k);
      if cursor[n - 1].key.Some? {
        EntryTells(cursor, m, n - 1);
      }
    }
  }

  lemma {:induction false} ModifiedMeans(cursor: seq<RawEntry>, m: Image, n: nat, snapshot: Image, k: Bytes)
    requires Lists(cursor, m) && n <= |cursor|
    ensures Modified(cursor, n, snapshot)[k] ==
            if k in Seen(cursor, n) && k in snapshot && Differs(k, m, snapshot) then 1 else 0
  {
    if n > 0 {
      ModifiedMeans(cursor, m, n - 1, snapshot, k);
      if cursor[n - 1].key.Some? {
        EntryTells(cursor, m, n - 1);
      }
    }
  }

  lemma {:induction false} OverwrittenMeans(cursor: seq<RawEntry>, m: Image, n: nat, snapshot: Image, k: Bytes)
    requires Lists(cursor, m) && n <= |cursor|
    ensures var out := Overwritten(cursor, n, m, snapshot);
            if k in Seen(cursor, n) && k in snapshot then k in out && out[k] == snapshot[k]
            else (k in out <==> k in m) && (k in m ==> out[k] == m[k])
  {
    if n > 0 {
      OverwrittenMeans(cursor, m, n - 1, snapshot, k);
      if cursor[n - 1].key.Some? {
        EntryTells(cursor, m, n - 1);
      }
    }
  }

  /** Restoring by diff is replacing the store by the snapshot, writing each
      differing key once and no other key, except that a value-less cursor entry
      whose key the snapshot lacks is deleted (to no effect). */
  method RestoreStore(db: RevokingStore, cursor: seq<RawEntry>, snapshot: Image)
    requires Lists(cursor, db.contents)
    modifies db
    ensures db.contents == snapshot
    ensures forall k :: db.touched[k] == old(db.touched)[k] +
                        (if Differs(k, old(db.contents), snapshot) ||
                            (k !in snapshot && RawEntry(Some(k), None) in cursor) then 1 else 0)
  {
    ghost var was := db.contents;
    var toDelete, matched := ClassifyCurrent(db, cursor, snapshot);
    var n := |cursor|;
    forall k
      ensures k in Seen(cursor, n) <==> k in was || RawEntry(Some(k), None) in cursor
      ensures Added(cursor, n, snapshot)[k] == if k in Seen(cursor, n) && k !in snapshot then 1 else 0
      ensures Modified(cursor, n, snapshot)[k] ==
              if k in Seen(cursor, n) && k in snapshot && Differs(k, was, snapshot) then 1 else 0
    {
      SeenIff(k, cursor, was);
      AddedMeans(cursor, was, n, snapshot, k);
      ModifiedMeans(cursor, was, n, snapshot, k);
    }
    forall k
      ensures k in db.contents <==> k in was || k in matched
      ensures k in matched ==> db.contents[k] == snapshot[k]
    {
      SeenIff(k, cursor, was);
      OverwrittenMeans(cursor, was, n, snapshot, k);
    }
    DeleteAll(db, toDelete);
    WriteBack(db, snapshot, matched);
  }

  /** The pass over the current store: overwrites changed keys, collects the
      added ones for deletion and the shared ones as matched. */
  method ClassifyCurrent(db: RevokingStore, cursor: seq<RawEntry>, snapshot: Image)
    returns (toDelete: seq<Bytes>, matched: set<Bytes>)
    modifies db
    ensures matched == Seen(cursor, |cursor|) * snapshot.Keys
    ensures multiset(toDelete) == Added(cursor, |cursor|, snapshot)
    ensures db.contents == Overwritten(cursor, |cursor|, old(db.contents), snapshot)
    ensures db.touched == old(db.touched) + Modified(cursor, |cursor|, snapshot)
  {
    toDelete, matched := [], {};
    for i := 0 to |cursor|
      invariant matched == Seen(cursor, i) * snapshot.Keys
      invariant multiset(toDelete) == Added(cursor, i, snapshot)
      invariant db.contents == Overwritten(cursor, i, old(db.contents), snapshot)
      invariant db.touched == old(db.touched) + Modified(cursor, i, snapshot)
    {
      var e := cursor[i];
      if e.key.Some? {
        var k := e.key.value;
        if k !in snapshot {
          toDelete := toDelete + [k];
        } else {
          matched := matched + {k};
          if e.value != Some(snapshot[k]) {
            db.Put(k, snapshot[k]);
          }
        }
      }
    }
  }

  /** Writes back the snapshot keys that the pass did not meet. */
  method WriteBack(db: RevokingStore, snapshot: Image, matched: set<Bytes>)
    requires forall k :: k in db.contents <==> k in matched
    requires forall k :: k in db.contents ==> k in snapshot && db.contents[k] == snapshot[k]
    modifies db
    ensures db.contents == snapshot
    ensures forall k :: db.touched[k] == old(db.touched)[k] + (if k in snapshot && k !in matched then 1 else 0)
  {
    var rest := snapshot.Keys;
    while rest != {}
      invariant rest <= snapshot.Keys
      invariant forall k :: k in db.contents <==> k in matched || k in snapshot.Keys - rest
      invariant forall k :: k in db.contents ==> db.contents[k] == snapshot[k]
      invariant forall k :: db.touched[k] == old(db.touched)[k] +
                            (if k in snapshot.Keys - rest && k !in matched then 1 else 0)
      decreases rest
    {
      var k :| k in rest;
      rest := rest - {k};
      if k !in matched {
        db.Put(k, snapshot[k]);
      }
    }
  }

  method DeleteAll(db: RevokingStore, keys: seq<Bytes>)
    modifies db
    ensures db.contents == old(db.contents) - (set k | k in keys)
    ensures db.touched == old(db.touched) + multiset(keys)
  {
    for i := 0 to |keys|
      invariant db.contents == old(db.contents) - (set k | k in keys[..i])
      invariant db.touched == old(db.touched) + multiset(keys[..i])
    {
      assert keys[..i + 1] == keys[..i] + [keys[i]];
      db.Delete(keys[i]);
    }
    assert keys[..|keys|] == keys;
  }
}
