/** `debug_storageRangeAt`: an address's storage rows in pages, each naming the key
    the next one starts from. */
module StoragePaging {
  import opened Common

  datatype Row = Row(key: Bytes, value: Bytes)

  /** `nextKey` is empty on the last page, and an empty start key means the start. */
  datatype Page = Page(rows: seq<Row>, nextKey: Bytes)

  datatype PageError = LimitNotPositive

  /** Unsigned lexicographic order. */
  predicate Less(a: Bytes, b: Bytes) {
    if b == [] then false
    else if a == [] then true
    else a[0] < b[0] || (a[0] == b[0] && Less(a[1..], b[1..]))
  }

  lemma {:induction false} LessTotal(a: Bytes, b: Bytes)
    ensures Less(a, b) || a == b || Less(b, a)
    ensures !(Less(a, b) && Less(b, a)) && !Less(a, a)
  {
    if a != [] && b != [] {
      LessTotal(a[1..], b[1..]);
      assert a == [a[0]] + a[1..] && b == [b[0]] + b[1..];
    }
    if a != [] {
      LessTotal(a[1..], a[1..]);
    }
  }

  /** The first byte that differs decides, and a proper prefix comes first. */
  lemma {:induction false} LessMeans(a: Bytes, b: Bytes)
    ensures Less(a, b) <==> exists k :: 0 <= k <= |a| && Differ(a, b, k)
  {
    if a != [] && b != [] {
      LessMeans(a[1..], b[1..]);
      if k :| 0 <= k <= |a[1..]| && Differ(a[1..], b[1..], k) {
        if a[0] == b[0] {
          assert Differ(a, b, k + 1);
        }
      }
      if k :| 0 <= k <= |a| && Differ(a, b, k) {
        if k > 0 {
          assert a[..k][0] == b[..k][0] && a[1..][..k - 1] == a[..k][1..] && b[1..][..k - 1] == b[..k][1..];
          assert Differ(a[1..], b[1..], k - 1);
        }
      }
      if a[0] < b[0] {
        assert Differ(a, b, 0);
      }
    } else if b != [] {
      assert Differ(a, b, 0);
    }
  }

  /** Alike up to `k`, and there `a` has ended or has the lower byte. */
  predicate Differ(a: Bytes, b: Bytes, k: nat) {
    k <= |a| && k < |b| && a[..k] == b[..k] && (k == |a| || a[k] < b[k])
  }

  lemma {:induction false} LessTransitive(a: Bytes, b: Bytes, c: Bytes)
    requires Less(a, b) && Less(b, c)
    ensures Less(a, c)
  {
    if a != [] && b != [] && c != [] && a[0] == b[0] && b[0] == c[0] {
      LessTransitive(a[1..], b[1..], c[1..]);
    }
  }

  ghost predicate Sorted(rows: seq<Row>) {
    forall i, j :: 0 <= i < j < |rows| ==> Less(rows[i].key, rows[j].key)
  }

  // ---- The sorted map the rows are collected into ----

  /** Where a key belongs: the first entry not below it. */
  function Position(rows: seq<Row>, key: Bytes): (i: nat)
    ensures i <= |rows|
    ensures forall j :: 0 <= j < i ==> Less(rows[j].key, key)
    ensures i < |rows| ==> !Less(rows[i].key, key)
  {
    if rows == [] || !Less(rows[0].key, key) then 0 else 1 + Position(rows[1..], key)
  }

  /** `TreeMap.put`. */
  function Put(rows: seq<Row>, row: Row): seq<Row> {
    var i := Position(rows, row.key);
    if i < |rows| && rows[i].key == row.key then rows[i := row] else rows[..i] + [row] + rows[i..]
  }

  lemma PutKeepsSorted(rows: seq<Row>, row: Row)
    requires Sorted(rows)
    ensures Sorted(Put(rows, row))
  {
    var i := Position(rows, row.key);
    forall j | i <= j < |rows| && rows[j].key != row.key
      ensures Less(row.key, rows[j].key)
    {
      LessTotal(rows[i].key, row.key);
      LessTotal(rows[j].key, row.key);
      if i < j && rows[i].key != row.key {
        LessTransitive(row.key, rows[i].key, rows[j].key);
      }
    }
  }

  lemma PutMembers(rows: seq<Row>, row: Row)
    requires forall r :: r in rows ==> r.key != row.key
    ensures forall r :: r in Put(rows, row) <==> r in rows || r == row
  {
    var i := Position(rows, row.key);
    if i < |rows| {
      assert rows[i] in rows;
    }
    assert rows == rows[..i] + rows[i..];
  }

  /** Collected from a query with distinct keys, the map lists exactly its rows. */
  lemma {:induction false} CollectMeans(query: seq<Row>)
    requires DistinctKeys(query)
    ensures Sorted(Collect(query))
    ensures forall row :: row in Collect(query) <==> row in query
  {
    if query != [] {
      var n := |query| - 1;
      CollectMeans(query[..n]);
      PutKeepsSorted(Collect(query[..n]), query[n]);
      PutMembers(Collect(query[..n]), query[n]);
      assert query == query[..n] + [query[n]];
    }
  }

  ghost predicate DistinctKeys(query: seq<Row>) {
    forall i, j :: 0 <= i < j < |query| ==> query[i].key != query[j].key
  }

  function Collect(query: seq<Row>): seq<Row> {
    if query == [] then [] else Put(Collect(query[..|query| - 1]), query[|query| - 1])
  }

  // ---- One page ----

  /** The sorted rows from `start` on. */
  function From(rows: seq<Row>, start: Bytes): seq<Row> {
    rows[StartIndex(rows, start)..]
  }

  function StartIndex(rows: seq<Row>, start: Bytes): (i: nat)
    ensures i <= |rows|
  {
    if start == [] then 0 else Position(rows, start)
  }

  function PageOf(rows: seq<Row>, limit: nat): Page {
    if |rows| <= limit then Page(rows, []) else Page(rows[..limit], rows[limit].key)
  }

  /** A page's rows are the first ones, `limit` if there are as many, of those whose key
      is not below the start. */
  lemma PageMeans(rows: seq<Row>, start: Bytes, limit: nat)
    requires Sorted(rows)
    ensures forall row :: row in From(rows, start) <==> row in rows && (start == [] || !Less(row.key, start))
    ensures Sorted(From(rows, start))
    ensures var page := PageOf(From(rows, start), limit);
            && |page.rows| == (if |From(rows, start)| < limit then |From(rows, start)| else limit)
            && page.rows <= From(rows, start)
            && (|page.rows| < |From(rows, start)| ==> page.nextKey == From(rows, start)[limit].key)
            && (|page.rows| == |From(rows, start)| ==> page.nextKey == [])
  {
    var at := StartIndex(rows, start);
    forall i | 0 <= i < |rows|
      ensures start != [] && Less(rows[i].key, start) <==> i < at
    {
      BelowStart(rows, start, i);
    }
    forall row | row in rows && (start == [] || !Less(row.key, start))
      ensures row in From(rows, start)
    {
      var i :| 0 <= i < |rows| && rows[i] == row;
      assert rows[at..][i - at] == row;
    }
  }

  /** One call over the rows a prefix query returned: the first `limit` rows from the
      start key on, and the key of the next one if there is any. */
  method StorageRangeAt(query: seq<Row>, start: Bytes, limit: int) returns (r: Result<Page, PageError>)
    requires DistinctKeys(query)
    ensures r.Err? <==> limit <= 0
    ensures limit > 0 ==> r == Ok(PageOf(From(Collect(query), start), limit))
  {
    if limit <= 0 {
      return Err(LimitNotPositive);
    }
    var sorted: seq<Row> := [];
    for i := 0 to |query|
      invariant sorted == Collect(query[..i])
    {
      assert query[..i + 1][..i] == query[..i];
      sorted := Put(sorted, query[i]);
    }
    assert query[..|query|] == query;
    CollectMeans(query);
    var page := FirstFrom(sorted, start, limit);
    r := Ok(page);
  }

  /** The loop over the sorted map. */
  method FirstFrom(sorted: seq<Row>, start: Bytes, limit: nat) returns (page: Page)
    requires Sorted(sorted)
    ensures page == PageOf(From(sorted, start), limit)
  {
    ghost var at := StartIndex(sorted, start);
    var rows: seq<Row>, count := [], 0;
    for i := 0 to |sorted|
      invariant count == |rows| <= limit
      invariant rows == if i <= at then [] else sorted[at..i]
    {
      var key := sorted[i].key;
      BelowStart(sorted, start, i);
      if start != [] {
        if Less(key, start) {
          continue;
        }
      }
      if count >= limit {
        PageEnds(sorted, at, i, limit);
        return Page(rows, key);
      }
      rows := rows + [sorted[i]];
      count := count + 1;
    }
    page := Page(rows, []);
  }

  /** The rows skipped are exactly those before the start. */
  lemma BelowStart(rows: seq<Row>, start: Bytes, i: nat)
    requires Sorted(rows) && i < |rows|
    ensures start != [] && Less(rows[i].key, start) <==> i < StartIndex(rows, start)
  {
    var at := Position(rows, start);
    if start != [] && at < i && Less(rows[i].key, start) {
      LessTransitive(rows[at].key, rows[i].key, start);
    }
  }

  lemma PageEnds(rows: seq<Row>, at: nat, i: nat, limit: nat)
    requires at <= i < |rows| && i - at == limit
    ensures PageOf(rows[at..], limit) == Page(rows[at..i], rows[i].key)
  {
    assert rows[at..][..limit] == rows[at..i];
  }

  // ---- Following the pages ----

  ghost predicate Listing(rows: seq<Row>) {
    Sorted(rows) && forall i :: 0 <= i < |rows| ==> rows[i].key != []
  }

  /** The next key leads to exactly the rows this page left out. */
  lemma NextPageContinues(rows: seq<Row>, start: Bytes, limit: nat)
    requires Listing(rows) && |From(rows, start)| > limit
    ensures From(rows, PageOf(From(rows, start), limit).nextKey) == From(rows, start)[limit..]
  {
    var here := From(rows, start);
    var at := |rows| - |here| + limit;
    assert here[limit] == rows[at];
    LessTotal(rows[at].key, rows[at].key);
  }

  /** All rows a client gets by asking from `start` and following the next keys until
      there is none. */
  ghost function Pages(rows: seq<Row>, start: Bytes, limit: nat): seq<Row>
    requires Listing(rows) && limit >= 1
    decreases |From(rows, start)|
  {
    var here := From(rows, start);
    var page := PageOf(here, limit);
    if page.nextKey == [] || |here| <= limit then page.rows
    else
      NextPageContinues(rows, start, limit);
      page.rows + Pages(rows, page.nextKey, limit)
  }

  /** The client stops exactly on the last page, since no key is empty. */
  lemma NextKeyMeansMore(rows: seq<Row>, start: Bytes, limit: nat)
    requires Listing(rows)
    ensures PageOf(From(rows, start), limit).nextKey != [] <==> |From(rows, start)| > limit
  {
    var here := From(rows, start);
    if |here| > limit {
      assert here[limit] == rows[|rows| - |here| + limit];
    }
  }

  lemma {:induction false} PagesFrom(rows: seq<Row>, start: Bytes, limit: nat)
    requires Listing(rows) && limit >= 1
    ensures Pages(rows, start, limit) == From(rows, start)
    decreases |From(rows, start)|
  {
    var here := From(rows, start);
    NextKeyMeansMore(rows, start, limit);
    if |here| > limit {
      NextPageContinues(rows, start, limit);
      PagesFrom(rows, PageOf(here, limit).nextKey, limit);
      assert here == here[..limit] + here[limit..];
    }
  }

  /** For any page size, following the pages from an empty start gives every row of
      the address once, in unsigned lexicographic order of keys. Keys are never
      empty: they begin with the address's 16-byte prefix. */
  lemma PagingIsComplete(query: seq<Row>, limit: nat)
    requires DistinctKeys(query) && limit >= 1
    requires forall i :: 0 <= i < |query| ==> |query[i].key| >= 16
    ensures Listing(Collect(query))
    ensures var all := Pages(Collect(query), [], limit);
            Sorted(all) && (forall row :: row in all <==> row in query) && |all| == |query|
  {
    CollectMeans(query);
    CollectCounts(query);
    var rows := Collect(query);
    forall i | 0 <= i < |rows|
      ensures rows[i].key != []
    {
      assert rows[i] in query;
    }
    PagesFrom(rows, [], limit);
  }

  lemma {:induction false} CollectCounts(query: seq<Row>)
    requires DistinctKeys(query)
    ensures |Collect(query)| == |query|
  {
    if query != [] {
      var n := |query| - 1;
      CollectCounts(query[..n]);
      CollectMeans(query[..n]);
      var before := Collect(query[..n]);
      var i := Position(before, query[n].key);
      assert i < |before| ==> before[i] in query[..n];
    }
  }
}
