/** The node's snapshot table: `tre_snapshot`, `tre_revert`, `tre_dropSnapshot`
    over the four stores that the code captures and restores. */
module SnapshotSpec {
  import opened StateStore

  datatype Stores = Stores(accounts: Image, codes: Image, contracts: Image, storageRows: Image)

  /** A snapshot under its number; the node hands the number out in hexadecimal
      (see `SnapshotIds`). */
  datatype Snapshot = Snapshot(id: nat, image: Stores)

  /** The table is in insertion order. */
  datatype NodeState = NodeState(stores: Stores, snapshots: seq<Snapshot>, counter: nat)

  ghost predicate Ascending(snaps: seq<Snapshot>) {
    forall i, j :: 0 <= i < j < |snaps| ==> snaps[i].id < snaps[j].id
  }

  /** Ids are handed out by a counter that only grows, so the insertion order of
      the table is the order of its ids and no id is past the counter. */
  ghost predicate TableInv(n: NodeState) {
    Ascending(n.snapshots) && forall i :: 0 <= i < |n.snapshots| ==> 0 < n.snapshots[i].id <= n.counter
  }

  predicate Live(n: NodeState, id: nat) {
    IndexOf(n.snapshots, id) < |n.snapshots|
  }

  function ImageOf(n: NodeState, id: nat): Stores
    requires Live(n, id)
  {
    n.snapshots[IndexOf(n.snapshots, id)].image
  }

  /** The node can still revert to `id`, and that restores `image`. */
  predicate Holds(n: NodeState, id: nat, image: Stores) {
    Live(n, id) && ImageOf(n, id) == image
  }

  /** Position of the entry for `id`, or the length. */
  function IndexOf(snaps: seq<Snapshot>, id: nat): (i: nat)
    ensures i <= |snaps|
    ensures i < |snaps| ==> snaps[i].id == id
    ensures forall j :: 0 <= j < i ==> snaps[j].id != id
  {
    if snaps == [] || snaps[0].id == id then 0 else 1 + IndexOf(snaps[1..], id)
  }

  lemma Found(snaps: seq<Snapshot>, i: nat)
    requires Ascending(snaps) && i < |snaps|
    ensures IndexOf(snaps, snaps[i].id) == i
  {
  }

  function Taken(n: NodeState): NodeState {
    n.(counter := n.counter + 1, snapshots := n.snapshots + [Snapshot(n.counter + 1, n.stores)])
  }

  /** Reverting keeps what precedes the target in insertion order. */
  function Reverted(n: NodeState, id: nat): NodeState
    requires Live(n, id)
  {
    n.(stores := ImageOf(n, id), snapshots := n.snapshots[..IndexOf(n.snapshots, id)])
  }

  function Dropped(n: NodeState, id: nat): NodeState {
    var i := IndexOf(n.snapshots, id);
    if i < |n.snapshots| then n.(snapshots := n.snapshots[..i] + n.snapshots[i + 1..]) else n
  }

  /** Under `TableInv`, what a revert leaves live is exactly what was taken
      strictly before the target, images included. */
  lemma RevertKeepsOlder(n: NodeState, id: nat, other: nat)
    requires TableInv(n) && Live(n, id)
    ensures TableInv(Reverted(n, id))
    ensures Reverted(n, id).stores == ImageOf(n, id) && Reverted(n, id).counter == n.counter
    ensures Live(Reverted(n, id), other) <==> Live(n, other) && other < id
    ensures Live(n, other) && other < id ==> Holds(Reverted(n, id), other, ImageOf(n, other))
  {
    var at := IndexOf(n.snapshots, id);
    var i := IndexOf(n.snapshots, other);
    var after := Reverted(n, id);
    if i < at {
      assert after.snapshots[i] == n.snapshots[i];
      Found(after.snapshots, i);
    }
    var j := IndexOf(after.snapshots, other);
    if j < at {
      assert after.snapshots[j] == n.snapshots[j];
      Found(n.snapshots, j);
    }
  }

  /** Taking a snapshot never disturbs an older one, and the new id was never
      live before. */
  lemma TakeKeepsAll(n: NodeState, other: nat)
    requires TableInv(n)
    ensures TableInv(Taken(n)) && !Live(n, n.counter + 1)
    ensures Taken(n).stores == n.stores && Taken(n).counter == n.counter + 1
    ensures Live(Taken(n), other) <==> Live(n, other) || other == n.counter + 1
    ensures Live(n, other) ==> Holds(Taken(n), other, ImageOf(n, other))
    ensures Holds(Taken(n), n.counter + 1, n.stores)
  {
    var after := Taken(n);
    var i := IndexOf(n.snapshots, other);
    Found(after.snapshots, |n.snapshots|);
    if i < |n.snapshots| {
      assert after.snapshots[i] == n.snapshots[i];
      Found(after.snapshots, i);
    }
    var j := IndexOf(after.snapshots, other);
    if j < |n.snapshots| {
      assert after.snapshots[j] == n.snapshots[j];
    }
  }

  /** Dropping an id removes that id and nothing else. */
  lemma DropRemovesOne(n: NodeState, id: nat, other: nat)
    requires TableInv(n)
    ensures Dropped(n, id).stores == n.stores && Dropped(n, id).counter == n.counter
    ensures Live(Dropped(n, id), other) <==> Live(n, other) && other != id
    ensures Live(n, other) && other != id ==> ImageOf(Dropped(n, id), other) == ImageOf(n, other)
  {
    if Live(n, id) {
      if Live(n, other) && other != id {
        SplicedOut(n.snapshots, id, other);
      }
      SplicedIn(n.snapshots, id, other);
    }
  }

  lemma SplicedOut(snaps: seq<Snapshot>, id: nat, other: nat)
    requires Ascending(snaps) && IndexOf(snaps, id) < |snaps|
    requires IndexOf(snaps, other) < |snaps| && other != id
    ensures var at := IndexOf(snaps, id);
            var after := snaps[..at] + snaps[at + 1..];
            IndexOf(after, other) < |after| && after[IndexOf(after, other)] == snaps[IndexOf(snaps, other)]
  {
    var at, i := IndexOf(snaps, id), IndexOf(snaps, other);
    Spliced(snaps, at, if i < at then i else i - 1);
  }

  lemma SplicedIn(snaps: seq<Snapshot>, id: nat, other: nat)
    requires Ascending(snaps) && IndexOf(snaps, id) < |snaps|
    ensures var at := IndexOf(snaps, id);
            var after := snaps[..at] + snaps[at + 1..];
            IndexOf(after, other) < |after| ==> IndexOf(snaps, other) < |snaps| && other != id
  {
    var at := IndexOf(snaps, id);
    var after := snaps[..at] + snaps[at + 1..];
    var j := IndexOf(after, other);
    if j < |after| {
      Spliced(snaps, at, j);
    }
  }

  lemma DropKeepsTable(n: NodeState, id: nat)
    requires TableInv(n)
    ensures TableInv(Dropped(n, id))
  {
    if Live(n, id) {
      SplicedAt(n.snapshots, IndexOf(n.snapshots, id));
    }
  }

  lemma Spliced(snaps: seq<Snapshot>, at: nat, j: nat)
    requires Ascending(snaps) && at < |snaps| && j < |snaps| - 1
    ensures var after := snaps[..at] + snaps[at + 1..];
            var k := if j < at then j else j + 1;
            after[j] == snaps[k] && IndexOf(after, after[j].id) == j && IndexOf(snaps, after[j].id) == k
  {
    var after := snaps[..at] + snaps[at + 1..];
    SplicedAt(snaps, at);
    Found(after, j);
    Found(snaps, if j < at then j else j + 1);
  }

  /** What is left of the table, entry by entry, and still ascending. */
  lemma SplicedAt(snaps: seq<Snapshot>, at: nat)
    requires Ascending(snaps) && at < |snaps|
    ensures var after := snaps[..at] + snaps[at + 1..];
            && |after| == |snaps| - 1 && Ascending(after)
            && forall j :: 0 <= j < |after| ==> after[j] == snaps[if j < at then j else j + 1]
  {
  }
}

/** The text form of a snapshot id: the node prints its counter in lower-case
    hexadecimal, and the client compares ids as numbers. */
module SnapshotIds {
  import opened Common
  import opened HexDigits

  /** `Long.toHexString` of a non-negative number. */
  function ToHex(n: nat): (s: string)
    ensures |s| >= 1
  {
    if n < 16 then [DigitChar(n)] else ToHex(n / 16) + [DigitChar(n % 16)]
  }

  function FromHex(s: string): Option<nat> {
    if s == [] then None
    else
      var d := HexDigit(s[|s| - 1]);
      if d.None? then None
      else if |s| == 1 then d
      else
        var hi := FromHex(s[..|s| - 1]);
        if hi.None? then None else Some(16 * hi.value + d.value)
  }

  function Text(id: nat): string {
    "0x" + ToHex(id)
  }

  /** JavaScript's `Number` of a `0x` text, exact below 2^53. */
  function Number(text: string): Option<nat> {
    if |text| >= 2 && text[..2] == "0x" then FromHex(text[2..]) else None
  }

  lemma {:induction false} HexRoundTrip(n: nat)
    ensures FromHex(ToHex(n)) == Some(n)
  {
    var s := ToHex(n);
    if n >= 16 {
      HexRoundTrip(n / 16);
      assert s[..|s| - 1] == ToHex(n / 16);
      assert s[|s| - 1] == DigitChar(n % 16);
    } else {
      assert s[|s| - 1] == DigitChar(n);
    }
  }

  /** In lower-case digits, without leading zeros. */
  lemma {:induction false} HexIsPlain(n: nat)
    ensures ToHex(n)[0] == '0' <==> n == 0
    ensures forall i :: 0 <= i < |ToHex(n)| ==> '0' <= ToHex(n)[i] <= '9' || 'a' <= ToHex(n)[i] <= 'f'
  {
    if n >= 16 {
      HexIsPlain(n / 16);
    }
  }

  /** The client reads back the node's counter, so its numeric comparison of ids
      is the order in which the node handed them out, and texts never collide. */
  lemma TextOrder(a: nat, b: nat)
    ensures Number(Text(a)) == Some(a)
    ensures Text(a) == Text(b) <==> a == b
  {
    HexRoundTrip(a);
    HexRoundTrip(b);
    assert Text(a)[2..] == ToHex(a) && Text(b)[2..] == ToHex(b);
    assert Number(Text(a)) == Some(a) && Number(Text(b)) == Some(b);
  }
}

module SnapshotNode {
  import opened Common
  import opened StateStore
  import opened SnapshotSpec

  datatype RevertError = UnknownSnapshotId | SnapshotIdRequired

  /** Cursors opened on the four stores. */
  datatype Cursors = Cursors(accounts: seq<RawEntry>, codes: seq<RawEntry>,
                             contracts: seq<RawEntry>, storageRows: seq<RawEntry>)

  class TreNode {
    const accounts: RevokingStore
    const codes: RevokingStore
    const contracts: RevokingStore
    const storageRows: RevokingStore
    var snapshots: seq<Snapshot>
    var counter: nat

    ghost const Repr: set<object> := {this, accounts, codes, contracts, storageRows}

    ghost predicate Valid() {
      && accounts != codes && accounts != contracts && accounts != storageRows
      && codes != contracts && codes != storageRows && contracts != storageRows
    }

    ghost function Model(): NodeState
      reads Repr
    {
      NodeState(Stores(accounts.contents, codes.contents, contracts.contents, storageRows.contents),
                snapshots, counter)
    }

    ghost predicate Opened(c: Cursors)
      reads Repr
    {
      && Lists(c.accounts, accounts.contents) && Lists(c.codes, codes.contents)
      && Lists(c.contracts, contracts.contents) && Lists(c.storageRows, storageRows.contents)
    }

    constructor (a: Image, b: Image, c: Image, d: Image)
      ensures Valid() && fresh(Repr)
      ensures Model() == NodeState(Stores(a, b, c, d), [], 0)
    {
      accounts := new RevokingStore(a);
      codes := new RevokingStore(b);
      contracts := new RevokingStore(c);
      storageRows := new RevokingStore(d);
      snapshots, counter := [], 0;
    }

    method TakeSnapshot(c: Cursors) returns (id: nat)
      requires Valid() && Opened(c)
      modifies this
      ensures Model() == Taken(old(Model())) && id == counter
    {
      var a := DumpStore(accounts, c.accounts);
      var b := DumpStore(codes, c.codes);
      var k := DumpStore(contracts, c.contracts);
      var s := DumpStore(storageRows, c.storageRows);
      counter := counter + 1;
      id := counter;
      snapshots := snapshots + [Snapshot(id, Stores(a, b, k, s))];
    }

    method Revert(id: nat, c: Cursors) returns (r: Result<bool, RevertError>)
      requires Valid() && Opened(c)
      modifies Repr
      ensures r == if old(Live(Model(), id)) then Ok(true) else Err(UnknownSnapshotId)
      ensures Model() == if old(Live(Model(), id)) then Reverted(old(Model()), id) else old(Model())
    {
      var target := IndexOf(snapshots, id);
      assert Live(Model(), id) <==> target < |snapshots|;
      if target == |snapshots| {
        return Err(UnknownSnapshotId);
      }
      var image := snapshots[target].image;
      DiscardFrom(id);
      RestoreStore(accounts, c.accounts, image.accounts);
      RestoreStore(codes, c.codes, image.codes);
      RestoreStore(contracts, c.contracts, image.contracts);
      RestoreStore(storageRows, c.storageRows, image.storageRows);
      r := Ok(true);
    }

    /** The walk in insertion order that removes `id` and everything after it. */
    method DiscardFrom(id: nat)
      modifies this`snapshots
      ensures snapshots == old(snapshots)[..IndexOf(old(snapshots), id)]
    {
      var kept: seq<Snapshot>, inTail := [], false;
      var n := |snapshots|;
      for i := 0 to n
        invariant snapshots == old(snapshots)
        invariant inTail <==> IndexOf(snapshots, id) < i
        invariant kept == if inTail then snapshots[..IndexOf(snapshots, id)] else snapshots[..i]
      {
        if snapshots[i].id == id {
          inTail := true;
        }
        if !inTail {
          kept := kept + [snapshots[i]];
        }
      }
      snapshots := kept;
    }

    method DropSnapshot(id: Option<nat>) returns (r: Result<bool, RevertError>)
      requires Valid()
      modifies this`snapshots
      ensures id.None? ==> r == Err(SnapshotIdRequired) && Model() == old(Model())
      ensures id.Some? ==> r == Ok(old(Live(Model(), id.value))) && Model() == Dropped(old(Model()), id.value)
    {
      if id.None? {
        return Err(SnapshotIdRequired);
      }
      var i := IndexOf(snapshots, id.value);
      assert Live(Model(), id.value) <==> i < |snapshots|;
      if i < |snapshots| {
        snapshots := snapshots[..i] + snapshots[i + 1..];
        return Ok(true);
      }
      r := Ok(false);
    }
  }
}
