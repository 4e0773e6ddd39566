/** `loadFixture`: the client's cache of snapshots, run against the node, with
    nested fixtures, arbitrary changes of state in between and snapshot-drop
    messages that arrive whenever they like. */
module FixtureSpec {
  import opened Common
  import opened SnapshotSpec

  /** Identity of a fixture function, and of the value it returned. */
  type FixtureFn = nat
  type Data = int

  datatype Fixture = Fixture(fn: FixtureFn, id: nat, data: Data)

  /** Node, client cache, and the drop messages sent but not yet delivered. */
  datatype Core = Core(node: NodeState, fixtures: seq<Fixture>, drops: set<nat>)

  /** `open` holds the fixture functions whose bodies are running, outermost first. */
  datatype World = World(core: Core, open: seq<FixtureFn>)

  datatype Action =
    | Mutate(stores: Stores)
    | BeginFresh(fn: FixtureFn)
    | EndFresh(data: Data)
    | AbortFresh
    | LoadCached(fn: FixtureFn)
    | DeliverDrop(id: nat)
    | DirectSnapshot
    | DirectRevert(id: nat)

  /** First cache entry for `fn`, or the length. */
  function Find(fs: seq<Fixture>, fn: FixtureFn): (i: nat)
    ensures i <= |fs|
    ensures i < |fs| ==> fs[i].fn == fn
    ensures forall j :: 0 <= j < i ==> fs[j].fn != fn
  {
    if fs == [] || fs[0].fn == fn then 0 else 1 + Find(fs[1..], fn)
  }

  predicate Cached(c: Core, fn: FixtureFn) {
    Find(c.fixtures, fn) < |c.fixtures|
  }

  /** The entries that survive the eviction after restoring entry `at`. */
  function Kept(fs: seq<Fixture>, at: int, bound: nat): seq<Fixture> {
    if fs == [] then []
    else (if at == 0 || fs[0].id <= bound then [fs[0]] else []) + Kept(fs[1..], at - 1, bound)
  }

  function EvictedIds(fs: seq<Fixture>, at: int, bound: nat): set<nat> {
    if fs == [] then {}
    else (if at != 0 && fs[0].id > bound then {fs[0].id} else {}) + EvictedIds(fs[1..], at - 1, bound)
  }

  function Load(c: Core, fn: FixtureFn): Result<(Core, Data), ()>
    requires Cached(c, fn)
  {
    var i := Find(c.fixtures, fn);
    var f := c.fixtures[i];
    if !Live(c.node, f.id) then Err(())
    else
      var node := Taken(Reverted(c.node, f.id));
      var renewed := c.fixtures[i := f.(id := node.counter)];
      Ok((Core(node, Kept(renewed, i, f.id), c.drops + EvictedIds(renewed, i, f.id)), f.data))
  }

  function RecordFresh(c: Core, fn: FixtureFn, data: Data): Core {
    var node := Taken(c.node);
    c.(node := node, fixtures := c.fixtures + [Fixture(fn, node.counter, data)])
  }

  function Last<T>(s: seq<T>): T
    requires s != []
  {
    s[|s| - 1]
  }

  /** The hypotheses on a run: one loading client, and direct reverts only to ids
      newer than every cached fixture. */
  predicate Enabled(w: World, a: Action) {
    match a
    case BeginFresh(fn) => !Cached(w.core, fn)
    case EndFresh(_) => w.open != []
    case AbortFresh => w.open != []
    case LoadCached(fn) => Cached(w.core, fn)
    case DeliverDrop(id) => id in w.core.drops
    case DirectRevert(id) => forall i :: 0 <= i < |w.core.fixtures| ==> w.core.fixtures[i].id < id
    case _ => true
  }

  function Step(w: World, a: Action): World
    requires Enabled(w, a)
  {
    var c := w.core;
    match a
    case Mutate(stores) => w.(core := c.(node := c.node.(stores := stores)))
    case BeginFresh(fn) => w.(open := w.open + [fn])
    case EndFresh(data) => World(RecordFresh(c, Last(w.open), data), w.open[..|w.open| - 1])
    case AbortFresh => w.(open := w.open[..|w.open| - 1])
    case LoadCached(fn) => var r := Load(c, fn); if r.Ok? then w.(core := r.value.0) else w
    case DeliverDrop(id) => w.(core := c.(node := Dropped(c.node, id), drops := c.drops - {id}))
    case DirectSnapshot => w.(core := c.(node := Taken(c.node)))
    case DirectRevert(id) => if Live(c.node, id) then w.(core := c.(node := Reverted(c.node, id))) else w
  }

  function Init(stores: Stores): World {
    World(Core(NodeState(stores, [], 0), [], {}), [])
  }

  ghost predicate Legal(w: World, run: seq<Action>)
    decreases |run|
  {
    run == [] || (Enabled(w, run[0]) && Legal(Step(w, run[0]), run[1..]))
  }

  ghost function Run(w: World, run: seq<Action>): World
    requires Legal(w, run)
    decreases |run|
  {
    if run == [] then w else Run(Step(w, run[0]), run[1..])
  }

  // ---- The invariant that makes the two machines agree ----

  ghost predicate Sorted(fs: seq<Fixture>) {
    forall i, j :: 0 <= i < j < |fs| ==> fs[i].id < fs[j].id
  }

  ghost predicate AllLive(c: Core) {
    forall i :: 0 <= i < |c.fixtures| ==> Live(c.node, c.fixtures[i].id)
  }

  ghost predicate DropsAreDead(c: Core) {
    forall d :: d in c.drops ==> d <= c.node.counter && !Live(c.node, d)
  }

  ghost predicate Inv(c: Core) {
    TableInv(c.node) && Sorted(c.fixtures) && AllLive(c) && DropsAreDead(c)
  }

  /** In a sorted cache the eviction keeps exactly the older entries and the
      restored one, and drops exactly the newer ids. */
  lemma {:induction false} EvictionCuts(fs: seq<Fixture>, at: nat, bound: nat)
    requires at < |fs|
    requires forall j :: 0 <= j < at ==> fs[j].id <= bound
    requires forall j :: at < j < |fs| ==> fs[j].id > bound
    ensures Kept(fs, at, bound) == fs[..at + 1]
    ensures EvictedIds(fs, at, bound) == set j | at < j < |fs| :: fs[j].id
  {
    if at == 0 {
      TailEvicted(fs[1..], -1, bound);
      assert fs[..1] == [fs[0]] + [];
      assert forall j :: 0 < j < |fs| ==> fs[j] == fs[1..][j - 1];
    } else {
      EvictionCuts(fs[1..], at - 1, bound);
      assert fs[..at + 1] == [fs[0]] + fs[1..][..at];
      assert forall j :: 0 < j < |fs| ==> fs[j] == fs[1..][j - 1];
    }
  }

  lemma {:induction false} TailEvicted(fs: seq<Fixture>, at: int, bound: nat)
    requires at < 0
    requires forall j :: 0 <= j < |fs| ==> fs[j].id > bound
    ensures Kept(fs, at, bound) == []
    ensures EvictedIds(fs, at, bound) == set j | 0 <= j < |fs| :: fs[j].id
  {
    if fs != [] {
      TailEvicted(fs[1..], at - 1, bound);
      assert forall j :: 0 < j < |fs| ==> fs[j] == fs[1..][j - 1];
    }
  }

  lemma IdsBounded(n: NodeState, id: nat)
    requires TableInv(n) && Live(n, id)
    ensures 0 < id <= n.counter
  {
    assert n.snapshots[IndexOf(n.snapshots, id)].id == id;
  }

  /** The cache entries of `c` that `d` shares stand for the same images there. */
  ghost predicate SameImages(c: Core, d: Core) {
    forall i :: 0 <= i < |c.fixtures| && i < |d.fixtures| && Live(c.node, c.fixtures[i].id) &&
                d.fixtures[i].id == c.fixtures[i].id ==>
                  Holds(d.node, c.fixtures[i].id, ImageOf(c.node, c.fixtures[i].id))
  }

  lemma TakenKeepsInv(c: Core)
    requires Inv(c)
    ensures Inv(c.(node := Taken(c.node))) && SameImages(c, c.(node := Taken(c.node)))
  {
    TakeKeepsAll(c.node, 0);
    forall i | 0 <= i < |c.fixtures|
      ensures Holds(Taken(c.node), c.fixtures[i].id, ImageOf(c.node, c.fixtures[i].id))
    {
      TakeKeepsAll(c.node, c.fixtures[i].id);
    }
    forall d | d in c.drops
      ensures !Live(Taken(c.node), d)
    {
      TakeKeepsAll(c.node, d);
    }
  }

  lemma FreshKeepsInv(c: Core, fn: FixtureFn, data: Data)
    requires Inv(c)
    ensures Inv(RecordFresh(c, fn, data)) && SameImages(c, RecordFresh(c, fn, data))
    ensures RecordFresh(c, fn, data).fixtures == c.fixtures + [Fixture(fn, c.node.counter + 1, data)]
    ensures RecordFresh(c, fn, data).node.stores == c.node.stores && RecordFresh(c, fn, data).drops == c.drops
    ensures Holds(RecordFresh(c, fn, data).node, c.node.counter + 1, c.node.stores)
  {
    TakenKeepsInv(c);
    TakeKeepsAll(c.node, 0);
    forall i | 0 <= i < |c.fixtures|
      ensures c.fixtures[i].id <= c.node.counter
    {
      IdsBounded(c.node, c.fixtures[i].id);
    }
  }

  lemma RevertKeepsInv(c: Core, id: nat)
    requires Inv(c) && Live(c.node, id)
    requires forall i :: 0 <= i < |c.fixtures| ==> c.fixtures[i].id < id
    ensures Inv(c.(node := Reverted(c.node, id))) && SameImages(c, c.(node := Reverted(c.node, id)))
  {
    RevertKeepsOlder(c.node, id, 0);
    forall i | 0 <= i < |c.fixtures|
      ensures Holds(Reverted(c.node, id), c.fixtures[i].id, ImageOf(c.node, c.fixtures[i].id))
    {
      RevertKeepsOlder(c.node, id, c.fixtures[i].id);
    }
    forall d | d in c.drops
      ensures !Live(Reverted(c.node, id), d)
    {
      RevertKeepsOlder(c.node, id, d);
    }
  }

  /** The state between the revert and the new snapshot of a cached load. */
  ghost function CutBack(c: Core, at: nat): Core
    requires at < |c.fixtures| && Live(c.node, c.fixtures[at].id)
  {
    Core(Reverted(c.node, c.fixtures[at].id), c.fixtures[..at],
         c.drops + (set j | at < j < |c.fixtures| :: c.fixtures[j].id))
  }

  lemma CutBackKeepsInv(c: Core, at: nat)
    requires Inv(c) && at < |c.fixtures|
    ensures Inv(CutBack(c, at)) && SameImages(c, CutBack(c, at))
  {
    var id := c.fixtures[at].id;
    RevertKeepsInv(c.(fixtures := c.fixtures[..at]), id);
    forall j | at < j < |c.fixtures|
      ensures c.fixtures[j].id <= c.node.counter && !Live(Reverted(c.node, id), c.fixtures[j].id)
    {
      IdsBounded(c.node, c.fixtures[j].id);
      RevertKeepsOlder(c.node, id, c.fixtures[j].id);
    }
  }

  /** A cached load never fails: it evicts the newer entries, goes back to the image
      the entry stands for, and records that entry again under a brand-new id. */
  lemma CachedLoad(c: Core, fn: FixtureFn)
    requires Inv(c) && Cached(c, fn)
    ensures Load(c, fn).Ok?
    ensures var i := Find(c.fixtures, fn);
            Load(c, fn).value == (RecordFresh(CutBack(c, i), fn, c.fixtures[i].data), c.fixtures[i].data)
  {
    var i := Find(c.fixtures, fn);
    var f := c.fixtures[i];
    var counter := c.node.counter + 1;
    var renewed := c.fixtures[i := f.(id := counter)];
    EvictionCuts(renewed, i, f.id);
    assert renewed[..i + 1] == c.fixtures[..i] + [Fixture(fn, counter, f.data)];
    assert forall j :: i < j < |renewed| ==> renewed[j] == c.fixtures[j];
    assert EvictedIds(renewed, i, f.id) == set j | i < j < |c.fixtures| :: c.fixtures[j].id;
  }

  /** What the caller of a cached load sees, and what stays. */
  lemma CachedLoadEffect(c: Core, fn: FixtureFn)
    requires Inv(c) && Cached(c, fn)
    ensures Load(c, fn).Ok?
    ensures var i := Find(c.fixtures, fn);
            var (after, data) := Load(c, fn).value;
            && Inv(after) && SameImages(c, after)
            && data == c.fixtures[i].data
            && after.node.stores == ImageOf(c.node, c.fixtures[i].id)
            && after.fixtures == c.fixtures[..i] + [Fixture(fn, c.node.counter + 1, data)]
            && after.drops == c.drops + (set j | i < j < |c.fixtures| :: c.fixtures[j].id)
            && Holds(after.node, c.node.counter + 1, ImageOf(c.node, c.fixtures[i].id))
  {
    CachedLoad(c, fn);
    RecordAfterCut(c, Find(c.fixtures, fn));
  }

  lemma RecordAfterCut(c: Core, i: nat)
    requires Inv(c) && i < |c.fixtures|
    ensures var f := c.fixtures[i];
            var after := RecordFresh(CutBack(c, i), f.fn, f.data);
            && Inv(after) && SameImages(c, after)
            && Holds(after.node, c.node.counter + 1, ImageOf(c.node, f.id))
  {
    var f, mid := c.fixtures[i], CutBack(c, i);
    CutBackKeepsInv(c, i);
    FreshKeepsInv(mid, f.fn, f.data);
    SameImagesTrans(c, mid, RecordFresh(mid, f.fn, f.data));
  }

  lemma SameImagesTrans(c: Core, mid: Core, after: Core)
    requires AllLive(c) && TableInv(c.node) && SameImages(c, mid) && SameImages(mid, after)
    requires mid.fixtures <= c.fixtures && mid.fixtures <= after.fixtures && |after.fixtures| == |mid.fixtures| + 1
    requires after.fixtures[|mid.fixtures|].id == c.node.counter + 1
    ensures SameImages(c, after)
  {
    forall j | 0 <= j < |c.fixtures| && j < |after.fixtures| && after.fixtures[j].id == c.fixtures[j].id
      ensures Holds(after.node, c.fixtures[j].id, ImageOf(c.node, c.fixtures[j].id))
    {
      IdsBounded(c.node, c.fixtures[j].id);
      assert mid.fixtures[j] == c.fixtures[j];
    }
  }

  /** A drop message, however late, finds its id dead and changes no snapshot. */
  lemma LateDropIsHarmless(c: Core, id: nat)
    requires Inv(c) && id in c.drops
    ensures !Live(c.node, id) && Dropped(c.node, id) == c.node
  {
  }

  lemma StepKeepsInv(w: World, a: Action)
    requires Inv(w.core) && Enabled(w, a)
    ensures Inv(Step(w, a).core)
    ensures w.core.node.counter <= Step(w, a).core.node.counter
  {
    match a
    case EndFresh(data) => FreshKeepsInv(w.core, Last(w.open), data);
    case LoadCached(fn) => CachedLoadEffect(w.core, fn);
    case DeliverDrop(id) => LateDropIsHarmless(w.core, id);
    case DirectSnapshot => TakenKeepsInv(w.core);
    case DirectRevert(id) => if Live(w.core.node, id) { RevertKeepsInv(w.core, id); }
    case _ =>
  }

  /** What the steps of the world outside the fixture cache do to the node. */
  lemma DirectSteps(w: World, stores: Stores, id: nat)
    requires Inv(w.core)
    ensures Step(w, Mutate(stores)).core == w.core.(node := w.core.node.(stores := stores))
    ensures var after := Step(w, DirectSnapshot).core;
            && after.node.stores == w.core.node.stores && after.fixtures == w.core.fixtures
            && Holds(after.node, w.core.node.counter + 1, w.core.node.stores)
    ensures Enabled(w, DirectRevert(id)) && Live(w.core.node, id) ==>
              var after := Step(w, DirectRevert(id)).core;
              && after.node.stores == ImageOf(w.core.node, id) && after.fixtures == w.core.fixtures
              && !Live(after.node, id)
    ensures Enabled(w, DirectRevert(id)) && !Live(w.core.node, id) ==> Step(w, DirectRevert(id)) == w
  {
    TakeKeepsAll(w.core.node, 0);
    if Live(w.core.node, id) {
      RevertKeepsOlder(w.core.node, id, id);
    }
  }

  /** Agreement of client and node in every reachable state. */
  lemma {:induction false} RunKeepsInv(w: World, run: seq<Action>)
    requires Inv(w.core) && Legal(w, run)
    ensures Inv(Run(w, run).core)
    ensures w.core.node.counter <= Run(w, run).core.node.counter
    decreases |run|
  {
    if run != [] {
      StepKeepsInv(w, run[0]);
      RunKeepsInv(Step(w, run[0]), run[1..]);
    }
  }

  // ---- Fixture isolation over whole runs ----

  /** A fixture's body has ended: the value it returned and the contents of the four
      stores at that moment. */
  datatype Record = Record(fn: FixtureFn, data: Data, stores: Stores)

  ghost function Logged(w: World, a: Action, log: set<Record>): set<Record>
    requires Enabled(w, a)
  {
    if a.EndFresh? then log + {Record(Last(w.open), a.data, w.core.node.stores)} else log
  }

  /** Every body that ended in the run, however often for one fixture. */
  ghost function LogOf(w: World, run: seq<Action>, log: set<Record>): set<Record>
    requires Legal(w, run)
    decreases |run|
  {
    if run == [] then log else LogOf(Step(w, run[0]), run[1..], Logged(w, run[0], log))
  }

  /** Every cache entry stands for what one body of its fixture returned and left. */
  ghost predicate Attested(c: Core, log: set<Record>) {
    forall i :: 0 <= i < |c.fixtures| ==>
                  && Live(c.node, c.fixtures[i].id)
                  && Record(c.fixtures[i].fn, c.fixtures[i].data, ImageOf(c.node, c.fixtures[i].id)) in log
  }

  lemma StepAttested(w: World, a: Action, log: set<Record>)
    requires Inv(w.core) && Attested(w.core, log) && Enabled(w, a)
    ensures Attested(Step(w, a).core, Logged(w, a, log))
  {
    var c, after := w.core, Step(w, a).core;
    match a
    case EndFresh(data) => FreshKeepsInv(c, Last(w.open), data); SharedAttested(c, after, |c.fixtures|, log);
    case LoadCached(fn) => LoadAttested(c, fn, log);
    case DirectSnapshot => TakenKeepsInv(c); SharedAttested(c, after, |c.fixtures|, log);
    case DirectRevert(id) => if Live(c.node, id) { RevertKeepsInv(c, id); SharedAttested(c, after, |c.fixtures|, log); }
    case DeliverDrop(id) => LateDropIsHarmless(c, id);
    case Mutate(stores) => assert SameImages(c, after); SharedAttested(c, after, |c.fixtures|, log);
    case _ =>
  }

  /** The first `n` entries, kept along with their images, stay attested. */
  lemma SharedAttested(c: Core, after: Core, n: nat, log: set<Record>)
    requires n <= |c.fixtures| && n <= |after.fixtures| && after.fixtures[..n] == c.fixtures[..n]
    requires Attested(c, log) && SameImages(c, after)
    ensures forall i :: 0 <= i < n ==>
                          var f := after.fixtures[i];
                          Live(after.node, f.id) && Record(f.fn, f.data, ImageOf(after.node, f.id)) in log
  {
    forall i | 0 <= i < n
      ensures after.fixtures[i] == c.fixtures[i]
      ensures Holds(after.node, c.fixtures[i].id, ImageOf(c.node, c.fixtures[i].id))
    {
      assert after.fixtures[..n][i] == c.fixtures[..n][i];
    }
  }

  lemma LoadAttested(c: Core, fn: FixtureFn, log: set<Record>)
    requires Inv(c) && Attested(c, log) && Cached(c, fn)
    ensures Load(c, fn).Ok? && Attested(Load(c, fn).value.0, log)
  {
    CachedLoadEffect(c, fn);
    SharedAttested(c, Load(c, fn).value.0, Find(c.fixtures, fn), log);
  }

  lemma {:induction false} RunAttested(w: World, run: seq<Action>, log: set<Record>)
    requires Inv(w.core) && Attested(w.core, log) && Legal(w, run)
    ensures Inv(Run(w, run).core) && Attested(Run(w, run).core, LogOf(w, run, log))
    decreases |run|
  {
    if run != [] {
      StepKeepsInv(w, run[0]);
      StepAttested(w, run[0], log);
      RunAttested(Step(w, run[0]), run[1..], Logged(w, run[0], log));
    }
  }

  /** After any run a cached load succeeds, returns what a body of that fixture
      returned, and puts the four stores back to what they held when it ended. */
  lemma FixtureIsolation(stores: Stores, run: seq<Action>, fn: FixtureFn)
    requires Legal(Init(stores), run) && Cached(Run(Init(stores), run).core, fn)
    ensures var r := Load(Run(Init(stores), run).core, fn);
            && r.Ok?
            && Record(fn, r.value.1, r.value.0.node.stores) in LogOf(Init(stores), run, {})
  {
    RunAttested(Init(stores), run, {});
    CachedLoadEffect(Run(Init(stores), run).core, fn);
  }

  // ---- The last body of each fixture ----

  /** What the body of each fixture left behind when it last finished: the value
      it returned and the contents of the four stores at that moment. */
  type History = map<FixtureFn, (Data, Stores)>

  ghost function Noted(w: World, a: Action, h: History): History
    requires Enabled(w, a)
  {
    if a.EndFresh? then h[Last(w.open) := (a.data, w.core.node.stores)] else h
  }

  ghost function HistoryOf(w: World, run: seq<Action>, h: History): History
    requires Legal(w, run)
    decreases |run|
  {
    if run == [] then h else HistoryOf(Step(w, run[0]), run[1..], Noted(w, run[0], h))
  }

  ghost predicate Unique(c: Core) {
    forall i, j :: 0 <= i < j < |c.fixtures| ==> c.fixtures[i].fn != c.fixtures[j].fn
  }

  /** A fixture body ends while an entry for the same fixture is in the cache. */
  ghost predicate DoubleRecord(w: World, a: Action)
    requires Enabled(w, a)
  {
    a.EndFresh? && Cached(w.core, Last(w.open))
  }

  ghost predicate NoDoubleRecord(w: World, run: seq<Action>)
    requires Legal(w, run)
    decreases |run|
  {
    run == [] || (!DoubleRecord(w, run[0]) && NoDoubleRecord(Step(w, run[0]), run[1..]))
  }

  ghost predicate UniqueThroughout(w: World, run: seq<Action>)
    requires Legal(w, run)
    decreases |run|
  {
    Unique(w.core) && (run == [] || UniqueThroughout(Step(w, run[0]), run[1..]))
  }

  lemma StepUnique(w: World, a: Action)
    requires Inv(w.core) && Unique(w.core) && Enabled(w, a)
    ensures Unique(Step(w, a).core) <==> !DoubleRecord(w, a)
  {
    match a
    case EndFresh(data) => EndUnique(w.core, Last(w.open), data);
    case LoadCached(fn) => CachedLoadEffect(w.core, fn);
    case _ =>
  }

  lemma EndUnique(c: Core, fn: FixtureFn, data: Data)
    requires Unique(c)
    ensures Unique(RecordFresh(c, fn, data)) <==> !Cached(c, fn)
  {
    var after, i, n := RecordFresh(c, fn, data), Find(c.fixtures, fn), |c.fixtures|;
    if i < n {
      assert after.fixtures[i].fn == after.fixtures[n].fn;
    }
  }

  /** One entry per fixture in every state of a run, exactly when no fixture body
      ends while its own fixture is already cached. */
  lemma {:induction false} OneEntryPerFixture(w: World, run: seq<Action>)
    requires Inv(w.core) && Unique(w.core) && Legal(w, run)
    ensures UniqueThroughout(w, run) <==> NoDoubleRecord(w, run)
    decreases |run|
  {
    if run != [] {
      StepKeepsInv(w, run[0]);
      StepUnique(w, run[0]);
      if !DoubleRecord(w, run[0]) {
        OneEntryPerFixture(Step(w, run[0]), run[1..]);
      }
    }
  }

  /** No fixture starts afresh inside its own body. */
  ghost predicate NoReentry(w: World, run: seq<Action>)
    requires Legal(w, run)
    decreases |run|
  {
    run == [] || ((run[0].BeginFresh? ==> run[0].fn !in w.open) && NoReentry(Step(w, run[0]), run[1..]))
  }

  ghost predicate OpenAreUncached(w: World) {
    && (forall i, j :: 0 <= i < j < |w.open| ==> w.open[i] != w.open[j])
    && (forall fn :: fn in w.open ==> !Cached(w.core, fn))
  }

  lemma {:induction false} NoReentrySuffices(w: World, run: seq<Action>)
    requires Inv(w.core) && OpenAreUncached(w) && Legal(w, run) && NoReentry(w, run)
    ensures NoDoubleRecord(w, run)
    decreases |run|
  {
    if run != [] {
      StepKeepsInv(w, run[0]);
      OpenStaysUncached(w, run[0]);
      NoReentrySuffices(Step(w, run[0]), run[1..]);
    }
  }

  lemma OpenStaysUncached(w: World, a: Action)
    requires Inv(w.core) && OpenAreUncached(w) && Enabled(w, a) && (a.BeginFresh? ==> a.fn !in w.open)
    ensures !DoubleRecord(w, a) && OpenAreUncached(Step(w, a))
  {
    var after := Step(w, a);
    match a
    case EndFresh(data) =>
      forall fn | fn in after.open
        ensures !Cached(after.core, fn)
      {
        assert fn in w.open && fn != Last(w.open);
        CachedIn(after.core, fn);
        CachedIn(w.core, fn);
      }
    case LoadCached(fn) =>
      forall g | g in after.open
        ensures !Cached(after.core, g)
      {
        LoadAddsNoName(w.core, fn, g);
      }
    case _ =>
  }

  lemma LoadAddsNoName(c: Core, fn: FixtureFn, g: FixtureFn)
    requires Inv(c) && Cached(c, fn) && !Cached(c, g)
    ensures Load(c, fn).Ok? && !Cached(Load(c, fn).value.0, g)
  {
    CachedLoadEffect(c, fn);
    CachedIn(c, g);
    CachedIn(Load(c, fn).value.0, g);
  }

  lemma CachedIn(c: Core, fn: FixtureFn)
    ensures Cached(c, fn) <==> exists i :: 0 <= i < |c.fixtures| && c.fixtures[i].fn == fn
  {
  }

  lemma Unroll(w: World, a: Action, rest: seq<Action>, h: History)
    requires Enabled(w, a) && Legal(Step(w, a), rest)
    ensures Legal(w, [a] + rest) && Run(w, [a] + rest) == Run(Step(w, a), rest)
    ensures HistoryOf(w, [a] + rest, h) == HistoryOf(Step(w, a), rest, Noted(w, a, h))
  {
    assert ([a] + rest)[1..] == rest;
  }

  /** The run of a fixture that loads itself inside its own body. */
  function Reentrant(fn: FixtureFn, d: Data, e: Data): seq<Action> {
    [BeginFresh(fn)] + ([BeginFresh(fn)] + ([EndFresh(d)] + ([EndFresh(e)] + [])))
  }

  lemma ReentrantEnd(w: World, fn: FixtureFn, d: Data, e: Data)
    requires w.open == [fn, fn] && w.core.fixtures == [] && w.core.node.counter == 0
    ensures Enabled(w, EndFresh(d)) && Enabled(Step(w, EndFresh(d)), EndFresh(e))
    ensures var end := Step(Step(w, EndFresh(d)), EndFresh(e));
            && end.core.fixtures == [Fixture(fn, 1, d), Fixture(fn, 2, e)]
            && Noted(Step(w, EndFresh(d)), EndFresh(e), Noted(w, EndFresh(d), map[])) ==
               map[fn := (e, w.core.node.stores)]
  {
    assert Step(w, EndFresh(d)).open == [fn];
    assert Step(w, EndFresh(d)).core.fixtures == [Fixture(fn, 1, d)];
  }

  lemma ReentrantRun(stores: Stores, fn: FixtureFn, d: Data, e: Data)
    ensures Legal(Init(stores), Reentrant(fn, d, e))
    ensures Run(Init(stores), Reentrant(fn, d, e)).core.fixtures == [Fixture(fn, 1, d), Fixture(fn, 2, e)]
    ensures HistoryOf(Init(stores), Reentrant(fn, d, e), map[]) == map[fn := (e, stores)]
  {
    var w0 := Init(stores);
    var w1 := Step(w0, BeginFresh(fn));
    var w2 := Step(w1, BeginFresh(fn));
    assert w2.open == [fn, fn];
    ReentrantEnd(w2, fn, d, e);
    var w3 := Step(w2, EndFresh(d));
    Unroll(w3, EndFresh(e), [], Noted(w2, EndFresh(d), map[]));
    Unroll(w2, EndFresh(d), [EndFresh(e)] + [], map[]);
    var r2 := [EndFresh(d)] + ([EndFresh(e)] + []);
    Unroll(w1, BeginFresh(fn), r2, map[]);
    Unroll(w0, BeginFresh(fn), [BeginFresh(fn)] + r2, map[]);
  }

  /** A fixture that loads itself afresh ends up in the cache twice. */
  lemma ReentryCachesTwice(stores: Stores, fn: FixtureFn, d: Data, e: Data)
    ensures Legal(Init(stores), Reentrant(fn, d, e)) && !Unique(Run(Init(stores), Reentrant(fn, d, e)).core)
  {
    ReentrantRun(stores, fn, d, e);
    var fs := Run(Init(stores), Reentrant(fn, d, e)).core.fixtures;
    assert fs[0].fn == fs[1].fn;
  }

  /** The fixture's cache entries stand for what its body last left behind. */
  ghost predicate Faithful(c: Core, h: History, fn: FixtureFn) {
    forall i :: 0 <= i < |c.fixtures| && c.fixtures[i].fn == fn ==>
                  && fn in h
                  && h[fn].0 == c.fixtures[i].data
                  && Holds(c.node, c.fixtures[i].id, h[fn].1)
  }

  /** The fixture's body ends while an entry for it is cached, and not with what the
      body before it returned and left. */
  ghost predicate Outdates(w: World, a: Action, h: History, fn: FixtureFn)
    requires Enabled(w, a)
  {
    DoubleRecord(w, a) && Last(w.open) == fn && fn in h && h[fn] != (a.data, w.core.node.stores)
  }

  ghost predicate NoneOutdated(w: World, run: seq<Action>, h: History, fn: FixtureFn)
    requires Legal(w, run)
    decreases |run|
  {
    run == [] ||
    (!Outdates(w, run[0], h, fn) && NoneOutdated(Step(w, run[0]), run[1..], Noted(w, run[0], h), fn))
  }

  ghost predicate FaithfulThroughout(w: World, run: seq<Action>, h: History, fn: FixtureFn)
    requires Legal(w, run)
    decreases |run|
  {
    Faithful(w.core, h, fn) &&
    (run == [] || FaithfulThroughout(Step(w, run[0]), run[1..], Noted(w, run[0], h), fn))
  }

  lemma FaithfulCarries(c: Core, after: Core, h: History, fn: FixtureFn)
    requires AllLive(c) && Faithful(c, h, fn) && SameImages(c, after) && after.fixtures == c.fixtures
    ensures Faithful(after, h, fn)
  {
  }

  lemma LoadFaithful(c: Core, loaded: FixtureFn, h: History, fn: FixtureFn)
    requires Inv(c) && Faithful(c, h, fn) && Cached(c, loaded)
    ensures Load(c, loaded).Ok? && Faithful(Load(c, loaded).value.0, h, fn)
  {
    CachedLoadEffect(c, loaded);
    var after, i := Load(c, loaded).value.0, Find(c.fixtures, loaded);
    forall j | 0 <= j < |after.fixtures| && after.fixtures[j].fn == fn
      ensures fn in h && h[fn].0 == after.fixtures[j].data && Holds(after.node, after.fixtures[j].id, h[fn].1)
    {
      assert j < i ==> after.fixtures[j] == c.fixtures[j];
    }
  }

  lemma EndFaithful(c: Core, ended: FixtureFn, data: Data, h: History, fn: FixtureFn)
    requires Inv(c) && Faithful(c, h, fn)
    requires ended == fn && Cached(c, fn) ==> h[fn] == (data, c.node.stores)
    ensures Faithful(RecordFresh(c, ended, data), h[ended := (data, c.node.stores)], fn)
  {
    var after, n, now := RecordFresh(c, ended, data), |c.fixtures|, h[ended := (data, c.node.stores)];
    FreshKeepsInv(c, ended, data);
    forall j | 0 <= j < |after.fixtures| && after.fixtures[j].fn == fn
      ensures fn in now && now[fn].0 == after.fixtures[j].data && Holds(after.node, after.fixtures[j].id, now[fn].1)
    {
      if j < n {
        assert after.fixtures[j] == c.fixtures[j] && Holds(after.node, c.fixtures[j].id, h[fn].1);
        assert now[fn] == h[fn] by {
          CachedIn(c, fn);
        }
      }
    }
  }

  /** The older entry of a fixture recorded again no longer matches its last body. */
  lemma EndOutdates(c: Core, fn: FixtureFn, data: Data, h: History)
    requires Inv(c) && Faithful(c, h, fn) && Cached(c, fn) && h[fn] != (data, c.node.stores)
    ensures !Faithful(RecordFresh(c, fn, data), h[fn := (data, c.node.stores)], fn)
  {
    FreshKeepsInv(c, fn, data);
    var i, after := Find(c.fixtures, fn), RecordFresh(c, fn, data);
    assert after.fixtures[i] == c.fixtures[i];
    assert Holds(after.node, c.fixtures[i].id, h[fn].1);
  }

  lemma StepFaithful(w: World, a: Action, h: History, fn: FixtureFn)
    requires Inv(w.core) && Faithful(w.core, h, fn) && Enabled(w, a)
    ensures Faithful(Step(w, a).core, Noted(w, a, h), fn) <==> !Outdates(w, a, h, fn)
  {
    var c, after := w.core, Step(w, a).core;
    match a
    case EndFresh(data) =>
      CachedIn(c, fn);
      if Outdates(w, a, h, fn) {
        EndOutdates(c, fn, data, h);
      } else {
        EndFaithful(c, Last(w.open), data, h, fn);
      }
    case LoadCached(loaded) => LoadFaithful(c, loaded, h, fn);
    case DirectSnapshot => TakenKeepsInv(c); FaithfulCarries(c, after, h, fn);
    case DirectRevert(id) => if Live(c.node, id) { RevertKeepsInv(c, id); FaithfulCarries(c, after, h, fn); }
    case DeliverDrop(id) => LateDropIsHarmless(c, id);
    case Mutate(stores) => assert SameImages(c, after); FaithfulCarries(c, after, h, fn);
    case _ =>
  }

  /** A fixture's entries stand for its last body in every state of a run, exactly when
      no body of it ends otherwise than the one its cached entry was recorded from. */
  lemma {:induction false} RunFaithful(w: World, run: seq<Action>, h: History, fn: FixtureFn)
    requires Inv(w.core) && Faithful(w.core, h, fn) && Legal(w, run)
    ensures FaithfulThroughout(w, run, h, fn) <==> NoneOutdated(w, run, h, fn)
    ensures NoneOutdated(w, run, h, fn) ==>
              Inv(Run(w, run).core) && Faithful(Run(w, run).core, HistoryOf(w, run, h), fn)
    decreases |run|
  {
    if run != [] {
      StepKeepsInv(w, run[0]);
      StepFaithful(w, run[0], h, fn);
      if !Outdates(w, run[0], h, fn) {
        RunFaithful(Step(w, run[0]), run[1..], Noted(w, run[0], h), fn);
      }
    }
  }

  lemma {:induction false} NoDoubleRecordSuffices(w: World, run: seq<Action>, h: History, fn: FixtureFn)
    requires Legal(w, run) && NoDoubleRecord(w, run)
    ensures NoneOutdated(w, run, h, fn)
    decreases |run|
  {
    if run != [] {
      NoDoubleRecordSuffices(Step(w, run[0]), run[1..], Noted(w, run[0], h), fn);
    }
  }

  /** Then a cached load of that fixture returns what its last body returned and puts
      the stores back to what they held when that one ended. */
  lemma LastBodyIsolation(stores: Stores, run: seq<Action>, fn: FixtureFn)
    requires Legal(Init(stores), run) && NoneOutdated(Init(stores), run, map[], fn)
    requires Cached(Run(Init(stores), run).core, fn)
    ensures var r := Load(Run(Init(stores), run).core, fn);
            var h := HistoryOf(Init(stores), run, map[]);
            r.Ok? && fn in h && h[fn] == (r.value.1, r.value.0.node.stores)
  {
    var w := Init(stores);
    RunFaithful(w, run, map[], fn);
    CachedLoadEffect(Run(w, run).core, fn);
  }

  /** Otherwise it may not: after a fixture has loaded itself inside its own body, a
      cached load returns what the inner body returned, not the outer one, its last. */
  lemma LoadOfOutdated(stores: Stores, fn: FixtureFn, d: Data, e: Data)
    requires d != e
    ensures var run := Reentrant(fn, d, e);
            && Legal(Init(stores), run) && !NoneOutdated(Init(stores), run, map[], fn)
            && var c, h := Run(Init(stores), run).core, HistoryOf(Init(stores), run, map[]);
               && Cached(c, fn) && Load(c, fn).Ok? && fn in h
               && Load(c, fn).value.1 == d && h[fn].0 == e
  {
    var run := Reentrant(fn, d, e);
    ReentrantRun(stores, fn, d, e);
    RunKeepsInv(Init(stores), run);
    CachedLoadEffect(Run(Init(stores), run).core, fn);
    if NoneOutdated(Init(stores), run, map[], fn) {
      LastBodyIsolation(stores, run, fn);
    }
  }
}

/** The client objects: a restorer per cached snapshot, and the cache. */
module FixtureClient {
  import opened Common
  import opened StateStore
  import opened SnapshotSpec
  import opened SnapshotNode
  import opened FixtureSpec

  /** Reverts to its snapshot and at once takes another, so that it can be used
      again. */
  class Restorer {
    var snapshotId: nat

    constructor (id: nat)
      ensures snapshotId == id
    {
      snapshotId := id;
    }

    method Restore(node: TreNode, before: Cursors, after: Cursors) returns (r: Result<(), RevertError>)
      requires node.Valid() && node.Opened(before) && this !in node.Repr
      requires Live(node.Model(), snapshotId) ==> Covers(after, ImageOf(node.Model(), snapshotId))
      modifies this, node.Repr
      ensures r.Ok? <==> old(Live(node.Model(), snapshotId))
      ensures r.Ok? ==> && node.Model() == Taken(Reverted(old(node.Model()), old(snapshotId)))
                        && snapshotId == node.Model().counter
      ensures r.Err? ==> node.Model() == old(node.Model()) && snapshotId == old(snapshotId)
    {
      var reverted := node.Revert(snapshotId, before);
      if reverted.Err? {
        return Err(reverted.error);
      }
      snapshotId := node.TakeSnapshot(after);
      r := Ok(());
    }
  }

  ghost predicate Covers(c: Cursors, s: Stores) {
    && Lists(c.accounts, s.accounts) && Lists(c.codes, s.codes)
    && Lists(c.contracts, s.contracts) && Lists(c.storageRows, s.storageRows)
  }

  datatype Entry = Entry(restorer: Restorer, fn: FixtureFn, data: Data)

  ghost function View(es: seq<Entry>): (fs: seq<Fixture>)
    reads set e | e in es :: e.restorer
    ensures |fs| == |es|
    ensures forall i :: 0 <= i < |es| ==> fs[i] == Fixture(es[i].fn, es[i].restorer.snapshotId, es[i].data)
  {
    if es == [] then []
    else [Fixture(es[0].fn, es[0].restorer.snapshotId, es[0].data)] + View(es[1..])
  }

  /** No two entries share a restorer. */
  ghost predicate Apart(es: seq<Entry>) {
    forall i, j :: 0 <= i < j < |es| ==> es[i].restorer != es[j].restorer
  }

  /** The two filters over the cache after entry `at` was restored from `bound`. */
  function KeptEntries(es: seq<Entry>, at: int, bound: nat): seq<Entry>
    reads set e | e in es :: e.restorer
  {
    if es == [] then []
    else (if at == 0 || es[0].restorer.snapshotId <= bound then [es[0]] else []) + KeptEntries(es[1..], at - 1, bound)
  }

  function EvictedEntries(es: seq<Entry>, at: int, bound: nat): seq<Entry>
    reads set e | e in es :: e.restorer
  {
    if es == [] then []
    else (if at != 0 && es[0].restorer.snapshotId > bound then [es[0]] else []) + EvictedEntries(es[1..], at - 1, bound)
  }

  lemma {:induction false} KeptEntriesMeans(es: seq<Entry>, at: int, bound: nat)
    ensures View(KeptEntries(es, at, bound)) == Kept(View(es), at, bound)
  {
    if es != [] {
      KeptEntriesMeans(es[1..], at - 1, bound);
      assert View(es)[1..] == View(es[1..]);
      var kept := KeptEntries(es[1..], at - 1, bound);
      assert View([es[0]] + kept) == [View(es)[0]] + View(kept);
    }
  }

  lemma {:induction false} KeptEntriesApart(es: seq<Entry>, at: int, bound: nat)
    requires Apart(es)
    ensures forall i :: 0 <= i < |KeptEntries(es, at, bound)| ==> KeptEntries(es, at, bound)[i] in es
    ensures Apart(KeptEntries(es, at, bound))
  {
    if es != [] {
      KeptEntriesApart(es[1..], at - 1, bound);
      var kept := KeptEntries(es[1..], at - 1, bound);
      forall i | 0 <= i < |kept|
        ensures kept[i].restorer != es[0].restorer && kept[i] in es
      {
        assert kept[i] in es[1..];
      }
    }
  }

  lemma {:induction false} EvictedEntriesMeans(es: seq<Entry>, at: int, bound: nat)
    ensures (set e | e in EvictedEntries(es, at, bound) :: e.restorer.snapshotId) == EvictedIds(View(es), at, bound)
  {
    if es != [] {
      EvictedEntriesMeans(es[1..], at - 1, bound);
      assert View(es)[1..] == View(es[1..]);
    }
  }

  class FixtureCache {
    const node: TreNode
    var entries: seq<Entry>
    /** Ids for which a drop message has been sent and not yet delivered. */
    var drops: set<nat>

    ghost predicate Valid()
      reads this
    {
      && node.Valid() && this !in node.Repr
      && (forall i :: 0 <= i < |entries| ==> entries[i].restorer !in node.Repr)
      && Apart(entries)
    }

    ghost function Model(): Core
      reads this, node.Repr, set e | e in entries :: e.restorer
    {
      Core(node.Model(), View(entries), drops)
    }

    constructor (n: TreNode)
      requires n.Valid()
      ensures Valid() && node == n && Model() == Core(n.Model(), [], {})
    {
      node := n;
      entries, drops := [], {};
    }

    method FindEntry(fn: FixtureFn) returns (i: nat)
      requires Valid()
      ensures i == Find(View(entries), fn)
    {
      i := 0;
      while i < |entries| && entries[i].fn != fn
        invariant i <= |entries|
        invariant forall j :: 0 <= j < i ==> View(entries)[j].fn != fn
      {
        i := i + 1;
      }
    }

    /** The miss path after the fixture's body has returned `data`. */
    method Record(fn: FixtureFn, data: Data, c: Cursors)
      requires Valid() && node.Opened(c)
      modifies this`entries, node
      ensures Valid() && Model() == RecordFresh(old(Model()), fn, data)
    {
      var id := node.TakeSnapshot(c);
      var restorer := new Restorer(id);
      entries := entries + [Entry(restorer, fn, data)];
    }

    /** The hit path: restore, evict what became stale, ask the node to drop it. */
    method LoadHit(fn: FixtureFn, before: Cursors, after: Cursors) returns (r: Result<Data, RevertError>)
      requires Valid() && node.Opened(before) && FixtureSpec.Cached(Model(), fn)
      requires var f := Model().fixtures[Find(Model().fixtures, fn)];
               Live(node.Model(), f.id) ==> Covers(after, ImageOf(node.Model(), f.id))
      modifies this, node.Repr, set e | e in entries :: e.restorer
      ensures Valid()
      ensures r.Ok? <==> old(Load(Model(), fn)).Ok?
      ensures r.Ok? ==> (Model(), r.value) == old(Load(Model(), fn)).value
      ensures r.Err? ==> Model() == old(Model())
    {
      var i := FindEntry(fn);
      var hit := entries[i];
      var oldId := hit.restorer.snapshotId;
      var restored := RestoreEntry(i, before, after);
      if restored.Err? {
        return Err(restored.error);
      }
      Evict(i, oldId);
      r := Ok(hit.data);
    }

    method RestoreEntry(i: nat, before: Cursors, after: Cursors) returns (r: Result<(), RevertError>)
      requires Valid() && node.Opened(before) && i < |entries|
      requires var id := entries[i].restorer.snapshotId;
               Live(node.Model(), id) ==> Covers(after, ImageOf(node.Model(), id))
      modifies node.Repr, entries[i].restorer
      ensures Valid()
      ensures r.Ok? <==> old(Live(node.Model(), entries[i].restorer.snapshotId))
      ensures r.Ok? ==> var was := old(Model());
                        var there := Taken(Reverted(was.node, was.fixtures[i].id));
                        Model() == Core(there, was.fixtures[i := was.fixtures[i].(id := there.counter)], was.drops)
      ensures r.Err? ==> Model() == old(Model())
    {
      r := entries[i].restorer.Restore(node, before, after);
    }

    /** Drops the entries that the restore of entry `at` made stale. */
    method Evict(at: nat, bound: nat)
      requires Valid()
      modifies this`entries, this`drops
      ensures Valid()
      ensures View(entries) == Kept(old(View(entries)), at, bound)
      ensures drops == old(drops) + EvictedIds(old(View(entries)), at, bound)
    {
      KeptEntriesMeans(entries, at, bound);
      KeptEntriesApart(entries, at, bound);
      EvictedEntriesMeans(entries, at, bound);
      SendDrops(EvictedEntries(entries, at, bound));
      entries := KeptEntries(entries, at, bound);
    }

    method SendDrops(evicted: seq<Entry>)
      modifies this`drops
      ensures drops == old(drops) + old(set e | e in evicted :: e.restorer.snapshotId)
    {
      for i := 0 to |evicted|
        invariant drops == old(drops) + old(set e | e in evicted[..i] :: e.restorer.snapshotId)
      {
        assert evicted[..i + 1] == evicted[..i] + [evicted[i]];
        drops := drops + {evicted[i].restorer.snapshotId};
      }
      assert evicted[..|evicted|] == evicted;
    }
  }
}
