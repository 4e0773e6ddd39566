/** Resolution of a node's instance id as a protocol between awaits: one url's
    cache entry, in-flight promise and eviction generation, and every resolution
    ever started for it. Every table of the source is keyed by url and every
    operation touches its own url only, so one url is modelled. */
module InstanceIdSpec {
  import opened Common

  type Id = string

  /** Number of a resolution; resolutions are never removed from the history. */
  type TaskNo = nat

  /** Index of a cache object among those ever created: two holders of the same
      index share the object. */
  type Ref = nat

  /** A cache object. `origin` is history only: the resolution whose probe or
      lookup produced `id`. */
  datatype Entry = Entry(id: Id, provisional: bool, reprobesLeft: int, origin: TaskNo)

  datatype Outcome = Returned(id: Id) | Threw

  /** Where a resolution is suspended. `Finished` has run to its end but its
      `finally` callback has not; `Settled` has run that too. */
  datatype Phase =
    | Probing(attempt: nat)
    | Sleeping
    | Probed(served: Option<Id>, definitive: bool)
    | AwaitingGenesis(definitive: bool)
    | Finished(outcome: Outcome)
    | Settled(outcome: Outcome)

  /** `gen` and `captured` are read when the resolution starts. */
  datatype Task = Task(gen: nat, captured: Option<Ref>, phase: Phase) {
    predicate Active() {
      !phase.Finished? && !phase.Settled?
    }
  }

  /** Counts, per generation, of what its own resolutions did. */
  datatype Counts = Counts(fetches: nat, unanswered: nat, lowerTiers: nat, threw: nat)

  datatype State = State(cache: Option<Ref>, heap: seq<Entry>, inflight: Option<TaskNo>,
                         gen: nat, tasks: seq<Task>, counts: Counts)

  const MAX_PROVISIONAL_REPROBES := 2

  function Init(): State {
    State(None, [], None, 0, [], Counts(0, 0, 0, 0))
  }

  // ---- What the outside world answers ----

  /** One fetch of `tre_instanceId`: an id; a complete answer without one; or no
      answer (timeout, reset, refused, transient status). */
  datatype FetchAnswer = Served(id: Id) | NotServed | NoAnswer

  /** The lower tiers up to the genesis hash: the container this process launched,
      readable or not; a container found serving the url; or neither. */
  datatype Lookup = Owned(id: Id) | OwnedUnreadable | Discovered(id: Id) | Nowhere

  datatype Event =
    | Call
    | FetchDone(task: TaskNo, answer: FetchAnswer)
    | Wake(task: TaskNo)
    | ProbeDone(task: TaskNo, lookup: Lookup)
    | GenesisDone(task: TaskNo, hash: Option<Id>)
    | Finally(task: TaskNo)
    | Evict

  datatype CallResult = Known(id: Id) | Waits(task: TaskNo)

  predicate Committed(s: State) {
    s.cache.Some? && s.cache.value < |s.heap| && !s.heap[s.cache.value].provisional
  }

  predicate Enabled(s: State, e: Event) {
    match e
    case Call => true
    case FetchDone(t, _) => t < |s.tasks| && s.tasks[t].phase.Probing?
    case Wake(t) => t < |s.tasks| && s.tasks[t].phase.Sleeping?
    case ProbeDone(t, _) => t < |s.tasks| && s.tasks[t].phase.Probed? && CapturedExists(s, t)
    case GenesisDone(t, _) => t < |s.tasks| && s.tasks[t].phase.AwaitingGenesis?
    case Finally(t) => t < |s.tasks| && s.tasks[t].phase.Finished?
    case Evict => true
  }

  predicate CapturedExists(s: State, t: TaskNo)
    requires t < |s.tasks|
  {
    s.tasks[t].captured.Some? ==> s.tasks[t].captured.value < |s.heap|
  }

  function At(s: State, t: TaskNo, p: Phase): State
    requires t < |s.tasks|
  {
    s.(tasks := s.tasks[t := s.tasks[t].(phase := p)])
  }

  /** Counts are kept for the current generation's resolutions only. */
  function Count(s: State, t: TaskNo, fetches: nat, unanswered: nat, lowerTiers: nat): State
    requires t < |s.tasks|
  {
    if s.tasks[t].gen != s.gen then s
    else s.(counts := Counts(s.counts.fetches + fetches, s.counts.unanswered + unanswered,
                             s.counts.lowerTiers + lowerTiers, s.counts.threw))
  }

  /** The resolution throws. */
  function Fail(s: State, t: TaskNo): State
    requires t < |s.tasks|
  {
    var threw := s.counts.threw + (if s.tasks[t].gen == s.gen then 1 else 0);
    At(s.(counts := s.counts.(threw := threw)), t, Finished(Threw))
  }

  function Write(s: State, entry: Entry): State {
    s.(cache := Some(|s.heap|), heap := s.heap + [entry])
  }

  function Called(s: State): (State, CallResult) {
    if Committed(s) then (s, Known(s.heap[s.cache.value].id))
    else if s.inflight.Some? then (s, Waits(s.inflight.value))
    else
      var t := |s.tasks|;
      var started := s.(tasks := s.tasks + [Task(s.gen, s.cache, Probing(0))], inflight := Some(t));
      (Count(started, t, 1, 0, 0), Waits(t))
  }

  /** End of a first resolution: void if evicted meanwhile, else commit or hold. */
  function Conclude(s: State, t: TaskNo, id: Id, definitive: bool): State
    requires t < |s.tasks|
  {
    var done := At(s, t, Finished(Returned(id)));
    if s.tasks[t].gen != s.gen then done
    else if definitive then Write(done, Entry(id, false, 0, t))
    else Write(done, Entry(id, true, MAX_PROVISIONAL_REPROBES, t))
  }

  /** End of a re-probe of the provisional object `r`. */
  function Reprobed(s: State, t: TaskNo, r: Ref, served: Option<Id>, definitive: bool): State
    requires t < |s.tasks| && r < |s.heap|
  {
    var held := s.heap[r];
    var id := if served.Some? then served.value else held.id;
    var origin := if served.Some? then t else held.origin;
    if s.tasks[t].gen != s.gen then At(s, t, Finished(Returned(id)))
    else if definitive then Write(At(s, t, Finished(Returned(id))), Entry(id, false, 0, origin))
    else
      var left := held.reprobesLeft - 1;
      var spent := At(s.(heap := s.heap[r := held.(reprobesLeft := left)]), t, Finished(Returned(held.id)));
      if left > 0 then spent else Write(spent, Entry(held.id, false, 0, held.origin))
  }

  function Step(s: State, e: Event): State
    requires Enabled(s, e)
  {
    match e
    case Call => Called(s).0
    case FetchDone(t, answer) =>
      (match answer
       case Served(id) => At(s, t, Probed(Some(id), true))
       case NotServed => At(s, t, Probed(None, true))
       case NoAnswer =>
         if s.tasks[t].phase.attempt >= 1 then Count(At(s, t, Probed(None, false)), t, 0, 1, 0)
         else At(s, t, Sleeping))
    case Wake(t) => Count(At(s, t, Probing(1)), t, 1, 0, 0)
    case ProbeDone(t, lookup) =>
      var task := s.tasks[t];
      var Probed(served, definitive) := task.phase;
      if task.captured.Some? then Reprobed(s, t, task.captured.value, served, definitive)
      else if served.Some? then Conclude(s, t, served.value, definitive)
      else
        var looked := Count(s, t, 0, 0, 1);
        (match lookup
         case Owned(id) => Conclude(looked, t, id, definitive)
         case OwnedUnreadable => Fail(looked, t)
         case Discovered(id) => Conclude(looked, t, id, definitive)
         case Nowhere => At(looked, t, AwaitingGenesis(definitive)))
    case GenesisDone(t, hash) =>
      if hash.None? then Fail(s, t)
      else Conclude(s, t, hash.value, s.tasks[t].phase.definitive)
    case Finally(t) =>
      // Deletes whatever promise is in flight, its own or not.
      At(s, t, Settled(s.tasks[t].phase.outcome)).(inflight := None)
    case Evict => s.(cache := None, inflight := None, gen := s.gen + 1, counts := Counts(0, 0, 0, 0))
  }

  ghost predicate Legal(s: State, run: seq<Event>)
    decreases |run|
  {
    run == [] || (Enabled(s, run[0]) && Legal(Step(s, run[0]), run[1..]))
  }

  ghost function Run(s: State, run: seq<Event>): State
    requires Legal(s, run)
    decreases |run|
  {
    if run == [] then s else Run(Step(s, run[0]), run[1..])
  }

  // ---- The generation guard, with no hypothesis on the interleaving ----

  /** Every entry's id comes from a resolution; what is cached, and what a
      resolution captured, comes from one of the same generation. */
  ghost predicate GenInv(s: State) {
    && (forall t :: 0 <= t < |s.tasks| ==> s.tasks[t].gen <= s.gen)
    && (forall r :: 0 <= r < |s.heap| ==> s.heap[r].origin < |s.tasks|)
    && (s.cache.Some? ==> s.cache.value < |s.heap| && OriginGen(s, s.cache.value) == s.gen)
    && (forall t :: 0 <= t < |s.tasks| && s.tasks[t].captured.Some? ==>
          s.tasks[t].captured.value < |s.heap| && OriginGen(s, s.tasks[t].captured.value) == s.tasks[t].gen)
    && (s.inflight.Some? ==> s.inflight.value < |s.tasks|)
  }

  ghost function OriginGen(s: State, r: Ref): nat {
    if r < |s.heap| && s.heap[r].origin < |s.tasks| then s.tasks[s.heap[r].origin].gen else 0
  }

  /** The resolution an event belongs to, if any. */
  function TaskOf(e: Event): Option<TaskNo> {
    match e
    case FetchDone(t, _) => Some(t)
    case Wake(t) => Some(t)
    case ProbeDone(t, _) => Some(t)
    case GenesisDone(t, _) => Some(t)
    case Finally(t) => Some(t)
    case _ => None
  }

  /** The counts play no part. */
  lemma CountsAside(s: State, c: Counts)
    ensures GenInv(s.(counts := c)) <==> GenInv(s)
  {
    assert forall r :: OriginGen(s.(counts := c), r) == OriginGen(s, r);
  }

  lemma PhaseAside(s: State, t: TaskNo, p: Phase)
    requires GenInv(s) && t < |s.tasks|
    ensures GenInv(At(s, t, p))
  {
    var moved := At(s, t, p);
    assert forall u :: 0 <= u < |s.tasks| ==> moved.tasks[u].gen == s.tasks[u].gen
                                              && moved.tasks[u].captured == s.tasks[u].captured;
    assert forall r :: OriginGen(moved, r) == OriginGen(s, r);
  }

  lemma MoveKeepsGenInv(s: State, t: TaskNo, p: Phase, a: nat, b: nat, c: nat)
    requires GenInv(s) && t < |s.tasks|
    ensures GenInv(At(s, t, p)) && GenInv(Count(s, t, a, b, c)) && GenInv(Count(At(s, t, p), t, a, b, c))
  {
    PhaseAside(s, t, p);
    CountsAside(s, Count(s, t, a, b, c).counts);
    CountsAside(At(s, t, p), Count(At(s, t, p), t, a, b, c).counts);
  }

  lemma FailKeepsGenInv(s: State, t: TaskNo)
    requires GenInv(s) && t < |s.tasks|
    ensures GenInv(Fail(s, t))
  {
    CountsAside(s, Fail(s, t).counts);
    PhaseAside(s.(counts := Fail(s, t).counts), t, Finished(Threw));
  }

  lemma WriteKeepsGenInv(s: State, entry: Entry)
    requires GenInv(s) && entry.origin < |s.tasks| && s.tasks[entry.origin].gen == s.gen
    ensures GenInv(Write(s, entry))
  {
    assert forall r :: 0 <= r < |s.heap| ==> OriginGen(Write(s, entry), r) == OriginGen(s, r);
  }

  lemma ConcludeKeepsGenInv(s: State, t: TaskNo, id: Id, definitive: bool)
    requires GenInv(s) && t < |s.tasks|
    ensures GenInv(Conclude(s, t, id, definitive))
  {
    MoveKeepsGenInv(s, t, Finished(Returned(id)), 0, 0, 0);
    if s.tasks[t].gen == s.gen {
      WriteKeepsGenInv(At(s, t, Finished(Returned(id))),
                       if definitive then Entry(id, false, 0, t) else Entry(id, true, MAX_PROVISIONAL_REPROBES, t));
    }
  }

  lemma ReprobedKeepsGenInv(s: State, t: TaskNo, served: Option<Id>, definitive: bool)
    requires GenInv(s) && t < |s.tasks| && s.tasks[t].captured.Some?
    ensures GenInv(Reprobed(s, t, s.tasks[t].captured.value, served, definitive))
  {
    var r := s.tasks[t].captured.value;
    var held := s.heap[r];
    var id := if served.Some? then served.value else held.id;
    if s.tasks[t].gen != s.gen {
      MoveKeepsGenInv(s, t, Finished(Returned(id)), 0, 0, 0);
    } else if definitive {
      MoveKeepsGenInv(s, t, Finished(Returned(id)), 0, 0, 0);
      WriteKeepsGenInv(At(s, t, Finished(Returned(id))),
                       Entry(id, false, 0, if served.Some? then t else held.origin));
    } else {
      SpendKeepsGenInv(s, t, r);
    }
  }

  lemma CountdownKeepsGenInv(s: State, r: Ref)
    requires GenInv(s) && r < |s.heap|
    ensures GenInv(s.(heap := s.heap[r := s.heap[r].(reprobesLeft := s.heap[r].reprobesLeft - 1)]))
  {
    var spent := s.(heap := s.heap[r := s.heap[r].(reprobesLeft := s.heap[r].reprobesLeft - 1)]);
    assert forall q :: 0 <= q < |s.heap| ==> spent.heap[q].origin == s.heap[q].origin;
    assert forall q :: OriginGen(spent, q) == OriginGen(s, q);
  }

  lemma SpendKeepsGenInv(s: State, t: TaskNo, r: Ref)
    requires GenInv(s) && t < |s.tasks| && r < |s.heap| && s.tasks[t].gen == s.gen && OriginGen(s, r) == s.gen
    ensures GenInv(Reprobed(s, t, r, None, false))
  {
    var held := s.heap[r];
    var spent := s.(heap := s.heap[r := held.(reprobesLeft := held.reprobesLeft - 1)]);
    CountdownKeepsGenInv(s, r);
    MoveKeepsGenInv(spent, t, Finished(Returned(held.id)), 0, 0, 0);
    if held.reprobesLeft - 1 <= 0 {
      WriteKeepsGenInv(At(spent, t, Finished(Returned(held.id))), Entry(held.id, false, 0, held.origin));
    }
  }

  lemma CallKeepsGenInv(s: State)
    requires GenInv(s)
    ensures GenInv(Called(s).0)
  {
    var after := Called(s).0;
    assert forall t :: 0 <= t < |s.tasks| ==> after.tasks[t] == s.tasks[t];
    assert forall r :: 0 <= r < |s.heap| ==> OriginGen(after, r) == OriginGen(s, r);
  }

  lemma EvictKeepsGenInv(s: State)
    requires GenInv(s)
    ensures GenInv(Step(s, Evict))
  {
    assert forall r :: OriginGen(Step(s, Evict), r) == OriginGen(s, r);
  }

  lemma ProbeDoneKeepsGenInv(s: State, t: TaskNo, lookup: Lookup)
    requires GenInv(s) && Enabled(s, ProbeDone(t, lookup))
    ensures GenInv(Step(s, ProbeDone(t, lookup)))
  {
    var Probed(served, definitive) := s.tasks[t].phase;
    if s.tasks[t].captured.Some? {
      ReprobedKeepsGenInv(s, t, served, definitive);
    } else if served.Some? {
      ConcludeKeepsGenInv(s, t, served.value, definitive);
    } else {
      MoveKeepsGenInv(s, t, Sleeping, 0, 0, 1);
      var looked := Count(s, t, 0, 0, 1);
      match lookup
      case Owned(id) => ConcludeKeepsGenInv(looked, t, id, definitive);
      case Discovered(id) => ConcludeKeepsGenInv(looked, t, id, definitive);
      case OwnedUnreadable => FailKeepsGenInv(looked, t);
      case Nowhere => MoveKeepsGenInv(looked, t, AwaitingGenesis(definitive), 0, 0, 0);
    }
  }

  lemma FetchDoneKeepsGenInv(s: State, t: TaskNo, answer: FetchAnswer)
    requires GenInv(s) && Enabled(s, FetchDone(t, answer))
    ensures GenInv(Step(s, FetchDone(t, answer)))
  {
    var p := if answer.Served? then Probed(Some(answer.id), true)
             else if answer.NotServed? then Probed(None, true)
             else if s.tasks[t].phase.attempt >= 1 then Probed(None, false)
             else Sleeping;
    MoveKeepsGenInv(s, t, p, 0, 1, 0);
  }

  lemma WakeKeepsGenInv(s: State, t: TaskNo)
    requires GenInv(s) && Enabled(s, Wake(t))
    ensures GenInv(Step(s, Wake(t)))
  {
    MoveKeepsGenInv(s, t, Probing(1), 1, 0, 0);
  }

  lemma GenesisDoneKeepsGenInv(s: State, t: TaskNo, hash: Option<Id>)
    requires GenInv(s) && Enabled(s, GenesisDone(t, hash))
    ensures GenInv(Step(s, GenesisDone(t, hash)))
  {
    if hash.Some? {
      ConcludeKeepsGenInv(s, t, hash.value, s.tasks[t].phase.definitive);
    } else {
      FailKeepsGenInv(s, t);
    }
  }

  lemma FinallyKeepsGenInv(s: State, t: TaskNo)
    requires GenInv(s) && Enabled(s, Finally(t))
    ensures GenInv(Step(s, Finally(t)))
  {
    MoveKeepsGenInv(s, t, Settled(s.tasks[t].phase.outcome), 0, 0, 0);
  }

  lemma StepKeepsGenInv(s: State, e: Event)
    requires GenInv(s) && Enabled(s, e)
    ensures GenInv(Step(s, e))
  {
    match e
    case Call => CallKeepsGenInv(s);
    case Evict => EvictKeepsGenInv(s);
    case FetchDone(t, answer) => FetchDoneKeepsGenInv(s, t, answer);
    case Wake(t) => WakeKeepsGenInv(s, t);
    case ProbeDone(t, lookup) => ProbeDoneKeepsGenInv(s, t, lookup);
    case GenesisDone(t, hash) => GenesisDoneKeepsGenInv(s, t, hash);
    case Finally(t) => FinallyKeepsGenInv(s, t);
  }

  /** A resolution begun before an eviction changes nothing the cache can see: not
      the cache, not a cache object, not the counts of the current generation. */
  lemma StaleResolutionIsVoid(s: State, e: Event)
    requires GenInv(s) && Enabled(s, e) && TaskOf(e).Some? && s.tasks[TaskOf(e).value].gen < s.gen
    ensures Step(s, e).cache == s.cache && Step(s, e).heap == s.heap && Step(s, e).counts == s.counts
  {
  }

  lemma {:induction false} RunKeepsGenInv(s: State, run: seq<Event>)
    requires GenInv(s) && Legal(s, run)
    ensures GenInv(Run(s, run))
    decreases |run|
  {
    if run != [] {
      StepKeepsGenInv(s, run[0]);
      RunKeepsGenInv(Step(s, run[0]), run[1..]);
    }
  }

  // ---- Coalescing ----

  /** The current generation's unsettled resolution is the one in flight: there is
      at most one, and a caller always finds it. */
  ghost predicate Coalesced(s: State) {
    forall t :: 0 <= t < |s.tasks| ==>
                  (s.tasks[t].gen == s.gen && !s.tasks[t].phase.Settled? <==> s.inflight == Some(t))
  }

  /** The `finally` of an earlier generation's resolution runs while a promise of
      the current one is in flight, and deletes it. */
  predicate StaleSettle(s: State, e: Event)
    requires Enabled(s, e)
  {
    e.Finally? && s.tasks[e.task].gen != s.gen && s.inflight.Some?
  }

  /** Only resolution `t` moved, keeping what it read when it started. */
  ghost predicate Moved(s: State, after: State, t: TaskNo) {
    && t < |s.tasks| && |after.tasks| == |s.tasks| && after.gen == s.gen
    && after.tasks[t].gen == s.tasks[t].gen && after.tasks[t].captured == s.tasks[t].captured
    && forall u :: 0 <= u < |s.tasks| && u != t ==> after.tasks[u] == s.tasks[u]
  }

  /** What one step of a resolution may touch. */
  lemma TaskStep(s: State, e: Event)
    requires Enabled(s, e) && TaskOf(e).Some?
    ensures var t, after := TaskOf(e).value, Step(s, e);
            && Moved(s, after, t) && !s.tasks[t].phase.Settled?
            && (e.Finally? <==> !s.tasks[t].Active())
            && (after.tasks[t].Active() ==> s.tasks[t].Active())
            && (e.Finally? <==> after.tasks[t].phase.Settled?)
            && after.inflight == (if e.Finally? then None else s.inflight)
            && (e.Finally? || after.tasks[t].Active() ==> after.cache == s.cache && after.heap == s.heap)
            && (s.tasks[t].gen != s.gen ==> after.cache == s.cache && after.heap == s.heap && after.counts == s.counts)
  {
  }

  lemma StepCoalesced(s: State, e: Event)
    requires GenInv(s) && Coalesced(s) && Enabled(s, e)
    ensures Coalesced(Step(s, e)) <==> !StaleSettle(s, e)
  {
    if TaskOf(e).Some? {
      TaskStep(s, e);
      MoveCoalesced(s, Step(s, e), TaskOf(e).value, e.Finally?);
    }
  }

  lemma MoveCoalesced(s: State, after: State, t: TaskNo, settles: bool)
    requires Coalesced(s) && Moved(s, after, t) && !s.tasks[t].phase.Settled?
    requires s.inflight.Some? ==> s.inflight.value < |s.tasks|
    requires settles <==> after.tasks[t].phase.Settled?
    requires after.inflight == if settles then None else s.inflight
    ensures Coalesced(after) <==> !(settles && s.tasks[t].gen != s.gen && s.inflight.Some?)
  {
    if settles && s.inflight.Some? {
      assert s.tasks[s.inflight.value].gen == s.gen;
      if s.tasks[t].gen != s.gen {
        assert after.tasks[s.inflight.value] == s.tasks[s.inflight.value];
      } else {
        assert s.inflight == Some(t);
      }
    }
  }

  ghost predicate CoalescedThroughout(s: State, run: seq<Event>)
    requires Legal(s, run)
    decreases |run|
  {
    Coalesced(s) && (run == [] || CoalescedThroughout(Step(s, run[0]), run[1..]))
  }

  ghost predicate NoStaleSettle(s: State, run: seq<Event>)
    requires Legal(s, run)
    decreases |run|
  {
    run == [] || (!StaleSettle(s, run[0]) && NoStaleSettle(Step(s, run[0]), run[1..]))
  }

  /** One live resolution per generation in every state of a run, exactly when no
      stale `finally` fires while a newer promise is in flight. */
  lemma {:induction false} CoalescingExact(s: State, run: seq<Event>)
    requires GenInv(s) && Coalesced(s) && Legal(s, run)
    ensures CoalescedThroughout(s, run) <==> NoStaleSettle(s, run)
    decreases |run|
  {
    if run != [] {
      StepKeepsGenInv(s, run[0]);
      StepCoalesced(s, run[0]);
      if !StaleSettle(s, run[0]) {
        CoalescingExact(Step(s, run[0]), run[1..]);
      }
    }
  }

  /** No resolution of an earlier generation is outstanding. */
  ghost predicate NoneOutstanding(s: State) {
    forall t :: 0 <= t < |s.tasks| && s.tasks[t].gen != s.gen ==> s.tasks[t].phase.Settled?
  }

  /** Evictions happen only when every resolution has settled. */
  ghost predicate QuietEvictions(s: State, run: seq<Event>)
    requires Legal(s, run)
    decreases |run|
  {
    run == [] ||
    ((run[0].Evict? ==> forall t :: 0 <= t < |s.tasks| ==> s.tasks[t].phase.Settled?) &&
     QuietEvictions(Step(s, run[0]), run[1..]))
  }

  lemma {:induction false} QuietEvictionsSuffice(s: State, run: seq<Event>)
    requires NoneOutstanding(s) && Legal(s, run) && QuietEvictions(s, run)
    ensures NoStaleSettle(s, run)
    decreases |run|
  {
    if run != [] {
      var e, after := run[0], Step(s, run[0]);
      assert NoneOutstanding(after) by {
        if TaskOf(e).Some? {
          TaskStep(s, e);
        }
      }
      QuietEvictionsSuffice(after, run[1..]);
    }
  }

  /** Otherwise, nothing being committed, it starts one that goes on from the cache. */
  lemma CallStarts(s: State)
    requires !Committed(s) && s.inflight.None?
    ensures var (after, r) := Called(s);
            var t := |s.tasks|;
            && r == Waits(t) && after.inflight == Some(t) && after.cache == s.cache && after.heap == s.heap
            && |after.tasks| == t + 1 && after.tasks[..t] == s.tasks
            && after.tasks[t] == Task(s.gen, s.cache, Probing(0))
  {
  }

  /** Whoever calls gets the committed id or the one live resolution. */
  lemma CallersShare(s: State, t: TaskNo)
    requires GenInv(s) && Coalesced(s) && t < |s.tasks| && s.tasks[t].gen == s.gen && !s.tasks[t].phase.Settled?
    requires !Committed(s)
    ensures Called(s) == (s, Waits(t))
  {
  }

  // ---- When the cache entry gives way, with no hypothesis on the interleaving ----

  /** The entry a step commits or holds, if it ends a resolution of the current
      generation with an id: a looked-up id, a definitive probe, or the last re-probe. */
  function Written(s: State, e: Event): Option<Entry>
    requires Enabled(s, e)
  {
    if TaskOf(e).None? || s.tasks[TaskOf(e).value].gen != s.gen then None
    else
      match e
      case ProbeDone(t, lookup) =>
        var Probed(served, definitive) := s.tasks[t].phase;
        if s.tasks[t].captured.Some? then RewrittenHeld(t, s.heap[s.tasks[t].captured.value], served, definitive)
        else if served.Some? then Some(NewEntry(t, served.value, definitive))
        else if lookup.Owned? || lookup.Discovered? then Some(NewEntry(t, lookup.id, definitive))
        else None
      case GenesisDone(t, hash) =>
        if hash.None? then None else Some(NewEntry(t, hash.value, s.tasks[t].phase.definitive))
      case _ => None
  }

  function NewEntry(t: TaskNo, id: Id, definitive: bool): Entry {
    Entry(id, !definitive, if definitive then 0 else MAX_PROVISIONAL_REPROBES, t)
  }

  function RewrittenHeld(t: TaskNo, held: Entry, served: Option<Id>, definitive: bool): Option<Entry> {
    if definitive && served.Some? then Some(Entry(served.value, false, 0, t))
    else if definitive then Some(Entry(held.id, false, 0, held.origin))
    else if held.reprobesLeft <= 1 then Some(Entry(held.id, false, 0, held.origin))
    else None
  }

  /** The cache is as before, or holds the written entry in a new object; no object
      changed its id or whether it is provisional. */
  ghost predicate GaveWayTo(s: State, after: State, w: Option<Entry>) {
    && after.cache == (if w.Some? then Some(|s.heap|) else s.cache)
    && |after.heap| == |s.heap| + (if w.Some? then 1 else 0)
    && (w.Some? ==> after.heap[|s.heap|] == w.value)
    && forall r :: 0 <= r < |s.heap| ==>
                     after.heap[r].id == s.heap[r].id && after.heap[r].provisional == s.heap[r].provisional
  }

  lemma ProbeGivesWay(s: State, e: Event)
    requires GenInv(s) && Enabled(s, e) && e.ProbeDone?
    ensures GaveWayTo(s, Step(s, e), Written(s, e))
  {
    var t := e.task;
    var Probed(served, definitive) := s.tasks[t].phase;
    if s.tasks[t].captured.Some? {
      ReprobeGivesWay(s, t, s.tasks[t].captured.value, served, definitive);
    } else if served.Some? {
      ConcludeGivesWay(s, t, served.value, definitive);
    } else {
      var looked := Count(s, t, 0, 0, 1);
      if e.lookup.Owned? || e.lookup.Discovered? {
        ConcludeGivesWay(looked, t, e.lookup.id, definitive);
      }
    }
  }

  lemma ConcludeGivesWay(s: State, t: TaskNo, id: Id, definitive: bool)
    requires t < |s.tasks|
    ensures GaveWayTo(s, Conclude(s, t, id, definitive),
                      if s.tasks[t].gen == s.gen then Some(NewEntry(t, id, definitive)) else None)
  {
  }

  lemma ReprobeGivesWay(s: State, t: TaskNo, r: Ref, served: Option<Id>, definitive: bool)
    requires t < |s.tasks| && r < |s.heap|
    ensures GaveWayTo(s, Reprobed(s, t, r, served, definitive),
                      if s.tasks[t].gen == s.gen then RewrittenHeld(t, s.heap[r], served, definitive) else None)
  {
  }

  /** Short of an eviction a step leaves the cache alone unless it writes. */
  lemma CacheGivesWay(s: State, e: Event)
    requires GenInv(s) && Enabled(s, e) && e != Evict
    ensures GaveWayTo(s, Step(s, e), Written(s, e))
  {
    match e
    case ProbeDone(_, _) => ProbeGivesWay(s, e);
    case GenesisDone(t, hash) =>
      if hash.Some? {
        ConcludeGivesWay(s, t, hash.value, s.tasks[t].phase.definitive);
      }
    case _ =>
  }

  /** The cache goes on answering every caller with this id. */
  predicate Answers(s: State, id: Id) {
    Committed(s) && s.heap[s.cache.value].id == id
  }

  /** Absent, provisional, committed. */
  function Rank(s: State): nat {
    if s.cache.None? then 0 else if Committed(s) then 2 else 1
  }

  /** The step writes something else than this id, committed. */
  predicate Overrules(s: State, e: Event, id: Id)
    requires Enabled(s, e)
  {
    Written(s, e).Some? && (Written(s, e).value.provisional || Written(s, e).value.id != id)
  }

  /** The step writes a provisional entry over a committed one. */
  predicate FallsBack(s: State, e: Event)
    requires Enabled(s, e)
  {
    Committed(s) && Written(s, e).Some? && Written(s, e).value.provisional
  }

  lemma StepAnswers(s: State, e: Event, id: Id)
    requires GenInv(s) && Answers(s, id) && Enabled(s, e) && e != Evict
    ensures Called(s) == (s, Known(id))
    ensures Step(s, e).cache == s.cache <==> Written(s, e).None?
    ensures Answers(Step(s, e), id) <==> !Overrules(s, e, id)
  {
    CacheGivesWay(s, e);
  }

  lemma StepRank(s: State, e: Event)
    requires GenInv(s) && Enabled(s, e) && e != Evict
    ensures Rank(s) <= Rank(Step(s, e)) <==> !FallsBack(s, e)
  {
    CacheGivesWay(s, e);
  }

  ghost predicate AnswersThroughout(s: State, run: seq<Event>, id: Id)
    requires Legal(s, run)
    decreases |run|
  {
    Answers(s, id) && (run == [] || AnswersThroughout(Step(s, run[0]), run[1..], id))
  }

  ghost predicate NoneOverrules(s: State, run: seq<Event>, id: Id)
    requires Legal(s, run)
    decreases |run|
  {
    run == [] || (!Overrules(s, run[0], id) && NoneOverrules(Step(s, run[0]), run[1..], id))
  }

  ghost predicate NothingWritten(s: State, run: seq<Event>)
    requires Legal(s, run)
    decreases |run|
  {
    run == [] || (Written(s, run[0]).None? && NothingWritten(Step(s, run[0]), run[1..]))
  }

  ghost predicate NoEvict(run: seq<Event>) {
    forall i :: 0 <= i < |run| ==> run[i] != Evict
  }

  /** A committed id answers every call of a run without eviction, exactly when no
      resolution of the generation ends in a provisional entry or another id. */
  lemma {:induction false} CommittedIdStays(s: State, run: seq<Event>, id: Id)
    requires GenInv(s) && Answers(s, id) && Legal(s, run) && NoEvict(run)
    ensures AnswersThroughout(s, run, id) <==> NoneOverrules(s, run, id)
    decreases |run|
  {
    if run != [] {
      StepKeepsGenInv(s, run[0]);
      StepAnswers(s, run[0], id);
      if !Overrules(s, run[0], id) {
        CommittedIdStays(Step(s, run[0]), run[1..], id);
      }
    }
  }

  /** The cached object is the same at the end of such a run exactly when nothing was
      written: objects are never put back. */
  lemma {:induction false} CachedObjectStays(s: State, run: seq<Event>, at: nat)
    requires GenInv(s) && Legal(s, run) && NoEvict(run) && at <= |s.heap|
    ensures NothingWritten(s, run) ==> Run(s, run).cache == s.cache
    ensures !NothingWritten(s, run) ==> Run(s, run).cache.Some? && Run(s, run).cache.value >= at
    ensures s.cache.Some? ==> (Run(s, run).cache == s.cache <==> NothingWritten(s, run))
    decreases |run|
  {
    if run != [] {
      var after := Step(s, run[0]);
      StepKeepsGenInv(s, run[0]);
      CacheGivesWay(s, run[0]);
      CachedObjectStays(after, run[1..], |s.heap|);
    }
  }

  ghost predicate AdvancesThroughout(s: State, run: seq<Event>)
    requires Legal(s, run)
    decreases |run|
  {
    run == [] ||
    ((run[0] == Evict || Rank(s) <= Rank(Step(s, run[0]))) && AdvancesThroughout(Step(s, run[0]), run[1..]))
  }

  ghost predicate NoneFallsBack(s: State, run: seq<Event>)
    requires Legal(s, run)
    decreases |run|
  {
    run == [] || (!FallsBack(s, run[0]) && NoneFallsBack(Step(s, run[0]), run[1..]))
  }

  /** Between evictions the entry moves only absent, provisional, committed, exactly
      when no provisional entry is written over a committed one. */
  lemma {:induction false} AdvancesExactly(s: State, run: seq<Event>)
    requires GenInv(s) && Legal(s, run)
    ensures AdvancesThroughout(s, run) <==> NoneFallsBack(s, run)
    decreases |run|
  {
    if run != [] {
      StepKeepsGenInv(s, run[0]);
      if run[0] != Evict {
        StepRank(s, run[0]);
      }
      AdvancesExactly(Step(s, run[0]), run[1..]);
    }
  }

  // ---- With one resolution at work it never does, and settles within a budget ----

  /** The resolution at work found the cache as it still is: not committed. */
  ghost predicate CacheAwaits(s: State) {
    forall t :: 0 <= t < |s.tasks| && s.tasks[t].gen == s.gen && s.tasks[t].Active() ==>
                  s.cache == s.tasks[t].captured && !Committed(s)
  }

  ghost predicate OneAtWork(s: State) {
    GenInv(s) && Coalesced(s) && CacheAwaits(s)
  }

  lemma StepKeepsOneAtWork(s: State, e: Event)
    requires OneAtWork(s) && Enabled(s, e) && !StaleSettle(s, e)
    ensures OneAtWork(Step(s, e))
  {
    StepKeepsGenInv(s, e);
    StepCoalesced(s, e);
    StepKeepsCacheAwaits(s, e);
  }

  lemma StepKeepsCacheAwaits(s: State, e: Event)
    requires OneAtWork(s) && Enabled(s, e)
    ensures CacheAwaits(Step(s, e))
  {
    if TaskOf(e).Some? {
      TaskStep(s, e);
      MoveCacheAwaits(s, Step(s, e), TaskOf(e).value);
    }
  }

  lemma MoveCacheAwaits(s: State, after: State, t: TaskNo)
    requires Coalesced(s) && CacheAwaits(s) && Moved(s, after, t) && !s.tasks[t].phase.Settled?
    requires s.tasks[t].gen != s.gen || after.tasks[t].Active() || !s.tasks[t].Active() ==>
               after.cache == s.cache && after.heap == s.heap
    requires after.tasks[t].Active() ==> s.tasks[t].Active()
    ensures CacheAwaits(after)
  {
    if s.tasks[t].gen == s.gen {
      assert s.inflight == Some(t);
      assert forall u :: 0 <= u < |s.tasks| && u != t && s.tasks[u].gen == s.gen ==> s.tasks[u].phase.Settled?;
    }
  }

  /** Nothing is written over a committed entry. */
  lemma NothingWrittenOnceCommitted(s: State, e: Event)
    requires OneAtWork(s) && Enabled(s, e) && Committed(s)
    ensures Written(s, e).None?
  {
  }

  /** Until the next eviction the entry never falls back; once committed, its id,
      its cache object and the counts stay, and every caller is answered with it. */
  lemma CacheOnlyAdvances(s: State, e: Event)
    requires OneAtWork(s) && Enabled(s, e) && e != Evict
    ensures Rank(s) <= Rank(Step(s, e))
    ensures Committed(s) ==>
              && Step(s, e).cache == s.cache
              && Step(s, e).counts == s.counts
              && Answers(Step(s, e), s.heap[s.cache.value].id)
  {
    StepRank(s, e);
    if Committed(s) {
      NothingWrittenOnceCommitted(s, e);
      StepAnswers(s, e, s.heap[s.cache.value].id);
    }
  }

  /** Over runs: without a stale `finally` no provisional entry is written over a
      committed one. */
  lemma {:induction false} CoalescingAdvances(s: State, run: seq<Event>)
    requires OneAtWork(s) && Legal(s, run) && NoStaleSettle(s, run)
    ensures NoneFallsBack(s, run)
    decreases |run|
  {
    if run != [] {
      if Committed(s) {
        NothingWrittenOnceCommitted(s, run[0]);
      }
      StepKeepsOneAtWork(s, run[0]);
      CoalescingAdvances(Step(s, run[0]), run[1..]);
    }
  }

  /** The step makes a resolution of the current generation throw. */
  predicate Throws(s: State, e: Event)
    requires Enabled(s, e)
  {
    TaskOf(e).Some? && s.tasks[TaskOf(e).value].gen == s.gen &&
    Step(s, e).tasks[TaskOf(e).value].phase == Finished(Threw)
  }

  /** Unanswered probes behind the entry now in the cache. */
  function Behind(s: State): int {
    if s.cache.None? || s.cache.value >= |s.heap| then 0
    else 1 + MAX_PROVISIONAL_REPROBES - s.heap[s.cache.value].reprobesLeft
  }

  /** Between two numbers of fetches, of unanswered probes, and at most so many visits
      to the lower tiers, allowing for what the resolutions that threw have cost. */
  predicate Spent(c: Counts, fetches: int, unanswered: int, lowerTiers: int) {
    && fetches <= c.fetches <= fetches + 2 * c.threw
    && unanswered <= c.unanswered <= unanswered + c.threw
    && c.lowerTiers <= lowerTiers + c.threw
  }

  /** The bound on a generation, allowing for the resolutions that threw. */
  predicate WithinBounds(c: Counts) {
    c.fetches <= 6 + 2 * c.threw && c.unanswered <= 3 + c.threw && c.lowerTiers <= 1 + c.threw
  }

  ghost predicate IdleBudget(s: State) {
    var b := Behind(s);
    if Committed(s) then WithinBounds(s.counts)
    else 0 <= b <= 2 && (s.cache.Some? ==> 1 <= b) && Spent(s.counts, 2 * b, b, if b == 0 then 0 else 1)
  }

  ghost predicate WorkBudget(s: State, t: TaskNo)
    requires t < |s.tasks|
  {
    var b, c := Behind(s), s.counts;
    var visits := if b == 0 then 0 else 1;
    && 0 <= b <= 2 && (s.cache.Some? ==> 1 <= b)
    && match s.tasks[t].phase
       case Probing(a) => a <= 1 && Spent(c, 2 * b + a + 1, b, visits)
       case Sleeping => Spent(c, 2 * b + 1, b, visits)
       case Probed(served, definitive) =>
         if definitive then Spent(c, 2 * b + 1, b, visits) || Spent(c, 2 * b + 2, b, visits)
         else Spent(c, 2 * b + 2, b + 1, visits) && served.None?
       case AwaitingGenesis(definitive) =>
         && b == 0 && c.lowerTiers >= 1 && s.tasks[t].captured.None?
         && (if definitive then Spent(c, 1, 0, 1) || Spent(c, 2, 0, 1) else Spent(c, 2, 1, 1))
       case _ => true
  }

  /** No resolution of the current generation is at work. */
  ghost predicate AtRest(s: State) {
    forall t :: 0 <= t < |s.tasks| && s.tasks[t].gen == s.gen ==> !s.tasks[t].Active()
  }

  ghost predicate Budget(s: State) {
    && (forall t :: 0 <= t < |s.tasks| && s.tasks[t].gen == s.gen && s.tasks[t].Active() ==> WorkBudget(s, t))
    && (AtRest(s) ==> IdleBudget(s))
  }

  /** Within one generation, n of whose resolutions threw: at most 3 + n probes without
      an answer, 6 + 2n fetches, 1 + n visits to the lower tiers; at rest with 3 + n such
      probes the id is committed. */
  lemma BudgetBounds(s: State)
    requires OneAtWork(s) && Budget(s)
    ensures WithinBounds(s.counts)
    ensures AtRest(s) && s.counts.unanswered == 3 + s.counts.threw ==> Committed(s)
  {
    if t :| 0 <= t < |s.tasks| && s.tasks[t].gen == s.gen && s.tasks[t].Active() {
      assert WorkBudget(s, t);
    }
  }

  /** The account after the resolution at work has moved. */
  ghost predicate Accounted(after: State, t: TaskNo)
    requires t < |after.tasks|
  {
    if after.tasks[t].Active() then WorkBudget(after, t) else IdleBudget(after)
  }

  /** One step of the resolution at work keeps the account, whether it throws or not. */
  lemma WorkStep(s: State, e: Event, t: TaskNo)
    requires Enabled(s, e) && TaskOf(e) == Some(t) && !e.Finally?
    requires s.tasks[t].gen == s.gen && s.cache == s.tasks[t].captured && !Committed(s)
    requires s.cache.Some? ==> s.cache.value < |s.heap|
    requires WorkBudget(s, t)
    ensures Accounted(Step(s, e), t)
  {
    match e
    case FetchDone(_, answer) =>
    case Wake(_) =>
    case ProbeDone(_, lookup) =>
      var Probed(served, definitive) := s.tasks[t].phase;
      if s.tasks[t].captured.Some? {
        WorkReprobed(s, t, served, definitive);
      } else if served.Some? {
        WorkConclude(s, t, served.value, definitive);
      } else {
        WorkLookup(s, t, lookup, definitive);
      }
    case GenesisDone(_, hash) =>
      if hash.Some? {
        WorkConclude(s, t, hash.value, s.tasks[t].phase.definitive);
      }
  }

  lemma WorkReprobed(s: State, t: TaskNo, served: Option<Id>, definitive: bool)
    requires t < |s.tasks| && s.tasks[t].gen == s.gen && s.cache.Some? && s.cache.value < |s.heap| && !Committed(s)
    requires s.tasks[t].phase == Probed(served, definitive) && WorkBudget(s, t)
    ensures Accounted(Reprobed(s, t, s.cache.value, served, definitive), t)
  {
  }

  lemma WorkConclude(s: State, t: TaskNo, id: Id, definitive: bool)
    requires t < |s.tasks| && s.tasks[t].gen == s.gen && s.cache.None?
    requires if definitive then Spent(s.counts, 1, 0, 1) || Spent(s.counts, 2, 0, 1) else Spent(s.counts, 2, 1, 1)
    ensures Accounted(Conclude(s, t, id, definitive), t)
  {
  }

  lemma WorkLookup(s: State, t: TaskNo, lookup: Lookup, definitive: bool)
    requires t < |s.tasks| && s.tasks[t].gen == s.gen && s.cache.None? && s.tasks[t].captured.None?
    requires s.tasks[t].phase == Probed(None, definitive) && WorkBudget(s, t)
    ensures Accounted(Step(s, ProbeDone(t, lookup)), t)
  {
    var looked := Count(s, t, 0, 0, 1);
    match lookup
    case Owned(id) => WorkConclude(looked, t, id, definitive);
    case Discovered(id) => WorkConclude(looked, t, id, definitive);
    case OwnedUnreadable =>
    case Nowhere =>
  }

  lemma StepKeepsBudget(s: State, e: Event)
    requires OneAtWork(s) && Budget(s) && Enabled(s, e) && !StaleSettle(s, e)
    ensures OneAtWork(Step(s, e)) && Budget(Step(s, e))
  {
    StepKeepsOneAtWork(s, e);
    if TaskOf(e).Some? {
      var t := TaskOf(e).value;
      TaskStep(s, e);
      if s.tasks[t].gen == s.gen && s.tasks[t].Active() {
        WorkStep(s, e, t);
        MoveBudget(s, Step(s, e), t);
      } else {
        MoveIdleBudget(s, Step(s, e), t);
      }
    } else if e.Call? {
      CallBudget(s);
    }
  }

  lemma MoveBudget(s: State, after: State, t: TaskNo)
    requires OneAtWork(s) && GenInv(after) && Moved(s, after, t)
    requires s.tasks[t].gen == s.gen && !s.tasks[t].phase.Settled?
    requires if after.tasks[t].Active() then WorkBudget(after, t) else IdleBudget(after)
    ensures Budget(after)
  {
    assert s.inflight == Some(t);
    assert forall u :: 0 <= u < |s.tasks| && u != t && s.tasks[u].gen == s.gen ==> s.tasks[u].phase.Settled?;
  }

  lemma MoveIdleBudget(s: State, after: State, t: TaskNo)
    requires GenInv(s) && GenInv(after) && Budget(s) && Moved(s, after, t)
    requires s.tasks[t].gen != s.gen || !s.tasks[t].Active()
    requires after.tasks[t].Active() ==> s.tasks[t].Active()
    requires after.cache == s.cache && after.heap == s.heap && after.counts == s.counts
    ensures Budget(after)
  {
    forall u | 0 <= u < |after.tasks| && after.tasks[u].gen == after.gen && after.tasks[u].Active()
      ensures WorkBudget(after, u)
    {
      assert u != t && after.tasks[u] == s.tasks[u] && WorkBudget(s, u);
    }
    if AtRest(after) {
      assert forall u :: 0 <= u < |s.tasks| && s.tasks[u].gen == s.gen && u != t ==> after.tasks[u] == s.tasks[u];
      assert IdleBudget(s);
    }
  }

  lemma CallBudget(s: State)
    requires OneAtWork(s) && Budget(s)
    ensures Budget(Called(s).0)
  {
    if !Committed(s) && s.inflight.None? {
      assert forall u :: 0 <= u < |s.tasks| && s.tasks[u].gen == s.gen ==> s.tasks[u].phase.Settled?;
      assert IdleBudget(s);
      assert forall u :: 0 <= u < |s.tasks| ==> Called(s).0.tasks[u] == s.tasks[u];
    }
  }

  /** A committed id, and the account, outlive any run without an eviction. */
  lemma {:induction false} CommittedUntilEvict(s: State, run: seq<Event>)
    requires OneAtWork(s) && Committed(s) && Legal(s, run) && NoStaleSettle(s, run)
    requires NoEvict(run)
    ensures var after := Run(s, run);
            && Called(after) == (after, Known(s.heap[s.cache.value].id))
            && after.counts == s.counts
    decreases |run|
  {
    if run != [] {
      CacheOnlyAdvances(s, run[0]);
      StepKeepsOneAtWork(s, run[0]);
      CommittedUntilEvict(Step(s, run[0]), run[1..]);
    }
  }

  /** In every state of every run in which no stale `finally` deletes a newer promise,
      the current generation has cost at most 6 + 2n fetches, 3 + n unanswered probes and
      1 + n visits to the lower tiers, n of its resolutions having thrown, and at rest
      with 3 + n such probes it has committed an id. */
  lemma {:induction false} SettlingIsBounded(s: State, run: seq<Event>)
    requires OneAtWork(s) && Budget(s) && Legal(s, run) && NoStaleSettle(s, run)
    ensures var after := Run(s, run);
            && WithinBounds(after.counts)
            && (AtRest(after) && after.counts.unanswered == 3 + after.counts.threw ==> Committed(after))
    decreases |run|
  {
    if run == [] {
      BudgetBounds(s);
    } else {
      StepKeepsBudget(s, run[0]);
      SettlingIsBounded(Step(s, run[0]), run[1..]);
    }
  }

  /** What `threw` counts. */
  lemma ThrowsAreCounted(s: State, e: Event)
    requires Enabled(s, e)
    ensures Step(s, e).counts.threw == if e == Evict then 0 else s.counts.threw + (if Throws(s, e) then 1 else 0)
  {
  }

  ghost predicate NoThrow(s: State, run: seq<Event>)
    requires Legal(s, run)
    decreases |run|
  {
    run == [] || (!Throws(s, run[0]) && NoThrow(Step(s, run[0]), run[1..]))
  }

  lemma {:induction false} NoneThrew(s: State, run: seq<Event>)
    requires Legal(s, run) && NoThrow(s, run) && s.counts.threw == 0
    ensures Run(s, run).counts.threw == 0
    decreases |run|
  {
    if run != [] {
      ThrowsAreCounted(s, run[0]);
      NoneThrew(Step(s, run[0]), run[1..]);
    }
  }

  /** With none throwing: three unanswered probes, six fetches, one visit. */
  lemma SettlingWithoutThrows(s: State, run: seq<Event>)
    requires OneAtWork(s) && Budget(s) && Legal(s, run) && NoStaleSettle(s, run)
    requires NoThrow(s, run) && s.counts.threw == 0
    ensures var after := Run(s, run);
            && after.counts.fetches <= 6 && after.counts.unanswered <= 3 && after.counts.lowerTiers <= 1
            && (AtRest(after) && after.counts.unanswered == 3 ==> Committed(after))
  {
    NoneThrew(s, run);
    SettlingIsBounded(s, run);
  }

  // ---- What a resolution answers its callers with ----

  /** The last answer each resolution's fetches were given, over a run. */
  type Heard = map<TaskNo, FetchAnswer>

  function Hears(e: Event, h: Heard): Heard {
    if e.FetchDone? then h[e.task := e.answer] else h
  }

  function HeardIn(run: seq<Event>, h: Heard): Heard {
    if run == [] then h else HeardIn(run[1..], Hears(run[0], h))
  }

  function ServedBy(answer: FetchAnswer): Option<Id> {
    if answer.Served? then Some(answer.id) else None
  }

  /** A resolution past its probe goes by the last answer it was given. */
  ghost predicate Knows(s: State, h: Heard) {
    forall t :: 0 <= t < |s.tasks| ==>
                  match s.tasks[t].phase
                  case Probed(served, definitive) =>
                    t in h && served == ServedBy(h[t]) && definitive == !h[t].NoAnswer?
                  case AwaitingGenesis(definitive) =>
                    && t in h && !h[t].Served? && definitive == !h[t].NoAnswer?
                    && s.tasks[t].captured.None?
                  case _ => true
  }

  /** What any one event makes the resolution's caller see, evicted meanwhile or not:
      the served id; without one the held id on a re-probe, else the looked-up id or
      the genesis hash; and no other event changes it. */
  ghost predicate Answered(s: State, e: Event, h: Heard, after: Phase)
    requires Enabled(s, e)
  {
    match e
    case FetchDone(t, answer) =>
      if answer == NoAnswer && s.tasks[t].phase.attempt == 0 then after == Sleeping
      else after == Probed(ServedBy(answer), answer != NoAnswer)
    case Wake(t) => after == Probing(1)
    case ProbeDone(t, lookup) =>
      t in h &&
      (if h[t].Served? then after == Finished(Returned(h[t].id))
       else if s.tasks[t].captured.Some? then after == Finished(Returned(s.heap[s.tasks[t].captured.value].id))
       else
         match lookup
         case Owned(id) => after == Finished(Returned(id))
         case Discovered(id) => after == Finished(Returned(id))
         case OwnedUnreadable => after == Finished(Threw)
         case Nowhere => after.AwaitingGenesis?)
    case GenesisDone(t, hash) => after == Finished(if hash.Some? then Returned(hash.value) else Threw)
    case Finally(t) => after == Settled(s.tasks[t].phase.outcome)
    case _ => true
  }

  lemma EndingAnswers(s: State, e: Event, h: Heard)
    requires Knows(s, h) && Enabled(s, e) && TaskOf(e).Some?
    ensures |Step(s, e).tasks| == |s.tasks| && Answered(s, e, h, Step(s, e).tasks[TaskOf(e).value].phase)
  {
    assert TaskOf(e).value < |s.tasks|;
  }

  lemma StepKnows(s: State, e: Event, h: Heard)
    requires Knows(s, h) && Enabled(s, e)
    ensures Knows(Step(s, e), Hears(e, h))
  {
    if TaskOf(e).Some? {
      TaskStep(s, e);
      EndingAnswers(s, e, h);
      MovedKnows(s, e, h);
    } else {
      assert forall t :: 0 <= t < |s.tasks| ==> Step(s, e).tasks[t] == s.tasks[t];
    }
  }

  lemma MovedKnows(s: State, e: Event, h: Heard)
    requires Knows(s, h) && Enabled(s, e) && TaskOf(e).Some? && Moved(s, Step(s, e), TaskOf(e).value)
    ensures Knows(Step(s, e), Hears(e, h))
  {
    var t, after := TaskOf(e).value, Step(s, e);
    forall u | 0 <= u < |s.tasks| && u != t
      ensures after.tasks[u] == s.tasks[u] && (u in h ==> u in Hears(e, h) && Hears(e, h)[u] == h[u])
    {
    }
  }

  /** In every interleaving, from the initial state. */
  lemma {:induction false} RunKnows(s: State, run: seq<Event>, h: Heard)
    requires Knows(s, h) && Legal(s, run)
    ensures Knows(Run(s, run), HeardIn(run, h))
    decreases |run|
  {
    if run != [] {
      StepKnows(s, run[0], h);
      RunKnows(Step(s, run[0]), run[1..], Hears(run[0], h));
    }
  }

  /** The outcome a resolution has reached. */
  function OutcomeOf(p: Phase): Option<Outcome> {
    match p
    case Finished(outcome) => Some(outcome)
    case Settled(outcome) => Some(outcome)
    case _ => None
  }

  predicate ReturnedBy(s: State, t: TaskNo, id: Id) {
    t < |s.tasks| && OutcomeOf(s.tasks[t].phase) == Some(Returned(id))
  }

  /** Every cache object holds what the resolution it came from has returned. */
  ghost predicate HeldWasReturned(s: State) {
    forall r :: 0 <= r < |s.heap| ==> ReturnedBy(s, s.heap[r].origin, s.heap[r].id)
  }

  /** A step that changes the cache, short of an eviction, caches the very id it
      returns, committed exactly if the probe's answer was definitive or the re-probes
      are spent; so the next call answers what the waiting callers were told. */
  lemma WriterReturnsWhatIsCached(s: State, e: Event, h: Heard)
    requires GenInv(s) && Knows(s, h) && Enabled(s, e) && e != Evict && Step(s, e).cache != s.cache
    ensures (e.ProbeDone? || e.GenesisDone?) && e.task in h && e.task < |Step(s, e).tasks|
    ensures Step(s, e).cache == Some(|s.heap|) && |Step(s, e).heap| == |s.heap| + 1
    ensures var after := Step(s, e);
            var entry := after.heap[|s.heap|];
            && OutcomeOf(after.tasks[e.task].phase) == Some(Returned(entry.id))
            && (entry.provisional <==> h[e.task].NoAnswer? && s.tasks[e.task].captured.None?)
            && (!entry.provisional ==> Called(after) == (after, Known(entry.id)))
            && (entry.provisional ==> entry.reprobesLeft == 2)
  {
    CacheGivesWay(s, e);
    EndingAnswers(s, e, h);
  }

  lemma StepHeldWasReturned(s: State, e: Event)
    requires GenInv(s) && HeldWasReturned(s) && Enabled(s, e)
    ensures HeldWasReturned(Step(s, e))
  {
    if TaskOf(e).Some? {
      TaskStep(s, e);
      OriginsStay(s, e);
      CacheGivesWay(s, e);
      WrittenWasReturned(s, e);
      ObjectsKeepOrigin(s, e);
      HeldAfterWrite(s, Step(s, e), Written(s, e));
    } else {
      assert forall t :: 0 <= t < |s.tasks| ==> Step(s, e).tasks[t] == s.tasks[t];
    }
  }

  lemma OriginsStay(s: State, e: Event)
    requires GenInv(s) && HeldWasReturned(s) && Enabled(s, e) && TaskOf(e).Some?
    requires Moved(s, Step(s, e), TaskOf(e).value)
    ensures forall r :: 0 <= r < |s.heap| ==>
                          ReturnedBy(Step(s, e), s.heap[r].origin, s.heap[r].id)
  {
    var t, after := TaskOf(e).value, Step(s, e);
    forall r | 0 <= r < |s.heap|
      ensures ReturnedBy(after, s.heap[r].origin, s.heap[r].id)
    {
      var u := s.heap[r].origin;
      assert OutcomeOf(s.tasks[u].phase) == Some(Returned(s.heap[r].id));
      if u == t {
        assert e == Finally(t);
      } else {
        assert after.tasks[u] == s.tasks[u];
      }
    }
  }

  lemma HeldAfterWrite(s: State, after: State, w: Option<Entry>)
    requires GaveWayTo(s, after, w)
    requires forall r :: 0 <= r < |s.heap| ==> after.heap[r].origin == s.heap[r].origin
    requires forall r :: 0 <= r < |s.heap| ==> ReturnedBy(after, s.heap[r].origin, s.heap[r].id)
    requires w.Some? ==> ReturnedBy(after, w.value.origin, w.value.id)
    ensures HeldWasReturned(after)
  {
    forall r | 0 <= r < |after.heap|
      ensures ReturnedBy(after, after.heap[r].origin, after.heap[r].id)
    {
    }
  }

  lemma ObjectsKeepOrigin(s: State, e: Event)
    requires Enabled(s, e)
    ensures |s.heap| <= |Step(s, e).heap|
    ensures forall r :: 0 <= r < |s.heap| ==> Step(s, e).heap[r].origin == s.heap[r].origin
  {
  }

  /** The written entry too: it is from the resolution that ends, or from that of the
      held object. */
  lemma WrittenWasReturned(s: State, e: Event)
    requires GenInv(s) && Enabled(s, e) && TaskOf(e).Some? && Moved(s, Step(s, e), TaskOf(e).value)
    requires GaveWayTo(s, Step(s, e), Written(s, e))
    ensures var w, after := Written(s, e), Step(s, e);
            w.Some? ==>
              || (w.value.origin == TaskOf(e).value && ReturnedBy(after, w.value.origin, w.value.id))
              || exists r :: 0 <= r < |s.heap| && s.heap[r].origin == w.value.origin && s.heap[r].id == w.value.id
  {
    var t, w := TaskOf(e).value, Written(s, e);
    if w.Some? && w.value.origin != t {
      var r := s.tasks[t].captured.value;
      assert s.heap[r].origin == w.value.origin && s.heap[r].id == w.value.id;
    }
  }

  /** In every interleaving: what is cached was returned by the resolution it is from. */
  lemma {:induction false} RunHeldWasReturned(s: State, run: seq<Event>)
    requires GenInv(s) && HeldWasReturned(s) && Legal(s, run)
    ensures HeldWasReturned(Run(s, run))
    decreases |run|
  {
    if run != [] {
      StepKeepsGenInv(s, run[0]);
      StepHeldWasReturned(s, run[0]);
      RunHeldWasReturned(Step(s, run[0]), run[1..]);
    }
  }

  /** From the initial state on: what a resolution answers is what it was told last. */
  lemma AnswersOverRuns(run: seq<Event>, e: Event)
    requires Legal(Init(), run) && Enabled(Run(Init(), run), e) && TaskOf(e).Some?
    ensures var s := Run(Init(), run);
            && |Step(s, e).tasks| == |s.tasks|
            && Answered(s, e, HeardIn(run, map[]), Step(s, e).tasks[TaskOf(e).value].phase)
            && HeldWasReturned(s)
  {
    RunKnows(Init(), run, map[]);
    RunHeldWasReturned(Init(), run);
    EndingAnswers(Run(Init(), run), e, HeardIn(run, map[]));
  }

  lemma InitIsSound()
    ensures OneAtWork(Init()) && Budget(Init()) && NoneOutstanding(Init())
  {
  }

  // ---- What the stale `finally` costs ----

  lemma Unroll(s: State, e: Event, rest: seq<Event>)
    requires Enabled(s, e) && Legal(Step(s, e), rest)
    ensures Legal(s, [e] + rest) && Run(s, [e] + rest) == Run(Step(s, e), rest)
  {
    assert ([e] + rest)[1..] == rest;
  }

  /** Without the hypothesis coalescing fails: a resolution outlives an eviction,
      its `finally` deletes its successor's promise, and the next caller starts a
      third beside the second, in the same generation. */
  lemma StaleFinallyBreaksCoalescing(dead: Id)
    ensures var run := [Call] + ([Evict] + ([Call] + ([FetchDone(0, Served(dead))] +
                       ([ProbeDone(0, Nowhere)] + ([Finally(0)] + ([Call] + []))))));
            Legal(Init(), run) && Run(Init(), run) == TwoLive(dead) && !Coalesced(TwoLive(dead))
  {
    var s1 := Step(Init(), Call);
    var s2 := Step(s1, Evict);
    var s3 := Step(s2, Call);
    var s4 := Step(s3, FetchDone(0, Served(dead)));
    var s5 := Step(s4, ProbeDone(0, Nowhere));
    var s6 := Step(s5, Finally(0));
    assert Step(s6, Call) == TwoLive(dead);
    Unroll(s6, Call, []);
    var r6 := [Call] + [];
    Unroll(s5, Finally(0), r6);
    var r5 := [Finally(0)] + r6;
    Unroll(s4, ProbeDone(0, Nowhere), r5);
    var r4 := [ProbeDone(0, Nowhere)] + r5;
    Unroll(s3, FetchDone(0, Served(dead)), r4);
    var r3 := [FetchDone(0, Served(dead))] + r4;
    Unroll(s2, Call, r3);
    Unroll(s1, Evict, [Call] + r3);
    Unroll(Init(), Call, [Evict] + ([Call] + r3));
    assert TwoLive(dead).tasks[1].gen == TwoLive(dead).gen;
  }

  /** The state that run reaches: a dead resolution, and two live ones. */
  function TwoLive(dead: Id): State {
    State(None, [], Some(2), 1,
          [Task(0, None, Settled(Returned(dead))), Task(1, None, Probing(0)), Task(1, None, Probing(0))],
          Counts(2, 0, 0, 0))
  }

  /** From there a committed id can give way to a provisional one with no eviction
      in between: the second resolution commits, the third ends unanswered. */
  lemma CommittedIdCanBeLost(dead: Id, served: Id, found: Id)
    ensures var toCommit := [FetchDone(1, Served(served))] + ([ProbeDone(1, Nowhere)] + []);
            var onward := [FetchDone(2, NoAnswer)] + ([Wake(2)] + ([FetchDone(2, NoAnswer)] +
                          ([ProbeDone(2, Discovered(found))] + [])));
            && Legal(TwoLive(dead), toCommit)
            && var committed := Run(TwoLive(dead), toCommit);
               Committed(committed) && Legal(committed, onward) && Rank(Run(committed, onward)) == 1
  {
    var s0 := TwoLive(dead);
    var s1 := Step(s0, FetchDone(1, Served(served)));
    var s2 := Step(s1, ProbeDone(1, Nowhere));
    Unroll(s1, ProbeDone(1, Nowhere), []);
    Unroll(s0, FetchDone(1, Served(served)), [ProbeDone(1, Nowhere)] + []);
    var s3 := Step(s2, FetchDone(2, NoAnswer));
    var s4 := Step(s3, Wake(2));
    var s5 := Step(s4, FetchDone(2, NoAnswer));
    Unroll(s5, ProbeDone(2, Discovered(found)), []);
    var r5 := [ProbeDone(2, Discovered(found))] + [];
    Unroll(s4, FetchDone(2, NoAnswer), r5);
    var r4 := [FetchDone(2, NoAnswer)] + r5;
    Unroll(s3, Wake(2), r4);
    Unroll(s2, FetchDone(2, NoAnswer), [Wake(2)] + r4);
  }

  // ---- The bound on settling is attained, and needs its hypothesis ----

  /** A resolution whose probe is never answered, to its `finally`. */
  function Unanswered(t: TaskNo, lookup: Lookup): seq<Event> {
    [FetchDone(t, NoAnswer)] +
    ([Wake(t)] + ([FetchDone(t, NoAnswer)] + ([ProbeDone(t, lookup)] + ([Finally(t)] + []))))
  }

  /** It is about to make its first fetch, in the current generation. */
  predicate Starts(s: State, t: TaskNo) {
    t < |s.tasks| && s.tasks[t].gen == s.gen && s.tasks[t].phase == Probing(0) && CapturedExists(s, t)
  }

  /** The state two unanswered fetches lead to. */
  function Probed2(s: State, t: TaskNo): State
    requires t < |s.tasks|
  {
    s.(tasks := s.tasks[t := s.tasks[t].(phase := Probed(None, false))],
       counts := s.counts.(fetches := s.counts.fetches + 1, unanswered := s.counts.unanswered + 1))
  }

  lemma UnansweredRun(s: State, t: TaskNo, lookup: Lookup)
    requires Starts(s, t) && (s.tasks[t].captured.Some? || lookup != Nowhere)
    ensures Enabled(Probed2(s, t), ProbeDone(t, lookup))
    ensures var end := Step(Probed2(s, t), ProbeDone(t, lookup));
            && Enabled(end, Finally(t)) && Legal(s, Unanswered(t, lookup))
            && Run(s, Unanswered(t, lookup)) == Step(end, Finally(t))
  {
    var s1 := Step(s, FetchDone(t, NoAnswer));
    var s2 := Step(s1, Wake(t));
    var s3 := Step(s2, FetchDone(t, NoAnswer));
    assert s3 == Probed2(s, t);
    var s4 := Step(s3, ProbeDone(t, lookup));
    Unroll(s4, Finally(t), []);
    Unroll(s3, ProbeDone(t, lookup), [Finally(t)] + []);
    var r3 := [ProbeDone(t, lookup)] + ([Finally(t)] + []);
    Unroll(s2, FetchDone(t, NoAnswer), r3);
    Unroll(s1, Wake(t), [FetchDone(t, NoAnswer)] + r3);
    Unroll(s, FetchDone(t, NoAnswer), [Wake(t)] + ([FetchDone(t, NoAnswer)] + r3));
  }

  lemma {:induction false} Append(s: State, run: seq<Event>, more: seq<Event>)
    requires Legal(s, run) && Legal(Run(s, run), more)
    ensures Legal(s, run + more) && Run(s, run + more) == Run(Run(s, run), more)
    decreases |run|
  {
    if run == [] {
      assert run + more == more;
    } else {
      Append(Step(s, run[0]), run[1..], more);
      assert (run + more)[1..] == run[1..] + more;
    }
  }

  /** A further call in a run, and the unanswered resolution it starts. */
  lemma CallUnanswered(s: State, run: seq<Event>, lookup: Lookup)
    requires Legal(s, run)
    requires var now := Run(s, run);
             && !Committed(now) && now.inflight.None? && (now.cache.Some? ==> now.cache.value < |now.heap|)
             && (now.cache.Some? || lookup != Nowhere)
    ensures var now := Run(s, run);
            var t := |now.tasks|;
            var called := Called(now).0;
            && Starts(called, t)
            && var end := Probed2(called, t);
               && Enabled(end, ProbeDone(t, lookup)) && Enabled(Step(end, ProbeDone(t, lookup)), Finally(t))
               && Legal(s, run + ([Call] + Unanswered(t, lookup)))
               && Run(s, run + ([Call] + Unanswered(t, lookup))) == Step(Step(end, ProbeDone(t, lookup)), Finally(t))
  {
    var now := Run(s, run);
    var t := |now.tasks|;
    UnansweredRun(Called(now).0, t, lookup);
    Unroll(now, Call, Unanswered(t, lookup));
    Append(s, run, [Call] + Unanswered(t, lookup));
  }

  /** Two more calls on a provisional entry with both re-probes left. */
  lemma TwoReprobes(s: State, run: seq<Event>, r: Ref)
    requires Legal(s, run)
    requires var now := Run(s, run);
             && now.cache == Some(r) && now.inflight.None? && r < |now.heap|
             && now.heap[r].provisional && now.heap[r].reprobesLeft == 2
    ensures var now := Run(s, run);
            var n, c := |now.tasks|, now.counts;
            var more := run + ([Call] + Unanswered(n, Nowhere)) + ([Call] + Unanswered(n + 1, Nowhere));
            && Legal(s, more) && Committed(Run(s, more))
            && Run(s, more).counts == Counts(c.fetches + 4, c.unanswered + 2, c.lowerTiers, c.threw)
  {
    var now := Run(s, run);
    var n := |now.tasks|;
    CallUnanswered(s, run, Nowhere);
    var mid := run + ([Call] + Unanswered(n, Nowhere));
    assert Run(s, mid).heap == now.heap[r := now.heap[r].(reprobesLeft := 1)] && Run(s, mid).cache == Some(r);
    CallUnanswered(s, mid, Nowhere);
  }

  lemma FirstThrows()
    ensures var run := [] + ([Call] + Unanswered(0, OwnedUnreadable));
            && Legal(Init(), run)
            && Run(Init(), run) == State(None, [], None, 0, [Task(0, None, Settled(Threw))], Counts(2, 1, 1, 1))
  {
    CallUnanswered(Init(), [], OwnedUnreadable);
  }

  lemma SecondHolds(id: Id)
    ensures var run := [] + ([Call] + Unanswered(0, OwnedUnreadable)) + ([Call] + Unanswered(1, Discovered(id)));
            && Legal(Init(), run)
            && Run(Init(), run) ==
               State(Some(0), [Entry(id, true, 2, 1)], None, 0,
                     [Task(0, None, Settled(Threw)), Task(0, None, Settled(Returned(id)))], Counts(4, 2, 2, 1))
  {
    FirstThrows();
    CallUnanswered(Init(), [] + ([Call] + Unanswered(0, OwnedUnreadable)), Discovered(id));
  }

  /** One resolution that throws, then three that end unanswered: the bound for one
      throw is attained in full, so the one for none is exceeded. */
  lemma ThrowsCostMore(id: Id)
    ensures var run := [] + ([Call] + Unanswered(0, OwnedUnreadable)) + ([Call] + Unanswered(1, Discovered(id))) +
                       ([Call] + Unanswered(2, Nowhere)) + ([Call] + Unanswered(3, Nowhere));
            && Legal(Init(), run)
            && Run(Init(), run).counts == Counts(8, 4, 2, 1) && Committed(Run(Init(), run))
  {
    SecondHolds(id);
    TwoReprobes(Init(), [] + ([Call] + Unanswered(0, OwnedUnreadable)) + ([Call] + Unanswered(1, Discovered(id))), 0);
  }

  /** Beside a stale `finally` the bound fails with none throwing: the two resolutions
      then live both end unanswered, and two more calls follow. */
  lemma StaleFinallyCostsMore(dead: Id, a: Id, b: Id)
    ensures var run := Unanswered(1, Discovered(a)) + Unanswered(2, Discovered(b)) +
                       ([Call] + Unanswered(3, Nowhere)) + ([Call] + Unanswered(4, Nowhere));
            && Legal(TwoLive(dead), run) && Run(TwoLive(dead), run).counts == Counts(8, 4, 2, 0)
            && !WithinBounds(Run(TwoLive(dead), run).counts)
  {
    var s0, settled := TwoLive(dead), Task(0, None, Settled(Returned(dead)));
    var one, two := Task(1, None, Settled(Returned(a))), Task(1, None, Settled(Returned(b)));
    var live := Task(1, None, Probing(0));
    UnansweredRun(s0, 1, Discovered(a));
    var r1 := Unanswered(1, Discovered(a));
    var s1 := State(Some(0), [Entry(a, true, 2, 1)], None, 1, [settled, one, live], Counts(3, 1, 1, 0));
    assert Run(s0, r1) == s1;
    UnansweredRun(s1, 2, Discovered(b));
    Append(s0, r1, Unanswered(2, Discovered(b)));
    var r2 := r1 + Unanswered(2, Discovered(b));
    var held := [Entry(a, true, 2, 1), Entry(b, true, 2, 2)];
    assert Run(s0, r2) == State(Some(1), held, None, 1, [settled, one, two], Counts(4, 2, 2, 0));
    TwoReprobes(s0, r2, 1);
  }
}

/** The module's mutable tables, and the straight-line code between its awaits. */
module InstanceIdModule {
  import opened Common
  import opened InstanceIdSpec

  class InstanceIds {
    var cache: Option<Ref>
    var heap: seq<Entry>
    var inflight: Option<TaskNo>
    var evictGen: nat
    var tasks: seq<Task>
    ghost var counts: Counts

    ghost function Model(): State
      reads this
    {
      State(cache, heap, inflight, evictGen, tasks, counts)
    }

    constructor ()
      ensures Model() == Init()
    {
      cache, heap, inflight, evictGen, tasks, counts := None, [], None, 0, [], Counts(0, 0, 0, 0);
    }

    /** `instanceId`, and `resolveInstanceId` up to its first await. */
    method InstanceId() returns (r: CallResult)
      requires cache.Some? ==> cache.value < |heap|
      modifies this
      ensures (Model(), r) == Called(old(Model()))
    {
      if cache.Some? && !heap[cache.value].provisional {
        return Known(heap[cache.value].id);
      }
      if inflight.None? {
        tasks := tasks + [Task(evictGen, cache, Probing(0))];
        inflight := Some(|tasks| - 1);
        counts := counts.(fetches := counts.fetches + 1);
      }
      r := Waits(inflight.value);
    }

    /** The body of the probe's loop after one fetch has come back. */
    method OnFetch(t: TaskNo, answer: FetchAnswer)
      requires Enabled(Model(), FetchDone(t, answer))
      modifies this
      ensures Model() == Step(old(Model()), FetchDone(t, answer))
    {
      var attempt := tasks[t].phase.attempt;
      match answer
      case Served(id) => Suspend(t, Probed(Some(id), true));
      case NotServed => Suspend(t, Probed(None, true));
      case NoAnswer =>
        if attempt >= 1 {
          ghost var s := Model();
          Suspend(t, Probed(None, false));
          counts := Count(s, t, 0, 1, 0).counts;
        } else {
          Suspend(t, Sleeping);
        }
    }

    method OnWake(t: TaskNo)
      requires Enabled(Model(), Wake(t))
      modifies this
      ensures Model() == Step(old(Model()), Wake(t))
    {
      ghost var s := Model();
      Suspend(t, Probing(1));
      counts := Count(s, t, 1, 0, 0).counts;
    }

    method Suspend(t: TaskNo, p: Phase)
      requires t < |tasks|
      modifies this`tasks
      ensures tasks == old(tasks)[t := old(tasks)[t].(phase := p)]
    {
      tasks := tasks[t := tasks[t].(phase := p)];
    }

    method Throw(t: TaskNo)
      requires t < |tasks|
      modifies this`tasks, this`counts
      ensures Model() == Fail(old(Model()), t)
    {
      counts := Fail(Model(), t).counts;
      Suspend(t, Finished(Threw));
    }

    method SetCache(entry: Entry)
      modifies this`cache, this`heap
      ensures cache == Some(|old(heap)|) && heap == old(heap) + [entry]
    {
      heap := heap + [entry];
      cache := Some(|heap| - 1);
    }

    /** `resolveInstanceId` from the probe's answer to its end or the next await. */
    method OnProbe(t: TaskNo, lookup: Lookup)
      requires Enabled(Model(), ProbeDone(t, lookup))
      modifies this
      ensures Model() == Step(old(Model()), ProbeDone(t, lookup))
    {
      var Probed(served, definitive) := tasks[t].phase;
      if tasks[t].captured.Some? {
        Reprobe(t, tasks[t].captured.value, served, definitive);
        return;
      }
      var id := served;
      if id.None? {
        counts := Count(Model(), t, 0, 0, 1).counts;
        match lookup {
          case Owned(found) => id := Some(found);
          case OwnedUnreadable =>
            Throw(t);
            return;
          case Discovered(found) => id := Some(found);
          case Nowhere =>
        }
        if id.None? {
          Suspend(t, AwaitingGenesis(definitive));
          return;
        }
      }
      Settle(t, id.value, definitive);
    }

    method Reprobe(t: TaskNo, held: Ref, served: Option<Id>, definitive: bool)
      requires t < |tasks| && held < |heap|
      modifies this
      ensures Model() == Reprobed(old(Model()), t, held, served, definitive)
    {
      var id := if served.Some? then served.value else heap[held].id;
      ghost var origin := if served.Some? then t else heap[held].origin;
      if evictGen != tasks[t].gen {
        Suspend(t, Finished(Returned(id)));
        return;
      }
      if definitive {
        SetCache(Entry(id, false, 0, if served.Some? then t else heap[held].origin));
        Suspend(t, Finished(Returned(id)));
        return;
      }
      heap := heap[held := heap[held].(reprobesLeft := heap[held].reprobesLeft - 1)];
      if heap[held].reprobesLeft <= 0 {
        SetCache(Entry(heap[held].id, false, 0, heap[held].origin));
      }
      Suspend(t, Finished(Returned(heap[held].id)));
    }

    method Settle(t: TaskNo, id: Id, definitive: bool)
      requires t < |tasks|
      modifies this
      ensures Model() == Conclude(old(Model()), t, id, definitive)
    {
      if evictGen == tasks[t].gen {
        if definitive {
          SetCache(Entry(id, false, 0, t));
        } else {
          SetCache(Entry(id, true, MAX_PROVISIONAL_REPROBES, t));
        }
      }
      Suspend(t, Finished(Returned(id)));
    }

    method OnGenesis(t: TaskNo, hash: Option<Id>)
      requires Enabled(Model(), GenesisDone(t, hash))
      modifies this
      ensures Model() == Step(old(Model()), GenesisDone(t, hash))
    {
      if hash.None? {
        Throw(t);
        return;
      }
      Settle(t, hash.value, tasks[t].phase.definitive);
    }

    /** The `finally` callback of a resolution's promise. */
    method OnFinally(t: TaskNo)
      requires Enabled(Model(), Finally(t))
      modifies this
      ensures Model() == Step(old(Model()), Finally(t))
    {
      inflight := None;
      Suspend(t, Settled(tasks[t].phase.outcome));
    }

    method EvictInstanceId()
      modifies this
      ensures Model() == Step(old(Model()), Evict)
    {
      cache := None;
      inflight := None;
      evictGen := evictGen + 1;
      counts := Counts(0, 0, 0, 0);
    }
  }
}

/** The container lifecycle as the source of evictions. */
module Lifecycle {
  import InstanceIdSpec

  type Url = string
  type Name = string

  /** How a boot goes: already reachable; `docker run` fails; the node does not
      become ready (or priming it fails); it does. */
  datatype Boot = AlreadyUp | RunFailed | NotReady | Ready

  datatype UpResult = Reused | Spawned(name: Name) | BootFailed

  /** An eviction makes every resolution that was ever started one of an earlier
      generation, so none of them can write the cache any more. */
  lemma EvictionVoidsAll(s: InstanceIdSpec.State, t: InstanceIdSpec.TaskNo)
    requires InstanceIdSpec.GenInv(s) && t < |s.tasks|
    ensures var after := Evicted(s);
            && InstanceIdSpec.GenInv(after) && after.cache.None? && after.inflight.None?
            && after.tasks == s.tasks && after.tasks[t].gen < after.gen
  {
    InstanceIdSpec.StepKeepsGenInv(s, InstanceIdSpec.Evict);
  }

  function Evicted(s: InstanceIdSpec.State): InstanceIdSpec.State {
    InstanceIdSpec.Step(s, InstanceIdSpec.Evict)
  }

  class TreLifecycle {
    /** Which container this process launched for a url. */
    var launched: map<Url, Name>
    /** The instance-id tables, url by url; a url not seen yet is in the initial state. */
    var ids: map<Url, InstanceIdSpec.State>

    constructor ()
      ensures launched == map[] && ids == map[]
    {
      launched, ids := map[], map[];
    }

    function Ids(url: Url): InstanceIdSpec.State
      reads this
    {
      if url in ids then ids[url] else InstanceIdSpec.Init()
    }

    method Evict(url: Url)
      modifies this`ids
      ensures Ids(url) == Evicted(old(Ids(url)))
      ensures forall u :: u != url ==> Ids(u) == old(Ids(u))
    {
      ids := ids[url := Evicted(Ids(url))];
    }

    /** Exactly a successful new boot, and a failed one whose container is removed,
        evict, and only their own url. */
    method EnsureUp(url: Url, name: Name, keepRunning: bool, boot: Boot) returns (r: UpResult)
      modifies this
      ensures r == match boot case AlreadyUp => Reused case Ready => Spawned(name) case _ => BootFailed
      ensures launched == if boot.Ready? then old(launched)[url := name] else old(launched)
      ensures Ids(url) == if boot.Ready? || (boot.NotReady? && !keepRunning)
                          then Evicted(old(Ids(url))) else old(Ids(url))
      ensures forall u :: u != url ==> Ids(u) == old(Ids(u))
    {
      if boot.AlreadyUp? {
        return Reused;
      }
      if boot.RunFailed? {
        return BootFailed;
      }
      if boot.NotReady? {
        if !keepRunning {
          Evict(url);
        }
        return BootFailed;
      }
      launched := launched[url := name];
      Evict(url);
      r := Spawned(name);
    }

    /** Tearing a container down evicts, once each, exactly the urls it was launched
        for, and forgets those launches. */
    method Teardown(name: Name)
      modifies this
      ensures forall u :: Ids(u) == if name != "" && u in old(launched) && old(launched)[u] == name
                                    then Evicted(old(Ids(u))) else old(Ids(u))
      ensures launched == if name == "" then old(launched)
                          else map u | u in old(launched) && old(launched)[u] != name :: old(launched)[u]
    {
      if name == "" {
        return;
      }
      var todo := launched.Keys;
      while todo != {}
        invariant todo <= old(launched.Keys)
        invariant forall u :: u in launched <==> u in old(launched) && (old(launched)[u] != name || u in todo)
        invariant forall u :: u in launched ==> launched[u] == old(launched)[u]
        invariant forall u :: u in old(launched) && old(launched)[u] == name && u !in todo ==>
                                Ids(u) == Evicted(old(Ids(u)))
        invariant forall u :: u !in old(launched) || old(launched)[u] != name || u in todo ==> Ids(u) == old(Ids(u))
        decreases todo
      {
        var url :| url in todo;
        todo := todo - {url};
        Forget(url, name);
      }
    }

    method Forget(url: Url, name: Name)
      requires url in launched
      modifies this
      ensures var doomed := old(launched)[url] == name;
              && launched == (if doomed then old(launched) - {url} else old(launched))
              && Ids(url) == (if doomed then Evicted(old(Ids(url))) else old(Ids(url)))
      ensures forall u :: u != url ==> Ids(u) == old(Ids(u))
    {
      if launched[url] == name {
        launched := launched - {url};
        Evict(url);
      }
    }
  }
}
