/** Admission to manual mining, any number of threads interleaved step by step, on
    the atomic flag and on the plain flag guarded by the fallback lock. */
module MiningAdmission {
  import opened Common

  type Tid = nat

  /** Where a thread is inside `tre_mine`. `HoldsLock` to `HasSet` exist on the plain
      path only; `Leaving` is the `finally` block before the flag is cleared. */
  datatype Place =
    | Idle
    | HoldsLock
    | SawClear
    | HasSet
    | Admitted
    | Producing
    | Leaving
    | Released

  datatype State = State(atomic: bool, flag: bool, fallbackLock: Option<Tid>, produceLock: Option<Tid>,
                         threads: seq<Place>)

  /** Whether the thread carries on or an exception is thrown where it stands. */
  datatype Choice = Proceed | Throw

  datatype Move = Move(thread: Tid, choice: Choice)

  function Init(atomic: bool, threads: nat): State {
    State(atomic, false, None, None, seq(threads, _ => Idle))
  }

  predicate Enabled(s: State, m: Move) {
    && m.thread < |s.threads|
    && match s.threads[m.thread]
       case Idle => m.choice.Proceed? && (s.atomic || s.fallbackLock.None?)
       case Admitted => m.choice.Throw? || s.produceLock.None?
       case Producing => true
       case _ => m.choice.Proceed?
  }

  function Step(s: State, m: Move): State
    requires Enabled(s, m)
  {
    var t := m.thread;
    match s.threads[t]
    case Idle =>
      if s.atomic then
        // One compare-and-set: admitted, or refused and back where it was.
        if s.flag then s else s.(flag := true, threads := s.threads[t := Admitted])
      else s.(fallbackLock := Some(t), threads := s.threads[t := HoldsLock])
    case HoldsLock =>
      if s.flag then s.(fallbackLock := None, threads := s.threads[t := Idle])
      else s.(threads := s.threads[t := SawClear])
    case SawClear => s.(flag := true, threads := s.threads[t := HasSet])
    case HasSet => s.(fallbackLock := None, threads := s.threads[t := Admitted])
    case Admitted =>
      if m.choice.Throw? then s.(threads := s.threads[t := Leaving])
      else s.(produceLock := Some(t), threads := s.threads[t := Producing])
    case Producing => s.(produceLock := None, threads := s.threads[t := Leaving])
    case Leaving => s.(flag := false, threads := s.threads[t := Released])
    case Released => s.(threads := s.threads[t := Idle])
  }

  ghost predicate Legal(s: State, run: seq<Move>)
    decreases |run|
  {
    run == [] || (Enabled(s, run[0]) && Legal(Step(s, run[0]), run[1..]))
  }

  ghost function Run(s: State, run: seq<Move>): State
    requires Legal(s, run)
    decreases |run|
  {
    if run == [] then s else Run(Step(s, run[0]), run[1..])
  }

  /** The thread set the flag and has not cleared it. */
  predicate Holds(p: Place) {
    p.HasSet? || p.Admitted? || p.Producing? || p.Leaving?
  }

  predicate InCriticalSection(p: Place) {
    p.HoldsLock? || p.SawClear? || p.HasSet?
  }

  ghost predicate Inv(s: State) {
    && (forall t, u :: 0 <= t < u < |s.threads| ==> !(Holds(s.threads[t]) && Holds(s.threads[u])))
    && (s.flag <==> exists t :: 0 <= t < |s.threads| && Holds(s.threads[t]))
    && (s.atomic ==> forall t :: 0 <= t < |s.threads| ==> !InCriticalSection(s.threads[t]))
    && (forall t :: 0 <= t < |s.threads| ==> (InCriticalSection(s.threads[t]) <==> s.fallbackLock == Some(t)))
    && (forall t :: 0 <= t < |s.threads| && s.threads[t].SawClear? ==> !s.flag)
    && (forall t :: 0 <= t < |s.threads| ==> (s.threads[t].Producing? <==> s.produceLock == Some(t)))
  }

  lemma StepKeepsInv(s: State, m: Move)
    requires Inv(s) && Enabled(s, m)
    ensures Inv(Step(s, m))
  {
    var t, after := m.thread, Step(s, m);
    assert forall u :: 0 <= u < |s.threads| && u != t ==> after.threads[u] == s.threads[u];
    FlagTracksHolder(s, after, t);
  }

  lemma FlagTracksHolder(s: State, after: State, t: Tid)
    requires Inv(s) && t < |s.threads| == |after.threads|
    requires forall u :: 0 <= u < |s.threads| && u != t ==> after.threads[u] == s.threads[u]
    requires Holds(after.threads[t]) ==> after.flag
    requires Holds(s.threads[t]) && !Holds(after.threads[t]) ==> !after.flag
    requires !Holds(after.threads[t]) && !Holds(s.threads[t]) ==> after.flag == s.flag
    ensures after.flag <==> exists u :: 0 <= u < |after.threads| && Holds(after.threads[u])
  {
    if Holds(s.threads[t]) {
      assert forall u :: 0 <= u < |s.threads| && u != t ==> !Holds(s.threads[u]);
    }
    if !Holds(after.threads[t]) && !Holds(s.threads[t]) && s.flag {
      var u :| 0 <= u < |s.threads| && Holds(s.threads[u]);
      assert Holds(after.threads[u]);
    }
  }

  lemma {:induction false} RunKeepsInv(s: State, run: seq<Move>)
    requires Inv(s) && Legal(s, run)
    ensures Inv(Run(s, run))
    decreases |run|
  {
    if run != [] {
      StepKeepsInv(s, run[0]);
      RunKeepsInv(Step(s, run[0]), run[1..]);
    }
  }

  /** However many threads call `tre_mine` and however they interleave: at most one
      is admitted, at most one produces, and the flag is set exactly while one holds
      admission. */
  lemma MutualExclusion(atomic: bool, threads: nat, run: seq<Move>)
    requires Legal(Init(atomic, threads), run)
    ensures var s := Run(Init(atomic, threads), run);
            && (forall t, u :: 0 <= t < u < |s.threads| ==> !(Holds(s.threads[t]) && Holds(s.threads[u])))
            && (forall t, u :: 0 <= t < u < |s.threads| ==> !(s.threads[t].Producing? && s.threads[u].Producing?))
            && (s.flag <==> exists t :: 0 <= t < |s.threads| && Holds(s.threads[t]))
  {
    RunKeepsInv(Init(atomic, threads), run);
    var s := Run(Init(atomic, threads), run);
    assert forall t :: 0 <= t < |s.threads| && s.threads[t].Producing? ==> Holds(s.threads[t]);
  }

  /** The flag is only ever cleared by the one thread that holds it; a refused call
      (back to idle without having held) leaves it, and every other thread, alone. */
  lemma OnlyTheHolderClears(s: State, m: Move)
    requires Inv(s) && Enabled(s, m)
    ensures s.flag && !Step(s, m).flag ==>
              && Holds(s.threads[m.thread])
              && forall u :: 0 <= u < |s.threads| && u != m.thread ==> !Holds(s.threads[u])
    ensures !Holds(s.threads[m.thread]) && Step(s, m).threads[m.thread].Idle? ==>
              && Step(s, m).flag == s.flag
              && forall u :: 0 <= u < |s.threads| && u != m.thread ==> Step(s, m).threads[u] == s.threads[u]
  {
  }

  /** While a thread holds admission, no other thread gets in. */
  lemma AdmissionRefusedWhileHeld(s: State, m: Move, holder: Tid)
    requires Inv(s) && Enabled(s, m) && holder < |s.threads| && Holds(s.threads[holder]) && m.thread != holder
    ensures !Holds(Step(s, m).threads[m.thread])
  {
    StepKeepsInv(s, m);
    assert Holds(Step(s, m).threads[holder]);
  }

  // ---- A caller that finds the flag clear gets in, and leaves it clear ----

  ghost predicate AllIdle(s: State) {
    && !s.flag && s.fallbackLock.None? && s.produceLock.None?
    && forall t :: 0 <= t < |s.threads| ==> s.threads[t].Idle?
  }

  /** The moves of one call: to admission, and from there to its end. */
  function Entering(s: State, t: Tid): seq<Move> {
    if s.atomic then [Move(t, Proceed)]
    else [Move(t, Proceed)] + ([Move(t, Proceed)] + ([Move(t, Proceed)] + ([Move(t, Proceed)] + [])))
  }

  function Ending(t: Tid): seq<Move> {
    [Move(t, Proceed)] + ([Move(t, Proceed)] + ([Move(t, Proceed)] + ([Move(t, Proceed)] + [])))
  }

  lemma Unroll(s: State, m: Move, rest: seq<Move>)
    requires Enabled(s, m) && Legal(Step(s, m), rest)
    ensures Legal(s, [m] + rest) && Run(s, [m] + rest) == Run(Step(s, m), rest)
  {
    assert ([m] + rest)[1..] == rest;
  }

  /** A lone call is admitted, with the flag set, ... */
  lemma LoneCallIsAdmitted(s: State, t: Tid)
    requires AllIdle(s) && t < |s.threads|
    ensures Legal(s, Entering(s, t))
    ensures Run(s, Entering(s, t)) == s.(flag := true, threads := s.threads[t := Admitted])
  {
    var m := Move(t, Proceed);
    if s.atomic {
      Unroll(s, m, []);
      assert [m] + [] == [m];
    } else {
      var s1 := Step(s, m);
      var s2 := Step(s1, m);
      var s3 := Step(s2, m);
      Unroll(s3, m, []);
      Unroll(s2, m, [m] + []);
      Unroll(s1, m, [m] + ([m] + []));
      Unroll(s, m, [m] + ([m] + ([m] + [])));
      assert Step(s3, m).threads == s.threads[t := Admitted];
    }
  }

  /** ... then produces, alone, and leaves everything as it found it. */
  lemma AdmittedCallEnds(s: State, t: Tid)
    requires AllIdle(s) && t < |s.threads|
    ensures var admitted := s.(flag := true, threads := s.threads[t := Admitted]);
            && Enabled(admitted, Move(t, Proceed))
            && Step(admitted, Move(t, Proceed)).threads[t] == Producing
            && Legal(admitted, Ending(t)) && Run(admitted, Ending(t)) == s
  {
    var m := Move(t, Proceed);
    var s0 := s.(flag := true, threads := s.threads[t := Admitted]);
    var s1 := Step(s0, m);
    var s2 := Step(s1, m);
    var s3 := Step(s2, m);
    Unroll(s3, m, []);
    Unroll(s2, m, [m] + []);
    Unroll(s1, m, [m] + ([m] + []));
    Unroll(s0, m, [m] + ([m] + ([m] + [])));
    assert Step(s3, m).threads == s.threads;
  }

  /** A call that finds the flag set is refused and back where it was, with nothing
      changed. */
  lemma CallIsRefused(s: State, t: Tid)
    requires s.flag && t < |s.threads| && s.threads[t].Idle? && s.fallbackLock.None?
    ensures var m := Move(t, Proceed);
            && Enabled(s, m)
            && (if s.atomic then Step(s, m) == s else Enabled(Step(s, m), m) && Step(Step(s, m), m) == s)
  {
    var m := Move(t, Proceed);
    if !s.atomic {
      assert Step(Step(s, m), m).threads == s.threads;
    }
  }
}
