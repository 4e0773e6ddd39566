/** Manual mining and the one-shot timestamp override, RPC calls serialised. */
module MiningSpec {
  import opened JavaInts
  import opened DposSlot

  /** A block of the chain, with the override it consumed (zero if none). */
  datatype Block = Block(time: int, target: int)

  datatype State = State(genesis: int, head: nat, interval: int, autoMine: bool, override: int, chain: seq<Block>)

  /** What the outside contributes to one round of the production loop: the wall
      clock, the slots to skip, the number of active witnesses, whether the scheduled
      one has a miner here, and what the block handler does. */
  datatype Produce = Produced | NotProduced | HandlerThrew

  datatype Round = Round(now: int, skip: nat, witnesses: nat, minerKnown: bool, produce: Produce)

  datatype Tick =
    | SetTarget(target: int)
    | SetBlockTime(seconds: int)
    | ProduceOne(round: Round)
    | EndMine

  function HeadTime(s: State): int
    requires s.chain != []
  {
    s.chain[|s.chain| - 1].time
  }

  predicate Sound(s: State) {
    && s.chain != [] && s.interval > 0 && s.override >= 0
    && (forall i :: 0 <= i < |s.chain| ==> IsLong(s.chain[i].time))
    && IsLong(s.override)
    && (s.override > 0 ==> s.override > HeadTime(s))
  }

  function ScheduleAt(s: State, r: Round): Schedule
    requires s.chain != []
  {
    Schedule(s.genesis, s.head, HeadTime(s), r.skip, s.interval, s.override)
  }

  predicate Accepts(s: State, target: int)
    requires s.chain != []
  {
    target > 0 && target > HeadTime(s)
  }

  predicate AcceptsBlockTime(seconds: int) {
    0 <= seconds <= 60
  }

  function SlotAt(s: State, r: Round): int
    requires Sound(s)
  {
    GetSlot(ScheduleAt(s, r), WrapLong(r.now + 50))
  }

  /** The round reaches the block handler. */
  predicate Ready(s: State, r: Round)
    requires Sound(s)
  {
    GetScheduledWitness(ScheduleAt(s, r), SlotAt(s, r), r.witnesses).Witness? && r.minerKnown
  }

  /** The block time handed to the block handler. */
  function BlockTime(s: State, r: Round): int
    requires Sound(s)
  {
    var time := GetTime(ScheduleAt(s, r), SlotAt(s, r));
    var minimum := WrapLong(HeadTime(s) + 1000);
    if s.override == 0 && time < minimum then minimum else time
  }

  function AfterRound(s: State, r: Round): State
    requires Sound(s)
  {
    if !Ready(s, r) || r.produce.HandlerThrew? then s
    else if r.produce.NotProduced? then s.(override := 0)
    else s.(head := s.head + 1, override := 0, chain := s.chain + [Block(BlockTime(s, r), s.override)])
  }

  function Apply(s: State, t: Tick): State
    requires Sound(s)
  {
    match t
    case SetTarget(target) => if Accepts(s, target) && IsLong(target) then s.(override := target) else s
    case SetBlockTime(seconds) =>
      if !AcceptsBlockTime(seconds) then s
      else if seconds == 0 then s.(autoMine := false, interval := 1)
      else s.(autoMine := true, interval := seconds * 1000)
    case ProduceOne(r) => AfterRound(s, r)
    case EndMine => s.(override := 0)
  }

  lemma ApplyKeepsSound(s: State, t: Tick)
    requires Sound(s)
    ensures Sound(Apply(s, t)) && s.chain <= Apply(s, t).chain
  {
    if t.ProduceOne? {
      assert IsLong(BlockTime(s, t.round));
    }
  }

  ghost function Run(s: State, ticks: seq<Tick>): State
    requires Sound(s)
    ensures Sound(Run(s, ticks)) && s.chain <= Run(s, ticks).chain
    decreases |ticks|
  {
    if ticks == [] then s
    else
      ApplyKeepsSound(s, ticks[0]);
      Run(Apply(s, ticks[0]), ticks[1..])
  }

  /** How a block must follow the one before it: on the target it was set to, or at
      least a second later; later in any case. */
  predicate Follows(before: Block, b: Block) {
    b.time > before.time && if b.target > 0 then b.time == b.target else b.time >= before.time + 1000
  }

  ghost predicate WellSpaced(chain: seq<Block>) {
    forall i :: 0 < i < |chain| ==> Follows(chain[i - 1], chain[i])
  }

  /** The only way a round can break the spacing: the clamp's minimum is past the
      range of a long. */
  predicate OutOfRange(s: State, t: Tick)
    requires Sound(s)
  {
    t.ProduceOne? && Ready(s, t.round) && t.round.produce.Produced? &&
    s.override == 0 && HeadTime(s) + 1000 > LONG_MAX
  }

  /** The clamp alone gives the one-second advance, whatever the slot arithmetic
      yields, and exactly while head time plus a second is a long. */
  lemma ClampExact(s: State, r: Round)
    requires Sound(s) && s.override == 0
    ensures BlockTime(s, r) >= HeadTime(s) + 1000 <==> HeadTime(s) + 1000 <= LONG_MAX
  {
    assert IsLong(BlockTime(s, r));
  }

  /** Without a target a block is at its slot's time or a second after the head,
      whichever is later. The slot's time is aligned to genesis; from the first slot
      time on the clock's reading, 50 ms ahead, lies in that slot, and before it the
      slot is the one after the first. */
  lemma BlockFollowsClock(s: State, r: Round) returns (slotTime: int)
    requires Sound(s) && s.override == 0 && r.now + 50 >= 0
    requires var c := ScheduleAt(s, r);
             && Regular(c, 1) && r.now + 50 + s.interval <= LONG_MAX && HeadTime(s) + 1000 <= LONG_MAX
    ensures BlockTime(s, r) == if slotTime < HeadTime(s) + 1000 then HeadTime(s) + 1000 else slotTime
    ensures (slotTime - s.genesis) % s.interval == 0
    ensures var first := GetTime(ScheduleAt(s, r), 0);
            if r.now + 50 < first then slotTime == first + s.interval
            else slotTime <= r.now + 50 < slotTime + s.interval
  {
    var c := ScheduleAt(s, r);
    slotTime := SlotTimeOf(c, r.now + 50);
    assert SlotAt(s, r) == GetSlot(c, r.now + 50);
  }

  /** The time of the slot for a clock reading. */
  lemma SlotTimeOf(c: Schedule, t: int) returns (slotTime: int)
    requires Regular(c, 1) && 0 <= t && t + c.interval <= LONG_MAX
    ensures slotTime == GetTime(c, GetSlot(c, t)) && (slotTime - c.genesis) % c.interval == 0
    ensures if t < GetTime(c, 0) then slotTime == GetTime(c, 0) + c.interval
            else slotTime <= t < slotTime + c.interval
  {
    var slot := GetSlot(c, t);
    slotTime := GetTime(c, slot);
    RegularTimes(c, 1, 0);
    if t < GetTime(c, 0) {
      RegularTimes(c, 1, 1);
      SlotTimesAligned(c, 1);
    } else {
      SlotBracketsTime(c, t);
      SlotInRange(c, slot, t);
      SlotTimesAligned(c, slot);
      NextSlotTime(c, slot);
    }
  }

  lemma NextSlotTime(c: Schedule, slot: nat)
    requires Regular(c, slot + 1)
    ensures GetTime(c, slot + 1) == GetTime(c, slot) + c.interval
  {
    RegularTimes(c, slot + 1, slot);
    RegularTimes(c, slot + 1, slot + 1);
    assert c.interval * (slot + 1) == c.interval * slot + c.interval;
  }

  lemma SlotInRange(c: Schedule, slot: nat, t: int)
    requires Regular(c, 0) && slot == GetSlot(c, t) && GetTime(c, 0) <= t && t + c.interval <= LONG_MAX
    ensures Regular(c, slot) && Regular(c, slot + 1)
  {
    RegularTimes(c, 0, 0);
    DivBrackets(t - ExactTime(c, 0), c.interval);
    TimesAreLinear(c, slot);
    TimesAreLinear(c, slot + 1);
    assert c.interval * (slot + 1) == c.interval * slot + c.interval;
  }

  /** And that is the time of the block mined: with a schedule due, the block is the
      one after the head, at that time, on no target. */
  lemma MinedBlock(s: State, r: Round)
    requires Sound(s) && Ready(s, r) && r.produce.Produced?
    ensures var after := AfterRound(s, r);
            && after.chain == s.chain + [Block(BlockTime(s, r), s.override)]
            && after.head == s.head + 1 && after.override == 0
            && after.genesis == s.genesis && after.interval == s.interval && after.autoMine == s.autoMine
  {
  }

  /** Any other round leaves chain and schedule alone; it takes a target away only if
      it reaches its end. */
  lemma RoundWithoutBlock(s: State, r: Round)
    requires Sound(s) && !(Ready(s, r) && r.produce.Produced?)
    ensures AfterRound(s, r) ==
            if Ready(s, r) && r.produce.NotProduced? then s.(override := 0) else s
  {
  }

  /** A round reaches the block handler, in the first 31 bits of slots, exactly when
      there are witnesses and the scheduled one has a miner here. */
  lemma ReadyExactly(s: State, r: Round)
    requires Sound(s) && 0 <= CurrentSlot(ScheduleAt(s, r), SlotAt(s, r)) < 0x8000_0000
    ensures Ready(s, r) <==> r.witnesses > 0 && r.minerKnown
  {
    WitnessFoundExactly(ScheduleAt(s, r), SlotAt(s, r), r.witnesses);
  }

  lemma TickSpacing(s: State, t: Tick)
    requires Sound(s) && WellSpaced(s.chain)
    ensures WellSpaced(Apply(s, t).chain) <==> !OutOfRange(s, t)
  {
    if t.ProduceOne? && Ready(s, t.round) && t.round.produce.Produced? {
      var after, n := Apply(s, t).chain, |s.chain|;
      assert forall i :: 0 <= i < n ==> after[i] == s.chain[i];
      if s.override == 0 {
        ClampExact(s, t.round);
      }
      assert Follows(after[n - 1], after[n]) <==> !OutOfRange(s, t);
    }
  }

  ghost predicate InRangeThroughout(s: State, ticks: seq<Tick>)
    requires Sound(s)
    decreases |ticks|
  {
    ticks == [] ||
    (!OutOfRange(s, ticks[0]) && Sound(Apply(s, ticks[0])) && InRangeThroughout(Apply(s, ticks[0]), ticks[1..]))
  }

  /** Over any run of settings, rounds and ends of mine calls: every block is later
      than the one before, on its target if it has one and else by a second at least,
      exactly when no block without a target is mined on a head less than a second
      from the end of a long. */
  lemma {:induction false} TimestampsOverRuns(s: State, ticks: seq<Tick>)
    requires Sound(s) && WellSpaced(s.chain)
    ensures WellSpaced(Run(s, ticks).chain) <==> InRangeThroughout(s, ticks)
    decreases |ticks|
  {
    if ticks != [] {
      var after := Apply(s, ticks[0]);
      ApplyKeepsSound(s, ticks[0]);
      TickSpacing(s, ticks[0]);
      if OutOfRange(s, ticks[0]) {
        SpacingIsPrefixClosed(after.chain, Run(after, ticks[1..]).chain);
      } else {
        TimestampsOverRuns(after, ticks[1..]);
      }
    }
  }

  lemma WrapsAround(s: State, r: Round)
    requires Sound(s) && s.genesis == 0 && s.head == 2 && s.interval == 1000 && s.override == 0
    requires HeadTime(s) == LONG_MAX && r == Round(0, 0, 1, true, Produced)
    ensures Ready(s, r) && BlockTime(s, r) < 0
  {
    var c := ScheduleAt(s, r);
    assert ExactTime(c, 0) == LONG_MAX - 807 && GetSlot(c, 50) == 1;
    assert ExactTime(c, 1) == LONG_MAX + 193 && WrapLong(LONG_MAX + 193) < 0 && WrapLong(LONG_MAX + 1000) < 0;
  }

  lemma LandsOnLongMax(armed: State, r: Round)
    requires armed == State(0, 1, 1000, true, LONG_MAX, [Block(5000, 0)]) && r == Round(0, 0, 1, true, Produced)
    ensures Sound(armed)
    ensures Apply(armed, ProduceOne(r)) == State(0, 2, 1000, true, 0, [Block(5000, 0), Block(LONG_MAX, LONG_MAX)])
  {
    assert SlotAt(armed, r) == 1 && CurrentSlot(ScheduleAt(armed, r), 1) == 6;
    assert BlockTime(armed, r) == LONG_MAX;
  }

  lemma RunOfThree(s: State, a: Tick, b: Tick, c: Tick)
    requires Sound(s)
    ensures Sound(Apply(s, a)) && Sound(Apply(Apply(s, a), b))
    ensures Run(s, [a] + ([b] + ([c] + []))) == Apply(Apply(Apply(s, a), b), c)
  {
    ApplyKeepsSound(s, a);
    ApplyKeepsSound(Apply(s, a), b);
    ApplyKeepsSound(Apply(Apply(s, a), b), c);
    var last := [c] + [];
    assert last[1..] == [] && ([b] + last)[1..] == last && ([a] + ([b] + last))[1..] == [b] + last;
    assert Run(Apply(Apply(s, a), b), last) == Apply(Apply(Apply(s, a), b), c);
    assert Run(Apply(s, a), [b] + last) == Run(Apply(Apply(s, a), b), last);
  }

  /** Where it fails: a target at the end of a long is accepted and mined, and the
      next block wraps around to a time before the epoch. */
  lemma SpacingFailsAtTheEnd()
    ensures var s := State(0, 1, 1000, true, 0, [Block(5000, 0)]);
            var r := Round(0, 0, 1, true, Produced);
            var ticks := [SetTarget(LONG_MAX)] + ([ProduceOne(r)] + ([ProduceOne(r)] + []));
            && Sound(s) && WellSpaced(s.chain) && Accepts(s, LONG_MAX)
            && |Run(s, ticks).chain| == 3
            && Run(s, ticks).chain[1] == Block(LONG_MAX, LONG_MAX) && Run(s, ticks).chain[2].time < 0
            && !WellSpaced(Run(s, ticks).chain)
  {
    var s := State(0, 1, 1000, true, 0, [Block(5000, 0)]);
    var r := Round(0, 0, 1, true, Produced);
    var armed := Apply(s, SetTarget(LONG_MAX));
    RunOfThree(s, SetTarget(LONG_MAX), ProduceOne(r), ProduceOne(r));
    LandsOnLongMax(armed, r);
    var onTarget := Apply(armed, ProduceOne(r));
    WrapsAround(onTarget, r);
    var chain := Apply(onTarget, ProduceOne(r)).chain;
    assert chain == onTarget.chain + [Block(BlockTime(onTarget, r), 0)];
    assert !Follows(chain[1], chain[2]);
  }

  lemma SpacingIsPrefixClosed(a: seq<Block>, b: seq<Block>)
    requires a <= b
    ensures WellSpaced(b) ==> WellSpaced(a)
  {
    assert forall i :: 0 <= i < |a| ==> a[i] == b[i];
  }

  /** Well-spaced blocks are strictly increasing, however far apart. */
  lemma {:induction false} SpacedIsIncreasing(chain: seq<Block>, i: nat, j: nat)
    requires WellSpaced(chain) && i < j < |chain|
    ensures chain[i].time < chain[j].time
    decreases j
  {
    assert Follows(chain[j - 1], chain[j]);
    if i < j - 1 {
      SpacedIsIncreasing(chain, i, j - 1);
    }
  }

  // ---- What becomes of a target until the next block ----

  /** The tick takes the target away: another accepted target, a round that reaches
      its end, or the end of a mine call, failed or not. */
  predicate Disturbs(s: State, t: Tick)
    requires Sound(s)
  {
    match t
    case SetTarget(target) => Accepts(s, target) && IsLong(target) && target != s.override
    case SetBlockTime(_) => false
    case ProduceOne(r) => Ready(s, r) && !r.produce.HandlerThrew?
    case EndMine => true
  }

  ghost predicate Undisturbed(s: State, ticks: seq<Tick>)
    requires Sound(s)
    decreases |ticks|
  {
    ticks == [] || (!Disturbs(s, ticks[0]) && Sound(Apply(s, ticks[0])) && Undisturbed(Apply(s, ticks[0]), ticks[1..]))
  }

  ghost predicate NeverAccepts(s: State, ticks: seq<Tick>, target: int)
    requires Sound(s)
    decreases |ticks|
  {
    ticks == [] ||
    (!(ticks[0] == SetTarget(target) && Accepts(s, target)) && Sound(Apply(s, ticks[0])) &&
     NeverAccepts(Apply(s, ticks[0]), ticks[1..], target))
  }

  /** The target, once taken away, is not set again. */
  ghost predicate LossIsFinal(s: State, ticks: seq<Tick>, target: int)
    requires Sound(s)
    decreases |ticks|
  {
    ticks == [] ||
    (Sound(Apply(s, ticks[0])) &&
     if Disturbs(s, ticks[0]) then NeverAccepts(Apply(s, ticks[0]), ticks[1..], target)
     else LossIsFinal(Apply(s, ticks[0]), ticks[1..], target))
  }

  lemma TickKeepsTarget(s: State, t: Tick)
    requires Sound(s) && s.override > 0
    ensures Apply(s, t).override == s.override <==> !Disturbs(s, t)
    ensures !Disturbs(s, t) ==> Apply(s, t).chain == s.chain && Apply(s, t).head == s.head
  {
  }

  /** Undisturbed, target and chain stay through any number of ticks. */
  lemma {:induction false} UndisturbedKeeps(s: State, ticks: seq<Tick>)
    requires Sound(s) && s.override > 0 && Undisturbed(s, ticks)
    ensures var after := Run(s, ticks);
            after.override == s.override && after.chain == s.chain && after.head == s.head
    decreases |ticks|
  {
    if ticks != [] {
      ApplyKeepsSound(s, ticks[0]);
      TickKeepsTarget(s, ticks[0]);
      UndisturbedKeeps(Apply(s, ticks[0]), ticks[1..]);
    }
  }

  lemma {:induction false} StaysLost(s: State, ticks: seq<Tick>, target: int)
    requires Sound(s) && s.override != target && target > 0 && NeverAccepts(s, ticks, target)
    ensures Run(s, ticks).override != target
    decreases |ticks|
  {
    if ticks != [] {
      ApplyKeepsSound(s, ticks[0]);
      StaysLost(Apply(s, ticks[0]), ticks[1..], target);
    }
  }

  /** The target is still set after any ticks exactly when none disturbed it. */
  lemma {:induction false} TargetKeptExactly(s: State, ticks: seq<Tick>)
    requires Sound(s) && s.override > 0 && LossIsFinal(s, ticks, s.override)
    ensures Run(s, ticks).override == s.override <==> Undisturbed(s, ticks)
    decreases |ticks|
  {
    if ticks != [] {
      ApplyKeepsSound(s, ticks[0]);
      TickKeepsTarget(s, ticks[0]);
      if Disturbs(s, ticks[0]) {
        StaysLost(Apply(s, ticks[0]), ticks[1..], s.override);
      } else {
        TargetKeptExactly(Apply(s, ticks[0]), ticks[1..]);
      }
    }
  }

  /** The next block after an accepted target lands exactly on it, and spends it,
      after any ticks that do not disturb it: changes of block time, refused or equal
      targets, rounds that throw. */
  lemma FirstBlockLandsOnTarget(s: State, target: int, ticks: seq<Tick>, r: Round)
    requires Sound(s) && Accepts(s, target) && IsLong(target)
    ensures var armed := Apply(s, SetTarget(target));
            && Sound(armed)
            && (Undisturbed(armed, ticks) ==>
                var ready := Run(armed, ticks);
                && ready.override == target && ready.chain == s.chain
                && (Ready(ready, r) && r.produce.Produced? ==>
                    && AfterRound(ready, r).chain == s.chain + [Block(target, target)]
                    && AfterRound(ready, r).override == 0))
  {
    ApplyKeepsSound(s, SetTarget(target));
    var armed := Apply(s, SetTarget(target));
    if Undisturbed(armed, ticks) {
      UndisturbedKeeps(armed, ticks);
    }
  }

  /** And the next block carries the target only then. */
  lemma FirstBlockExactly(s: State, ticks: seq<Tick>, r: Round)
    requires Sound(s) && s.override > 0 && LossIsFinal(s, ticks, s.override)
    requires var ready := Run(s, ticks);
             ready.chain == s.chain && Ready(ready, r) && r.produce.Produced?
    ensures AfterRound(Run(s, ticks), r).chain == s.chain + [Block(s.override, s.override)] <==> Undisturbed(s, ticks)
  {
    TargetKeptExactly(s, ticks);
    var ready := Run(s, ticks);
    var after := AfterRound(ready, r).chain;
    assert after[|s.chain|] == Block(BlockTime(ready, r), ready.override);
  }

  /** A mine call that fails before its first block takes the target with it: set to
      9000 on a head at 5000, the next block lands on 6000. */
  lemma FailedMineLosesTarget()
    ensures var s := State(0, 1, 1, false, 0, [Block(5000, 0)]);
            var failing, good := Round(0, 0, 1, false, Produced), Round(0, 0, 1, true, Produced);
            && Sound(s) && Accepts(s, 9000)
            && var armed := Apply(s, SetTarget(9000));
            && Sound(armed) && MineLoop(armed, [failing]).1 == InternalError
            && var failed := Apply(MineLoop(armed, [failing]).0, EndMine);
            && Sound(failed) && MineLoop(failed, [good]).1 == Mined
            && MineLoop(failed, [good]).0.chain == [Block(5000, 0), Block(6000, 0)]
  {
    var s := State(0, 1, 1, false, 0, [Block(5000, 0)]);
    var failing, good := Round(0, 0, 1, false, Produced), Round(0, 0, 1, true, Produced);
    var armed := Apply(s, SetTarget(9000));
    ApplyKeepsSound(s, SetTarget(9000));
    assert MineLoop(armed, [failing]) == (armed, InternalError);
    var failed := Apply(armed, EndMine);
    assert failed == s;
    assert BlockTime(s, good) == 6000;
    assert AfterRound(s, good).chain == [Block(5000, 0), Block(6000, 0)];
    ApplyKeepsSound(s, ProduceOne(good));
    assert [good][1..] == [];
    assert MineLoop(s, [good]) == MineLoop(AfterRound(s, good), []);
  }

  // ---- A whole `tre_mine` call ----

  datatype MineResult = Mined | BadCount | InternalError

  /** The production loop over the rounds the outside offers it: stops at the first
      round that throws. */
  function MineLoop(s: State, rounds: seq<Round>): (State, MineResult)
    requires Sound(s)
    ensures Sound(MineLoop(s, rounds).0)
    decreases |rounds|
  {
    if rounds == [] then (s, Mined)
    else
      var r := rounds[0];
      var after := AfterRound(s, r);
      ApplyKeepsSound(s, ProduceOne(r));
      if !Ready(s, r) || r.produce.HandlerThrew? then (after, InternalError) else MineLoop(after, rounds[1..])
  }

  /** The round reaches its end. */
  predicate Completes(s: State, r: Round)
    requires Sound(s)
  {
    Ready(s, r) && !r.produce.HandlerThrew?
  }

  /** A mine call is a run of rounds and one end, so the theorem on runs covers it. It
      stops at the first round that does not complete, and fails exactly then. */
  lemma {:induction false} MineLoopIsRun(s: State, rounds: seq<Round>) returns (ticks: seq<Tick>)
    requires Sound(s)
    ensures MineLoop(s, rounds).0 == Run(s, ticks)
    ensures |ticks| <= |rounds| && forall i :: 0 <= i < |ticks| ==> ticks[i] == ProduceOne(rounds[i])
    ensures MineLoop(s, rounds).1 == (if |ticks| == |rounds| then Mined else InternalError)
    ensures |ticks| < |rounds| ==> !Completes(Run(s, ticks), rounds[|ticks|])
    decreases |rounds|
  {
    if rounds == [] {
      ticks := [];
    } else {
      var r := rounds[0];
      ApplyKeepsSound(s, ProduceOne(r));
      if !Ready(s, r) || r.produce.HandlerThrew? {
        ticks := [];
      } else {
        var rest := MineLoopIsRun(AfterRound(s, r), rounds[1..]);
        ticks := [ProduceOne(r)] + rest;
        assert ticks[1..] == rest;
      }
    }
  }

  /** All rounds producing, a call adds that many blocks. */
  lemma {:induction false} MineLoopCounts(s: State, rounds: seq<Round>)
    requires Sound(s) && MineLoop(s, rounds).1 == Mined
    requires forall i :: 0 <= i < |rounds| ==> rounds[i].produce.Produced?
    ensures var after := MineLoop(s, rounds).0;
            after.head == s.head + |rounds| && |after.chain| == |s.chain| + |rounds|
    ensures rounds != [] && s.override > 0 ==> MineLoop(s, rounds).0.chain[|s.chain|].time == s.override
    decreases |rounds|
  {
    if rounds != [] {
      var after := AfterRound(s, rounds[0]);
      ApplyKeepsSound(s, ProduceOne(rounds[0]));
      MineLoopCounts(after, rounds[1..]);
      var ticks := MineLoopIsRun(after, rounds[1..]);
      assert after.chain[|s.chain|] == Block(BlockTime(s, rounds[0]), s.override);
    }
  }
}

module MiningNode {
  import opened Common
  import opened JavaInts
  import opened DposSlot
  import opened MiningSpec

  datatype RpcError = NotPositive | NotAfterHead | BadBlockTime

  class TreMiner {
    const genesis: int
    var head: nat
    var interval: int
    var autoMine: bool
    var nextBlockTimestampOverride: int
    var chain: seq<Block>

    ghost function Model(): State
      reads this
    {
      State(genesis, head, interval, autoMine, nextBlockTimestampOverride, chain)
    }

    constructor (genesisTime: int, blockInterval: int)
      requires IsLong(genesisTime) && blockInterval > 0
      ensures Sound(Model()) && Model() == State(genesisTime, 0, blockInterval, false, 0, [Block(genesisTime, 0)])
    {
      genesis, head, interval, autoMine := genesisTime, 0, blockInterval, false;
      nextBlockTimestampOverride, chain := 0, [Block(genesisTime, 0)];
    }

    method SetNextBlockTimestamp(target: int) returns (r: Result<bool, RpcError>)
      requires Sound(Model()) && IsLong(target)
      modifies this`nextBlockTimestampOverride
      ensures Model() == Apply(old(Model()), SetTarget(target)) && Sound(Model())
      ensures r.Ok? <==> target > 0 && target > HeadTime(old(Model()))
      ensures nextBlockTimestampOverride == if r.Ok? then target else old(nextBlockTimestampOverride)
    {
      if target <= 0 {
        return Err(NotPositive);
      }
      if target <= chain[|chain| - 1].time {
        return Err(NotAfterHead);
      }
      nextBlockTimestampOverride := target;
      r := Ok(true);
    }

    method SetBlockTimeSeconds(seconds: int) returns (r: Result<bool, RpcError>)
      requires Sound(Model())
      modifies this`autoMine, this`interval
      ensures Model() == Apply(old(Model()), SetBlockTime(seconds)) && Sound(Model())
      ensures r.Ok? <==> 0 <= seconds <= 60
      ensures r.Ok? ==> interval == (if seconds == 0 then 1 else 1000 * seconds) && autoMine == (seconds != 0)
      ensures r.Err? ==> interval == old(interval) && autoMine == old(autoMine)
    {
      if seconds < 0 || seconds > 60 {
        return Err(BadBlockTime);
      }
      if seconds == 0 {
        autoMine := false;
        interval := 1;
      } else {
        autoMine := true;
        interval := seconds * 1000;
      }
      r := Ok(true);
    }

    /** The range check comes first and leaves the override alone; every other
        outcome, success or failure, clears it. */
    method Mine(blocks: int, rounds: seq<Round>) returns (r: MineResult)
      requires Sound(Model()) && |rounds| >= blocks
      modifies this
      ensures Sound(Model())
      ensures r == BadCount <==> blocks <= 0 || blocks > 100
      ensures r == BadCount ==> Model() == old(Model())
      ensures r != BadCount ==> && r == MineLoop(old(Model()), rounds[..blocks]).1
                                && Model() == Apply(MineLoop(old(Model()), rounds[..blocks]).0, EndMine)
    {
      if blocks <= 0 || blocks > 100 {
        return BadCount;
      }
      r := MineWithBudget(blocks, rounds);
      nextBlockTimestampOverride := 0;
    }

    method MineWithBudget(blocks: nat, rounds: seq<Round>) returns (r: MineResult)
      requires Sound(Model()) && |rounds| >= blocks
      modifies this
      ensures Sound(Model()) && (Model(), r) == MineLoop(old(Model()), rounds[..blocks]) && r != BadCount
    {
      for i := 0 to blocks
        invariant Sound(Model())
        invariant MineLoop(Model(), rounds[i..blocks]) == MineLoop(old(Model()), rounds[..blocks])
      {
        assert rounds[i..blocks][0] == rounds[i] && rounds[i..blocks][1..] == rounds[i + 1..blocks];
        var completed := ProduceBlock(rounds[i]);
        if !completed {
          return InternalError;
        }
      }
      r := Mined;
    }

    /** The body of the production loop; false if it threw. */
    method ProduceBlock(round: Round) returns (completed: bool)
      requires Sound(Model())
      modifies this`head, this`chain, this`nextBlockTimestampOverride
      ensures Sound(Model()) && Model() == AfterRound(old(Model()), round)
      ensures completed <==> Ready(old(Model()), round) && !round.produce.HandlerThrew?
    {
      ApplyKeepsSound(Model(), ProduceOne(round));
      var headTime := chain[|chain| - 1].time;
      var schedule := Schedule(genesis, head, headTime, round.skip, interval, nextBlockTimestampOverride);
      var slot := GetSlot(schedule, WrapLong(round.now + 50));
      var scheduled := GetScheduledWitness(schedule, slot, round.witnesses);
      if !scheduled.Witness? || !round.minerKnown {
        return false;
      }
      var blockTime := GetTime(schedule, slot);
      if nextBlockTimestampOverride == 0 {
        var minimum := WrapLong(headTime + 1000);
        if blockTime < minimum {
          blockTime := minimum;
        }
      }
      if round.produce.HandlerThrew? {
        return false;
      }
      if round.produce.Produced? {
        head := head + 1;
        chain := chain + [Block(blockTime, nextBlockTimestampOverride)];
      }
      nextBlockTimestampOverride := 0;
      completed := true;
    }
  }
}
