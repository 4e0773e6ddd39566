/** The client's time helpers, in whole seconds, over the node's milliseconds. */
module TimeHelpers {
  import opened Common
  import opened JavaInts
  import opened MiningSpec
  import opened MiningNode

  datatype TimeError =
    | InvalidDelta
    | NotPatched
    | SetRefused
    | MineFailed
    | NotAfter(target: int, current: int)

  /** The integers that a JavaScript number represents and computes exactly. */
  const MAX_SAFE := 0x1F_FFFF_FFFF_FFFF

  predicate IsSafe(n: int) {
    -MAX_SAFE <= n <= MAX_SAFE
  }

  /** `latest()`: the head's time in seconds, rounded down. */
  function Latest(s: State): int
    requires s.chain != []
  {
    HeadTime(s) / 1000
  }

  /** The client's check in seconds and the node's in milliseconds refuse the same
      whole-second targets, as long as the target is positive; a target that is not
      positive the node always refuses. */
  lemma SecondsCheckAgrees(s: State, target: int)
    requires s.chain != []
    ensures target > 0 ==> (Accepts(s, target * 1000) <==> target > Latest(s))
    ensures target <= 0 ==> !Accepts(s, target * 1000)
  {
  }

  /** Warping by at least one second from any head at or after the epoch is never
      refused. */
  lemma IncreaseNeverRefused(s: State, delta: int)
    requires s.chain != [] && HeadTime(s) >= 0 && delta >= 1
    ensures Accepts(s, (Latest(s) + delta) * 1000)
  {
    SecondsCheckAgrees(s, Latest(s) + delta);
  }

  /** Setting a target and mining one block on it. */
  function Warped(s: State, target: int, round: Round): (r: (State, Result<(), TimeError>))
    requires Sound(s) && IsLong(target * 1000)
    ensures Sound(r.0)
  {
    if !Accepts(s, target * 1000) then (s, Err(SetRefused))
    else
      var armed := s.(override := target * 1000);
      ApplyKeepsSound(armed, ProduceOne(round));
      MinedOne(armed, round)
  }

  /** One `tre_mine` call for one block. */
  function MinedOne(s: State, round: Round): (r: (State, Result<(), TimeError>))
    requires Sound(s)
    ensures Sound(r.0)
  {
    ApplyKeepsSound(s, ProduceOne(round));
    (AfterRound(s, round).(override := 0),
     if Ready(s, round) && !round.produce.HandlerThrew? then Ok(()) else Err(MineFailed))
  }

  /** One such call per round, up to the first that fails. */
  function MinedBlocks(s: State, rounds: seq<Round>): (r: (State, Result<(), TimeError>))
    requires Sound(s)
    ensures Sound(r.0)
    decreases |rounds|
  {
    if rounds == [] then (s, Ok(()))
    else
      var one := MinedOne(s, rounds[0]);
      if one.1.Err? then one else MinedBlocks(one.0, rounds[1..])
  }

  /** A warp that succeeds lands on the target exactly when its block is produced, and
      spends the override either way. */
  lemma WarpLands(s: State, target: int, round: Round)
    requires Sound(s) && IsLong(target * 1000) && Warped(s, target, round).1.Ok?
    ensures var after := Warped(s, target, round).0;
            && after.override == 0
            && (Latest(after) == target <==> round.produce.Produced?)
            && (round.produce.Produced? ==> HeadTime(after) == target * 1000 && after.head == s.head + 1)
  {
    var armed := s.(override := target * 1000);
    assert BlockTime(armed, round) == target * 1000;
    SecondsCheckAgrees(s, target);
  }

  /** All calls producing, the height grows by their number. */
  lemma {:induction false} MinedBlocksCount(s: State, rounds: seq<Round>)
    requires Sound(s) && MinedBlocks(s, rounds).1.Ok?
    requires forall i :: 0 <= i < |rounds| ==> rounds[i].produce.Produced?
    ensures MinedBlocks(s, rounds).0.head == s.head + |rounds|
    decreases |rounds|
  {
    if rounds != [] {
      MinedBlocksCount(MinedOne(s, rounds[0]).0, rounds[1..]);
    }
  }

  class TimeClient {
    const node: TreMiner
    /** What the version probe answered, once it has been asked. */
    var instantWarpSupported: Option<bool>

    constructor (miner: TreMiner)
      ensures node == miner && instantWarpSupported == None
    {
      node, instantWarpSupported := miner, None;
    }

    /** The answer the helpers act on: the remembered one if there is one. */
    function Supported(patched: bool): bool
      reads this
    {
      if instantWarpSupported.Some? then instantWarpSupported.value else patched
    }

    /** Probes once and remembers the answer. */
    method SupportsInstantWarp(patched: bool) returns (supported: bool)
      modifies this
      ensures supported == old(Supported(patched)) && instantWarpSupported == Some(supported)
    {
      if instantWarpSupported.None? {
        instantWarpSupported := Some(patched);
      }
      supported := instantWarpSupported.value;
    }

    /** Sets the override and mines one block to seal it. */
    method WarpAndMine(target: int, round: Round) returns (r: Result<(), TimeError>)
      requires Sound(node.Model()) && IsSafe(target * 1000)
      modifies node
      ensures (node.Model(), r) == Warped(old(node.Model()), target, round) && Sound(node.Model())
    {
      var accepted := node.SetNextBlockTimestamp(target * 1000);
      if accepted.Err? {
        return Err(SetRefused);
      }
      r := MineOne(round);
    }

    method MineOne(round: Round) returns (r: Result<(), TimeError>)
      requires Sound(node.Model())
      modifies node
      ensures (node.Model(), r) == MinedOne(old(node.Model()), round) && Sound(node.Model())
    {
      OneRound(node.Model(), round);
      var rounds := [round];
      assert rounds[..1] == rounds;
      var mined := node.Mine(1, rounds);
      r := if mined == Mined then Ok(()) else Err(MineFailed);
    }

    /** Never refused by the node; when the block is produced, the answer is the new
        `latest()`. */
    method Increase(delta: int, patched: bool, round: Round) returns (r: Result<int, TimeError>)
      requires Sound(node.Model()) && 0 <= HeadTime(node.Model()) <= MAX_SAFE
      requires IsSafe((Latest(node.Model()) + delta) * 1000)
      modifies this, node
      ensures Sound(node.Model())
      ensures r != Err(SetRefused)
      ensures delta < 0 ==> r == Err(InvalidDelta) && node.Model() == old(node.Model())
      ensures delta == 0 ==> r == Ok(Latest(old(node.Model()))) && node.Model() == old(node.Model())
      ensures delta > 0 && !old(Supported(patched)) ==> r == Err(NotPatched) && node.Model() == old(node.Model())
      ensures delta > 0 && old(Supported(patched)) ==>
                var target := Latest(old(node.Model())) + delta;
                var warped := Warped(old(node.Model()), target, round);
                node.Model() == warped.0 && r == if warped.1.Ok? then Ok(target) else Err(MineFailed)
      ensures delta > 0 && r.Ok? ==> (r.value == Latest(node.Model()) <==> round.produce.Produced?)
    {
      if delta < 0 {
        return Err(InvalidDelta);
      }
      var start := node.chain[|node.chain| - 1].time / 1000;
      if delta == 0 {
        return Ok(start);
      }
      IncreaseNeverRefused(node.Model(), delta);
      var supported := SupportsInstantWarp(patched);
      if !supported {
        return Err(NotPatched);
      }
      if Warped(node.Model(), start + delta, round).1.Ok? {
        WarpLands(node.Model(), start + delta, round);
      }
      var warped := WarpAndMine(start + delta, round);
      if warped.Err? {
        return Err(warped.error);
      }
      r := Ok(start + delta);
    }

    /** A refusal always reaches the caller with the target and the current time. */
    method IncreaseTo(target: int, patched: bool, round: Round) returns (r: Result<(), TimeError>)
      requires Sound(node.Model()) && 0 <= HeadTime(node.Model()) <= MAX_SAFE && IsSafe(target * 1000)
      modifies this, node
      ensures Sound(node.Model())
      ensures !old(Supported(patched)) ==> r == Err(NotPatched) && node.Model() == old(node.Model())
      ensures old(Supported(patched)) ==>
                var warped := Warped(old(node.Model()), target, round);
                && node.Model() == warped.0
                && r == if target <= Latest(old(node.Model())) then Err(NotAfter(target, Latest(old(node.Model()))))
                        else warped.1
      ensures r != Err(SetRefused)
      ensures r.Ok? ==> (Latest(node.Model()) == target <==> round.produce.Produced?)
    {
      var supported := SupportsInstantWarp(patched);
      if !supported {
        return Err(NotPatched);
      }
      SecondsCheckAgrees(node.Model(), target);
      if Warped(node.Model(), target, round).1.Ok? {
        WarpLands(node.Model(), target, round);
      }
      r := WarpAndMine(target, round);
      if r == Err(SetRefused) {
        var start := node.chain[|node.chain| - 1].time / 1000;
        if target <= start {
          return Err(NotAfter(target, start));
        }
      }
    }

    /** Sets the override only, after the client's own check; the node then never
        refuses a target the client let through. */
    method SetNextTimestamp(target: int, patched: bool) returns (r: Result<(), TimeError>)
      requires Sound(node.Model()) && 0 <= HeadTime(node.Model()) <= MAX_SAFE && IsSafe(target * 1000)
      modifies this, node
      ensures Sound(node.Model())
      ensures r == if target <= Latest(old(node.Model())) then Err(NotAfter(target, Latest(old(node.Model()))))
                   else if !old(Supported(patched)) then Err(NotPatched)
                   else Ok(())
      ensures node.Model() == if r.Ok? then old(node.Model()).(override := target * 1000) else old(node.Model())
    {
      var start := node.chain[|node.chain| - 1].time / 1000;
      if target <= start {
        return Err(NotAfter(target, start));
      }
      var supported := SupportsInstantWarp(patched);
      if !supported {
        return Err(NotPatched);
      }
      SecondsCheckAgrees(node.Model(), target);
      var accepted := node.SetNextBlockTimestamp(target * 1000);
      if accepted.Err? {
        return Err(SetRefused);
      }
      r := Ok(());
    }

    /** One `tre_mine` call per block; stops at the first that fails. */
    method MineBlocks(blocks: nat, rounds: seq<Round>) returns (r: Result<(), TimeError>)
      requires Sound(node.Model()) && |rounds| == blocks
      modifies node
      ensures (node.Model(), r) == MinedBlocks(old(node.Model()), rounds) && Sound(node.Model())
    {
      assert rounds[0..] == rounds;
      for i := 0 to blocks
        invariant Sound(node.Model())
        invariant MinedBlocks(node.Model(), rounds[i..]) == MinedBlocks(old(node.Model()), rounds)
      {
        assert rounds[i..][0] == rounds[i] && rounds[i..][1..] == rounds[i + 1..];
        r := MineOne(rounds[i]);
        if r.Err? {
          return;
        }
      }
      r := Ok(());
    }

    /** Ends exactly on the target height when every call produces its block. */
    method MineUpTo(target: int, rounds: seq<Round>) returns (r: Result<(), TimeError>)
      requires Sound(node.Model()) && |rounds| >= target - node.Model().head
      modifies node
      ensures Sound(node.Model())
      ensures target <= old(node.Model()).head ==>
                r == Err(NotAfter(target, old(node.Model()).head)) && node.Model() == old(node.Model())
      ensures target > old(node.Model()).head ==>
                (node.Model(), r) == MinedBlocks(old(node.Model()), rounds[..target - old(node.Model()).head])
      ensures r.Ok? && (forall i :: 0 <= i < |rounds| ==> rounds[i].produce.Produced?) ==> node.Model().head == target
    {
      if target <= node.head {
        return Err(NotAfter(target, node.head));
      }
      var n := target - node.head;
      if (forall i :: 0 <= i < |rounds| ==> rounds[i].produce.Produced?) &&
         MinedBlocks(node.Model(), rounds[..n]).1.Ok?
      {
        MinedBlocksCount(node.Model(), rounds[..n]);
      }
      r := MineBlocks(n, rounds[..n]);
    }
  }

  /** A mine call of one block, spelled out. */
  lemma OneRound(s: State, round: Round)
    requires Sound(s)
    ensures var (after, result) := MineLoop(s, [round]);
            && after == AfterRound(s, round)
            && (result == Mined <==> Ready(s, round) && !round.produce.HandlerThrew?)
  {
    ApplyKeepsSound(s, ProduceOne(round));
    assert [round][1..] == [];
  }
}
