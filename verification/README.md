# Model of a TRON runtime environment for Hardhat

This project models the parts of the repository where several pieces of state
must agree, and proves what they are for.

* **Snapshots and fixtures** (`StateStore`, `SnapshotNode`, `Fixtures`). The node
  dumps four stores and restores them by a diff; the client caches a snapshot per
  fixture, snapshots again on every load, evicts newer entries and sends drop
  messages that may arrive at any time. The main theorem, `FixtureIsolation`, is
  about whole runs of the two machines together, with nested fixtures and arbitrary
  changes of state in between.
* **Instance ids** (`InstanceId`). Resolution is a protocol whose steps are the
  stretches of code between awaits; calls, probe answers and evictions interleave
  freely. The lifecycle of containers is the source of evictions.
* **Block time and mining** (`BlockTime`, `Mining`, `TimeHelpers`,
  `MiningAdmission`). Slot arithmetic on 64-bit integers, the one-shot timestamp,
  the clamp, the client's helpers in seconds over the node's milliseconds, and
  admission to mining with any number of threads.
* **ABI texts and values** (`Signatures`, `BigIntJson`, `JsonParser`,
  `AddressArgs`). Canonical signatures and a parser that inverts them; the tagging
  JSON serializer against a direct one; the two passes over call arguments.
* **Pairing, weights, pages, balances** (`CreatePairing`, `Multisig`,
  `StoragePaging`, `BalanceChanges`, with `AddressSpellings`).

Code that changes state in place is a class or a method with loops, proved equal to
a function of the old state; the theorems over runs are about those functions. A
promise that the code meets only under a condition is stated with its exact
condition, and a lemma names a concrete input where it fails. Two conditions are
sufficient ones only: that of the bound on settling, which `StaleFinallyCostsMore`
shows it needs, and that under which a load gives a fixture's last body, whose exact
form is about all states of a run.

## Hypotheses

* Fixtures: one client loads fixtures, one call after another except for nesting;
  no RPC fails inside `restore()`; a direct `evm_revert` names an id newer than
  every cached fixture. These are the enabling conditions of `FixtureSpec.Enabled`;
  isolation needs no other. One entry per fixture holds exactly when no fixture's
  body ends while that fixture is cached. A database cursor goes on yielding what it
  was opened on while the store is written.
* Instance ids: the generation guard needs nothing. Coalescing holds exactly when no
  `finally` of an earlier generation fires while a newer promise is in flight. The
  entry only advances exactly when no provisional entry is written over a committed
  one, and a committed id stays exactly when neither that nor another id is written;
  both follow from coalescing. The bound on settling needs coalescing, and grows with
  each resolution that throws in its own generation.
* Timestamps: RPC calls run one after the other. The next block after an accepted
  target carries it exactly when in between no mine call ends, no round completes
  without a block and no other target is accepted; set again it is a new target.
  Threads interleave only in `MiningAdmission`. An interval is positive, and the head
  is at or after genesis.
* Signatures: names, suffixes and lengths contain no delimiter, as in any ABI
  produced by a compiler.
* Arguments: an argument has a meaning for its descriptor if it is of its shape, with
  every address spelled as base58 or `0x` hex and, where a struct is given as an
  object, its components named apart and all present.

## Where the code and its comments disagree

The model follows the code.

* The comment at `TreJsonRpcImpl.java:519-536` lists six captured stores; lines
  666-680 and 719-729 capture and restore four.
* The comment at `cheatcodes.js:300-307` pairs the K-th prediction with the K-th
  creation; lines 414-437 pair the most recent prediction with a caller's first
  creation and sweep its older ones.
* The comment at `DposSlot.java:19-24` speaks of the next call to `getTime()`; every
  call sees the override until mining clears it.

## Model

| member | source | states |
|---|---|---|
| `StateStore.DumpStore` | docker/src/org/tron/core/services/jsonrpc/tre/TreJsonRpcImpl.java:585-599 | the dump equals the store whatever the order of the cursor and whatever null keys or value-less entries it yields |
| `StateStore.RestoreStore` | docker/src/org/tron/core/services/jsonrpc/tre/TreJsonRpcImpl.java:621-661 | restoring by one diffing pass replaces the store by the snapshot; every differing key is written or deleted exactly once, an equal key never, and a value-less cursor entry the snapshot lacks is deleted once, to no effect |
| `StateStore.ClassifyCurrent` | docker/src/org/tron/core/services/jsonrpc/tre/TreJsonRpcImpl.java:625-650 | the pass over the current store: the keys matched, the keys to delete, the keys overwritten and the contents left |
| `StateStore.DeleteAll` | docker/src/org/tron/core/services/jsonrpc/tre/TreJsonRpcImpl.java:651-653 | the deletions, key by key |
| `StateStore.WriteBack` | docker/src/org/tron/core/services/jsonrpc/tre/TreJsonRpcImpl.java:656-660 | every snapshot key that was not met is written once, and the contents then equal the snapshot |
| `StateStore.AddedMeans` | docker/src/org/tron/core/services/jsonrpc/tre/TreJsonRpcImpl.java:636-639 | a key is collected for deletion exactly once if the cursor yields it and the snapshot lacks it, else not at all |
| `StateStore.ModifiedMeans` | docker/src/org/tron/core/services/jsonrpc/tre/TreJsonRpcImpl.java:641-644 | a key is overwritten exactly once if the cursor yields it, the snapshot holds it and the values differ, else not at all |
| `StateStore.OverwrittenMeans` | docker/src/org/tron/core/services/jsonrpc/tre/TreJsonRpcImpl.java:640-648 | after the pass every matched key has its snapshot value and every other key what it had |
| `StateStore.SeenIff` | docker/src/org/tron/core/services/jsonrpc/tre/TreJsonRpcImpl.java:628-634 | a key shows up under the cursor exactly when the store holds it or a value-less entry names it |
| `SnapshotSpec.TakeKeepsAll` | docker/src/org/tron/core/services/jsonrpc/tre/TreJsonRpcImpl.java:664-691 | a new snapshot never reuses a live id, captures the four stores as they are, and leaves every older snapshot as it was |
| `SnapshotSpec.RevertKeepsOlder` | docker/src/org/tron/core/services/jsonrpc/tre/TreJsonRpcImpl.java:704-716 | what a revert leaves live is exactly what was taken strictly before the target, images included |
| `SnapshotSpec.DropRemovesOne` | docker/src/org/tron/core/services/jsonrpc/tre/TreJsonRpcImpl.java:745-752 | dropping an id removes that id and nothing else |
| `SnapshotSpec.DropKeepsTable` | docker/src/org/tron/core/services/jsonrpc/tre/TreJsonRpcImpl.java:749-751 | insertion order stays the order of ids, and no id is past the counter |
| `SnapshotIds.HexRoundTrip` | docker/src/org/tron/core/services/jsonrpc/tre/TreJsonRpcImpl.java:681 | reading back the hexadecimal text of a counter gives the counter |
| `SnapshotIds.HexIsPlain` | docker/src/org/tron/core/services/jsonrpc/tre/TreJsonRpcImpl.java:681 | lower-case digits without leading zeros |
| `SnapshotIds.TextOrder` | src/runtime/ethers-bridge.js:2241-2244 | the client's numeric comparison of ids is the order in which the node handed them out, and id texts never collide |
| `SnapshotNode.TreNode.TakeSnapshot` | docker/src/org/tron/core/services/jsonrpc/tre/TreJsonRpcImpl.java:664-691 | dumps the four stores and enters them under the next number |
| `SnapshotNode.TreNode.Revert` | docker/src/org/tron/core/services/jsonrpc/tre/TreJsonRpcImpl.java:694-735 | an unknown id is an error that changes nothing; a live one restores the four stores and discards the target and everything newer |
| `SnapshotNode.TreNode.DiscardFrom` | docker/src/org/tron/core/services/jsonrpc/tre/TreJsonRpcImpl.java:705-715 | the walk in insertion order keeps exactly what precedes the target |
| `SnapshotNode.TreNode.DropSnapshot` | docker/src/org/tron/core/services/jsonrpc/tre/TreJsonRpcImpl.java:745-752 | a missing id is an error; otherwise the answer says whether the id was live, and it is gone |
| `FixtureSpec.EvictionCuts` | src/runtime/ethers-bridge.js:2243-2244 | on an id-sorted cache the two filters keep exactly the older entries and the restored one, and evict exactly the newer ids |
| `FixtureSpec.CachedLoad` | src/runtime/ethers-bridge.js:2241-2251 | under the invariant a cached load never fails, and amounts to cutting back to the entry and recording it again under a brand-new id |
| `FixtureSpec.CachedLoadEffect` | src/runtime/ethers-bridge.js:2229-2252 | a cached load returns the recorded data, leaves the four stores as the entry's snapshot holds them, keeps the invariant and every surviving entry's image |
| `FixtureSpec.FreshKeepsInv` | src/runtime/ethers-bridge.js:2254-2257 | recording a fresh fixture keeps the invariant and every older image, and the new id stands for the present stores |
| `FixtureSpec.RevertKeepsInv` | src/runtime/ethers-bridge.js:2514-2518 | a direct revert to an id newer than every cached fixture keeps the invariant and every cached image |
| `FixtureSpec.DirectSteps` | src/runtime/ethers-bridge.js:2509-2519 | direct snapshots and reverts as the node sees them |
| `FixtureSpec.LateDropIsHarmless` | src/runtime/ethers-bridge.js:2248-2250 | a drop message delivered at any later time finds its id dead and changes no snapshot |
| `FixtureSpec.StepKeepsInv` | src/runtime/ethers-bridge.js:2186-2258 | every action keeps: cache strictly id-sorted, every cached id live on the node, every undelivered drop dead, ids never reused |
| `FixtureSpec.RunKeepsInv` | src/runtime/ethers-bridge.js:2186-2258 | the same in every state a run of nested fixtures, transactions, direct snapshots and reverts and late drops can reach |
| `FixtureSpec.StepUnique` | src/runtime/ethers-bridge.js:2254-2257 | an action leaves one entry per fixture exactly unless it records a fixture that is already cached |
| `FixtureSpec.OneEntryPerFixture` | src/runtime/ethers-bridge.js:2216-2257 | one entry per fixture throughout a run exactly when no body ends while its own fixture is cached |
| `FixtureSpec.NoReentrySuffices` | src/runtime/ethers-bridge.js:2216-2257 | that never happens if no fixture starts afresh inside its own body |
| `FixtureSpec.ReentryCachesTwice` | src/runtime/ethers-bridge.js:2254-2257 | a fixture that loads itself inside its own body ends up in the cache twice: a concrete run |
| `FixtureSpec.StepAttested` | src/runtime/ethers-bridge.js:2188-2258 | every action keeps each cache entry standing for what one body of its fixture returned and left in the four stores |
| `FixtureSpec.RunAttested` | src/runtime/ethers-bridge.js:2188-2258 | the same over whole runs, with a log of every body that ended kept apart from both machines |
| `FixtureSpec.FixtureIsolation` | src/runtime/ethers-bridge.js:2188-2258 | after any run a cached load succeeds, returns what a body of that fixture returned and puts the four stores back to what they held when that body ended |
| `FixtureSpec.StepFaithful` | src/runtime/ethers-bridge.js:2188-2258 | every action keeps a fixture's entries standing for its last body exactly unless that body ends, with its fixture cached, otherwise than the one before |
| `FixtureSpec.RunFaithful` | src/runtime/ethers-bridge.js:2188-2258 | the same equivalence over whole runs |
| `FixtureSpec.NoDoubleRecordSuffices` | src/runtime/ethers-bridge.js:2216-2257 | no body ends so if none ends while its own fixture is cached |
| `FixtureSpec.LastBodyIsolation` | src/runtime/ethers-bridge.js:2188-2258 | then a cached load of that fixture returns what its last body returned and puts the stores back to what they held when that one ended |
| `FixtureSpec.LoadOfOutdated` | src/runtime/ethers-bridge.js:2216-2252 | a concrete run where it does not: a fixture that loads itself inside its own body |
| `FixtureClient.Restorer.Restore` | src/runtime/ethers-bridge.js:2164-2174 | reverts and snapshots again; on an unknown id nothing changes |
| `FixtureClient.FixtureCache.FindEntry` | src/runtime/ethers-bridge.js:2216 | the first entry for the fixture |
| `FixtureClient.FixtureCache.Record` | src/runtime/ethers-bridge.js:2254-2257 | the miss path: new node and cache are those of the specification |
| `FixtureClient.FixtureCache.LoadHit` | src/runtime/ethers-bridge.js:2229-2252 | the hit path over shared restorer objects equals the specification's load, error case included |
| `FixtureClient.FixtureCache.Evict` | src/runtime/ethers-bridge.js:2243-2250 | the filters and the drop messages leave exactly the kept entries and add exactly the evicted ids |
| `FixtureClient.FixtureCache.SendDrops` | src/runtime/ethers-bridge.js:2248-2250 | one message per evicted entry |
| `FixtureClient.KeptEntriesMeans` | src/runtime/ethers-bridge.js:2244 | filtering the objects is filtering what they hold |
| `FixtureClient.EvictedEntriesMeans` | src/runtime/ethers-bridge.js:2243 | likewise for the evicted ids |
| `InstanceIdSpec.StepKeepsGenInv` | src/runtime/instance-id.js:177-244 | every step keeps: what is cached, and what a resolution captured, came from a resolution of the same generation |
| `InstanceIdSpec.RunKeepsGenInv` | src/runtime/instance-id.js:177-244 | the same in every interleaving of calls, probe answers and evictions, with no hypothesis |
| `InstanceIdSpec.StaleResolutionIsVoid` | src/runtime/instance-id.js:178-181 | a resolution begun before an eviction changes neither the cache nor any cache object afterwards |
| `InstanceIdSpec.TaskStep` | src/runtime/instance-id.js:177-234 | what one step of a resolution may touch: itself, and the cache only as it ends in its own generation |
| `InstanceIdSpec.StepCoalesced` | src/runtime/instance-id.js:156-175 | a step keeps one live resolution per generation exactly unless a stale `finally` deletes a newer promise |
| `InstanceIdSpec.CoalescingExact` | src/runtime/instance-id.js:156-175 | one live resolution in every state of a run exactly when no such `finally` fires |
| `InstanceIdSpec.QuietEvictionsSuffice` | src/runtime/instance-id.js:171 | none fires if evictions happen only with no resolution outstanding |
| `InstanceIdSpec.CallersShare` | src/runtime/instance-id.js:166-175 | while a resolution is live, every caller joins it |
| `InstanceIdSpec.CallStarts` | src/runtime/instance-id.js:166-184 | otherwise, with nothing committed, the call starts a resolution that goes on from the cache, and waits for it |
| `InstanceIdSpec.EndingAnswers` | src/runtime/instance-id.js:186-233 | what every event makes a resolution answer, evicted meanwhile or not: the served id; without one the held id on a re-probe, else the looked-up id or the genesis hash, or a throw |
| `InstanceIdSpec.RunKnows` | src/runtime/instance-id.js:129-141 | in every interleaving a resolution past its probe goes by the last answer its fetches were given |
| `InstanceIdSpec.WriterReturnsWhatIsCached` | src/runtime/instance-id.js:190-233 | a step that changes the cache caches the very id it returns, committed exactly if the probe was answered or the re-probes are spent, so the next call answers what the waiting callers were told |
| `InstanceIdSpec.RunHeldWasReturned` | src/runtime/instance-id.js:159-234 | in every interleaving every cached id was returned by the resolution it is from |
| `InstanceIdSpec.AnswersOverRuns` | src/runtime/instance-id.js:177-234 | both, from the initial state, in terms of the events of the run |
| `InstanceIdSpec.StepKeepsOneAtWork` | src/runtime/instance-id.js:164-234 | the resolution at work finds the cache as it left it and not committed |
| `InstanceIdSpec.CacheGivesWay` | src/runtime/instance-id.js:159-162 | short of an eviction the cache is left alone unless a resolution of the current generation ends in an id it may write; then the written entry is the cached one |
| `InstanceIdSpec.StepAnswers` | src/runtime/instance-id.js:166-168 | a committed id goes on answering after a step exactly unless the step writes a provisional entry or another id; the cached object stays exactly if nothing is written |
| `InstanceIdSpec.StepRank` | src/runtime/instance-id.js:159-233 | the entry does not fall back in a step exactly unless a provisional entry is written over a committed one |
| `InstanceIdSpec.CommittedIdStays` | src/runtime/instance-id.js:166-234 | over any run without eviction, and with no other hypothesis: a committed id answers every call exactly when no such write happens |
| `InstanceIdSpec.CachedObjectStays` | src/runtime/instance-id.js:159-233 | over any such run the cached object is the same at the end exactly when nothing was written |
| `InstanceIdSpec.AdvancesExactly` | src/runtime/instance-id.js:159-244 | over any run: between evictions the entry moves only absent, provisional, committed, exactly when no provisional entry is written over a committed one |
| `InstanceIdSpec.NothingWrittenOnceCommitted` | src/runtime/instance-id.js:166-175 | with one resolution at work at most, nothing is written once an id is committed |
| `InstanceIdSpec.CacheOnlyAdvances` | src/runtime/instance-id.js:159-162 | hence with one resolution at work at most: until the next eviction the entry only advances, and a committed id and its cost stay |
| `InstanceIdSpec.CoalescingAdvances` | src/runtime/instance-id.js:156-234 | over any run without a stale `finally` no provisional entry is written over a committed one |
| `InstanceIdSpec.CommittedUntilEvict` | src/runtime/instance-id.js:167-168 | and a committed id is returned unchanged, with no further fetch, over any run without eviction and without a stale `finally` |
| `InstanceIdSpec.WorkStep` | src/runtime/instance-id.js:183-233 | every step of a resolution, whether it throws or not, keeps its account of fetches, unanswered probes and lower-tier visits |
| `InstanceIdSpec.StepKeepsBudget` | src/runtime/instance-id.js:183-233 | every step of the whole protocol keeps that account |
| `InstanceIdSpec.BudgetBounds` | src/runtime/instance-id.js:92 | the account bounds a generation, n of whose resolutions threw: 6 + 2n fetches, 3 + n unanswered probes, 1 + n visits to the lower tiers; at rest with 3 + n such probes the id is committed |
| `InstanceIdSpec.SettlingIsBounded` | src/runtime/instance-id.js:92-234 | the bound holds in every state of every run in which no stale `finally` fires |
| `InstanceIdSpec.ThrowsAreCounted` | src/runtime/instance-id.js:207-228 | n goes up exactly when a resolution throws in its own generation, and starts again at an eviction |
| `InstanceIdSpec.SettlingWithoutThrows` | src/runtime/instance-id.js:92-234 | with none throwing: six fetches, three unanswered probes, one visit, and then a committed id |
| `InstanceIdSpec.ThrowsCostMore` | src/runtime/instance-id.js:207-218 | a concrete run with one throw that attains its bound in full, so exceeds the one for none |
| `InstanceIdSpec.StaleFinallyCostsMore` | src/runtime/instance-id.js:171 | a concrete continuation of the run with two live resolutions that exceeds the bound with none throwing |
| `InstanceIdSpec.InitIsSound` | src/runtime/instance-id.js:156-157 | the theorems on runs start from the module's initial state |
| `InstanceIdSpec.StaleFinallyBreaksCoalescing` | src/runtime/instance-id.js:171 | a concrete run: a `finally` that outlives an eviction deletes its successor's promise, and a third resolution starts beside the second |
| `InstanceIdSpec.CommittedIdCanBeLost` | src/runtime/instance-id.js:232 | from there a committed id gives way to a provisional one with no eviction in between |
| `InstanceIdModule.InstanceIds.InstanceId` | src/runtime/instance-id.js:166-184 | the call up to its first await; the new tables are those of the protocol step |
| `InstanceIdModule.InstanceIds.OnFetch` | src/runtime/instance-id.js:129-140 | one turn of the probe's loop; the new tables are those of the protocol step |
| `InstanceIdModule.InstanceIds.OnWake` | src/runtime/instance-id.js:138 | the retry; the new tables are those of the protocol step |
| `InstanceIdModule.InstanceIds.OnProbe` | src/runtime/instance-id.js:186-228 | from the probe's answer to the end or the next await; the new tables are those of the protocol step |
| `InstanceIdModule.InstanceIds.Reprobe` | src/runtime/instance-id.js:190-200 | the end of a re-probe of a provisional entry; the new tables are those of the protocol step |
| `InstanceIdModule.InstanceIds.Settle` | src/runtime/instance-id.js:230-233 | void, committed or provisional; the new tables are those of the protocol step |
| `InstanceIdModule.InstanceIds.OnGenesis` | src/runtime/instance-id.js:147-154 | the last tier's answer; the new tables are those of the protocol step |
| `InstanceIdModule.InstanceIds.OnFinally` | src/runtime/instance-id.js:171 | deletes whatever promise is in flight; the new tables are those of the protocol step |
| `InstanceIdModule.InstanceIds.EvictInstanceId` | src/runtime/instance-id.js:238-244 | clears entry and promise and bumps the generation; the new tables are those of the protocol step |
| `Lifecycle.EvictionVoidsAll` | src/runtime/instance-id.js:238-244 | an eviction makes every resolution ever started one of an earlier generation, and leaves no entry and no promise |
| `Lifecycle.TreLifecycle.EnsureUp` | src/tre/lifecycle.js:300-366 | exactly a successful new boot and a failed one whose container is removed take the eviction step of the protocol, for their own url only |
| `Lifecycle.TreLifecycle.Teardown` | src/tre/lifecycle.js:368-380 | takes the eviction step, once each, for exactly the urls the container was launched for, and forgets those launches |
| `Lifecycle.TreLifecycle.Forget` | src/tre/lifecycle.js:373-378 | one turn of that loop |
| `DposSlot.RegularTimes` | docker/src/org/tron/consensus/dpos/DposSlot.java:55-73 | slot times are evenly spaced |
| `DposSlot.FirstTimeBounds` | docker/src/org/tron/consensus/dpos/DposSlot.java:63-72 | slot zero is at the genesis block, or less than an interval before the head, on by the skipped slots |
| `DposSlot.SlotBracketsTime` | docker/src/org/tron/consensus/dpos/DposSlot.java:31-53 | from the first slot time on, the time lies in the interval of its slot |
| `DposSlot.EarlyTimeGetsSlotOne` | docker/src/org/tron/consensus/dpos/DposSlot.java:40-51 | an earlier time gets slot one, whose time is later than it |
| `DposSlot.SlotOfSlotTime` | docker/src/org/tron/consensus/dpos/DposSlot.java:31-73 | the slot of a slot's own time is that slot |
| `DposSlot.SlotTimesAligned` | docker/src/org/tron/consensus/dpos/DposSlot.java:71-72 | slot times are congruent to genesis modulo the interval |
| `DposSlot.SlotOneIsAfterHead` | docker/src/org/tron/consensus/dpos/DposSlot.java:67-72 | slot one is after the head block, also past skipped maintenance slots |
| `DposSlot.AbSlotBrackets` | docker/src/org/tron/consensus/dpos/DposSlot.java:27-29 | the absolute slot of a time is the number of whole intervals since genesis |
| `DposSlot.AbSlotOfSlotTime` | docker/src/org/tron/consensus/dpos/DposSlot.java:27-29 | the absolute slot of a slot's time is that of the head, on by the slot and the slots skipped |
| `DposSlot.ScheduleFollowsTime` | docker/src/org/tron/consensus/dpos/DposSlot.java:75-86 | within 31 bits the scheduled witness is the one whose turn the block's own time falls in, exactly when the slots skipped make whole turns |
| `DposSlot.WitnessFoundExactly` | docker/src/org/tron/consensus/dpos/DposSlot.java:75-86 | a witness is found exactly when the slot is not negative, there are witnesses, and the slot cut to 32 bits is non-negative or a multiple of their number |
| `DposSlot.WitnessIndexCanFail` | docker/src/org/tron/consensus/dpos/DposSlot.java:84-85 | a concrete slot past 31 bits whose index is out of bounds |
| `MiningSpec.ClampExact` | docker/src/org/tron/core/services/jsonrpc/tre/TreJsonRpcImpl.java:325-331 | without an override a block is at least a second after the head exactly while head time plus a second fits a long |
| `MiningSpec.BlockFollowsClock` | docker/src/org/tron/core/services/jsonrpc/tre/TreJsonRpcImpl.java:300-331 | without a target a block is at its slot's time or a second after the head, whichever is later; the slot's time is aligned to genesis, and from the first slot time on the clock, 50 ms ahead, lies in that slot |
| `MiningSpec.MinedBlock` | docker/src/org/tron/core/services/jsonrpc/tre/TreJsonRpcImpl.java:333-339 | that is the time of the one block mined, and the target is spent |
| `MiningSpec.RoundWithoutBlock` | docker/src/org/tron/core/services/jsonrpc/tre/TreJsonRpcImpl.java:302-339 | any other round leaves the chain alone |
| `MiningSpec.ReadyExactly` | docker/src/org/tron/core/services/jsonrpc/tre/TreJsonRpcImpl.java:302-307 | within 31 bits a round reaches the block handler exactly when there are witnesses and the scheduled one has a miner |
| `MiningSpec.TickSpacing` | docker/src/org/tron/core/services/jsonrpc/tre/TreJsonRpcImpl.java:297-340 | one action keeps the spacing exactly unless it mines without an override on a head less than a second from the end of a long |
| `MiningSpec.TimestampsOverRuns` | docker/src/org/tron/core/services/jsonrpc/tre/TreJsonRpcImpl.java:190-340 | over any run of targets, block times and mining: each block is later than the one before, on its target if it has one and else by a second at least, exactly when no such block is mined |
| `MiningSpec.SpacingFailsAtTheEnd` | docker/src/org/tron/core/services/jsonrpc/tre/TreJsonRpcImpl.java:325-331 | a concrete run: a block at the end of a long, and the next before the epoch |
| `MiningSpec.SpacedIsIncreasing` | docker/src/org/tron/core/services/jsonrpc/tre/TreJsonRpcImpl.java:325-331 | timestamps of such a chain strictly increase |
| `MiningSpec.TickKeepsTarget` | docker/src/org/tron/core/services/jsonrpc/tre/TreJsonRpcImpl.java:196-201 | an action leaves a target set exactly unless it ends a mine call, completes a round or sets another target |
| `MiningSpec.UndisturbedKeeps` | docker/src/org/tron/core/services/jsonrpc/tre/TreJsonRpcImpl.java:297-340 | through any number of other actions target and chain stay |
| `MiningSpec.TargetKeptExactly` | docker/src/org/tron/core/services/jsonrpc/tre/TreJsonRpcImpl.java:190-202 | a target is still set after any actions exactly when none of those happened, if it is not set again afterwards |
| `MiningSpec.FirstBlockLandsOnTarget` | docker/src/org/tron/core/services/jsonrpc/tre/TreJsonRpcImpl.java:477-489 | after any actions that do not disturb an accepted target, the next block lands exactly on it and spends it |
| `MiningSpec.FirstBlockExactly` | docker/src/org/tron/core/services/jsonrpc/tre/TreJsonRpcImpl.java:190-202 | and carries it only then |
| `MiningSpec.FailedMineLosesTarget` | docker/src/org/tron/core/services/jsonrpc/tre/TreJsonRpcImpl.java:196-201 | a concrete run: a mine call that fails before its first block clears the target, and the next block lands elsewhere |
| `MiningSpec.MineLoopIsRun` | docker/src/org/tron/core/services/jsonrpc/tre/TreJsonRpcImpl.java:297-340 | a mine call is a run of rounds that stops at the first that does not complete, and fails exactly then |
| `MiningSpec.MineLoopCounts` | docker/src/org/tron/core/services/jsonrpc/tre/TreJsonRpcImpl.java:297-340 | all rounds producing, a call adds that many blocks, the first on the target if there is one |
| `MiningNode.TreMiner.SetNextBlockTimestamp` | docker/src/org/tron/core/services/jsonrpc/tre/TreJsonRpcImpl.java:477-489 | accepted exactly if positive and after the head; else nothing changes |
| `MiningNode.TreMiner.SetBlockTimeSeconds` | docker/src/org/tron/core/services/jsonrpc/tre/TreJsonRpcImpl.java:152-165 | accepted exactly in 0 to 60; zero is manual mode at one millisecond, else automatic at so many thousand |
| `MiningNode.TreMiner.Mine` | docker/src/org/tron/core/services/jsonrpc/tre/TreJsonRpcImpl.java:190-202 | a bad count leaves the override alone; every other outcome clears it |
| `MiningNode.TreMiner.MineWithBudget` | docker/src/org/tron/core/services/jsonrpc/tre/TreJsonRpcImpl.java:291-353 | the loop runs rounds until one throws |
| `MiningNode.TreMiner.ProduceBlock` | docker/src/org/tron/core/services/jsonrpc/tre/TreJsonRpcImpl.java:297-340 | one round of the loop |
| `TimeHelpers.SecondsCheckAgrees` | src/runtime/time.js:153-158 | for positive targets the client's check in seconds and the node's in milliseconds agree; other targets the node refuses |
| `TimeHelpers.IncreaseNeverRefused` | src/runtime/time.js:143-147 | warping by a second or more is never refused |
| `TimeHelpers.WarpLands` | src/runtime/time.js:96-106 | a warp that succeeds spends the override, and lands on the target, one block higher, exactly when its block is produced |
| `TimeHelpers.MinedBlocksCount` | src/runtime/time.js:33-42 | all calls producing, the height grows by their number |
| `TimeHelpers.TimeClient.SupportsInstantWarp` | src/runtime/time.js:74-80 | probes once and remembers |
| `TimeHelpers.TimeClient.WarpAndMine` | src/runtime/time.js:96-106 | sets the target and mines one block, or is refused and changes nothing |
| `TimeHelpers.TimeClient.Increase` | src/runtime/time.js:133-148 | every outcome; never refused by the node, and the answer is the new `latest()` exactly when the block is produced |
| `TimeHelpers.TimeClient.IncreaseTo` | src/runtime/time.js:108-131 | every outcome; a refusal always reaches the caller with target and current time, and a success lands on the target exactly when the block is produced |
| `TimeHelpers.TimeClient.SetNextTimestamp` | src/runtime/time.js:153-162 | every outcome; a target the client lets through is never refused, and nothing is mined |
| `TimeHelpers.TimeClient.MineBlocks` | src/runtime/time.js:33-42 | one call per block up to the first that fails |
| `TimeHelpers.TimeClient.MineUpTo` | src/runtime/time.js:61-68 | refuses heights not above the present one; otherwise ends exactly on the target when every call produces |
| `MiningAdmission.StepKeepsInv` | docker/src/org/tron/core/services/jsonrpc/tre/TreJsonRpcImpl.java:214-237 | every step of any thread keeps: one holder at most, the flag set exactly while there is one, the fallback lock and the producer lock held by who is inside |
| `MiningAdmission.RunKeepsInv` | docker/src/org/tron/core/services/jsonrpc/tre/TreJsonRpcImpl.java:214-347 | the same over every interleaving |
| `MiningAdmission.MutualExclusion` | docker/src/org/tron/core/services/jsonrpc/tre/TreJsonRpcImpl.java:291-347 | from the initial state, on the atomic and on the plain flag: at most one thread is admitted, at most one produces, and the flag is set exactly while one holds admission |
| `MiningAdmission.OnlyTheHolderClears` | docker/src/org/tron/core/services/jsonrpc/tre/TreJsonRpcImpl.java:229-237 | only the holder clears the flag; a refused call leaves flag and other threads alone |
| `MiningAdmission.AdmissionRefusedWhileHeld` | docker/src/org/tron/core/services/jsonrpc/tre/TreJsonRpcImpl.java:214-227 | while one thread holds admission no other gets in |
| `MiningAdmission.LoneCallIsAdmitted` | docker/src/org/tron/core/services/jsonrpc/tre/TreJsonRpcImpl.java:214-227 | a lone call is admitted, with the flag set, on either path |
| `MiningAdmission.AdmittedCallEnds` | docker/src/org/tron/core/services/jsonrpc/tre/TreJsonRpcImpl.java:294-347 | then produces, and leaves everything as it found it |
| `MiningAdmission.CallIsRefused` | docker/src/org/tron/core/services/jsonrpc/tre/TreJsonRpcImpl.java:218-223 | a call that finds the flag set is refused with nothing changed |
| `AbiSignatures.ExpandIsCanonical` | src/runtime/deploy.js:22-35 | the expanded type is the canonical type |
| `AbiSignatures.ExpandIdempotent` | src/runtime/deploy.js:22-35 | expanding twice is expanding once, and only the type text changes |
| `AbiSignatures.CanonicalIsPrint` | src/runtime/ethers-bridge.js:788-797 | the canonical type is the print of the component tree |
| `AbiSignatures.ParsePrint` | src/runtime/ethers-bridge.js:788-797 | a parser reads any printed tree back and stops right after it |
| `AbiSignatures.PrintInjective` | src/runtime/ethers-bridge.js:788-797 | printed trees are uniquely readable |
| `AbiSignatures.SignaturesAreUnique` | src/runtime/ethers-bridge.js:798-800 | two signatures are equal exactly when the names and the component trees are |
| `AbiSignatures.SignatureSplits` | src/runtime/ethers-bridge.js:798-800 | a signature determines its name and its argument list |
| `SolidityTypes.CanonicalTypeMeetsSpec` | src/runtime/ethers-bridge.js:788-797 | the code prints the canonical type of the Contract ABI Specification exactly for types with no tuple under more than one array dimension |
| `SolidityTypes.CanonicalSigMeetsSpec` | src/runtime/ethers-bridge.js:798-800 | a signature is the specification's, the name and then the parameter types as of a tuple, exactly when those types are all such |
| `SolidityTypes.OverloadsToldApart` | src/runtime/ethers-bridge.js:798-800 | if the types of one of two functions are such, signatures are equal exactly when names and real types are |
| `SolidityTypes.NestedTupleArraysConflate` | src/runtime/ethers-bridge.js:792-796 | otherwise not: concrete functions of one name and different real types share a signature |
| `ContractFacade.Facade.constructor` | src/runtime/ethers-bridge.js:1463-1479 | the tables are those of the ABI's functions in order |
| `ContractFacade.Facade.Register` | src/runtime/ethers-bridge.js:1473-1476 | one more function enters both tables |
| `ContractFacade.FunctionsInOrder` | src/runtime/ethers-bridge.js:1471-1472 | the functions of an ABI are its function items, in ABI order |
| `ContractFacade.NamedInOrder` | src/runtime/ethers-bridge.js:1475-1476 | those of a name are in the same order |
| `ContractFacade.OneItem` | src/runtime/ethers-bridge.js:1471-1476 | an ABI of one item |
| `ContractFacade.Facade.MethodFor` | src/runtime/ethers-bridge.js:1524-1546 | a cached handle is returned, a new one remembered; either belongs to the function's signature, with a contract of its own exactly if the name is overloaded |
| `ContractFacade.ByNameMeans` | src/runtime/ethers-bridge.js:1463-1476 | each name lists exactly its functions, in ABI order |
| `ContractFacade.BySignatureMeans` | src/runtime/ethers-bridge.js:1464-1474 | the signature table answers exactly the ABI's signatures, each with the last function that has it |
| `ContractFacade.TablesNeverConflate` | src/runtime/ethers-bridge.js:1473-1474 | a signature never answers with a function of another name or component tree |
| `BigIntJson.DecExact` | src/runtime/cheatcodes.js:160 | a BigInt's decimal text stands for that BigInt |
| `BigIntJson.DecIsPlain` | src/runtime/cheatcodes.js:160 | without leading zeros |
| `BigIntJson.EscIsShortest` | src/runtime/cheatcodes.js:161 | no character is escaped that need not be, and none longer than needed |
| `BigIntJson.MatchesTag` | src/runtime/cheatcodes.js:162 | the pattern matches a tag in full and leaves its digits |
| `BigIntJson.MatchShape` | src/runtime/cheatcodes.js:162 | whatever the pattern matches is a tag |
| `BigIntJson.RewriteSplits` | src/runtime/cheatcodes.js:162 | the pass treats a text ending in a quote on its own unless an X follows |
| `BigIntJson.RewriteTokenwise` | src/runtime/cheatcodes.js:157-163 | the pass over a serialized tree acts token by token: tags become integers, quoted texts are passed on their own, the rest is untouched |
| `BigIntJson.StringifyExact` | src/runtime/cheatcodes.js:157-163 | the output is the direct serialization, BigInts as integer literals and every other byte unchanged, exactly when the pass leaves every string and key alone |
| `BigIntJson.CleanExactly` | src/runtime/cheatcodes.js:158-162 | it leaves a string alone exactly unless the string is a tag, or ends in a quote character and a tag |
| `BigIntJson.NoPrefixIsClean` | src/runtime/cheatcodes.js:158 | a string without the sentinel prefix is left alone |
| `JsonParser.ParseWanted` | src/runtime/cheatcodes.js:157-163 | a JSON parser reads the direct serialization of any tree back and stops right after it |
| `JsonParser.ParsingRecoversValues` | src/runtime/cheatcodes.js:157-163 | parsing the output gives every clean tree back |
| `JsonParser.EraseAt` | src/runtime/cheatcodes.js:157-163 | positions in a tree are positions in what is parsed |
| `JsonParser.ParsingRecoversBigInts` | src/runtime/cheatcodes.js:153-163 | wherever a BigInt stands in a clean tree, and whatever its size, parsing the output finds that very integer there |
| `AddressArgs.ArgumentsKeepMeaning` | src/runtime/ethers-bridge.js:478-549 | for every argument that has a meaning for its descriptor, normalizing then coercing keeps the meaning, shape included, with every address rewritten; the result has every address in `0x` hex and no wrapper or BigInt at any depth exactly when the argument's lists of other things held none |
| `AddressArgs.ReadyExactly` | src/runtime/ethers-bridge.js:478-549 | every argument of a descriptor comes out so exactly when the descriptor has no lists but those of tuples and addresses |
| `AddressArgs.OtherAddressArraysPassUnread` | src/runtime/ethers-bridge.js:505-548 | an address array of fixed size or more dimensions comes out as it came |
| `AddressArgs.NormalizeKeepsMeaning` | src/runtime/ethers-bridge.js:478-549 | the first pass alone rewrites every address of the meaning and changes nothing else; addresses come out as base58 at top level and as hex inside tuples, wrappers and BigInts are gone outside lists of other things |
| `AddressArgs.AddressTextMeans` | src/runtime/ethers-bridge.js:414-424 | the text taken from a wrapper, a signer or a contract object spells the address that object means |
| `AddressArgs.AddressNormalized` | src/runtime/ethers-bridge.js:487-504 | one address leaf, at top level or nested |
| `AddressArgs.AddressesNormalized` | src/runtime/ethers-bridge.js:505-522 | an `address[]`, element by element |
| `AddressArgs.TupleNormalized` | src/runtime/ethers-bridge.js:526-539 | a tuple, in list or object form |
| `AddressArgs.TupleArrayNormalized` | src/runtime/ethers-bridge.js:540-546 | a tuple array |
| `AddressArgs.ComponentsNormalized` | src/runtime/ethers-bridge.js:527-529 | a list-form tuple, component by component |
| `AddressArgs.MembersNormalized` | src/runtime/ethers-bridge.js:530-538 | an object-form tuple, by name; members that are no component are left out |
| `AddressArgs.ElementsNormalized` | src/runtime/ethers-bridge.js:545 | a tuple array, element by element |
| `AddressArgs.CoerceKeepsMeaning` | src/runtime/ethers-bridge.js:985-1015 | the second pass alone, on a value in any form, keeps the meaning and leaves every address as hex |
| `AddressArgs.HexIsLowerCase` | src/runtime/ethers-bridge.js:987-991 | base58 becomes lower-case hex, hex stays as it came |
| `AddressArgs.TupleCoerced` | src/runtime/ethers-bridge.js:996-1009 | a tuple, in list or object form |
| `AddressArgs.AddressesCoerced` | src/runtime/ethers-bridge.js:993-995 | an `address[]`, element by element |
| `AddressArgs.ComponentsCoerced` | src/runtime/ethers-bridge.js:996-999 | a list-form tuple, component by component |
| `AddressArgs.MembersCoerced` | src/runtime/ethers-bridge.js:1000-1008 | an object-form tuple, by name |
| `AddressArgs.ElementsCoerced` | src/runtime/ethers-bridge.js:1010-1013 | a tuple array, element by element |
| `CreatePairing.WithoutKeepsOthers` | src/runtime/cheatcodes.js:420-435 | a processed caller's predictions all go; every other prediction stays as often as it was |
| `CreatePairing.OnePairPerCaller` | src/runtime/cheatcodes.js:404-438 | as many mappings as callers with both a pending prediction and a complete creation |
| `CreatePairing.PairIsThere` | src/runtime/cheatcodes.js:420-436 | each such caller's mapping goes from its most recent prediction to its first complete creation in the receipt |
| `CreatePairing.PairsAreThese` | src/runtime/cheatcodes.js:404-438 | there are no other mappings |
| `CreatePairing.LookupOfPair` | src/runtime/cheatcodes.js:386-396 | a paired prediction is looked up as that creation unless the same prediction is paired again later in the receipt |
| `CreatePairing.OthersStayEntered` | src/runtime/cheatcodes.js:436 | predictions that are not paired keep what they were mapped to |
| `CreatePairing.OnlyCreationsPair` | src/runtime/cheatcodes.js:404-410 | an internal transaction that is no creation, or does not say by whom or of what, is passed over; a creation pairs with its caller's last prediction |
| `CreatePairing.LookupAnySpelling` | src/runtime/cheatcodes.js:358-396 | and that under any spelling of the predicted address |
| `AddressSpellings.KeysAreAddresses` | src/runtime/cheatcodes.js:321-380 | every recognized spelling is reduced to the address it spells, under the one prefix of callers, of predictions and of lookups |
| `AddressSpellings.RecognizedExactly` | src/runtime/cheatcodes.js:323-347 | callers are recognized in exactly three spellings, predictions in two, lookups in all four |
| `AddressSpellings.SpelledAddress` | src/runtime/cheatcodes.js:358-380 | a text of hex digits spells those digits in lower case, under any of the prefixes |
| `AddressSpellings.DecodedAddress` | src/runtime/cheatcodes.js:372-378 | a base58 text spells what it decodes to |
| `AddressSpellings.ObjectFields` | src/runtime/cheatcodes.js:348-364 | an object is recorded by its non-empty target, else its address, and looked up by the first text it carries |
| `AddressSpellings.SpellingsMeet` | src/runtime/cheatcodes.js:338-380 | a lookup meets a recorded prediction exactly when both spell one address |
| `CreatePairing.LastSurvives` | src/runtime/cheatcodes.js:422-428 | other callers' processing changes neither whether a caller has predictions nor which is last |
| `CreatePairing.ReceiptStep` | src/runtime/cheatcodes.js:404-438 | one more internal transaction, in terms of the queue as it then is |
| `CreatePairingQueue.PairingQueue.RecordStaticReturn` | src/runtime/cheatcodes.js:321-356 | a caller that spells an address and a return that spells one append the pair under the canonical prefixes, and the oldest of more than 256 goes; anything else leaves the queue |
| `CreatePairingQueue.PairingQueue.RegisterFromReceipt` | src/runtime/cheatcodes.js:400-439 | the scans and splices over a receipt equal the specification of queue and mappings |
| `CreatePairingQueue.PairingQueue.RegisterOne` | src/runtime/cheatcodes.js:404-438 | one internal transaction |
| `CreatePairingQueue.PairingQueue.TakeLast` | src/runtime/cheatcodes.js:420-435 | the backward scan finds the last prediction, and all of the caller's go |
| `CreatePairingQueue.PairingQueue.SweepOlder` | src/runtime/cheatcodes.js:430-435 | splicing during the descending scan skips nothing and removes nothing else |
| `Multisig.FirstKeyDecides` | docker/src/org/tron/core/capsule/TransactionCapsule.java:305-319 | with no key unlocked, the weight is that of the signer's first key, or zero |
| `Multisig.FirstHitDecides` | docker/src/org/tron/core/capsule/TransactionCapsule.java:305-319 | with keys unlocked the first key that is unlocked or the signer's decides, an unlocked one with the whole threshold |
| `Multisig.CheckWeight` | docker/src/org/tron/core/capsule/TransactionCapsule.java:326-363 | succeeds exactly when there are no more signatures than keys, all are well sized, recoverable and weigh something, and none is seen twice; the result is the 64-bit sum, else the error of the first signature at fault |
| `Multisig.PassesSinceFork` | docker/src/org/tron/core/capsule/TransactionCapsule.java:344-355 | since the fork that means pairwise distinct signers, each holding a key of nonzero weight |
| `Multisig.PassesBeforeFork` | docker/src/org/tron/core/capsule/TransactionCapsule.java:341-355 | before the fork two signatures clash by their texts |
| `Multisig.SumIsOverSigners` | docker/src/org/tron/core/capsule/TransactionCapsule.java:360 | the sum is one over the set of signers |
| `Multisig.SumOrderFree` | docker/src/org/tron/core/capsule/TransactionCapsule.java:335-362 | the sum does not depend on the order of the signatures |
| `Multisig.PassesOrderFree` | docker/src/org/tron/core/capsule/TransactionCapsule.java:335-362 | nor does passing |
| `Multisig.VerdictOrderFree` | docker/src/org/tron/core/capsule/TransactionCapsule.java:594-598 | nor does the verdict |
| `Multisig.ValidateSignature` | docker/src/org/tron/core/capsule/TransactionCapsule.java:561-599 | every outcome: accepted exactly for an impersonated owner, or with an existing permission that allows the operation, passing signatures, and a sum reaching the threshold |
| `Multisig.PermissionNamed` | docker/src/org/tron/core/capsule/TransactionCapsule.java:577-592 | an absent account has the default owner permission under 0, the default active one under 2 and no other |
| `StoragePaging.CollectMeans` | docker/src/org/tron/core/services/jsonrpc/tre/TreJsonRpcImpl.java:423-424 | the sorted map lists exactly the query's rows, in strictly increasing unsigned lexicographic order |
| `StoragePaging.LessMeans` | docker/src/org/tron/core/services/jsonrpc/tre/TreJsonRpcImpl.java:422 | the first byte that differs decides, and a proper prefix comes first |
| `StoragePaging.PageMeans` | docker/src/org/tron/core/services/jsonrpc/tre/TreJsonRpcImpl.java:426-438 | a page's rows are the first ones, `limit` if there are as many, of those whose key is not below the start |
| `StoragePaging.StorageRangeAt` | docker/src/org/tron/core/services/jsonrpc/tre/TreJsonRpcImpl.java:410-440 | a page is the first `limit` rows from the start key on, with the key of the next row if there is one |
| `StoragePaging.FirstFrom` | docker/src/org/tron/core/services/jsonrpc/tre/TreJsonRpcImpl.java:426-438 | the loop over the sorted map |
| `StoragePaging.NextPageContinues` | docker/src/org/tron/core/services/jsonrpc/tre/TreJsonRpcImpl.java:432-434 | the next key leads to exactly the rows this page left out |
| `StoragePaging.NextKeyMeansMore` | docker/src/org/tron/core/services/jsonrpc/tre/TreJsonRpcImpl.java:432-434 | there is a next key exactly when rows are left |
| `StoragePaging.PagingIsComplete` | docker/src/org/tron/core/services/jsonrpc/tre/TreJsonRpcImpl.java:405-440 | following the pages from an empty start, for any limit, ends and gives every row of the address exactly once, in order |
| `BalanceChanges.TokenBalanceChange` | src/runtime/chai-matchers-tvm.js:97-131 | the change of any account is the difference of its balances in a ledger that replays the token's transfers and keeps nothing at the zero address |
| `BalanceChanges.TransferMoves` | src/runtime/chai-matchers-tvm.js:113-128 | a transfer takes the amount from its sender and gives it to its receiver, each named by the last 40 digits of its topic |
| `BalanceChanges.EtherBalanceChanges` | src/runtime/chai-matchers-tvm.js:154-210 | each account's change is its net flow over the outer call, the fee if included, and the internal transfers not rejected |
| `BalanceChanges.PlainTransfer` | src/runtime/chai-matchers-tvm.js:158-182 | a plain transfer: the sender loses the value, and the fee if included, and the receiver gains the value |
| `BalanceChanges.InternalTransfer` | src/runtime/chai-matchers-tvm.js:186-206 | an internal transfer too, unless it is rejected or moves a token |
| `BalanceChanges.ApplyInternals` | src/runtime/chai-matchers-tvm.js:185-207 | the loop over the internal transfers |
| `BalanceChanges.SumPlain` | src/runtime/chai-matchers-tvm.js:190-201 | the plain value of an internal transfer, token movements left out |
| `BalanceChanges.SumIsNet` | src/runtime/chai-matchers-tvm.js:162-206 | the changes of duplicate-free accounts add up to what crosses their border |
| `BalanceChanges.EtherConserved` | src/runtime/chai-matchers-tvm.js:154-210 | over duplicate-free accounts covering every endpoint the changes add up to zero, or to minus the fee if it is included |

## Left out

- HTTP, `fetch`, TronWeb, Docker, retries, timeouts and logging: each is a nondeterministic answer or a parameter.
- Keccak, SHA-256, ECDSA recovery, base58check and EIP-55: an address is a symbol, a spelling stands for the address it decodes to, a signature carries its recovered signer.
- Parallel `loadFixture` calls, an RPC failure halfway through `restore()`, and a direct revert below a cached fixture: outside the hypotheses above.
- The probe for snapshot support, the funding of signers and the rejection of anonymous fixtures around `loadFixture`: single branches; funding is one of the arbitrary changes of state.
- Snapshot ids from 2^53 on, where a JavaScript number is not exact.
- FixtureClient.FixtureCache.LoadHit: a fixture's body is not run by the model; it is the stretch of a run between its beginning and its end.
- InstanceIdModule.InstanceIds.InstanceId: one url is modelled, since every table is keyed by url; cache objects are cells of a growing sequence, so that a captured object stays what it was.
- The launch of a container, its logs and its removal in `ensureUp` and `teardown`: only `_launched` and the evictions are kept.
- The block wait lock during manual mining, which is released after the flag.
- The node's own block production thread, and a race between setting a target and mining.
- MiningNode.TreMiner.ProduceBlock: what the block handler does with the time it is given is an outcome of the round; a produced block carries that time.
- TimeHelpers.TimeClient.Increase: arguments that are not integers are not modelled, and neither are targets and head times whose milliseconds a JavaScript number does not represent exactly, from 2^53 on.
- AddressArgs.ArgumentsKeepMeaning: `address[N]`, `address[][]` and tuples under more than one array dimension have no meaning here; the two passes do not recurse through them.
- Contract objects that carry only a `target` address, and objects other than plain structs under a tuple descriptor.
- Selector lookup by four bytes, proxies over the tables, and the choice among overloads by argument count.
- `expandAbiForTronWeb`: maps the expansion over an ABI's inputs.
- Lone surrogates, which `JSON.stringify` escapes, and values it omits; a number is given by its text.
- CreatePairingQueue.PairingQueue.RecordStaticReturn: base58check is a table of what it decodes; fields of an object that are not texts count as missing.
- Multisig.ValidateSignature: the contract, its owner and the permission's operation bits are inputs; the approve list that other callers ask for is not kept.
- StoragePaging.StorageRangeAt: the check that only the head state is asked for, and the hexadecimal text of keys, are not modelled.
- BalanceChanges.EtherBalanceChanges: account names arrive normalized; the remapping of predicted addresses is that of `CreatePairing`.
- Compiler staging in `src/compile/downloader.js`: it shares no state with what is modelled here, and its safety rests on the file system's atomic rename.
- Receipt and log translation, revert data, mocha timeouts, configuration, tasks and build scripts.
