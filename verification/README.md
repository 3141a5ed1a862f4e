# Ramulator, verified

A Dafny model of the Ramulator memory simulator and proofs of what its state machines keep
over whole runs. `dafny verify dfyconfig.toml` checks the project.

The parts, and the files that hold them:

- **DRAM timing** (`Timing`, `TimingRuns`, `DramTree`, `TimingTables`, `TimingRules`): the tree of nodes with `next` and `prev` per
  command, for an arbitrary timing table, as values and as an object tree; the tables of DDR3 and HMC, and what they
  mean in the parameters of the standards.
- **Command state machines** (`Banks`, `Salp`): decoding and state of DDR3, HMC, SALP-1, SALP-2 and MASA, and the row table.
- **Scheduler and controller** (`Scheduler`, `Controller`, `ControllerHistory`, `ControllerObjects`): the choice of the next request, the queues
  around it, and what a run of them looks like from outside.
- **Serving counters** (`Serving`, `ControllerServing`): the per-node counts and sums of requests in service, and what the
  controller makes of them.
- **Cache hierarchy** (`CacheSets`, `CacheHierarchy`, `CacheProtocol`, `CacheSend`, `CacheRuns`, `CacheRecency`, `CacheTiming`,
  `CacheObjects`): inclusive caches of any shape with locked lines, outstanding misses, recency order, recursive invalidation,
  dirty bits and times of completion.
- **HMC packet protocol** (`HmcProtocol`, `HmcRuns`, `HmcHistory`, `HmcOrder`, `HmcCrossbar`, `HmcObjects`, `Tokens`): tags, links, crossbar,
  vaults and token return, as events in any order and as the object that performs them. It follows the Hybrid Memory
  Cube Specification 2.1.
- **DSARP refresh** (`Refresh`, `RefreshObjects`): postponing and pulling in of per-bank refreshes on credit.
- **Addresses, pages, window** (`Address`, `BlockBits`, `Pages`, `Window`), with quotients and powers of two in `Arith`.

State machines are written as functions on values, whose properties are proved for all states and runs; code that
updates objects in place is written as classes whose methods are proved to compute those functions. Random numbers are
arbitrary choices, the clock and all queues owned by other components are arguments.

Where the code does not do what one would expect:

- A cache drops the answer of the level below when it forwards a miss. Inclusion then holds if and only if the lower levels
  accept (`CacheSend.SendInclusive`), and breaks in a concrete run (`CacheRuns.DroppedAnswerBreaksInclusion`).
- A send that finds no room on the link keeps the tag it took. Tags stay distinct, but a tag is lost for good exactly then
  (`HmcRuns.RunTags`, `HmcRuns.TagLost`).
- On SALP-1 the scheduler protects row hits against a precharge of the same subarray only
  (`SchedulerSalp.HitsSafeUnlessCrossed`, `SchedulerSalp.HitClosedByOther`).
- A read is taken out of the served requests by its latency. This is right if and only if the read latency is positive
  (`ControllerServing.CountsService`, `ControllerServing.ReadNeverCountedOut`).
- `get_hits`, which only the capped scheduler calls, makes an empty entry in the row table for a closed bank; the assertion on the
  row then holds for row zero only (`Banks.HitCountThenAssert`).
- `get_next` stops at the scope of a command where `check` started below it does not (`DramTree.Dram.GetNext`).
- The assertion in the window's `insert` lets one entry too many in (`Window.Window.Insert`), and a page first used by core -1
  is counted as taken while its frame stays marked free (`Pages.PageAllocator.Assign`).
- The choice among idle banks when writes start always ends at the bank of least demand, since the search for a
  bank other than number zero stops at the first or second place (`RefreshObjects.PickBank`).
- Invalidation reads the dirty bit of a line after erasing it; the model reads it before.

## Model

| member | source | states |
|---|---|---|
| Timing.RunAgrees | simulator/ramulator/DRAM.h:352-408 | after any run of updates, `next` of every node and command is the maximum, over the whole command history, of issue time plus `val` of the `dist`-th most recent cause at the node or of a sibling command; `prev` holds the most recent clocks |
| Timing.AgreesStep | simulator/ramulator/DRAM.h:352-408 | one `update_timing`, descending to the target, touching siblings and stopping elsewhere, keeps that agreement in the whole subtree |
| Timing.InitialAgrees | simulator/ramulator/DRAM.h:191-230 | the freshly built tree agrees with the empty history |
| Timing.CheckDecides | simulator/ramulator/DRAM.h:267-280 | on a tree in agreement the recursive `check` is true exactly if no demand of the history is open on the path, at every level, also when address components are -1 |
| Timing.CheckIsExact | simulator/ramulator/DRAM.h:267-280 | `check` after any run decides the declarative rule over the history, both directions |
| TimingRuns.GuardedIsLegal | simulator/ramulator/DRAM.h:267-280 | in a run where every command passed `check`, every command is legal with respect to all earlier ones |
| TimingRuns.WindowRule | simulator/ramulator/DRAM.h:352-408 | an entry with distance `dist` keeps any command at least `val` clocks after the start of each stretch with `dist` causes |
| TimingRuns.PairRule | simulator/ramulator/DRAM.h:380-402 | entries of distance one hold between every earlier cause and every later command at the node |
| TimingRuns.SiblingRule | simulator/ramulator/DRAM.h:357-371 | sibling entries hold between commands of neighbouring nodes |
| DramTree.Dram.constructor | simulator/ramulator/DRAM.h:191-230 | the object tree built level by level is the initial value tree |
| DramTree.Dram.UpdateTiming | simulator/ramulator/DRAM.h:352-408 | the in-place recursion leaves the object tree equal to `Timing.Update` of the old one |
| DramTree.Dram.IsReady | simulator/ramulator/DRAM.h:267-280 | the recursion over objects returns `Timing.Check` of the tree |
| DramTree.Dram.GetNext | simulator/ramulator/DRAM.h:314-324 | no clock from the current one to the result passes the recursive check; the result passes it if and only if the node is not below the scope of the command, or has no child on the address, or that child is ready by then |
| DramTree.Dram.Issue | simulator/ramulator/DRAM.h:326-333 | recording a command sets the current clock and applies the timing update |
| Ddr3Timing.FourActivateWindow | simulator/ramulator/DDR3.cc:302-303 | any five activates to one DDR3 rank in a guarded run span at least nFAW clocks |
| Ddr3Rules.CheckIsSpacing | simulator/ramulator/DDR3.cc:226-365 | after any run, `check` lets a command go if and only if it keeps, to every earlier command, the distances of the standard, written out in its parameters: nBL on the channel; within a rank nCCD, read-to-write, write-to-read, nRRD, nRAS, nRTP and write recovery before PREA, nRP before ACT, REF and SRE, nRFC, and the power-mode times; both turnarounds between ranks; within a bank nRCD, nRAS, nRC, nRP, nRTP, write recovery, and the auto-precharge sums; and nFAW to the fourth most recent activate of the rank |
| Ddr3Rules.GuardedIsSpaced | simulator/ramulator/DDR3.cc:226-365 | the runs in which every command passed `check` are exactly those in which every pair of commands and every five activates keep these distances |
| Ddr3Timing.RowCycle | simulator/ramulator/DDR3.cc:326-364 | a precharge, activate, read, precharge cycle of a bank keeps nRP, nRCD, nRAS and nRTP together |
| Ddr3Timing.RankTurnaround | simulator/ramulator/DDR3.cc:281-284 | a read on one rank keeps the bus turnaround after a write on another rank |
| HmcRules.VaultCheckIsSpacing | simulator/ramulator/HMC.cc:212-347 | the same for the vault: the distances of a channel with one rank, with the short times across bank groups; nRRDL, nCCDL and the long write-to-read time within a group; those of a bank; and nFAW over the vault |
| HmcRules.VaultGuardedIsSpaced | simulator/ramulator/HMC.cc:212-347 | the guarded runs of a vault are exactly the ones that keep these distances |
| HmcTiming.VaultActivateWindow | simulator/ramulator/HMC.cc:266-267 | any five activates to one HMC vault span at least nFAW clocks |
| HmcTiming.WriteToRead | simulator/ramulator/HMC.cc:245-248 | a read waits the short write-to-read time within the vault and the long one within its bank group |
| Banks.DecodeMakesProgress | simulator/ramulator/DRAM.h:248-264 | the decoded command is the requested one exactly when one command is left, otherwise it leaves exactly one fewer |
| Banks.ScriptIs | simulator/ramulator/DDR3.cc:102-125 | the commands of a read or write, literally: PDX or SRX by power state, PRE and ACT on a conflict, ACT on a closed bank, nothing on a hit, and then RD for a read, WR for a write |
| Banks.GoesToSleep | simulator/ramulator/DDR3.cc:136-155 | a power-down or self-refresh request first leaves the other mode if it must, and then reaches the mode it asks for |
| Banks.ScriptReachesRequest | simulator/ramulator/DDR3.cc:102-125 | for a fixed address, decoding and applying reaches RD or WR after exactly `CommandsNeeded`, at most four, commands |
| Banks.RefreshInTwo | simulator/ramulator/DDR3.cc:127-133 | a refresh is decoded as PREA exactly if a bank of the unit is open, and as REF right after it |
| Banks.DecodedKeepsSingleRows | simulator/ramulator/DDR3.cc:188-225 | every decoded command keeps each bank closed and empty or open with exactly one row |
| Banks.TableStep | simulator/ramulator/Scheduler.h:224-259 | on every decoded command the three assertions hold and the table keeps listing exactly the open banks with their row |
| Banks.TableCounts | simulator/ramulator/Scheduler.h:224-259 | after any run an entry of the table counts the reads and writes of its bank since its activate, and has the clock of the last of these commands |
| Banks.RowTableNeverAsserts | simulator/ramulator/Scheduler.h:224-259 | for schedulers that do not read hit counts: after any run of requests the table mirrors the banks and none of the assertions of `update` can fire for the next request |
| Banks.GetHitsMirrors | simulator/ramulator/Scheduler.h:261-276 | reading the hit count of a bank keeps the table mirroring the banks if and only if the bank is open |
| Banks.HitCountThenAssert | simulator/ramulator/Scheduler.h:261-276 | after the count of a closed bank was read, activating it and reading a row passes the assertion on the row if and only if it is row zero |
| RowTables.RowTable.Update | simulator/ramulator/Scheduler.h:224-259 | the in-place update with its erase pass computes `Track`; its assertions are the precondition |
| RowTables.ClosedKeys | simulator/ramulator/Scheduler.h:249-256 | the pass selects exactly the entries that agree with the address down to the scope of the command |
| Salp.Offending | simulator/ramulator/Controller.cc:11-25 | the first other open subarray of the bank, if there is one |
| Salp.GetOffendingSubarray | simulator/ramulator/Controller.cc:11-25 | the loop with early exit finds it |
| Salp.OffendingIsTheOpenOne | simulator/ramulator/SALP.cc:122-143 | in SALP-1, whenever PRE_OTHER is decoded, it goes to the one open subarray of the bank |
| Salp.BankStep | simulator/ramulator/SALP.cc:315-422 | every decoded command keeps: SALP-1 bank open iff exactly one subarray is open with one row; MASA at most one selected subarray |
| Salp.RankStep | simulator/ramulator/SALP.cc:110-198 | every scheduled request keeps all banks of the rank consistent |
| Salp.AccessMakesProgress | simulator/ramulator/SALP.cc:149-167 | each decoded command brings the request exactly one command closer, the number of other open subarrays being part of the measure |
| Salp.CommandsBound | simulator/ramulator/SALP.cc:122-198 | at most three commands for SALP-1 and MASA, at most subarrays + 2 for SALP-2 |
| Salp.ScriptReachesRequest | simulator/ramulator/SALP.cc:149-167 | decoding and applying reaches the requested command in exactly that number of commands |
| Salp.NextCommand | simulator/ramulator/SALP.cc:110-198 | the decoded command is the first of a literal list by kind: PDX or SRX, then per kind the precharges, activates and subarray selects that the state of the bank calls for; RD for a read and WR for a write exactly when the list is empty |
| Salp.IssuedIs | simulator/ramulator/SALP.cc:110-198 | so a request issues exactly this list and then its own command |
| Salp.RefreshInTwo | simulator/ramulator/SALP.cc:168-198 | a refresh is decoded as PRER exactly if a row of the rank is open, and as REF right after it |
| Scheduler.Scan | simulator/ramulator/Scheduler.h:42-46 | the scan returns the first request by priority, arrival and place, for every scheduler type |
| Scheduler.FirstByType | simulator/ramulator/Scheduler.h:107-160 | who is first, per type: the oldest; the oldest ready one; the oldest ready one of a row hit at most 16 times; the oldest ready row hit; and if there is none of these, the oldest |
| Scheduler.HarmlessPrefers | simulator/ramulator/Scheduler.h:71-100 | without a ready hit the default type takes the oldest ready request among those that violate no hit, or the oldest of them |
| Scheduler.SomeHarmless | simulator/ramulator/Scheduler.h:72-100 | a queue that is not empty always holds a request that violates no row hit |
| Scheduler.GetHead | simulator/ramulator/Scheduler.h:35-104 | end only for an empty queue; the oldest ready row hit if there is one; otherwise the FR-FCFS best of the requests that violate no hit |
| SchedulerBanks.HeadKeepsHits | simulator/ramulator/Scheduler.h:75-100 | on DDR3 and HMC the first command of the head closes no row that any queued request hits |
| SchedulerSalp.HeadKeepsHitsUnless | simulator/ramulator/Scheduler.h:75-100 | on SALP-1 a hit survives the first command of the head if and only if that command is not a precharge of another subarray in the same bank |
| SchedulerSalp.ClosesOtherIsCrossing | simulator/ramulator/SALP.cc:122-143 | the first command closes the hit of another request exactly if it goes to another subarray of that bank in a powered-up rank |
| SchedulerSalp.HitsSafeUnlessCrossed | simulator/ramulator/Scheduler.h:75-100 | whatever is ready, no head closes a row that a queued request hits, if and only if no queued request goes to a bank in which another hits a different subarray, or the rank is not powered up |
| SchedulerSalp.HitClosedByOther | simulator/ramulator/SALP.cc:274-287 | a concrete queue in which such a precharge is picked, because row-open is asked of the bank but hits are grouped by subarray |
| Controller.EveryRequestOnce | simulator/ramulator/Controller.h:571-716 | after every run, whatever was picked, each accepted request is in exactly one queue, list or log of callbacks, once |
| Controller.WritesInOrder | simulator/ramulator/Controller.h:591-716 | when the oldest queued write of an address is finished first, writes to one address complete in the order they were accepted |
| Controller.ReadsSeeOlderWrites | simulator/ramulator/Controller.h:577-586 | a read issued to DRAM has no older write to its address in the write queue |
| Controller.WritesAreServed | simulator/ramulator/Controller.h:625-640 | in every cycle of every run without refresh requests, the write queue is served if and only if, in this or an earlier cycle, 25 writes or no reads were queued and since then never at most 6 writes with a read waiting |
| ControllerHistory.AnsweredFromWrites | simulator/ramulator/Controller.h:571-589 | over every run a request is accepted exactly when fewer than 32 of its kind are queued, and a read is answered without a command, one clock after it came, if and only if it found a queued write to its address |
| ControllerHistory.RunGoesOn | simulator/ramulator/Controller.h:598-620 | over every run reads complete in the order they came under way, and so do writes |
| ControllerHistory.CycleCompletes | simulator/ramulator/Controller.h:594-620 | in a cycle the oldest request under way of each kind completes if and only if its time has come |
| ControllerHistory.CycleIssues | simulator/ramulator/Controller.h:638-716 | refresh requests come first; otherwise the picked request leaves its queue, which is closed up, and completes the latency of its kind later |
| Controller.StepKeepsInv | simulator/ramulator/Controller.h:591-716 | enqueueing and every cycle keep the invariant behind these |
| Controller.HeadIsOldestOfAddress | simulator/ramulator/Scheduler.h:143-153 | the default scheduler never takes a request past an older one of the same address |
| Controller.DefaultSchedulerInTurn | simulator/ramulator/Controller.h:642-643 | every write the default scheduler finishes is the oldest queued one of its address |
| ControllerObjects.MemoryController.Enqueue | simulator/ramulator/Controller.h:571-589 | the method with its search over queued writes computes the transition, and refuses exactly on a full queue |
| ControllerObjects.MemoryController.ReadCallback | simulator/ramulator/Controller.h:598-611 | the oldest read completes when due, and is counted out first if it took more than a clock |
| ControllerObjects.MemoryController.WriteCallback | simulator/ramulator/Controller.h:613-620 | the oldest write completes when due |
| ControllerObjects.MemoryController.BeginTick | simulator/ramulator/Controller.h:591-640 | completions, refresh requests and the 25/6 write-mode switch, in that order |
| ControllerObjects.MemoryController.EndTick | simulator/ramulator/Controller.h:656-716 | the first command for the picked request counts it in; its own command moves it to its list with its completion time and counts a write out |
| ControllerServing.LogIsLegal | simulator/ramulator/Controller.h:598-709 | in every run, for any latencies and picks, the controller counts a request in once and out at most once, after it and on the same path |
| ControllerServing.CountersNeverAssert | simulator/ramulator/DRAM.h:412-434 | no assertion of `update_serving_requests` fires at any node for any event of a run |
| ControllerServing.CountersAreTotals | simulator/ramulator/DRAM.h:414-421 | after every run a node’s count is not negative, its `serving_requests` is the number in service summed over all past clocks and its `active_cycles` the clocks with any |
| ControllerServing.CountsService | simulator/ramulator/Controller.h:602-606 | after every run and at every node exactly the requests in service are counted, if and only if the read latency is positive |
| ControllerServing.ReadNeverCountedOut | simulator/ramulator/Controller.h:602-606 | a concrete run for any latency below one in which a completed read stays counted |
| ControllerServing.IdleSum | simulator/ramulator/DRAM.h:430-441 | after every run a node with nothing in service has summed exactly the service times of its requests |
| ControllerServing.ParentSums | simulator/ramulator/DRAM.h:443-448 | after every run a node counts what its children count, and has summed what they have when that is nothing |
| Serving.CurCountsOpen | simulator/ramulator/DRAM.h:410-422 | on a legal log, which the controller’s is (`ControllerServing.LogIsLegal`), each node counts the requests under it that are in and not out |
| Serving.NeverAsserts | simulator/ramulator/DRAM.h:412-434 | on a legal log, which the controller’s is, none of the assertions of the update fires |
| Serving.SumsAreTotals | simulator/ramulator/DRAM.h:414-421 | `serving_requests` is the number in service summed over all past clocks, `active_cycles` the number of clocks with any in service |
| Serving.SumInClosedForm | simulator/ramulator/DRAM.h:414-421 | the running sum equals the signed clocks of the log plus count times last clock |
| Serving.ShareIsServiceTime | simulator/ramulator/DRAM.h:410-449 | the share of a finished request is its leaving clock minus its entering clock |
| Serving.QuiescentSum | simulator/ramulator/DRAM.h:430-441 | a node that serves nothing has summed exactly the service times of its requests |
| Serving.ParentCountsChildren | simulator/ramulator/DRAM.h:443-448 | a node counts at any time what its children count together |
| Serving.QuiescentParent | simulator/ramulator/DRAM.h:443-448 | a node that counts nothing has summed what its children have |
| Serving.ServingTree.Descend | simulator/ramulator/DRAM.h:410-449 | the recursion counts the event at every node of the path and nowhere else |
| Serving.ServingTree.Update | simulator/ramulator/DRAM.h:410-449 | all nodes stay equal to the counter of the whole log; the controller’s calls meet the precondition |
| CacheSets.SameBlock | simulator/ramulator/Cache.h:94-105 | equal index and tag mean the same aligned block, and conversely |
| BlockBits.CacheIndexBits | simulator/ramulator/Cache.h:94-105 | index, tag and aligned address are the shifts and masks of the address |
| CacheHierarchy.InvalidateEffect | simulator/ramulator/Cache.cc:213-252 | an invalidation empties exactly the caches above that hold the block, and reports dirty exactly if one of them was |
| CacheHierarchy.SweepEffect | simulator/ramulator/Cache.cc:221-240 | the same for the loop over the caches directly above |
| CacheProtocol.CheckUnlockMeans | simulator/ramulator/Cache.h:150-173 | the recursive test is true exactly if no cache above holds the block locked |
| CacheProtocol.EvictMovesDown | simulator/ramulator/Cache.cc:255-297 | an eviction moves the block one level down with every dirty bit it had above |
| CacheProtocol.EvictWritesBack | simulator/ramulator/Cache.cc:255-297 | from the last level a block dirty anywhere queues exactly one write, a clean one none |
| CacheProtocol.EvictKeepsInv | simulator/ramulator/Cache.cc:255-297 | an eviction keeps inclusion, unique tags, set sizes and the line-to-miss correspondence |
| CacheProtocol.InstallKeepsInv | simulator/ramulator/Cache.cc:160-190 | taking a missing block in keeps them, up to the block the next level is about to take in |
| CacheSend.MakeRoomAccepts | simulator/ramulator/Cache.cc:299-330 | room is made exactly if the set is not full or holds a block that is free everywhere above |
| CacheSend.NeedEvictionNeverAsserts | simulator/ramulator/Cache.cc:349-363 | the `assert(false)` of `need_eviction` is unreachable |
| CacheSend.SendInclusive | simulator/ramulator/Cache.cc:103-195 | the answer of `send` in closed form; a refused request changes nothing; an accepted one keeps the hierarchy inclusive if and only if every lower level accepts its forwarded miss |
| CacheRuns.SendConserves | simulator/ramulator/Cache.cc:103-195 | a request loses no dirty block and writes back at most one, once, from the last level, and never its own |
| CacheRuns.CallbackKeepsInv | simulator/ramulator/Cache.cc:365-383 | a completion keeps all invariants, unlocks the block everywhere and keeps every dirty bit |
| CacheRuns.RunIsInclusive | simulator/ramulator/Cache.cc:103-383 | every run in which lower levels accept forwarded misses stays inclusive with all caches well-formed |
| CacheRuns.StepWritesBack | simulator/ramulator/Cache.cc:103-383 | one event queues a write-back of a block exactly as often as the block goes from dirty to dirty nowhere under a last-level cache |
| CacheRuns.RunWritesBack | simulator/ramulator/Cache.cc:103-383 | over any run the write-backs queued for a block are exactly its cleanings: one per eviction that cleans it, none for a clean block |
| CacheRuns.RunKeepsDirty | simulator/ramulator/Cache.cc:103-383 | over any such run a dirty block is still dirty at the end unless it was written back, as often as it was cleaned |
| CacheRuns.DroppedAnswerBreaksInclusion | simulator/ramulator/Cache.cc:187-188 | a concrete run in which the dropped answer of the lower level breaks inclusion |
| CacheObjects.CacheSystem.Invalidate | simulator/ramulator/Cache.cc:213-252 | the in-place recursion computes the specified state, delay and dirty bit |
| CacheObjects.CacheSystem.Evict | simulator/ramulator/Cache.cc:255-297 | the in-place eviction computes the specified state |
| CacheObjects.CacheSystem.Allocate | simulator/ramulator/Cache.cc:299-330 | refuses or makes room as specified |
| CacheObjects.CacheSystem.Send | simulator/ramulator/Cache.cc:103-195 | the method computes the specified state and answer |
| CacheObjects.CacheSystem.Callback | simulator/ramulator/Cache.cc:365-383 | the method wakes this cache and then every cache above |
| CacheRecency.EvictsOldest | simulator/ramulator/Cache.cc:299-330 | the evicted block was used longest ago among the blocks of its set that are free everywhere above |
| CacheRecency.SendRecent | simulator/ramulator/Cache.cc:103-211 | a request keeps every set in order of last use, where hits, allocations and victims arriving from above are uses, and evicts the oldest free block at every level it reaches |
| CacheRecency.LeastRecentlyUsed | simulator/ramulator/Cache.cc:103-383 | after any run from empty caches every set of every cache is in order of last use, and the next request evicts, at each level, the free block used longest ago |
| CacheTiming.DelayIsLast | simulator/ramulator/Cache.cc:213-252 | the delay of an invalidation is when the last answer of the caches asked is back, each answer passing the levels between, dirty ones counting twice |
| CacheTiming.WriteBackTime | simulator/ramulator/Cache.cc:255-297 | a write-back leaves the latency of the last level after the last cache above has given the block up |
| CacheTiming.SendSchedules | simulator/ramulator/Cache.cc:114-193 | a request all levels take is answered after the latency of the first level that has the block, not at all if the block is on its way there, and by exactly one read from the last level if no level has it; a refused one by neither |
| HmcProtocol.StepPlaces | simulator/ramulator/LogicLayer.cc:79-134 | no step drops, copies or forges a request; only an accepted send adds one |
| HmcProtocol.XbarInPlaces | simulator/ramulator/LogicLayer.cc:84-108 | a packet refused by a full queue stays on its link, an accepted one moves to the vault |
| HmcProtocol.AccessPlaces | simulator/ramulator/HMC_Controller.h:751-773 | an access moves a request to the pending list or leaves it where it is |
| HmcProtocol.LinkSendPlaces | simulator/ramulator/LogicLayer.cc:12-58 | sending a response moves it to the completed requests |
| HmcRuns.RespondsOk | simulator/ramulator/HMC_Controller.h:612-638 | releasing an answered packet strands no other request of the vault |
| HmcRuns.StepKeepsInv | simulator/ramulator/HMC_Controller.h:553-775 | every event keeps: one place per request, honest packets, remembered packets, distinct tags, conserved tokens |
| HmcRuns.InvSafe | simulator/ramulator/HMC_Controller.h:612-616 | in such a state no lookup or index of any event goes wrong |
| HmcRuns.EveryRequestOnce | simulator/ramulator/HMC_Memory.h:599-624 | at every moment of every run each accepted request is in exactly one place, its callback runs at most once, the lookup assertion cannot fire, and what was accepted or completed before stays so |
| HmcRuns.StepTags | simulator/ramulator/HMC_Memory.h:550-559 | a tag is free or in flight as often as before, except that a send refused for lack of room loses the tag it took |
| HmcRuns.TagsDistinct | simulator/ramulator/HMC_Memory.h:550-606 | free tags and tags in flight of a link are pairwise distinct in every reachable state, refused sends included |
| HmcRuns.RunTags | simulator/ramulator/HMC_Memory.h:747-771 | a tag is still in use after a run if and only if no refused send of the run lost it |
| HmcRuns.TagLost | simulator/ramulator/HMC_Memory.h:747-771 | a concrete run, 33 reads on one link of a fresh stack, after which a tag is neither free nor in flight |
| HmcRuns.AnswersMatch | simulator/ramulator/HMC_Controller.h:612-638 | every response on a link carries link, tag, vault, address and kind of the request it answers |
| HmcRuns.TokensConserved | simulator/ramulator/LogicLayer.cc:13-58 | tokens returned plus tokens owed equal the flits forwarded, on every link at every moment |
| HmcRuns.BurstCountdown | simulator/ramulator/HMC_Controller.h:751-773 | a request leaves its queue at exactly its burst-th access; with a burst below one it never does |
| HmcHistory.PendingWasServed | simulator/ramulator/HMC_Controller.h:590-610 | in every run a request is answered after exactly its burst of accesses, or without any if it is a read that met a queued write to its own address when it reached the vault |
| HmcHistory.ReadsSeeOlderWrites | simulator/ramulator/HMC_Controller.h:600-607 | in every run no queued read has a write to its address in the write queue that reached the vault before it |
| HmcHistory.TokensAreFlits | simulator/ramulator/LogicLayer.cc:99-101 | tokens returned plus tokens owed are the flits of the packets that left the input buffer: one for a read, one and the payload for a write |
| HmcHistory.AnswersCarryData | simulator/ramulator/HMC_Controller.h:612-638 | a response to a read has one flit and the payload, one to a write a single flit |
| HmcOrder.RunInOrder | simulator/ramulator/LogicLayer.cc:12-134 | over any run nothing overtakes: tags, requests and responses of a link, and answered requests and responses of a vault, leave in the order they came |
| HmcOrder.RunBounded | simulator/ramulator/LogicLayer.h:27-80 | in every run no buffer of a link and no queue of a vault holds more than 32 entries |
| HmcOrder.SendMoves | simulator/ramulator/HMC_Memory.h:747-771 | a send takes the oldest tag if there is one, and goes out if and only if one flit, or a write’s payload besides, fits into the 32 places of the link |
| HmcOrder.EventMoves | simulator/ramulator/LogicLayer.cc:84-134 | every event moves what it can: a packet crosses unless the 32 places it needs are taken, a vault answers and a link sends the oldest it has |
| HmcOrder.VaultServed | simulator/ramulator/LogicLayer.cc:115-133 | in a cycle the oldest response of a vault crosses unless its link was given another one or has no room for it |
| HmcObjects.Stack.AssignTag | simulator/ramulator/HMC_Memory.h:550-559 | takes the first free tag, if any |
| HmcObjects.Stack.Send | simulator/ramulator/HMC_Memory.h:747-771 | computes the send event; true exactly if the request is accepted |
| HmcObjects.Stack.SendAddress | simulator/ramulator/HMC_Memory.h:561-571 | the link is the block number modulo the links, the vault comes from the address order, and the request is sent there |
| HmcObjects.Stack.Receive | simulator/ramulator/HMC_Controller.h:553-610 | remembers the packet, then queues the request, answers it from a queued write, or refuses it |
| HmcObjects.Stack.SwitchTick | simulator/ramulator/LogicLayer.cc:77-134 | a cycle of the crossbar computes `HmcCrossbar.Tick` |
| HmcCrossbar.TickIsRun | simulator/ramulator/LogicLayer.cc:77-134 | a cycle is a run of events |
| HmcCrossbar.InTickPorts | simulator/ramulator/LogicLayer.cc:81-110 | a vault takes at most one request per cycle |
| HmcCrossbar.OutTickPorts | simulator/ramulator/LogicLayer.cc:115-133 | a link is given at most one response per cycle |
| HmcCrossbar.LinkServed | simulator/ramulator/LogicLayer.cc:81-110 | the oldest request of a link crosses unless its vault took another one in this cycle or is full for it |
| HmcObjects.Stack.Respond | simulator/ramulator/HMC_Controller.h:612-638 | computes the response event without its lookup failing |
| HmcObjects.Stack.Access | simulator/ramulator/HMC_Controller.h:751-773 | computes the access event |
| HmcObjects.Stack.LinkSend | simulator/ramulator/LogicLayer.cc:12-58 | computes the send event of a link |
| HmcObjects.Stack.ReceivePackets | simulator/ramulator/HMC_Memory.h:599-624 | the tag goes back to the pool of its link and the callback runs |
| Tokens.ShiftToTop | simulator/ramulator/LogicLayer.h:51-62 | the loop returns the power of two of the highest set bit |
| Tokens.DrainTakesOnes | simulator/ramulator/LogicLayer.cc:20-25 | n tokens with no arrivals drain in exactly as many returns as n has one bits |
| Refresh.SlotsGoRound | simulator/ramulator/Refresh.cc:109-117 | schedule slots go round the banks evenly |
| Refresh.RankOnTime | simulator/ramulator/Refresh.cc:113-150 | a slot with its refresh keeps credit, range, subarray order and turn of every bank |
| Refresh.RankSkips | simulator/ramulator/Refresh.cc:113-143 | so does a skipped slot, which the credit has to allow |
| Refresh.RankRefreshed | simulator/ramulator/Refresh.cc:91-96 | so does a refresh out of turn |
| Refresh.CoversOnce | simulator/ramulator/Refresh.cc:146-150 | any run of as many refreshes of a bank as it has subarrays covers each subarray exactly once |
| Refresh.KeepsUp | simulator/ramulator/Refresh.cc:101-154 | after n slots a bank has at least n / banks - 7 refreshes and at most n / banks + 9 |
| RefreshObjects.PickBank | simulator/ramulator/Refresh.cc:179-214 | whatever the search for a bank other than zero and the random choice do, a bank of least demand is taken |
| RefreshObjects.FindPullable | simulator/ramulator/Refresh.cc:65-97 | finds a bank that may be pulled in exactly if there is one, from any random start |
| RefreshObjects.Refresher.EarlyInject | simulator/ramulator/Refresh.cc:45-99 | per rank one needy idle bank is refreshed; none only if there is none or the queue filled up; nothing during writes |
| RefreshObjects.Refresher.Wrp | simulator/ramulator/Refresh.cc:163-225 | per rank a bank of least demand is refreshed, or there was no cause, no credit or no room |
| RefreshObjects.Refresher.InjectRank | simulator/ramulator/Refresh.cc:109-151 | the slot of one rank: refreshed if and only if refreshes are in order, the credit is down to -7, or no read and no refresh is queued; then the bank whose turn it is; and exactly when the queue assertion would fire |
| RefreshObjects.Refresher.InjectRefresh | simulator/ramulator/Refresh.cc:101-154 | the slot of all ranks, from the queues as they were: without reads or queued refreshes the first rank refreshes and later ones only at the limit; the exact requests queued and exactly when the queue assertion would fire |
| RefreshObjects.Refresher.TickRef | simulator/ramulator/Refresh.cc:227-253 | the phases of a cycle in order, each with its exact effect, and exactly when the queue assertion would fire |
| RefreshObjects.Refresher.Run | simulator/ramulator/Refresh.cc:227-253 | any number of cycles with any controller state in each keeps the scheduler valid |
| RefreshObjects.Guarantee | simulator/ramulator/Refresh.cc:101-154 | after any such run: backlog equals refreshes queued minus slots passed, lies in -7..8, every bank has at least (clk / interval) / banks - 7 refreshes, in subarray order |
| Bits.SliceLowerBits | simulator/ramulator/HMC_Memory.h:877-882 | masking and shifting split the address into low bits and rest |
| Bits.MaskIsLow | simulator/ramulator/HMC_Memory.h:877-882 | a mask of k ones takes the lowest k bits |
| Bits.OrIsSum | simulator/ramulator/HMC_Memory.h:655-656 | parts without a common bit are joined by adding |
| Bits.JoinSlices | simulator/ramulator/Memory.h:434-444 | joining the slices of an address below the capacity gives it back |
| Bits.SlicesJoin | simulator/ramulator/Memory.h:434-444 | slicing a joined vector gives it back, and the join is below the capacity |
| Address.CutIsBijective | simulator/ramulator/Memory.h:434-447 | cutting in any order is a bijection between transactions below the capacity and in-range vectors, with `Index` as inverse |
| Address.CutGeneric | simulator/ramulator/Memory.h:434-444 | the loops of both generic orders compute that vector |
| Address.ColumnLowest | simulator/ramulator/Memory.h:435-438 | in ChRaBaRoCo each component is the quotient of the address by all widths below its level, modulo its own width |
| Address.ChannelLowest | simulator/ramulator/Memory.h:439-444 | in RoBaRaCoCh the channel is the remainder, the column the digit above it, and the levels from rank to row the digits above these, in order |
| Address.HmcVectorIsDigits | simulator/ramulator/HMC_Memory.h:640-703 | in each HMC order vault, bank group, bank and row are quotient and remainder of the address at the stated bit, and the column is its high digit times the block plus the low bits |
| Address.HmcCutIsBijective | simulator/ramulator/HMC_Memory.h:640-703 | each of the three HMC orders is such a bijection, with an inverse that splits the column again |
| Address.HmcVectorUnique | simulator/ramulator/HMC_Memory.h:640-703 | a transaction has one vector |
| Address.CutHmc | simulator/ramulator/HMC_Memory.h:633-703 | the cutting code computes it in all three orders |
| Pages.TranslationIsInjective | simulator/ramulator/Memory.h:507-546 | with distinct frames different addresses of any cores stay different |
| Pages.PageBits | simulator/ramulator/HMC_Memory.h:861-861 | page and offset are the shift and the mask of the address |
| Pages.PageAllocator.FindFree | simulator/ramulator/HMC_Memory.h:838-852 | the cyclic search terminates on a free frame from any start |
| Pages.PageAllocator.Assign | simulator/ramulator/HMC_Memory.h:823-858 | frames stay distinct until none is free; the free count stays exact if and only if the core is not -1 or none is free |
| Pages.PageAllocator.Translate | simulator/ramulator/HMC_Memory.h:815-867 | for any core and address: a mapping once made never changes, the result is the frame with the offset of the address, and the free count stays exact except for a first use by core -1 |
| Window.Window.Insert | simulator/ramulator/Processor.cc:304-313 | inserting appends to the queue and keeps the window valid if and only if it is not full |
| Window.Window.IsFull | simulator/ramulator/Processor.cc:293-296 | full exactly if the queue holds `depth` entries |
| Window.Window.Retire | simulator/ramulator/Processor.cc:316-333 | exactly the longest ready prefix of at most `ipc` entries leaves, in order |
| Window.Window.SetReady | simulator/ramulator/Processor.cc:336-346 | exactly the live entries of the block become ready |
| BlockBits.WindowMask | simulator/ramulator/Processor.cc:336-346 | masking the block offset away compares blocks |

## Left out

- Aliasing between cache objects: the caches of a system are one sequence in one object.
- The lists of waiting and hit requests are only appended to; the part of the cache system's tick that drains them is not modelled.
- DramTree.Dram.Issue: does not change row and bank state; the state machines are separate models, without RDA and WRA, since the controllers issue neither for reads and writes.
- Serving.ServingTree.Descend: nodes are entries of one map instead of linked objects, and the refresh-overlap statistics are not kept.
- Controller.EveryRequestOnce: covers the generic controller; the special ticks of ALDRAM and TLDRAM and the mode without DRAM latency are not modelled.
- ControllerObjects.MemoryController.EndTick: the request to serve and whether its own command is due come as arguments, and the queue of other requests is a number.
- HmcObjects.Stack.Send: link and vault are arguments, which `SendAddress` computes; there is one stack, and the near-memory mode is not modelled.
- SchedulerSalp.HitClosedByOther: which requests are ready is free; `SchedulerSalp.HitsSafeUnlessCrossed` covers all cases.
- HmcObjects.Stack.Access: which request is served when is an argument; the timing of a vault is not part of the protocol.
- RefreshObjects.Refresher.TickRef: reports by its result that the assertion on the queue's room would fire, instead of stopping.
- RefreshObjects.Refresher.constructor: requires at least as many subarrays as banks, since the subarray counters are indexed by bank.
- Pages.PageAllocator.Translate: random translation only; the other mode returns the address.
- Closed and timeout row policies: they issue precharges with shortened addresses; the default issues none.
- SpeedyController: keeps references into a heap while reordering it.
- Timing tables of DDR4, GDDR5, HBM, LPDDR and WideIO: further instances of the general theorem.
- Statistics, energy, traces, configuration files and reporting: floating-point counters and I/O.
