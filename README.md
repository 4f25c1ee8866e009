# Cache coherence, cache hierarchy and out-of-order pipeline bookkeeping in Dafny

This project models three parts of a computer-architecture coursework repository and proves properties about them.

- **Snooping coherence controllers.** The MSI, MESI, MOSI and MOESIF line controllers of the multiprocessor cache-coherence simulator. These are the `process_cache_request` / `process_snoop_request` handlers and every `do_cache_*` / `do_snoop_*` routine they dispatch to.
  - Each handler is a total function from a line state and a message to `Fatal` (where the source calls `fatal_error`) or to the next state plus its effects. The effects are the bus message sent, whether the shared line is asserted, whether data goes to the processor, and the increments of `cache_misses` and `silent_upgrades`.
  - Each protocol also has a class holding the line's state. Its two methods commit a handler run and update the simulator's counters.
  - On top of the handlers sits an atomic-bus composition, written for this model: every cache snoops a request in order, the shared line is the OR of the assertions, and a DATA broadcast follows. Over it the model proves the single-writer invariant of each protocol and the landing state of every miss.
- **Two-level LRU cache simulator** (`cachesim.cpp`, prefetching off).
  - Address decoding by masks and shifts is written as division and remainder by powers of two.
  - The set vectors of `L1Map`/`L2Map` are maps from set index to a sequence of ways.
  - The global LRU clock `glrutime` is modelled, along with `find_lru_blk` and the L1/L2 read and write requests with their statistics.
  - A pure specification (`CacheModel`) states what each request does. The class `CacheSim.Simulator` performs the requests in place and is proved to agree with it.
- **Out-of-order pipeline simulator bookkeeping** (`procsim.cpp`).
  - The reorder buffer is a circular array. `add_to_rob`, `mark_for_del` and `delete_from_rob` are modelled.
  - `fetch` is modelled over a trace of instructions, plus `dispatch_first_half` and `dispatch_second_half`.
  - `schedule_second_half` marks entries ready to fire. `stateupdate_second_half` compacts the scheduling queues and retires from the ROB.
  - The arrays are updated in place by the methods of `Procsim.Processor` and `Rob.ReorderBuffer`. Each method is proved to leave the state that a pure pass function of `Pipeline`, `Rob` or `Queues` describes, and the lemmas about those functions state what the stages guarantee.

Files:
- `coherence.dfy`: shared message, effect and counter vocabulary.
- `bus.dfy`: runs of one line, broadcast and transaction.
- `msi.dfy`, `mesi.dfy`, `mosi.dfy`, `moesif.dfy`: the four protocols.
- `cache_model.dfy`, `cache_sim.dfy`: the cache simulator.
- `queues.dfy`: the shift compaction shared by the dispatch and scheduling queues.
- `rob.dfy`: the reorder buffer.
- `pipeline.dfy`: the stage passes on values.
- `procsim.dfy`: the processor state and its stage methods.

Where the behaviour described for the protocols and the code differ, the model follows the code:
- In MSI, a line in S that snoops a GETS does not assert the shared line (`do_snoop_S`, MSI_protocol.cpp:200-215). A line in M asserts it on GETM as well as on GETS (MSI_protocol.cpp:238).
- MSI uses one transient state IM for read and write misses. `nxt_state` decides the landing state, and it is never initialised: it is a constructor parameter here. `do_snoop_IS` exists, but no state is routed to it.
- In MOESIF, SM asserts the shared line when it snoops a GETS (MOESIF_protocol.cpp:291-312). FM snooping a foreign GETM supplies data and goes to IM. No transition enters OM, and a store in O goes through FM.
- The cache simulator treats tag 0 as "empty way" and ignores the valid bit on lookups. An address whose tag is 0 therefore hits a way that was never filled (`CacheModel.ZeroTagHitsEmptyWay`).

Paths in the table are relative to the repository root.

## Model

| member | source | states |
|---|---|---|
| Coherence.Simulator.Account | adv-comp-arch/cache-coherency/project3/protocols/MESI_protocol.cpp:97-114 | cache_misses and silent_upgrades grow by exactly the handler's increments |
| Bus.RunPreserves | adv-comp-arch/cache-coherency/project3/protocols/MSI_protocol.cpp:28-50 | a line property that no single handler run breaks holds at the end of every run that hits no fatal_error |
| Bus.Broadcast | adv-comp-arch/cache-coherency/project3/protocols/MSI_protocol.cpp:40-50 | every cache snoops the message in order (its own echo flagged), the result has one line per cache and fails exactly when some snooper hits fatal_error; the shared line is the OR of the assertions |
| Bus.Transaction | adv-comp-arch/cache-coherency/project3/protocols/MSI_protocol.cpp:28-50 | a transaction that hits no fatal_error leaves one line per cache; what it leaves is stated per protocol by MissTransaction and TransactionKeepsSingleWriter |
| Bus.BroadcastSnoc | adv-comp-arch/cache-coherency/project3/protocols/MSI_protocol.cpp:40-50 | one more cache snoops after the others and ORs its assertion into the shared line |
| Bus.BroadcastPair | adv-comp-arch/cache-coherency/project3/protocols/MSI_protocol.cpp:40-50 | on a two-cache bus both snoop in order and the shared line is the OR of their assertions |
| Bus.MissTransactionUnfolds | adv-comp-arch/cache-coherency/project3/protocols/MSI_protocol.cpp:28-50 | a miss transaction with no fatal_error ends with the lines the DATA broadcast leaves |
| Msi.CacheStep | adv-comp-arch/cache-coherency/project3/protocols/MSI_protocol.cpp:28-130 | bus messages, IM and unrouted states are fatal; a processor request either hits (data to the processor, line unchanged, no counter) or misses (GETS/GETM, line to IM, one miss); never asserts the shared line |
| Msi.SnoopStep | adv-comp-arch/cache-coherency/project3/protocols/MSI_protocol.cpp:40-249 | processor messages are fatal; only an M line supplies data or asserts the shared line; data reaches the processor exactly on DATA in IM, where the line lands in nxt_state |
| Msi.SnoopIS | adv-comp-arch/cache-coherency/project3/protocols/MSI_protocol.cpp:185-199 | GETS/GETM are ignored, DATA delivers and lands in S, processor messages are fatal |
| Msi.MissFromInvalid | adv-comp-arch/cache-coherency/project3/protocols/MSI_protocol.cpp:52-75 | from I a STORE sends GETM and a LOAD sends GETS, both to IM with one miss |
| Msi.HitsAreSilent | adv-comp-arch/cache-coherency/project3/protocols/MSI_protocol.cpp:94-130 | M serves LOAD and STORE and S serves LOAD without bus traffic or counters |
| Msi.StoreInShared | adv-comp-arch/cache-coherency/project3/protocols/MSI_protocol.cpp:100-106 | a STORE in S sends GETM, goes to IM and counts a miss |
| Msi.PendingRecordsLanding | adv-comp-arch/cache-coherency/project3/protocols/MSI_protocol.cpp:151-182 | in IM, GETS records S, GETM records M, DATA delivers and lands in the recorded state |
| Msi.ModifiedSnoops | adv-comp-arch/cache-coherency/project3/protocols/MSI_protocol.cpp:217-249 | M supplies data and asserts the shared line on GETS (to S) and GETM (to I); DATA is fatal |
| Msi.SharedSnoops | adv-comp-arch/cache-coherency/project3/protocols/MSI_protocol.cpp:200-215 | S drops to I on GETM, ignores GETS and DATA, and does not assert the shared line |
| Msi.EchoDecidesLanding | adv-comp-arch/cache-coherency/project3/protocols/MSI_protocol.cpp:151-182 | whatever the uninitialised nxt_state held, a read miss lands in S and a write miss in M, after one miss each |
| Msi.LoadEchoLands | adv-comp-arch/cache-coherency/project3/protocols/MSI_protocol.cpp:61-70 | I, LOAD, own GETS, DATA ends in S with one miss |
| Msi.StoreEchoLands | adv-comp-arch/cache-coherency/project3/protocols/MSI_protocol.cpp:56-60 | I, STORE, own GETM, DATA ends in M with one miss |
| Msi.ForeignGetsOverridesPendingStore | adv-comp-arch/cache-coherency/project3/protocols/MSI_protocol.cpp:151-162 | IM cannot tell its own echo from a foreign GETS, so a pending store completes in S |
| Msi.ReadWriteForeignRead | adv-comp-arch/cache-coherency/project3/protocols/MSI_protocol.cpp:52-249 | read, write, foreign read: I to S to M to S with two misses |
| Msi.WriteThenForeignRead | adv-comp-arch/cache-coherency/project3/protocols/MSI_protocol.cpp:94-249 | from S a write misses once and a foreign read brings the line back to S |
| Msi.NeverUnrouted | adv-comp-arch/cache-coherency/project3/protocols/MSI_protocol.cpp:28-50 | a line starting in a routed state never reaches a state the dispatchers reject |
| Msi.RequestPhase | adv-comp-arch/cache-coherency/project3/protocols/MSI_protocol.cpp:132-249 | after every cache snoops src's request, src waits in IM with the requested landing state; GETM invalidates the others and GETS turns M into S |
| Msi.DataPhase | adv-comp-arch/cache-coherency/project3/protocols/MSI_protocol.cpp:163-177 | DATA lands src in its recorded state and leaves I/S lines alone |
| Msi.MissTransaction | adv-comp-arch/cache-coherency/project3/protocols/MSI_protocol.cpp:52-249 | a miss lands src in S (read) or M (write); the others are invalidated by a write and downgraded from M to S by a read |
| Msi.StableResult | adv-comp-arch/cache-coherency/project3/protocols/MSI_protocol.cpp:132-249 | the states a miss leaves behind are single-writer |
| Msi.TransactionKeepsSingleWriter | adv-comp-arch/cache-coherency/project3/protocols/MSI_protocol.cpp:28-249 | from a single-writer configuration a processor request never hits fatal_error and keeps the configuration single-writer |
| Msi.MsiProtocol.constructor | adv-comp-arch/cache-coherency/project3/protocols/MSI_protocol.cpp:11-16 | a new line is in I, nxt_state as found |
| Msi.MsiProtocol.ProcessCacheRequest | adv-comp-arch/cache-coherency/project3/protocols/MSI_protocol.cpp:28-38 | commits CacheStep: new state and effect on success, nothing on fatal_error, cache_misses grows by the miss count |
| Msi.MsiProtocol.ProcessSnoopRequest | adv-comp-arch/cache-coherency/project3/protocols/MSI_protocol.cpp:40-50 | commits SnoopStep; counters unchanged |
| Mesi.CacheStep | adv-comp-arch/cache-coherency/project3/protocols/MESI_protocol.cpp:27-142 | transient and unrouted states are fatal; a miss goes to IX (GETS) or IM/SM (GETM) with one miss; E on STORE is the only silent upgrade |
| Mesi.SnoopStep | adv-comp-arch/cache-coherency/project3/protocols/MESI_protocol.cpp:42-273 | fatal exactly for processor messages, unrouted states and DATA in E; only E/M supply data; the shared line is asserted by S/E/M on GETS and by SM on a foreign request; DATA in a transient state lands IX by the shared line and the others in M |
| Mesi.MissFromInvalid | adv-comp-arch/cache-coherency/project3/protocols/MESI_protocol.cpp:58-78 | LOAD in I sends GETS to IX and STORE sends GETM to IM, one miss each |
| Mesi.ReadMissLanding | adv-comp-arch/cache-coherency/project3/protocols/MESI_protocol.cpp:156-174 | IX on DATA delivers and lands in S when the shared line is asserted, else E |
| Mesi.SilentUpgrade | adv-comp-arch/cache-coherency/project3/protocols/MESI_protocol.cpp:97-114 | a STORE in E goes to M with one silent upgrade and no bus message |
| Mesi.StoreInShared | adv-comp-arch/cache-coherency/project3/protocols/MESI_protocol.cpp:80-95 | a STORE in S sends GETM and goes to SM with one miss |
| Mesi.UpgradePending | adv-comp-arch/cache-coherency/project3/protocols/MESI_protocol.cpp:192-211 | SM drops to IM asserting the shared line on a foreign request, ignores its own echo, and lands in M on DATA |
| Mesi.OwnerSnoops | adv-comp-arch/cache-coherency/project3/protocols/MESI_protocol.cpp:230-273 | E and M supply data on GETS asserting the shared line (to S) and on GETM without it (to I) |
| Mesi.DataInOwner | adv-comp-arch/cache-coherency/project3/protocols/MESI_protocol.cpp:230-273 | DATA is fatal in E and ignored in M |
| Mesi.ExclusiveReadThenStore | adv-comp-arch/cache-coherency/project3/protocols/MESI_protocol.cpp:58-174 | an unshared read lands in E and the next store is a silent upgrade: one miss, one upgrade |
| Mesi.SharedReadThenStore | adv-comp-arch/cache-coherency/project3/protocols/MESI_protocol.cpp:58-211 | a shared read lands in S and the next store is a second miss through SM |
| Mesi.NeverUnrouted | adv-comp-arch/cache-coherency/project3/protocols/MESI_protocol.cpp:27-56 | a line starting in a routed state never reaches X |
| Mesi.RequestPhase | adv-comp-arch/cache-coherency/project3/protocols/MESI_protocol.cpp:143-273 | GETM invalidates the others, GETS demotes E/M to S, and the shared line is asserted exactly when a GETS finds another copy |
| Mesi.ForeignRequest | adv-comp-arch/cache-coherency/project3/protocols/MESI_protocol.cpp:143-273 | a stable line snooping a foreign request: GETM invalidates, GETS demotes E/M to S, any copy asserts the shared line on GETS |
| Mesi.OwnRequest | adv-comp-arch/cache-coherency/project3/protocols/MESI_protocol.cpp:156-211 | a transient line snooping its own echo stays put and asserts nothing |
| Mesi.DataPhase | adv-comp-arch/cache-coherency/project3/protocols/MESI_protocol.cpp:156-211 | DATA moves src out of its transient state and leaves I/S lines alone |
| Mesi.MissTransaction | adv-comp-arch/cache-coherency/project3/protocols/MESI_protocol.cpp:58-273 | the lines a miss leaves: src in S/E/M by request and sharing, others invalidated or demoted |
| Mesi.ReadMissExclusiveIffAlone | adv-comp-arch/cache-coherency/project3/protocols/MESI_protocol.cpp:156-174 | a read miss from I ends in E exactly when every other cache is in I, and in S otherwise |
| Mesi.StableResult | adv-comp-arch/cache-coherency/project3/protocols/MESI_protocol.cpp:143-273 | the states a miss leaves behind are single-writer |
| Mesi.TransactionKeepsSingleWriter | adv-comp-arch/cache-coherency/project3/protocols/MESI_protocol.cpp:27-273 | from a single-writer configuration a processor request never hits fatal_error and keeps it single-writer |
| Mesi.MesiProtocol.constructor | adv-comp-arch/cache-coherency/project3/protocols/MESI_protocol.cpp:11-15 | a new line starts in I |
| Mesi.MesiProtocol.ProcessCacheRequest | adv-comp-arch/cache-coherency/project3/protocols/MESI_protocol.cpp:27-40 | commits CacheStep and adds its miss and silent-upgrade counts |
| Mesi.MesiProtocol.ProcessSnoopRequest | adv-comp-arch/cache-coherency/project3/protocols/MESI_protocol.cpp:42-56 | commits SnoopStep; counters unchanged |
| Mosi.CacheStep | adv-comp-arch/cache-coherency/project3/protocols/MOSI_protocol.cpp:29-150 | transient and unrouted states are fatal; misses go to IS/IM/SM/OM with one miss; no silent upgrade |
| Mosi.SnoopStep | adv-comp-arch/cache-coherency/project3/protocols/MOSI_protocol.cpp:45-316 | processor messages are fatal; only owners (O, M, OM) supply data; DATA in a transient state delivers and lands IS in S and the others in M |
| Mosi.MissFromInvalid | adv-comp-arch/cache-coherency/project3/protocols/MOSI_protocol.cpp:61-80 | LOAD in I sends GETS to IS and STORE sends GETM to IM, one miss each |
| Mosi.ReadMissLandsShared | adv-comp-arch/cache-coherency/project3/protocols/MOSI_protocol.cpp:272-286 | IS on DATA lands in S whatever the shared line says |
| Mosi.ModifiedToOwned | adv-comp-arch/cache-coherency/project3/protocols/MOSI_protocol.cpp:229-248 | M on GETS asserts the shared line, supplies data and becomes O |
| Mosi.OwnedSnoops | adv-comp-arch/cache-coherency/project3/protocols/MOSI_protocol.cpp:209-227 | O supplies on GETS asserting the shared line and stays O; on GETM it supplies without it and goes to I |
| Mosi.StoreInOwned | adv-comp-arch/cache-coherency/project3/protocols/MOSI_protocol.cpp:99-116 | a STORE in O sends GETM and goes to OM with one miss |
| Mosi.OwnedUpgradePending | adv-comp-arch/cache-coherency/project3/protocols/MOSI_protocol.cpp:288-316 | OM supplies on every GETM, drops to IM on a foreign one, keeps OM on its own, lands in M on DATA |
| Mosi.SharedUpgradePending | adv-comp-arch/cache-coherency/project3/protocols/MOSI_protocol.cpp:250-270 | SM ignores GETS and its own GETM; a foreign GETM asserts the shared line and drops it to IM |
| Mosi.OwnedStoreCompletes | adv-comp-arch/cache-coherency/project3/protocols/MOSI_protocol.cpp:99-116 | a store in O goes through OM, supplies its own GETM's data and lands in M with one miss |
| Mosi.ReadThenStoreMissesTwice | adv-comp-arch/cache-coherency/project3/protocols/MOSI_protocol.cpp:61-145 | without E a read then a store costs two misses and no silent upgrade |
| Mosi.NeverUnrouted | adv-comp-arch/cache-coherency/project3/protocols/MOSI_protocol.cpp:29-59 | a line starting in a routed state never reaches X |
| Mosi.RequestPhase | adv-comp-arch/cache-coherency/project3/protocols/MOSI_protocol.cpp:151-316 | after the request is snooped GETM invalidates the others and GETS turns M into O |
| Mosi.ForeignRequest | adv-comp-arch/cache-coherency/project3/protocols/MOSI_protocol.cpp:151-248 | a stable line snooping a foreign request: GETM invalidates, GETS turns M into O |
| Mosi.OwnRequest | adv-comp-arch/cache-coherency/project3/protocols/MOSI_protocol.cpp:250-316 | a transient line snooping its own echo stays put |
| Mosi.DataPhase | adv-comp-arch/cache-coherency/project3/protocols/MOSI_protocol.cpp:250-316 | DATA moves src out of its transient state and leaves I/S/O lines alone |
| Mosi.MissTransaction | adv-comp-arch/cache-coherency/project3/protocols/MOSI_protocol.cpp:61-316 | a read lands in S and turns a modified copy elsewhere into O; a write lands in M and invalidates every other copy |
| Mosi.RequestSettles | adv-comp-arch/cache-coherency/project3/protocols/MOSI_protocol.cpp:151-248 | after the request phase every other line is I, S or O |
| Mosi.PhasesCombine | adv-comp-arch/cache-coherency/project3/protocols/MOSI_protocol.cpp:151-316 | the data phase keeps what the request phase left in the other lines and lands the requester |
| Mosi.StableResult | adv-comp-arch/cache-coherency/project3/protocols/MOSI_protocol.cpp:151-316 | the states a miss leaves are single-writer with at most one owner |
| Mosi.TransactionKeepsSingleWriter | adv-comp-arch/cache-coherency/project3/protocols/MOSI_protocol.cpp:29-316 | from a single-writer configuration a processor request never hits fatal_error and keeps it single-writer |
| Mosi.MosiProtocol.constructor | adv-comp-arch/cache-coherency/project3/protocols/MOSI_protocol.cpp:11-17 | a new line starts in I |
| Mosi.MosiProtocol.ProcessCacheRequest | adv-comp-arch/cache-coherency/project3/protocols/MOSI_protocol.cpp:29-43 | commits CacheStep and adds its miss count |
| Mosi.MosiProtocol.ProcessSnoopRequest | adv-comp-arch/cache-coherency/project3/protocols/MOSI_protocol.cpp:45-59 | commits SnoopStep; counters unchanged |
| Moesif.CacheStep | adv-comp-arch/cache-coherency/project3/protocols/MOESIF_protocol.cpp:27-174 | transient and unrouted states are fatal; a STORE in O or F goes to FM; E on STORE is the only silent upgrade |
| Moesif.SnoopStep | adv-comp-arch/cache-coherency/project3/protocols/MOESIF_protocol.cpp:46-432 | processor messages are fatal; only owners and FM/OM supply data; DATA in IS lands by the shared line (S or E), in the other transient states in M |
| Moesif.ReadMissLanding | adv-comp-arch/cache-coherency/project3/protocols/MOESIF_protocol.cpp:314-331 | IS on DATA lands in S when the shared line is asserted, else E |
| Moesif.SilentUpgrade | adv-comp-arch/cache-coherency/project3/protocols/MOESIF_protocol.cpp:390-407 | a STORE in E goes to M with one silent upgrade and no bus message |
| Moesif.ExclusiveSnoops | adv-comp-arch/cache-coherency/project3/protocols/MOESIF_protocol.cpp:409-432 | E supplies on GETS asserting the shared line (to F) and on GETM (to I); DATA in E is fatal |
| Moesif.ForwardSnoops | adv-comp-arch/cache-coherency/project3/protocols/MOESIF_protocol.cpp:252-269 | F supplies on GETS asserting the shared line and stays F; on GETM it supplies and goes to I |
| Moesif.OwnedOrForwardStore | adv-comp-arch/cache-coherency/project3/protocols/MOESIF_protocol.cpp:103-149 | a STORE in O or F sends GETM and goes to FM with one miss |
| Moesif.ForwardUpgradePending | adv-comp-arch/cache-coherency/project3/protocols/MOESIF_protocol.cpp:362-389 | FM supplies on every GETM, drops to IM on a foreign one, keeps FM on its own, lands in M on DATA |
| Moesif.SharedUpgradePending | adv-comp-arch/cache-coherency/project3/protocols/MOESIF_protocol.cpp:291-312 | SM asserts the shared line on GETS and stays; a foreign GETM asserts it and drops SM to IM |
| Moesif.ModifiedSnoops | adv-comp-arch/cache-coherency/project3/protocols/MOESIF_protocol.cpp:270-289 | M supplies and becomes O on GETS and I on GETM |
| Moesif.NoStepEntersOwnedUpgrade | adv-comp-arch/cache-coherency/project3/protocols/MOESIF_protocol.cpp:65-432 | no handler moves a line from another state into OM |
| Moesif.OwnedUpgradeUnreachable | adv-comp-arch/cache-coherency/project3/protocols/MOESIF_protocol.cpp:27-63 | a line starting outside OM never reaches OM or X |
| Moesif.ExclusiveReadThenStore | adv-comp-arch/cache-coherency/project3/protocols/MOESIF_protocol.cpp:65-407 | an unshared read lands in E and the next store is a silent upgrade |
| Moesif.RequestPhase | adv-comp-arch/cache-coherency/project3/protocols/MOESIF_protocol.cpp:175-432 | GETM invalidates the others, GETS demotes E to F and M to O, and the shared line is asserted exactly when a GETS finds another copy |
| Moesif.ForeignRequest | adv-comp-arch/cache-coherency/project3/protocols/MOESIF_protocol.cpp:175-432 | a stable line snooping a foreign request: GETM invalidates, GETS demotes, any copy asserts the shared line on GETS |
| Moesif.OwnRequest | adv-comp-arch/cache-coherency/project3/protocols/MOESIF_protocol.cpp:291-389 | a transient line snooping its own echo stays put and asserts nothing |
| Moesif.DataPhase | adv-comp-arch/cache-coherency/project3/protocols/MOESIF_protocol.cpp:291-389 | DATA moves src out of its transient state and leaves I/S/O/F lines alone |
| Moesif.MissTransaction | adv-comp-arch/cache-coherency/project3/protocols/MOESIF_protocol.cpp:65-432 | a read lands in E when nobody else holds the block and in S otherwise; a write lands in M and invalidates every other copy |
| Moesif.RequestSettles | adv-comp-arch/cache-coherency/project3/protocols/MOESIF_protocol.cpp:175-432 | after the request phase every other line is I, S, O or F |
| Moesif.PhasesCombine | adv-comp-arch/cache-coherency/project3/protocols/MOESIF_protocol.cpp:175-432 | the data phase keeps what the request phase left and lands the requester by request kind and sharing |
| Moesif.StableResult | adv-comp-arch/cache-coherency/project3/protocols/MOESIF_protocol.cpp:175-432 | the states a miss leaves are single-writer with at most one owner |
| Moesif.TransactionKeepsSingleWriter | adv-comp-arch/cache-coherency/project3/protocols/MOESIF_protocol.cpp:27-432 | from a single-writer configuration a processor request never hits fatal_error and keeps it single-writer |
| Moesif.FirstReadLandsExclusive | adv-comp-arch/cache-coherency/project3/protocols/MOESIF_protocol.cpp:314-331 | two caches in I: the first reader lands in E |
| Moesif.SecondReadMakesForwarder | adv-comp-arch/cache-coherency/project3/protocols/MOESIF_protocol.cpp:409-432 | a second reader lands in S and turns the E copy into F |
| Moesif.ForwarderWriteInvalidates | adv-comp-arch/cache-coherency/project3/protocols/MOESIF_protocol.cpp:362-389 | the forwarder writes through FM, invalidates the sharer and ends in M |
| Moesif.MoesifProtocol.constructor | adv-comp-arch/cache-coherency/project3/protocols/MOESIF_protocol.cpp:11-15 | a new line starts in I |
| Moesif.MoesifProtocol.ProcessCacheRequest | adv-comp-arch/cache-coherency/project3/protocols/MOESIF_protocol.cpp:27-44 | commits CacheStep and adds its miss and silent-upgrade counts |
| Moesif.MoesifProtocol.ProcessSnoopRequest | adv-comp-arch/cache-coherency/project3/protocols/MOESIF_protocol.cpp:46-63 | commits SnoopStep; counters unchanged |
| CacheModel.BlockAddrRoundTrip | adv-comp-arch/cache-simulator/cachesim.cpp:174-176 | the write-back address built from a way's tag and set index decodes back to that set and tag |
| CacheModel.BlockAddrOfAddress | adv-comp-arch/cache-simulator/cachesim.cpp:148-150 | an address's tag and index rebuild the address with its offset bits cleared |
| CacheModel.FirstTag | adv-comp-arch/cache-simulator/cachesim.cpp:156-164 | the first way carrying the tag, or the set size when there is none |
| CacheModel.LruIndex | adv-comp-arch/cache-simulator/cachesim.cpp:753-768 | a way with the least stamp, and the last such way |
| CacheModel.Place | adv-comp-arch/cache-simulator/cachesim.cpp:156-194 | hit exactly when some way carries the tag (the first one); otherwise the first empty way, or the LRU victim exactly when no way is empty |
| CacheModel.NewSet | adv-comp-arch/cache-simulator/cachesim.cpp:211-220 | nWays ways, the block in way 0, the rest value-initialised |
| CacheModel.L2Access | adv-comp-arch/cache-simulator/cachesim.cpp:319-538 | keeps the cache well formed, leaves L1 and the request counters alone, and takes one clock stamp |
| CacheModel.L1Access | adv-comp-arch/cache-simulator/cachesim.cpp:133-317 | keeps the cache well formed, advances the clock and counts one L1 access |
| CacheModel.CacheAccess | adv-comp-arch/cache-simulator/cachesim.cpp:114-131 | keeps the cache well formed |
| CacheModel.L2AccessInstalls | adv-comp-arch/cache-simulator/cachesim.cpp:319-538 | the block is in its L2 set in a way stamped with the new clock, dirty after a write; no other L2 set changes |
| CacheModel.L2AccessCounts | adv-comp-arch/cache-simulator/cachesim.cpp:319-538 | an L2 read/write miss is counted exactly when the block was absent, a write-back exactly when a dirty LRU victim was replaced |
| CacheModel.L1AccessCounts | adv-comp-arch/cache-simulator/cachesim.cpp:133-317 | an L1 miss is counted exactly when the block was absent, and then the one L2ReadReq it issues counts an L2 read miss exactly when the block is not in L2 either; a hit leaves L2 and its counters alone and takes one stamp |
| CacheModel.L1FillCounts | adv-comp-arch/cache-simulator/cachesim.cpp:165-204 | after an L1 miss into an existing set, the fill and any write-back leave the L1 miss counters alone, and the L2 read misses grow by one exactly when the block is not in L2 (a write-back counts only as a write) |
| CacheModel.L1AccessInstalls | adv-comp-arch/cache-simulator/cachesim.cpp:133-317 | the block is in its L1 set with a stamp newer than every other way there, dirty after a write; no other L1 set changes |
| CacheModel.L1HitTouchesOneWay | adv-comp-arch/cache-simulator/cachesim.cpp:156-164 | a hit re-stamps the first way with the tag (dirty on a write) and changes nothing else |
| CacheModel.L1MissPlacement | adv-comp-arch/cache-simulator/cachesim.cpp:165-204 | a miss fills the first empty way if any, else the LRU victim; clean for a read, dirty for a write; other ways unchanged |
| CacheModel.L1MissNewSet | adv-comp-arch/cache-simulator/cachesim.cpp:205-222 | a first access to a set creates nWays ways with the block in way 0 |
| CacheModel.L1MissWriteBack | adv-comp-arch/cache-simulator/cachesim.cpp:171-188 | a write-back happens exactly for a dirty LRU victim; then its block is dirty in L2 and three stamps were taken, otherwise two |
| CacheModel.ZeroTagHitsEmptyWay | adv-comp-arch/cache-simulator/cachesim.cpp:156-164 | an address with tag 0 hits a never-filled way: no miss, no L2 traffic |
| CacheModel.CacheAccessDispatch | adv-comp-arch/cache-simulator/cachesim.cpp:114-131 | 'r' counts a read, 'w' a write, any other kind changes nothing |
| CacheModel.ReadRequestCounts | adv-comp-arch/cache-simulator/cachesim.cpp:119-123 | a read counts one read and one L1 access |
| CacheModel.WriteRequestCounts | adv-comp-arch/cache-simulator/cachesim.cpp:124-127 | a write counts one write and one L1 access |
| CacheSim.FindLruBlk | adv-comp-arch/cache-simulator/cachesim.cpp:753-768 | the scan returns LruIndex: the last way with the least stamp |
| CacheSim.ScanSet | adv-comp-arch/cache-simulator/cachesim.cpp:156-164 | hit exactly when a way carries the tag (then its first index); on a miss, whether an empty way exists |
| CacheSim.FirstFreeWay | adv-comp-arch/cache-simulator/cachesim.cpp:189-194 | the first way with tag 0 |
| CacheSim.EmptySet | adv-comp-arch/cache-simulator/cachesim.cpp:211-214 | count value-initialised ways |
| CacheSim.ChooseWay | adv-comp-arch/cache-simulator/cachesim.cpp:171-194 | the way Place picks, with a write-back exactly for a dirty victim |
| CacheSim.Simulator.constructor | adv-comp-arch/cache-simulator/cachesim.cpp:83-105 | the geometry from c, b, s; empty maps, clock at 10000, zero statistics |
| CacheSim.Simulator.AddLruInfo | adv-comp-arch/cache-simulator/cachesim.cpp:749-751 | the clock advances by one and its new value is the stamp |
| CacheSim.Simulator.CountL2Miss | adv-comp-arch/cache-simulator/cachesim.cpp:319-538 | one more L2 read or write miss, nothing else changes |
| CacheSim.Simulator.L2Request | adv-comp-arch/cache-simulator/cachesim.cpp:319-538 | the state afterwards is L2Access of the state before |
| CacheSim.Simulator.L1Request | adv-comp-arch/cache-simulator/cachesim.cpp:133-317 | the state afterwards is L1Access of the state before |
| CacheSim.Simulator.L1Miss | adv-comp-arch/cache-simulator/cachesim.cpp:165-222 | the miss path leaves the state L1Access describes |
| CacheSim.Simulator.L1Fill | adv-comp-arch/cache-simulator/cachesim.cpp:169-204 | the fill of an existing set leaves the state L1Access describes |
| CacheSim.Simulator.InstallL1 | adv-comp-arch/cache-simulator/cachesim.cpp:195-199 | only way k of set idx changes, to the fresh block with the next stamp |
| CacheSim.Simulator.L1NewSet | adv-comp-arch/cache-simulator/cachesim.cpp:205-222 | the new-set path leaves the state L1Access describes |
| CacheSim.Simulator.Access | adv-comp-arch/cache-simulator/cachesim.cpp:114-131 | the state afterwards is CacheAccess of the state before |
| Queues.Filter | adv-comp-arch/tomasulo-algorithm/procsim.cpp:374-389 | never longer than its input |
| Queues.FilterLength | adv-comp-arch/tomasulo-algorithm/procsim.cpp:374-389 | survivors plus deleted entries are all the entries |
| Queues.FilterMembers | adv-comp-arch/tomasulo-algorithm/procsim.cpp:374-389 | an entry survives exactly when it was there and is not deleted |
| Queues.FilterKeeps | adv-comp-arch/tomasulo-algorithm/procsim.cpp:374-389 | every survivor has any property all entries had |
| Queues.FilterAppend | adv-comp-arch/tomasulo-algorithm/procsim.cpp:374-389 | filtering distributes over concatenation, so order is kept |
| Queues.ShiftUp | adv-comp-arch/tomasulo-algorithm/procsim.cpp:380-383 | a[i+1..m] moves up to a[i..m-1], nothing else changes |
| Queues.DeleteAt | adv-comp-arch/tomasulo-algorithm/procsim.cpp:377-386 | entry i goes, the rest up to m shift up, slot m-1 is cleared, nothing past m changes |
| Queues.Compact | adv-comp-arch/tomasulo-algorithm/procsim.cpp:374-389 | the survivors are at the front in their old order, count plus deleted is n, freed slots are blank, nothing past n changes |
| Rob.MarkCompleted | adv-comp-arch/tomasulo-algorithm/procsim.cpp:463-474 | every entry of the line gets the cycle as completion; lines and retire flags are unchanged |
| Rob.MarkRetire | adv-comp-arch/tomasulo-algorithm/procsim.cpp:481-486 | an entry is flagged exactly when it was flagged or completed in the previous cycle (and at all) |
| Rob.RetireCount | adv-comp-arch/tomasulo-algorithm/procsim.cpp:487-496 | at most width and the window size; all counted entries are flagged; the walk stops at an unflagged head |
| Rob.Window | adv-comp-arch/tomasulo-algorithm/procsim.cpp:465-473 | the window's k-th entry is the ring slot k after the head |
| Rob.WindowPush | adv-comp-arch/tomasulo-algorithm/procsim.cpp:456-462 | writing the line past the window grows the window by that entry |
| Rob.WindowPop | adv-comp-arch/tomasulo-algorithm/procsim.cpp:491-493 | blanking the head and advancing it drops the window's first entry |
| Rob.ReorderBuffer.constructor | adv-comp-arch/tomasulo-algorithm/procsim.cpp:142-143 | R blank entries, head, tail and num_used at zero, empty contents |
| Rob.ReorderBuffer.AddToRob | adv-comp-arch/tomasulo-algorithm/procsim.cpp:456-462 | the contents grow by the line at the end, the head stays |
| Rob.ReorderBuffer.MarkForDel | adv-comp-arch/tomasulo-algorithm/procsim.cpp:463-474 | the contents become MarkCompleted of the old contents |
| Rob.ReorderBuffer.FlagRetirements | adv-comp-arch/tomasulo-algorithm/procsim.cpp:477-486 | the contents become MarkRetire of the old contents |
| Rob.ReorderBuffer.PopHead | adv-comp-arch/tomasulo-algorithm/procsim.cpp:491-493 | the first entry leaves, the tail stays |
| Rob.ReorderBuffer.RetireFromHead | adv-comp-arch/tomasulo-algorithm/procsim.cpp:487-496 | retires RetireCount entries from the front, in order |
| Pipeline.FuOf | adv-comp-arch/tomasulo-algorithm/procsim.cpp:404-405 | a non-negative op code is its own unit type, a negative one runs on unit 0 |
| Pipeline.Decoded | adv-comp-arch/tomasulo-algorithm/procsim.cpp:401-406 | one entry per instruction, lines numbered on from gline, registers copied, flags clear |
| Pipeline.DecodedValid | adv-comp-arch/tomasulo-algorithm/procsim.cpp:401-406 | decoding a well-formed trace gives entries naming existing units and registers |
| Pipeline.DecodedPush | adv-comp-arch/tomasulo-algorithm/procsim.cpp:395-412 | decoding one more instruction appends its entry |
| Pipeline.FetchCount | adv-comp-arch/tomasulo-algorithm/procsim.cpp:392-419 | fetch takes the least of width, free room and remaining trace |
| Pipeline.FullFromShape | adv-comp-arch/tomasulo-algorithm/procsim.cpp:277-296 | the full-ROB pass keeps each instruction, stalls a suffix and lets through only ROB holders |
| Pipeline.OpenFromShape | adv-comp-arch/tomasulo-algorithm/procsim.cpp:297-329 | the open-ROB pass keeps each instruction, stalls a suffix and lets through only ROB holders |
| Pipeline.FullFromKeepsRob | adv-comp-arch/tomasulo-algorithm/procsim.cpp:277-296 | the full-ROB pass enters nothing into the ROB |
| Pipeline.FullFromCounts | adv-comp-arch/tomasulo-algorithm/procsim.cpp:279-294 | each queue's reservations grow by the entries let through to it and never pass the queue's size |
| Pipeline.OpenFromCounts | adv-comp-arch/tomasulo-algorithm/procsim.cpp:299-328 | the same for the open-ROB pass, where a queue within its size stays within it |
| Pipeline.OpenFromRob | adv-comp-arch/tomasulo-algorithm/procsim.cpp:301-307 | the ROB receives, in queue order, exactly the lines of entries newly entered, never more than its free slots |
| Pipeline.DispatchFirstSound | adv-comp-arch/tomasulo-algorithm/procsim.cpp:273-331 | stalled entries form a suffix, every entry going ahead holds a ROB slot, reservations grow by the entries going ahead and stay within size, and the ROB receives the new lines in order (none when it was full) |
| Pipeline.IssueWaits | adv-comp-arch/tomasulo-algorithm/procsim.cpp:346-359 | each source waits exactly when its register is busy, and then on that register's tag |
| Pipeline.IssueDest | adv-comp-arch/tomasulo-algorithm/procsim.cpp:345-366 | the entry carries its line, and its own line as destination tag when it has a destination |
| Pipeline.IssueKeepsFlags | adv-comp-arch/tomasulo-algorithm/procsim.cpp:344-368 | dispatch leaves the slot's state flags as they were |
| Pipeline.Tag32 | adv-comp-arch/tomasulo-algorithm/procsim.cpp:348-363 | a tag stored in a 32-bit field keeps the low 32 bits |
| Pipeline.Rename | adv-comp-arch/tomasulo-algorithm/procsim.cpp:360-366 | the destination register, if any, is busy and tagged with the line; other registers unchanged |
| Pipeline.TakeStepIs | adv-comp-arch/tomasulo-algorithm/procsim.cpp:339-369 | an entry that goes ahead is written at its queue's tail, renames, is marked done, and the tail moves on |
| Pipeline.StallStepIs | adv-comp-arch/tomasulo-algorithm/procsim.cpp:371-372 | a stalled entry changes nothing |
| Pipeline.StepKeepsOk | adv-comp-arch/tomasulo-algorithm/procsim.cpp:337-373 | one step keeps room in the queues for the entries after it |
| Pipeline.IssuedNext | adv-comp-arch/tomasulo-algorithm/procsim.cpp:337-373 | one more step of the loop keeps its state on the way to the loop's result |
| Pipeline.IssuedDone | adv-comp-arch/tomasulo-algorithm/procsim.cpp:337-373 | at the end of the queue the loop's state is its result |
| Pipeline.IssueFromQueue | adv-comp-arch/tomasulo-algorithm/procsim.cpp:337-373 | each entry is marked done exactly when it goes ahead; nothing else about the queue changes |
| Pipeline.IssueFromRegs | adv-comp-arch/tomasulo-algorithm/procsim.cpp:360-366 | a register written by an entry going ahead is busy with the last such entry's line; the others are unchanged |
| Pipeline.DispatchFirstReserves | adv-comp-arch/tomasulo-algorithm/procsim.cpp:277-331 | from a cycle boundary where every tail equals its count, the first half leaves each count exactly the tail plus one reservation per entry going ahead to that queue |
| Pipeline.IssueFromTails | adv-comp-arch/tomasulo-algorithm/procsim.cpp:343-368 | each tail moves past one slot per entry going ahead to that queue; other slots are unchanged |
| Pipeline.IssueFillsReservations | adv-comp-arch/tomasulo-algorithm/procsim.cpp:337-370 | when the counts reserve exactly the entries going ahead, the issuing loop moves every tail up to its count |
| Pipeline.IssueFromLines | adv-comp-arch/tomasulo-algorithm/procsim.cpp:343-368 | the slots the tails passed hold the lines of the entries that went ahead, in queue order |
| Pipeline.DispatchSecondQueue | adv-comp-arch/tomasulo-algorithm/procsim.cpp:333-390 | the dispatch queue keeps, in order, exactly the stalled entries that were not already done |
| Pipeline.ReadyFromPicks | adv-comp-arch/tomasulo-algorithm/procsim.cpp:446-453 | each pick was fireable, picks come in queue order, the unit count grows by one per pick and stays within size |
| Pipeline.ReadyFromMarks | adv-comp-arch/tomasulo-algorithm/procsim.cpp:446-453 | the pass marks ready exactly the entries it picks and changes nothing else |
| Pipeline.ReadyFromGreedy | adv-comp-arch/tomasulo-algorithm/procsim.cpp:446-453 | a fireable entry left unpicked found its unit full |
| Pipeline.ReadyFromFull | adv-comp-arch/tomasulo-algorithm/procsim.cpp:446-453 | a full unit stays full and picks nothing |
| Procsim.RobEntries | adv-comp-arch/tomasulo-algorithm/procsim.cpp:456-462 | one fresh ROB entry per line, in order |
| Procsim.CompactSched | adv-comp-arch/tomasulo-algorithm/procsim.cpp:427-439 | the queue becomes Compacted of the old one and the count drops by the freed entries |
| Procsim.CompactedNext | adv-comp-arch/tomasulo-algorithm/procsim.cpp:424-440 | compacting queue f moves the compaction on to queue f + 1 |
| Procsim.ReadyQueue | adv-comp-arch/tomasulo-algorithm/procsim.cpp:447-453 | the queue and unit count become what Scheduled describes |
| Procsim.Processor.constructor | adv-comp-arch/tomasulo-algorithm/procsim.cpp:134-165 | R-entry ROB and dispatch queue, K*M-entry scheduling queues, every counter zero and every entry blank |
| Procsim.Processor.Append | adv-comp-arch/tomasulo-algorithm/procsim.cpp:401-411 | the queue grows by the decoded entry with the next line |
| Procsim.Processor.Fetch | adv-comp-arch/tomasulo-algorithm/procsim.cpp:392-419 | the queue grows by the decoded next FetchCount instructions; bEOF is set exactly when the trace ran out first; other counters unchanged |
| Procsim.Processor.DispatchFull | adv-comp-arch/tomasulo-algorithm/procsim.cpp:277-296 | the queue and reservations become FullFrom's |
| Procsim.Processor.DispatchOpen | adv-comp-arch/tomasulo-algorithm/procsim.cpp:297-329 | the queue, reservations and ROB become OpenFrom's |
| Procsim.Processor.DispatchFirstHalf | adv-comp-arch/tomasulo-algorithm/procsim.cpp:273-331 | the queue, reservations and ROB become DispatchFirst's; from a state where every tail equals its count, every entry going ahead has exactly one reserved slot, which is what the second half needs |
| Procsim.Processor.EnterRob | adv-comp-arch/tomasulo-algorithm/procsim.cpp:303-307 | add_to_rob of the entry's line, and the entry records its ROB slot |
| Procsim.Processor.BuildEntry | adv-comp-arch/tomasulo-algorithm/procsim.cpp:345-366 | the entry written is Issue of the slot, the dispatch entry and the register file |
| Procsim.Processor.RenameDest | adv-comp-arch/tomasulo-algorithm/procsim.cpp:360-366 | the register file becomes Rename of the old one |
| Procsim.Processor.IssueOne | adv-comp-arch/tomasulo-algorithm/procsim.cpp:339-372 | the state becomes IssueStep of the old state |
| Procsim.Processor.IssueAll | adv-comp-arch/tomasulo-algorithm/procsim.cpp:337-373 | the state becomes IssueFrom of the old state |
| Procsim.Processor.IssueNext | adv-comp-arch/tomasulo-algorithm/procsim.cpp:337-373 | one iteration keeps the loop on its way to IssueFrom of the starting state |
| Procsim.Processor.DispatchSecondHalf | adv-comp-arch/tomasulo-algorithm/procsim.cpp:333-390 | registers and scheduling queues become IssueFrom's, and the queue keeps the entries not marked done, in order; after exact reservations every tail is back at its count |
| Procsim.Processor.RemoveDone | adv-comp-arch/tomasulo-algorithm/procsim.cpp:374-389 | the queue becomes Filter of the old one by Done, freed slots blank |
| Procsim.Processor.MarkReady | adv-comp-arch/tomasulo-algorithm/procsim.cpp:447-453 | queue f and its unit count become Scheduled's |
| Procsim.Processor.ScheduleSecondHalf | adv-comp-arch/tomasulo-algorithm/procsim.cpp:444-454 | every queue and unit count become Scheduled's; nothing else changes |
| Procsim.Processor.RemoveFreed | adv-comp-arch/tomasulo-algorithm/procsim.cpp:427-439 | queue f becomes Compacted; its tail and count drop by the freed entries |
| Procsim.Processor.CompactQueues | adv-comp-arch/tomasulo-algorithm/procsim.cpp:424-440 | every queue is compacted with its tail and count lowered by its freed entries |
| Procsim.Processor.CompactNext | adv-comp-arch/tomasulo-algorithm/procsim.cpp:424-440 | one iteration moves the compaction on by one queue |
| Procsim.Processor.DeleteFromRob | adv-comp-arch/tomasulo-algorithm/procsim.cpp:475-497 | flags entries completed last cycle, retires RetireCount of them from the head and adds that to retired_instruction |
| Procsim.Processor.StateUpdateSecondHalf | adv-comp-arch/tomasulo-algorithm/procsim.cpp:421-442 | compacts every scheduling queue, then does DeleteFromRob |

## Left out

- `dump` in each protocol: it only prints the state.
- `fatal_error` is modelled as the `Fatal` outcome. The printing of the message and the process exit are not modelled.
- The bus, the hash table of lines and the simulator around the protocols are not part of this model. The atomic bus of `Bus.Transaction` is a model of how they drive the handlers. It stands for the simulator's cycle-by-cycle bus and has no interleaving of transactions.
- `Msi.MsiProtocol.constructor`: MSI's `nxt_state` is never initialised in the source. The model takes its initial value as a parameter.
- `Prefetch_Blocks` is called on every L2 miss (adv-comp-arch/cache-simulator/cachesim.cpp:429-432), but with k_prefetch = 0 its fill loop (line 603) never runs, so no cache content or kept statistic changes. Its page-table lookup, stride bookkeeping (`LastMBlk`, `pending_stride`) and printing are not modelled. `complete_cache` (averages in floating point) and the trace driver are left out too.
- `CacheModel.L2Access`: 64-bit address wrap-around is not modelled. Addresses are unbounded naturals, so the masks are division and remainder by powers of two.
- The valid bit is kept as the source writes it. The prefetch bit (and `across_page`) is dropped: with k_prefetch = 0 it is never set, so the prefetched-block branches of the L2 hit paths (adv-comp-arch/cache-simulator/cachesim.cpp:348-354 and 463-466) never fire. The LRU clock is an unbounded natural, not a uint64.
- `execute`, `schedule_first_half`, `stateupdate_first_half`, `run_proc`, `complete_proc` and the print buffer of the pipeline simulator are left out. `mark_for_del` is modelled (`Rob.ReorderBuffer.MarkForDel`), but its caller `stateupdate_first_half` is not.
- `read_instruction` is modelled as the fixed trace `Procsim.Processor.trace`; file input is not modelled.
- procsim.hpp is not part of this model. Register and unit counts are the constants `RegCount` = 32 and `FuTypes` = 3.
- `Procsim.Processor.RemoveFreed`: requires that the scheduling queue's tail covers its freed entries. The source's 32-bit tail would wrap otherwise.
- `Procsim.ReadyQueue`: keeps the unit count in a local variable and writes it back after the pass. The source updates the field in the loop; the result is the same.
- `Pipeline.Tag32`: 64-bit line numbers stored in 32-bit tag fields keep their low 32 bits. Other uint32/uint64 counters are unbounded naturals.
- bkupprocsim.cpp is an older copy of the pipeline simulator and is not modelled.
