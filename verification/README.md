# Verified models of the SystemC/TLM library's hardest parts

A Dafny 4.11 project. `dafny verify dfyconfig.toml` checks everything. It models
three parts of the library and proves what they are for:

**A. The ACE coherent system** (`tlm-modules/cache-ace.h`, `tlm-modules/iconnect-ace.h`,
the predicates of `tlm-bridges/amba-ace.h`; ARM IHI 0022D). Any number of write-back
caches, the coherent interconnect and one memory form a state machine whose labels
are the pieces of code between two SystemC waits: a request arrives, the cache
thread runs to its next wait, one snooped cache answers, one answer is merged by
PortDone, the snoop is drained, the downstream port serves a line, the done event
reaches a cache. All interleavings of labels are runs.

- `AceTypes`, `CacheLines`: cachelines, snoop handlers, merging of bytes.
- `LineProtocol`, `LineProofs`: the life of one cacheline address (copies,
  transaction, line writes, memory), the invariant `LineInv`, and one lemma per step.
- `Orderer`, `OrdererHistory`: OverlappingTxOrderer over arbitrary byte ranges.
- `AceSystem`, `AceInvariant`, `AceSteps`: the system, and the lift of every line
  step to it. `AceCoherence` holds the main results (refinement of one flat memory,
  single writer, one owner of the latest value), `AceServed` that the caches do what they
  are asked, in order, `AceProgress` no deadlock and no livelock.
- `AceCache`, `IConnect`, `ReadOnce`: the classes with their fields updated in place. The
  cache runs its loops against arbitrary snoops; the orderer and the snoop transaction refine
  the functions that the system is made of. `CacheStores` is what the loads and stores of a
  cache that nobody snoops amount to, and `AceAlone` shows them to be runs of the system.

**B. AXI bursts** (`tlm-bridges/tlm2axi-bridge.h`, `tlm-bridges/axi2tlm-bridge.h`, `checkers/`;
sections A3.4.1 and A5.3 of ARM IHI 0022D).

- `AxiBurst` (beat counts), `AxiBeats` (write and read data phases of tlm2axi),
  `AxiRoundTrip` (axi2tlm, and both bridges back to back), `StrobeChecker` (check_wr_tx),
  `AxiPairing` (the two write checkers agree), `AxiScheduler` (the worker threads of axi2tlm).

**C. Two printer/parser pairs.**

- `RemotePortLayout`, `RemotePort`: bus-access packets of `libremote-port/`, in both
  layouts, on hosts of both byte orders.
- `Xgmii`: `tlm-bridges/tlm2xgmii-bridge.h` and `tlm-bridges/xgmii2tlm-bridge.h`, clause 46 of IEEE 802.3.

What the code does not meet everywhere is stated with its exact condition:

- A store of a whole line with disabled bytes that misses: make_unique fetches nothing, so
  these bytes are whatever the line buffer held. For every state, the store is right exactly
  when no chunk shows such a byte that differs from memory (`AceCache.Cache.HandleStore`,
  `CacheStores.StoreView`). For every content of the lines and the memory it is right exactly
  when each whole line with disabled bytes is in the cache, and is not displaced before by the
  store itself (`CacheStores.NoSparseMissIff`; one line: `CacheStores.WholeLineStoreIff`).
  `AceCache.SparseMiss` is an input that fails.
- INCR transfers wider than the bus pass ValidateBurstWidth. They get the announced number of
  beats exactly when one bus width holds the payload, or two do and the first ends the transfer
  (`AxiBurst.AsAnnouncedIff`). A FIXED burst gets them exactly when as many rounds, each cut to
  the transfer, the streaming width and the bus, hold the payload (`AxiBurst.FixedAsAnnouncedIff`);
  bursts of every length do when streaming width and bus hold a whole beat, and only then
  (`AxiBurst.AnnouncedIffStreamHoldsBeat`).
- Narrow writes of several beats lose bytes in axi2tlm, because FillData restarts at
  lane 0 and goes on to the end of the bus (`AxiRoundTrip.ArrivesIff`).
- With gaps disallowed, unaligned FIXED bursts of tlm2axi are refused by the strobe checker from
  the second beat on (`StrobeChecker.UnalignedFixedRefused`).
- With gaps disallowed, the strobe checker looks past the strobes for a transfer that is wider
  than the bus, unless it starts in the last bus width of it (`StrobeChecker.StaysOnBusIff`).
- check_wr_tx reports a burst only when WLAST comes early, never when it comes late
  (`AxiPairing.ReportsOnlyEarlyWLast`); its message announces both.
- In 10G mode the XGMII receiver keeps inside its buffer of 8192 bytes, and delivers the packet,
  exactly up to 8192 bytes with checksum (`Xgmii.ArrivesIffFits`). Beyond, the buffer is filled by
  the fast path, which has no test of its own, and then overrun: up to 8199 bytes by process_byte,
  whose test comes after the write and misses a full buffer, from 8200 bytes by the fast path
  (`Xgmii.LongPacketOverruns`). In 1G mode a packet of 8192 bytes or more is dropped
  (`Xgmii.LongPacketDropped`).
- rp_busaccess_tx_dataptr is wrong for a packet that is extended only on account of its
  attributes (`RemotePort.TxDataPtrIff`); no caller in the repository sets RP_BUS_ATTR_EXT_BASE,
  so this needs a caller from outside. Byte enables in the old layout break the framing
  (`RemotePort.FramedIff`). A response in the old layout trips the encoder's assertion exactly
  when the request's master id ends in 0xffff (`RemotePort.Exchange`).

## Model

| member | source | states |
|---|---|---|
| AceCoherence.RunsAreCoherent | tlm-modules/cache-ace.h:1313-1423 | After any run of any number of caches every load has returned the bytes of one flat memory to which the completed stores are applied in order, and the system invariant holds |
| AceServed.ServedInOrder | tlm-modules/cache-ace.h:1313-1423 | In every run of any number of caches, the operations a cache has accepted are, in order and each once, those whose effects its steps report (a store with its bytes and enables, a load with its range), and at most the one it is still busy with |
| AceServed.IdleAccepts | tlm-modules/cache-ace.h:1584-1611 | In every reachable state an idle cache accepts any request inside the memory |
| AceCoherence.SingleWriterAlways | tlm-modules/cache-ace.h:601-856 | In every reachable state a line held by two caches is shared in both, dirty in at most one, and both copies are the latest value |
| AceCoherence.LatestValueIsOwned | tlm-modules/iconnect-ace.h:1568-1634 | In every reachable state a line has at most one owner (dirty copy, dirty answer, PassDirty result, pending push), the owner has the latest value, and without an owner memory has it unless a MakeUnique is in flight |
| AceCoherence.OwnerIsUnique | tlm-modules/iconnect-ace.h:352-383 | Two owners of one line are the same |
| AceCoherence.NoOwnerMeansMemory | tlm-modules/cache-ace.h:398-470 | A line nobody is responsible for is up to date in memory |
| AceCoherence.StepKeeps | tlm-modules/iconnect-ace.h:1348-1442 | Every enabled step keeps the invariant of the whole system and returns what the flat memory holds |
| AceCoherence.MakeThenStore | tlm-modules/cache-ace.h:1405-1416 | A completed MakeUnique is followed in the same step by its full-line store, so the unfetched bytes never show |
| AceProgress.PendingCanStep | tlm-modules/iconnect-ace.h:791-822 | No deadlock: while any cache is busy, a step other than a new request is enabled |
| AceProgress.StepsReduceWork | tlm-modules/cache-ace.h:1134-1139 | Every step other than a new request reduces the work left |
| AceProgress.AllRequestsFinish | tlm-modules/cache-ace.h:1627-1629 | From every reachable state, runs without new requests are bounded and end with every cache idle |
| AceProgress.FinishedHits | tlm-modules/cache-ace.h:775-820 | After its request returned an access hits, except that a CleanUnique may have lost its line to a competitor |
| LineProofs.AnswerKeeps | tlm-modules/cache-ace.h:151-365 | A snooped cache's handler keeps the line invariant, for every request and every state of the copy |
| LineProofs.PortDoneKeeps | tlm-modules/iconnect-ace.h:337-389 | Merging one answer keeps the line invariant, in whatever order answers come |
| LineProofs.PortDoneCarries | tlm-modules/iconnect-ace.h:370-382 | Merging neither loses nor duplicates responsibility for dirty data |
| LineProofs.DrainKeeps | tlm-modules/iconnect-ace.h:1542-1554 | Choosing between push, downstream fetch and completion keeps the line invariant |
| LineProofs.FetchFindsNoCopy | tlm-modules/iconnect-ace.h:1625-1631 | A request goes downstream only when no snooped cache has a copy, and a read then finds the latest value in memory |
| LineProofs.AccessKeeps | tlm-modules/iconnect-ace.h:760-774 | The downstream access of a push or fetch keeps the line invariant |
| LineProofs.CompleteKeeps | tlm-modules/cache-ace.h:634-731 | Taking the result of a read or CleanUnique into the cache keeps the line invariant |
| LineProofs.CompleteGrantsUnique | tlm-modules/cache-ace.h:775-856 | When ReadUnique, CleanUnique or MakeUnique completes, no other cache has a copy |
| LineProofs.MakeKeeps | tlm-modules/cache-ace.h:822-856 | A completed MakeUnique with its store leaves one dirty copy with the new latest value |
| LineProofs.StoreKeeps | tlm-modules/cache-ace.h:931-964 | A store to a unique line makes its data the latest value |
| LineProofs.WriteAccessKeeps | tlm-modules/cache-ace.h:412-470 | A line write that reaches memory makes memory up to date |
| LineProofs.DropKeeps | tlm-modules/cache-ace.h:569-599 | Giving up a written-back or clean line loses nothing |
| Orderer.MeetsIffShareByte | tlm-modules/iconnect-ace.h:840-857 | The three endpoint tests hold exactly when two ranges share a byte |
| Orderer.ArriveKeeps | tlm-modules/iconnect-ace.h:791-815 | A new transaction keeps started ranges disjoint and every stalled one blocked by a started one |
| Orderer.FinishKeeps | tlm-modules/iconnect-ace.h:817-822 | So does a completed one, with all it restarts |
| Orderer.RestartForgetsNone | tlm-modules/iconnect-ace.h:859-907 | A stalled transaction that met the completed one is restarted or still blocked |
| Orderer.RestartMembers | tlm-modules/iconnect-ace.h:887-905 | Restarting moves transactions between the lists and loses none |
| Orderer.StartsAtOnceIff | tlm-modules/iconnect-ace.h:791-815 | Line writes and DVM operations start at once, any other exactly when it shares no byte with a started one |
| OrdererHistory.RunKeepsInv | tlm-modules/iconnect-ace.h:777-912 | The orderer's invariant holds after every history of arrivals and completions |
| OrdererHistory.StartInArrivalOrder | tlm-modules/iconnect-ace.h:869-905 | Snooping transactions of one byte range start in the order they arrived |
| IConnect.OverlappingTxOrderer.Process | tlm-modules/iconnect-ace.h:791-815 | The lists after process are those of the specification, and it tells who starts |
| IConnect.OverlappingTxOrderer.Done | tlm-modules/iconnect-ace.h:817-907 | The in-place scan of the stalled list equals the specification's restart |
| IConnect.OverlappingTxOrderer.Overlaps | tlm-modules/iconnect-ace.h:840-857 | The search finds a started transaction that shares a byte if there is one |
| IConnect.SnoopTransaction.Merge | tlm-modules/iconnect-ace.h:337-400 | PortDone on the object equals PortDone of the protocol, and it reports done exactly when every port has been merged |
| IConnect.SnoopTransaction.TakeResponse | tlm-modules/iconnect-ace.h:347-383 | Shared, dirty, data and the line to be pushed go where AllowPassDirty says |
| IConnect.MergesAll | tlm-modules/iconnect-ace.h:398-401 | The counter reaches the number of snooped masters exactly when all have been merged |
| ReadOnce.SegmentInBounds | tlm-modules/iconnect-ace.h:515-565 | Each copied piece lies inside payload and line, and byte addresses agree |
| ReadOnce.SegmentsTile | tlm-modules/iconnect-ace.h:73-88 | Every payload byte is written by exactly one segment, that of its line |
| ReadOnce.CopyData | tlm-modules/iconnect-ace.h:515-565 | copy_data writes that piece and nothing else |
| ReadOnce.Assemble | tlm-modules/iconnect-ace.h:1387-1411 | Whatever order the lines arrive in, the payload ends as the bytes at its addresses |
| AceCache.Cache.HandleStore | tlm-modules/cache-ace.h:1359-1423 | Terminates under any snoops during its waits, writes each line of the store once, in order, when the cache holds it unshared, and asks to make exactly the lines it covers; undisturbed, the view of memory changes in exactly the enabled bytes if and only if no chunk shows a stale byte of a line buffer, surely if whole lines with disabled bytes hit |
| AceCache.Cache.HandleLoad | tlm-modules/cache-ace.h:1313-1357 | Terminates under any snoops and asks only to share its own lines; undisturbed, it returns the view, leaves disabled bytes alone and changes no view |
| AceCache.Cache.Answer | tlm-modules/cache-ace.h:151-365 | For every snoop and copy: dirty data stay in the valid line or go with the answer, not both (MakeInvalid apart); reads that hit return the line; invalidating snoops leave no copy; a copy that stays is shared and unchanged; WasUnique is set for unshared hits of the snoops that report it; a miss changes nothing |
| CacheLines.HandedOverOnce | tlm-modules/cache-ace.h:151-365 | Whatever snoops come one after the other, a dirty line has been handed over exactly once or is still there |
| AceCache.Cache.EvictLine | tlm-modules/cache-ace.h:398-470 | Eviction, by WriteClean or WriteBack in turn, leaves every view unchanged |
| AceCache.Cache.Fetch | tlm-modules/cache-ace.h:601-731 | Under any snoops the line comes in with the response's IsShared, PassDirty and data, other lines are what the snoops made of them, and what was in the way is in memory; undisturbed, views are unchanged |
| AceCache.Cache.TakeAndEvict | tlm-modules/cache-ace.h:398-470 | A line taken in with PassDirty and then evicted has its bytes in memory |
| AceCache.Cache.CleanUnique | tlm-modules/cache-ace.h:775-820 | Under any snoops the line is what they made of it, unshared if they left it, else gone |
| AceCache.Cache.MakeUnique | tlm-modules/cache-ace.h:822-856 | Under any snoops the line comes in unshared and dirty with what the line buffer held, and what was in the way is in memory |
| AceCache.Cache.ReadLine | tlm-modules/cache-ace.h:898-929 | Copies the enabled bytes of one chunk to their payload index |
| AceCache.Cache.WriteLine | tlm-modules/cache-ace.h:931-964 | Overwrites the enabled bytes of one chunk and marks the line dirty |
| CacheStores.ChunkView | tlm-modules/cache-ace.h:1367-1416 | One chunk changes the view of its line only, by merging the enabled bytes into the old view or, after make_unique, into the line buffer |
| CacheStores.StoreView | tlm-modules/cache-ace.h:1367-1416 | A store of any length is the one asked for exactly when no chunk shows a stale byte, and lines before it keep |
| CacheStores.NoSparseMissIsEnough | tlm-modules/cache-ace.h:1405-1416 | No stale byte shows when every whole line with disabled bytes is in the cache and none of the lines before it goes in its place |
| CacheStores.FetchedView | tlm-modules/cache-ace.h:398-470 | Evicting what is in the way and fetching a line changes no view, except that make_unique shows the line buffer |
| CacheStores.WholeLineStoreIff | tlm-modules/cache-ace.h:1405-1411 | A whole-line store that hits is right for any enables; one that misses is right for every content of the line buffer, with the memory that a clean victim repeats, exactly when all bytes are enabled |
| CacheStores.NoSparseMissIff | tlm-modules/cache-ace.h:1367-1416 | A store of any length is right for every content of the lines and the memory exactly when each whole line with disabled bytes is in the cache and stays there until the store reaches it |
| AceCache.SparseMiss | tlm-modules/cache-ace.h:822-856 | make_unique and write_line on an empty cache: a disabled byte of memory is lost |
| AceAlone.ChunkIsRun | tlm-modules/cache-ace.h:1313-1416 | One chunk of the loops of handle_load and handle_store in a cache nobody snoops is a run of the system, with the same lines and memory and one report of what was loaded or stored |
| AceAlone.StoreIsPerformed | tlm-modules/cache-ace.h:1367-1416 | The store that the class performs is the one made of these chunks |
| AceAlone.AccessIsRun | tlm-modules/cache-ace.h:1313-1423 | A whole load or store is a run of the system, the view of the cache is the flat memory of the reports, and every load among them returns what it holds |
| AxiScheduler.OneWorkerPerID | tlm-bridges/axi2tlm-bridge.h:778-848 | In every reachable state the workers' IDs are those of the listed transactions, one worker each |
| AxiScheduler.RunningApart | tlm-bridges/axi2tlm-bridge.h:713-725 | Two running transactions differ in ID and in 4K page |
| AxiScheduler.InAcceptanceOrder | tlm-bridges/axi2tlm-bridge.h:785-841 | The transactions of one ID, and of one page, complete in the order they were accepted |
| AxiScheduler.ResponsesInOrder | tlm-bridges/axi2tlm-bridge.h:959-1080 | Responses leave in the order of completion: retired, on the channel and in the fifo is all that has completed |
| AxiScheduler.AnsweredInOrder | tlm-bridges/axi2tlm-bridge.h:959-1325 | Per ID and per page, responses leave in the order of acceptance, nothing lost and nothing doubled |
| AxiScheduler.AllAnswered | tlm-bridges/axi2tlm-bridge.h:778-848 | Runs without new requests are bounded and end with nothing outstanding |
| AxiScheduler.NotHeldBack | tlm-bridges/axi2tlm-bridge.h:855-957 | In every reachable state up to 16 transactions are accepted, data are taken when awaited, a spawned worker may look, a running one finish, and responses go out one after the other |
| AxiScheduler.BeginsIffOldest | tlm-bridges/axi2tlm-bridge.h:740-776 | A waiting worker may begin exactly when its transaction is the oldest of its page |
| AxiScheduler.SamePageIff | tlm-bridges/axi2tlm-bridge.h:713-725 | Two addresses are of one page exactly when one aligned block of 4096 bytes holds both |
| AxiScheduler.OldestCanMove | tlm-bridges/axi2tlm-bridge.h:740-776 | The head of the list never waits |
| AxiScheduler.FifoNeverBlocks | tlm-bridges/axi2tlm-bridge.h:863-957 | With 16 outstanding transactions at most, the response fifo always has room for a worker |
| AxiScheduler.AllOutstanding | tlm-bridges/axi2tlm-bridge.h:1082-1150 | The outstanding transactions are those waiting for data, listed, in the fifo or responding, 16 at most |
| AxiScheduler.NoOverlapIsFirst | tlm-bridges/axi2tlm-bridge.h:713-725 | A transaction does not wait exactly when it is the oldest of its page |
| AxiBurst.AsAnnouncedIff | tlm-bridges/tlm2axi-bridge.h:332-350 | An INCR burst gets the announced beats exactly when its transfers fit on the bus, one bus width holds the payload, or two do and the first ends the transfer |
| AxiBurst.AnnouncedIffFits | tlm-bridges/tlm2axi-bridge.h:731-744 | INCR bursts of every address and length get the announced beats exactly when transfers fit on the bus |
| AxiBurst.FixedAsAnnouncedIff | tlm-bridges/tlm2axi-bridge.h:332-350 | A FIXED burst, of transfers of any width, gets the announced beats exactly when as many rounds cut to the transfer, the streaming width and the bus hold its payload |
| AxiBurst.AnnouncedIffStreamHoldsBeat | tlm-bridges/tlm2axi-bridge.h:299-350 | FIXED bursts of every length at one address get the announced beats exactly when the streaming width and the rest of the bus hold a whole beat; transfers that fit on the bus need the streaming width alone |
| AxiBurst.EmittedFrom | tlm-bridges/tlm2axi-bridge.h:963-984 | After k beats the data loop sends exactly the rest of the announced number |
| AxiBurst.BeatLens | tlm-bridges/tlm2axi-bridge.h:1259-1283 | Both length formulas take a beat up to the next transfer boundary or the payload's end, on the lanes of its address, inside the bus |
| AxiBeats.Transaction.PrepareWBeat | tlm-bridges/tlm2axi-bridge.h:1243-1323 | The beat carries its piece of data and its strobes on the lanes of the address |
| AxiBeats.Transaction.WriteDataPhase | tlm-bridges/tlm2axi-bridge.h:949-984 | The loop sends the announced beats, each with its share of the payload, wlast on the last alone |
| AxiBeats.ByteOnItsLane | tlm-bridges/tlm2axi-bridge.h:1259-1310 | Every payload byte is on the lane of its address in the beat of its address, strobed as enabled |
| AxiBeats.StrobedOnce | tlm-bridges/tlm2axi-bridge.h:1285-1300 | Every strobed lane belongs to exactly one payload byte |
| AxiBeats.LastExhausts | tlm-bridges/tlm2axi-bridge.h:972-973 | wlast is raised exactly on the beat that exhausts the payload |
| AxiBeats.ReadRespPhase | tlm-bridges/tlm2axi-bridge.h:803-903 | Reading takes exactly the announced beats, puts enabled bytes at their index and leaves disabled ones |
| AxiRoundTrip.ArrivesIff | tlm-bridges/axi2tlm-bridge.h:394-426 | An INCR write arrives with exactly its enabled bytes, whatever the data, enables and buffer, exactly when it is full width, a single beat, or two beats whose first ends the bus |
| AxiRoundTrip.WriteThrough | tlm-bridges/axi2tlm-bridge.h:258-426 | Both bridges back to back: same address, same enabled bytes, padding disabled |
| AxiRoundTrip.ReadThrough | tlm-bridges/axi2tlm-bridge.h:429-478 | An INCR read of any legal width returns each memory byte at its own index and leaves disabled bytes |
| AxiRoundTrip.DisabledKept | tlm-bridges/axi2tlm-bridge.h:394-426 | Bytes without a strobe are not written, for bursts in step or not |
| AxiRoundTrip.Transaction.FillData | tlm-bridges/axi2tlm-bridge.h:394-426 | The in-place fill equals the specification's |
| AxiRoundTrip.Transaction.GetData | tlm-bridges/axi2tlm-bridge.h:429-478 | The beat's lanes carry the next payload bytes, the others what the channel held |
| AxiRoundTrip.Transaction.ReadDataPhase | tlm-bridges/axi2tlm-bridge.h:1012-1032 | The beats bring every payload byte on the lane of its address |
| AxiRoundTrip.DataLenIsStart | tlm-bridges/axi2tlm-bridge.h:374-381 | The receiver's length is that of the whole transfers and covers the payload |
| StrobeChecker.CheckWstrb | checkers/checker-axi.h:540-634 | For any AxSize and bus a verdict is that of the lane-interval specification, and there is none exactly when the scan leaves the strobes |
| StrobeChecker.StaysOnBusIff | checkers/checker-axi.h:540-634 | The scan stays inside all strobes exactly with gaps allowed, for transfers that fit on the bus, and for beats in the last bus width of a wider transfer |
| StrobeChecker.AcceptedIffRun | checkers/checker-axi.h:580-634 | Without gaps, strobes are accepted exactly when they are one run from the first lane, of all lanes unless the beat is the last |
| StrobeChecker.BridgeAccepted | checkers/checker-axi.h:540-634 | Every beat of an INCR burst of tlm2axi is accepted: without gaps when all bytes are enabled, with gaps under any enables |
| StrobeChecker.UnalignedFixedRefused | checkers/checker-axi.h:558-567 | With gaps disallowed, a later beat of a FIXED burst is accepted exactly when the address is aligned |
| AxiPairing.CheckersAgree | checkers/checker-axi.h:866-932 | After every trace on which the depth tests pass (addresses, beats and responses that wait), both checkers hold the same response IDs in the same order and the same unpaired addresses and WLASTs |
| AxiPairing.ListsOfTrace | checkers/checker-axi.h:1044-1117 | check_wr_tx drops nothing exactly when the depth tests pass on the trace, and its lists are then those of the trace: addresses with the beats they have had, beats without address, responses, reports |
| AxiPairing.CountsAlways | checkers/checker-utils.h:428-527 | The counters count their lists, and addresses and WLASTs never wait together |
| AxiPairing.KthWithKth | checkers/checker-utils.h:428-527 | The k-th response ID is that of the k-th address, once the k-th WLAST has come |
| AxiPairing.ExpectedIds | checkers/checker-utils.h:515-523 | After every trace the expected IDs are those of the responses due and not answered, in the order they became due: a B handshake of an expected ID takes the oldest of its ID, any other changes nothing |
| AxiPairing.AnswersAddUp | checkers/checker-utils.h:515-523 | Of every ID, what is still expected and what has been accepted is what has become due |
| AxiPairing.ReportsOnlyUnexpected | checkers/checker-axi.h:1078-1113 | On every trace on which the depth tests pass, check_wr_tx expects the same IDs and reports exactly the B handshakes that answer nothing |
| AxiPairing.BeatsExpected | checkers/checker-utils.h:383-468 | m_wd is the sum of the announced beats less the beats seen |
| AxiPairing.HandshakesChecker.OnW | checkers/checker-utils.h:467-514 | A WLAST that finds an address counted finds its ID: the checker's assertion cannot fire |
| AxiPairing.HandshakesChecker.Clock | checkers/checker-utils.h:428-527 | One clock edge as specified, keeping the counters equal to the lists |
| AxiPairing.WriteTxChecker.Process | checkers/checker-axi.h:866-932 | The loop over both lists equals the specification |
| AxiPairing.WriteTxChecker.Clock | checkers/checker-axi.h:1044-1117 | One clock edge as specified, with the depth tests of the three lists |
| AxiPairing.ProcessPairs | checkers/checker-axi.h:866-932 | The loop pairs addresses with WLASTs in order until one side is empty, as long as it drops nothing |
| AxiPairing.ReportsOnlyEarlyWLast | checkers/checker-axi.h:884-900 | On every trace on which the depth tests pass, the reports are as many as the paired bursts whose WLAST came before the announced beat |
| AxiPairing.OneBurst | checkers/checker-axi.h:866-932 | The oldest address takes the beats up to the next WLAST, whatever else waits and however full the lists are, and is reported exactly when that comes early |
| RemotePort.StreamArrives | libremote-port/remote-port-proto.c:318-369 | A stream of any packets in either layout is cut back into the same packets: all fields, data at rx_dataptr, enables at byte_en_ptr |
| RemotePort.ParsesBack | libremote-port/remote-port-proto.c:110-190 | The packet at the front of a stream decodes to its own header, and nothing beyond it is taken |
| RemotePort.FieldsOnWire | libremote-port/remote-port-proto.h:99-105 | Each field of a message lies at its offset in the packed structs, most significant byte first |
| RemotePort.MasterIdArrives | libremote-port/remote-port-proto.c:161-185 | The three parts on the wire make up all 64 bits of the master id, which the decoder then cuts |
| RemotePort.PartsFound | libremote-port/remote-port-proto.h:377-405 | Data and enables are where the pointer functions say, whose assertions hold |
| RemotePort.FramedIff | libremote-port/remote-port-proto.c:337-368 | The header announces what follows exactly when enables use the extended layout and the length fits 32 bits |
| RemotePort.TxDataPtrIff | libremote-port/remote-port-proto.h:357-370 | tx_dataptr predicts the place of the data exactly when the layout follows the peer's capability |
| RemotePort.Exchange | libremote-port/remote-port-proto.h:451-466 | A response built from a decoded request can be encoded exactly when it is extended or the master id does not end in 0xffff, and then reaches the requester marked as one, with the request's ID, device, address, length, widths and master id, its time, response code and data |
| RemotePort.Packet.EncodeBusaccess | libremote-port/remote-port-proto.c:318-369 | The packet in memory holds the swapped header of the chosen layout; the length counts response data |
| RemotePort.Packet.DecodePayload | libremote-port/remote-port-proto.c:123-190 | Every field is swapped in place, the master id cut to 16 bits, and the used length is that of the layout |
| RemotePort.Packet.DecodeHdr | libremote-port/remote-port-proto.c:110-121 | Every header field is swapped in place |
| RemotePort.HeaderInMemory | libremote-port/remote-port-proto.c:215-263 | The bytes sent from memory are the big endian header, on hosts of both byte orders |
| RemotePort.SendRequest | libremote-port/remote-port-tlm-memory-slave.cc:116-141 | Header, data and enables are written in this order |
| RemotePort.Process | libremote-port/remote-port-tlm.cc:515-545 | Reading header and payload into memory and decoding them there equals parsing the stream |
| RemotePort.SendAcross | libremote-port/remote-port-tlm.cc:515-545 | A request from a host of either byte order arrives at one of the other with all fields, data and enables |
| RemotePortLayout.StoredInNetworkOrder | libremote-port/remote-port-proto.c:42-86 | htobe followed by the host's store is big endian |
| Xgmii.StreamArrives | tlm-bridges/xgmii2tlm-bridge.h:88-187 | Any sequence of packets short enough for the buffer is delivered byte for byte, in order, in both modes |
| Xgmii.FastIsSlow | tlm-bridges/xgmii2tlm-bridge.h:169-183 | Before the buffer is full, the fast path equals eight process_byte calls exactly when it stays short of full; on a full buffer both overrun |
| Xgmii.ArrivesIffFits | tlm-bridges/xgmii2tlm-bridge.h:88-187 | A packet is delivered intact and without a write beyond the buffer exactly when it has up to 8192 bytes with checksum in 10G mode, fewer than 8192 in 1G mode |
| Xgmii.InBufferIffFits | tlm-bridges/xgmii2tlm-bridge.h:162-184 | In 10G mode the buffer is respected exactly for packets up to 8192 bytes with checksum |
| Xgmii.LongPacketOverruns | tlm-bridges/xgmii2tlm-bridge.h:121-174 | A longer packet fills the buffer exactly and the next word overruns it, on the fast path from 8200 bytes on, else in process_byte |
| Xgmii.LongPacketDropped | tlm-bridges/xgmii2tlm-bridge.h:121-139 | In 1G mode a packet of 8192 bytes or more is dropped, nothing else is lost, and the buffer is respected |
| Xgmii.PacketArrives | tlm-bridges/xgmii2tlm-bridge.h:88-141 | One packet is delivered after whatever has been delivered before |
| Xgmii.ArrivesFromAnyState | tlm-bridges/xgmii2tlm-bridge.h:88-187 | A packet arrives whatever state it finds the receiver in: inside a frame that lost its end, or with a full buffer |
| Xgmii.ErrorDropsFrame | tlm-bridges/xgmii2tlm-bridge.h:100-103 | A frame with an ERROR is not delivered, and the next packet arrives, in both modes |
| Xgmii.NoDelimiterNoDelivery | tlm-bridges/xgmii2tlm-bridge.h:123-137 | A frame without the start delimiter is not delivered |
| Xgmii.NoPreambleNoDelivery | tlm-bridges/xgmii2tlm-bridge.h:123-137 | Nor is one without the preamble byte |
| Xgmii.CharAt | tlm-bridges/tlm2xgmii-bridge.h:117-164 | The characters of a packet: 16 idles, SOF, six 0x55, 0xd5, data and checksum, EOF, idles |
| Xgmii.ProcessPacket | tlm-bridges/tlm2xgmii-bridge.h:117-164 | The words spell idles, preamble, data, checksum, EOF and idles |
| Xgmii.PushDataBuf | tlm-bridges/tlm2xgmii-bridge.h:84-115 | The words spell the buffer with its control bits, in both modes |
| Xgmii.Receiver.ProcessByte | tlm-bridges/xgmii2tlm-bridge.h:88-141 | One character changes the buffer and flags as specified |
| Xgmii.Receiver.ProcessWord | tlm-bridges/xgmii2tlm-bridge.h:162-184 | One word, by the fast or the slow path |
| Xgmii.Receiver.Process | tlm-bridges/xgmii2tlm-bridge.h:143-187 | A stretch of words |
| Xgmii.Transmit | tlm-bridges/tlm2xgmii-bridge.h:84-164 | Both bridges back to back deliver every packet |
| Xgmii.RuntLength | tlm-bridges/xgmii2tlm-bridge.h:110-116 | The announced length exceeds the gathered bytes exactly for frames shorter than a checksum |

## Left out

- The SystemC kernel, delays, reset and abort paths, error responses and TLM sockets: downstream
  answers OK, and there is no address wrap.
- Exclusive accesses and the monitors: a refused exclusive CleanUnique also answers OK
  (`tlm-modules/iconnect-ace.h:1377-1381`).
- ACE-Lite ports in the system model; ReadOnce is modelled by itself in `ReadOnce`. WriteUnique and
  WriteLineUnique are not modelled.
- The write-through cache policy, cache maintenance by a cache, DVM, barriers, non-shareable
  regions, and secure next to non-secure lines.
- Sparse byte enables on a store of a whole line are excluded from the system model; what they do to
  a cache is stated in `CacheStores`.
- AceCoherence.RunsAreCoherent: is about accesses inside one line, which the code performs
  atomically; a longer load or store is a sequence of them and other masters may come between.
- Evict is answered at the interconnect's port without a wait
  (`tlm-modules/iconnect-ace.h:1040-1054`), so dropping a clean line is part of the step it occurs
  in.
- The fifos and the one-transaction thread of the downstream port: any pending access may be served
  next, which includes the order the fifo takes.
- The fifo of the snoop engine: started transactions have disjoint lines, so its order is one of the
  modelled interleavings.
- Tags are line numbers and the memory is a sequence of lines; 64-bit addresses do not wrap.
- AceCache.Cache.HandleStore: is transparent only when nobody snoops, because other writers are part
  of the system model; termination and placement of lines hold under any snoops.
- AceSystem models the caches on values, since steps of several threads interleave on them; update
  in place is in `AceCache` and `IConnect`.
- AxiScheduler: worker threads on values; ACE barriers and writes without data, AXI3 write
  interleaving, reset and the abort of scheduled transactions are not in it.
- Byte enables on FIXED bursts restart with every beat, as the code has it; the round trip through
  axi2tlm is stated for INCR bursts. WRAP bursts share the arithmetic of INCR.
- Burst widths that are no power of two, which ValidateBurstWidth refuses.
- The limit on the beats of a burst (`tlm-bridges/tlm2axi-bridge.h:592-594`): bursts of any number
  of beats are covered.
- The limits on how many clocks a handshake of the write channels may take (`HandshakeMonitor`), and
  the read channels of that checker.
- AxiPairing.CheckersAgree: says nothing once a depth test has failed and check_wr_tx has dropped an
  entry, and leaves out AXI3, ACE writes without data, and the use without IDs.
- RemotePort: commands other than read and write, the hello exchange, and the slots in which
  responses wait.
- CHI, CXS, UMI, TLP, VFIO, sockets, safeio, pin stability checkers and configuration classes.
