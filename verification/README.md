# bhx: a Dafny model of the virtio-mmio engine and its host side

bhx boots Linux on the L2CPU cores of a Blackhole card. Each guest sees virtio-mmio devices and a
16550 UART whose registers are plain words in the L1 memory of a Tensix tile. Firmware on that
tile's baby RISC-V cores (BRISC, TRISC0, TRISC1, TRISC2) watches the words; a host daemon reads
what the firmware captured, walks the guest's virtqueues and drains the UART ring. Nobody takes a
lock on L1: guest, cores and daemon race one load or store at a time.

This project models that protocol, the daemon code around it, and the chip-wide clock and reset
sequence, and proves what survives every interleaving. Where a promise does not survive, it gives
the run that breaks it and the exact condition under which it holds.

Verify with `dafny verify dfyconfig.toml`.

## How it is modelled

* Concurrent parts are state machines. `Step` performs one load or store of one actor and is total:
  a step that is not enabled changes nothing. `Run` folds a list of actions, so a theorem about
  `Run(…, acts)` for every `acts` is a theorem about every interleaving. Shared memory is
  sequentially consistent.
* A `Policy`, `Config` or similar record switches the assumptions a promise needs (a guest that
  waits for the echo, guest accesses that fall between sweeps, a lock that is taken). No switch holds
  back a core of the tile: BRISC and the TRISCs interleave access by access throughout. The `…Iff` lemmas show
  which of them are needed, by a proof in one direction and a concrete run in the other.
* Sequential code that updates memory is a class with loops, proved against a function or
  a predicate on the old and new state.
* Counters are unbounded where the model counts and 32-bit or 16-bit where the code compares;
  wrap-around is written out (`Low32`, `Low16`, `WrapAdd`). A register used only through `|=` and
  `&= ~` is the set of its 1 bits.

| file | what it holds |
|---|---|
| `Words`, `Bits`, `Rings` | fixed-width words, their bytes and bits, ring indices across wrap-around |
| `QueueEngine` | one slot's registers and shadow, `poll_one_device` uninterrupted |
| `QueueSteps` | the same firmware one access at a time, with TRISC1 and a guest driver |
| `NoMixedCapture`, `SweepRefinement`, `SelRescue`, `RescueLimits`, `LastQueue`, `LostQueue`, `SelGeneration` | results about the two |
| `NotifyPath` | from QUEUE_NOTIFY to the dirty byte, and how the two agree there with `DirtyScan` and `Wakeup` |
| `Schedules` | building blocks for the runs that show a condition is needed |
| `InitDevice`, `SweepLoop` | `init_device` under interference; BRISC's main loop and the TRISC lifecycles |
| `UartFeed`, `UartTx` | the TRISC0-to-daemon byte ring; the guest's transmit path from THR to the hub |
| `DirtyScan`, `Wakeup`, `ChainWalk` | the daemon's scan, the notify path end to end, one descriptor chain and the drain loop |
| `ShadowRead` | the RX dispatch's loads of a queue's addresses against BRISC's stores of them |
| `Clock`, `ResetSequence` | PLL stepping; any number of boots and idles under `seq_lock` |
| `BringUp` | firmware start, version stamp, hello handshake, adoption |
| `Telemetry`, `BulkCopy` | the bounded telemetry walk; the chunked NoC writer and the firmware loader |

## Where the code does not do what its comments say

* `brisc-firmware/virtio.c:553-554` says re-reading QUEUE_SEL catches a set-up write for the new
  queue. It does not: `RescueLimits.StockGuestIsMixed` and `EarlyEchoIsMixed` store another queue's
  NUM. Rescues are sound exactly for a guest that waits for the sel-generation echo and whose accesses
  fall between sweeps, whatever TRISC1 does (`RescueSoundIff`).
* The guest's echo does not cover TRISC1: a TRISC1 that is late for a QUEUE_SEL write clears the READY
  the guest has just written (`LastQueue.CapturedIffCaughtUp`). A later SEL write below 8 rescues the
  queue; without one it is lost. `LostQueue.NoneLostIff` gives the four conditions under which every
  sweep ends with every finished queue in the shadow, `LostIff` the states in which one is lost for good.
* `brisc-firmware/virtio.c:611-618` rules out torn LO/HI pairs in the shadow. The daemon's RX dispatch
  (`src/tensix_data_plane.rs:399-413`) still puts torn pairs together, because it loads the words
  without a dirty byte and without testing READY while BRISC stores them. Its range check stops them
  exactly when the guest's memory does not reach past a 4 GiB boundary (`ShadowRead.WindowSafeIff`),
  which of the four L2CPUs holds for the third only (`OnlyThirdIsSafe`).
* `brisc-firmware/virtio.c:803-810` accepts the loss of a third notify within one poll. The second is
  already lost if it falls between BRISC's load and its sentinel store (`Wakeup.NotifyUnderSentinel`).
* `brisc-firmware/virtio.c:674` stores READY even after an aborted capture, so the rescue path never
  repairs the queue (`NoMixedCapture.AbortIsFinal`).
* `src/tensix_data_plane.rs:922-928` says the ring is drained fully. A malformed chain ends the drain
  and strands the chains behind it (`ChainWalk.Queue.Drain`): until the next notify, or on queue 0 of a
  net or console slot until the next pass (`Wakeup.MalformedStrands`, `ServedIff`).
* `src/telemetry.rs:269-271` says a corrupt header cannot make the walk read past CSM. The count is
  bounded, the data offsets are not: reads stay in the 2 MiB window (`Telemetry.WalkInWindow`) but can
  leave the 512 KiB of CSM (`DataCanLeaveCsm`, `DataInCsmIff`), and a misaligned pointer panics.
* `bring_up` neither clears the stats page nor the control page, so leftovers of an earlier session can
  void its stamp or tear its ack (`BringUp.StampKeptIff`, `AckAuthenticIff`).
* `brisc-firmware/virtio.c:1382` places UART bits at 16..19; the mask and the loop place them at
  offset 6 of each L2CPU's eight slots, and the sweep polls those slots like any other.

## Model

| member | source | states |
|---|---|---|
| QueueEngine.RegisterFile.HandleQueueSelChange | brisc-firmware/virtio.c:514-602 | On a new QUEUE_SEL below 8: READY reads 0, a finished but uncaptured old queue is rescued with READY 1 when NUM is nonzero and SEL has not moved, NUM_MAX tells whether the queue exists, NUM is the shadow's; out of range changes nothing |
| QueueEngine.RegisterFile.HandleQueueReadyChange | brisc-firmware/virtio.c:619-690 | READY nonzero copies all seven fields into the queue's shadow unless SEL moved, and stores READY either way; READY 0 clears the queue's shadow |
| QueueEngine.RegisterFile.PollOneDevice | brisc-firmware/virtio.c:738-876 | One uninterrupted call is the composition of the SEL, READY, NOTIFY and generation-echo parts on the whole slot state; a notify below 8 adds its queue to the dirty ones, any other value adds none, and none is taken away |
| QueueEngine.SelChangeLeaves | brisc-firmware/virtio.c:514-602 | Queue by queue: a SEL change below 8 leaves READY 0, the selected queue's shadow NUM in QUEUE_NUM and the right NUM_MAX; only the old queue's shadow can change, exactly if it was not stored, SEL stands still and NUM is nonzero, and then to all seven registers with READY 1 |
| QueueEngine.ReadyChangeLeaves | brisc-firmware/virtio.c:619-690 | Queue by queue: a nonzero READY stores the seven registers unless SEL moved, and READY either way; 0 clears the queue; no other queue changes |
| QueueEngine.SweepLeaves | brisc-firmware/virtio.c:738-876 | What a sweep leaves word by word: dirty bytes, sentinel, READY 0, the re-selected queue's NUM, the stored queue and the answered generation |
| NotifyPath.DirtyWasNotified | brisc-firmware/virtio.c:707-714 | In every run every dirty byte is that of a queue below 8 for which the guest wrote QUEUE_NOTIFY |
| NotifyPath.LoadedIsMarked | brisc-firmware/virtio.c:803-816 | In every interleaving: once BRISC has loaded a notify, after its next step it stands at the sentinel store with the queue's dirty byte set if the queue is below 8, and neither BRISC nor TRISC1 nor the guest ever clears it |
| NotifyPath.BytesFollowSweep | brisc-firmware/virtio.c:707-714 | The notify handler on the bytes of L1 adds the queue to its slot's dirty ones, as the sweep does, and leaves every other slot's |
| NotifyPath.BriscIsWakeups | brisc-firmware/virtio.c:803-816 | BRISC's three accesses of the notify part are exactly BRISC's steps in `Wakeup`, and no other access is visible there |
| NotifyPath.GuestIsWakeups | brisc-firmware/virtio.c:803-816 | A write of any value but the sentinel to QUEUE_NOTIFY, by a guest that does not wait, is the guest's notify in `Wakeup` |
| QueueSteps.MicroDescends | brisc-firmware/virtio.c:738-876 | Every single load or store of a call lowers a rank, so a call ends whatever the others do |
| SweepRefinement.UninterruptedIsSweep | brisc-firmware/virtio.c:514-876 | The access-by-access firmware, left undisturbed, computes exactly the one-call sweep, including what it captures and rescues |
| NoMixedCapture.RunInv | brisc-firmware/virtio.c:514-674 | The joint invariant of BRISC's program point, TRISC1, the guest's program and the shadow holds in every reachable state |
| NoMixedCapture.CaptureIsNotMixed | brisc-firmware/virtio.c:619-674 | In every interleaving a capture that passed its SEL re-check holds that queue's six guest-written address halves, and a NUM that is the guest's or the prior 0 |
| NoMixedCapture.AbortIsFinal | brisc-firmware/virtio.c:660-674 | An aborted capture leaves all seven fields as they were, and no later step of any run repairs the queue |
| SelRescue.RunInv | brisc-firmware/virtio.c:738-875 | With the echo handshake and guest accesses between sweeps, and TRISC1 interleaved with every load and store of a sweep, an invariant tying the guest's position to BRISC's program point, snapshots and shadow holds in every reachable state |
| SelRescue.EchoMeansHandled | brisc-firmware/virtio.c:752-757 | In every such state, having the echo means the SEL write was handled: READY reads 0 until set, NUM_MAX is right for the queue, NUM starts at 0 |
| SelRescue.EarlierQueuesAreStored | brisc-firmware/virtio.c:539-596 | In every such state, having the echo for the present queue, every queue finished before with nonzero NUM is in the shadow with all seven values and READY 1, although TRISC1 may have wiped its visible READY at any moment, also inside a sweep |
| RescueLimits.StockGuestIsMixed | brisc-firmware/virtio.c:556-590 | A run of a guest without the handshake in which a rescue stores the next queue's NUM |
| RescueLimits.EarlyEchoIsMixed | brisc-firmware/virtio.c:556-590 | A run with the handshake but a guest access inside a sweep in which a rescue is mixed |
| RescueLimits.RescueSoundIff | brisc-firmware/virtio.c:539-596 | Every rescue of a finished queue stores its own seven values in every run exactly when the guest waits for the echo and its accesses fall between sweeps |
| RescueLimits.AbortIff | brisc-firmware/virtio.c:660-674 | The capture of a finished queue can be aborted without another exactly when guest accesses can fall inside a sweep |
| RescueLimits.ApartNeverAborts | brisc-firmware/virtio.c:660-674 | With guest accesses between sweeps QUEUE_SEL never moves under BRISC and no capture aborts, whatever TRISC1 does |
| LastQueue.CaptureBeforeDirty | brisc-firmware/virtio.c:759-791 | With the echo, guest accesses between sweeps and TRISC1 caught up, in every continuation the dirty byte of a finished queue is set only once all seven values and READY are in the shadow |
| LastQueue.LateClear | brisc-firmware/virtio.c:1455-1465 | A continuation in which TRISC1, late for the SEL write, clears the finished queue's READY before the sweep and the queue is not captured |
| LastQueue.CapturedIffCaughtUp | brisc-firmware/virtio.c:779-791 | Every continuation in which BRISC ends a sweep has captured the finished queue exactly when TRISC1 had caught up with its SEL before READY was written |
| LostQueue.LostIff | brisc-firmware/virtio.c:514-674 | With the echo and guest accesses between sweeps, at any moment: a finished queue with nonzero NUM reaches the shadow in no continuation exactly when it is not there and SEL is at or above 8, or it is queue 7 with its READY gone and no capture of it under way |
| LostQueue.LostToAbort | brisc-firmware/virtio.c:660-674 | A run in which a guest access inside the capture loses the queue for good |
| LostQueue.LostToHaste | brisc-firmware/virtio.c:530-602 | A run in which a guest without the handshake loses its queue for good to the sweep that sees its SEL |
| LostQueue.LostToLateClear | brisc-firmware/virtio.c:1455-1465 | A run with handshake and guest accesses between sweeps in which a late TRISC1 clear loses queue 7 for good |
| LostQueue.LostToRange | brisc-firmware/virtio.c:514-530 | A run in which a SEL write at 8 before the sweep loses a finished queue for good |
| LostQueue.SweepEndCaptures | brisc-firmware/virtio.c:514-674 | With all four conditions, at the end of every sweep of every run, every finished queue with nonzero NUM is in the shadow with its values and READY 1 |
| LostQueue.NoneLostIff | brisc-firmware/virtio.c:514-674 | Every sweep of every run ends with every finished queue in the shadow exactly when the guest waits for the echo, keeps its accesses between sweeps, writes READY only after TRISC1 has caught up, and selects no queue at or above 8; and exactly then no finished queue is ever lost for good |
| SelGeneration.EchoAnswersOneBump | brisc-firmware/virtio.c:860-875 | BRISC changes the generation only to answer an outstanding bump, by the bumped value plus one modulo 2^32, which differs from what the guest wrote; then nothing is outstanding |
| SelGeneration.OnlyBumpOwes | brisc-firmware/virtio.c:860-875 | No access of anybody but a guest bump makes an answer outstanding |
| SelGeneration.NoEchoUntilBump | brisc-firmware/virtio.c:860-875 | With nothing outstanding the generation stays as it is in every continuation without a bump |
| SelGeneration.BumpIsAnswered | brisc-firmware/virtio.c:860-875 | In every interleaving, by the time BRISC has ended two sweeps there was a moment with nothing outstanding |
| InitDevice.ProgramValue | brisc-firmware/virtio.c:383-486 | The list of stores of `init_device` leaves each planted register, zero in every other register below 0x100 but STATUS, and a zero shadow |
| InitDevice.InitLeaves | brisc-firmware/virtio.c:383-486 | In every interleaving in which BRISC has made its stores, each register holds somebody else's later store or its planted value (NOTIFY: the sentinel), and the shadow is zero |
| InitDevice.StoresMade | brisc-firmware/virtio.c:383-486 | In every interleaving each step of BRISC makes the next store of the list until the list is done |
| InitDevice.StatusBelongsToGuest | brisc-firmware/virtio.c:397-414 | At every moment of every interleaving STATUS and each configuration word from 0x100 up hold the last value written by somebody else |
| InitDevice.RegisterFile.ZeroRegion | brisc-firmware/virtio.c:376-381 | Exactly the words of the region become zero |
| InitDevice.RegisterFile.Init | brisc-firmware/virtio.c:383-486 | Uninterrupted, the register file and the shadow end as the store list says, STATUS and configuration untouched |
| SweepLoop.GroupBit | brisc-firmware/virtio.c:1370-1379 | Bit i of the 8-bit group at base is bit base + i of the mask |
| SweepLoop.PollGroups | brisc-firmware/virtio.c:1370-1380 | The grouped loops with their empty-group skip make the same polls in the same order as the plain bit-by-bit sweep, after what was called before |
| SweepLoop.PollsExact | brisc-firmware/virtio.c:1370-1380 | That sweep polls exactly the set bits, each once, ascending |
| SweepLoop.InitNew | brisc-firmware/virtio.c:1343-1369 | The activation loop initialises the newly active virtio slots in ascending order |
| SweepLoop.InitExactly | brisc-firmware/virtio.c:1343-1369 | Those are exactly the bits that go from 0 to 1 and are not at offset 6 of their group of eight, each once |
| SweepLoop.InitThenPoll | brisc-firmware/virtio.c:1343-1380 | In the call sequence of a pass every initialisation precedes every poll, and an initialised slot is polled later in the same pass |
| SweepLoop.UartTest | brisc-firmware/virtio.c:1121-1130 | The UART mask test is true exactly when some slot at offset 6 of its L2CPU is active |
| SweepLoop.Firmware.constructor | src/tensix.rs:48-57 | The initial register has every core but BRISC in reset and the flags agree |
| SweepLoop.Firmware.SetReset | brisc-firmware/virtio.c:1104-1116 | The read-modify-write changes one bit of the soft-reset register, keeps every other, and is recorded as one store of that bit |
| SweepLoop.Firmware.Drive | brisc-firmware/virtio.c:1121-1185 | A lifecycle step leaves the core out of reset exactly when wanted and the flag in agreement; it stores the register once if what is wanted changed and not at all otherwise |
| SweepLoop.Firmware.OnePass | brisc-firmware/virtio.c:1343-1390 | One pass of the main loop keeps the whole-run description of cores, register and slots |
| SweepLoop.Firmware.Run | brisc-firmware/virtio.c:1292-1390 | Over any sequence of masks: every pass initialised and polled what its masks ask, TRISC0 runs iff a UART bit is active, TRISC1 and TRISC2 iff the virtio mask is nonzero, the register was stored for each core as often as what is wanted of it changed and for no other bit, BRISC's and NCRISC's bits never change |
| UartFeed.RunInv | brisc-firmware/virtio.c:968-1019 | For any power-of-two ring up to 2^31, the invariant of producer, consumer, cells and 32-bit counters holds in every reachable state |
| UartFeed.StoreHitsNoUnreadCell | brisc-firmware/virtio.c:968-983 | In no run does the producer store into a cell whose byte is still to be read |
| UartFeed.ClampIsIdentity | src/tensix_data_plane.rs:45-51 | The daemon's overflow clamp never moves the consumer in any run |
| UartFeed.ClampExact | src/tensix_data_plane.rs:45-51 | For any counters the clamped cursor is as far behind the producer as before, at most the size of the ring |
| UartFeed.FeedRefinesFifo | src/tensix_data_plane.rs:422-477 | Every load and store of every interleaving is a step of a bounded FIFO, across counter wraps; what reaches the hub is a prefix of what was accepted |
| UartFeed.DropOnlyWhenFull | brisc-firmware/virtio.c:968-983 | A byte is dropped exactly when the ring is full of unacknowledged bytes at the test |
| UartFeed.PushesAreAccountedFor | brisc-firmware/virtio.c:968-1019 | Every pushed byte is accepted, in order, or counted as dropped |
| UartFeed.PushProgress | brisc-firmware/virtio.c:968-1019 | Every step of a push brings it nearer its end, and its last step records its byte as kept or lost |
| UartFeed.EveryByteCanBeDelivered | src/tensix_data_plane.rs:422-477 | From every reachable state, steps of the daemon alone bring every accepted byte to the hub and the consumer counter to the producer's |
| UartFeed.FeedRing.Push | brisc-firmware/virtio.c:968-1019 | A push appends the byte to the pending bytes when there is room and otherwise only counts a drop |
| UartFeed.FeedRing.Drain | src/tensix_data_plane.rs:429-475 | A drain delivers exactly the pending bytes in order and leaves none |
| UartTx.FeedProjects | brisc-firmware/virtio.c:1021-1066 | The ring inside the transmit path runs exactly as the ring of UartFeed does |
| UartTx.ReadyIffNoHold | brisc-firmware/virtio.c:1021-1066 | For any guest, between polls LSR reads ready exactly when no hold is running |
| UartTx.HoldExpires | brisc-firmware/virtio.c:1026-1035 | For any guest and daemon, a hold of any length keeps LSR at 0 for exactly that many steps of TRISC0, and the step after them sets it ready |
| UartTx.Backpressure | brisc-firmware/virtio.c:1026-1066 | In every run, from the end of a push: LSR reads 0 for exactly HOLD_SWEEPS further steps of TRISC0 and ready after the next, whatever guest and daemon do meanwhile |
| UartTx.OverwrittenByte | brisc-firmware/virtio.c:1021-1066 | A run that loses a byte because no poll came between two register accesses |
| UartTx.LeakedDivisor | brisc-firmware/virtio.c:1021-1066 | A run in which a divisor byte written during a hold outlives DLAB and is pushed as data |
| UartTx.GuestStreamIsDelivered | brisc-firmware/virtio.c:968-1066 | For a guest that keeps both conditions, in every interleaving with TRISC0 and the daemon: what it wrote is the pushed and dropped bytes and those in flight, in order; the pushed bytes are the ring's accepted bytes, the dropped ones its drop counter modulo 2^32, and the hub has a prefix of the accepted |
| UartTx.KeptBytesCanBeDelivered | src/tensix_data_plane.rs:422-477 | For any guest, from every reachable state, the daemon alone brings every byte pushed and not dropped to the hub |
| UartTx.CoreRests | brisc-firmware/virtio.c:1021-1066 | For any guest, from every reachable state, TRISC0 alone takes what is in the cell, pushes it and lets its hold run out |
| UartTx.WholeStreamCanBeDelivered | brisc-firmware/virtio.c:968-1066 | For a guest that keeps both conditions, from every reachable state TRISC0 and the daemon alone bring the stream through: every data byte written is kept or dropped in order, LSR reads ready, and the hub has every kept byte |
| UartTx.ConservedIff | brisc-firmware/virtio.c:1021-1066 | The guest's byte stream is conserved in every run exactly when a whole poll follows each THR write before the next register access and DLAB is set only after a ready LSR |
| DirtyScan.DirtyAddrBijective | src/tensix_proto.rs:77-82 | Dirty addresses and (slot, queue) pairs are in bijection |
| DirtyScan.CursorsDisjoint | src/tensix_proto.rs:84-127 | Cursor halfwords of different pairs do not overlap each other, the dirty table or the end of the page, and lie in the order of the dirty bytes |
| DirtyScan.ControlPage.HandleQueueNotify | brisc-firmware/virtio.c:707-714 | Of all pairs exactly the notified one becomes dirty, an index of 8 or more marks none, and no byte outside the dirty table changes |
| DirtyScan.NotifyIsScanned | src/tensix_data_plane.rs:742-759 | The next scan reports the notified pair if it is registered and otherwise what it would have reported; every cursor is as it was |
| DirtyScan.ControlPage.ScanOne | src/tensix_data_plane.rs:750-755 | One byte is read, cleared if set and reported, in step with the scan so far |
| DirtyScan.ControlPage.CollectDirtyPairs | src/tensix_data_plane.rs:742-759 | The hits are the dirty registered pairs in slot-major order; afterwards those bytes are 0 and every other byte of L1 is unchanged |
| DirtyScan.HitsExact | src/tensix_data_plane.rs:742-759 | A pair is hit exactly when its slot is registered with more queues than its index, the index is below 8 and its byte was set |
| DirtyScan.HitsInOrder | src/tensix_data_plane.rs:742-759 | The hits come slot by slot in the order of the slots, and in ascending queue order within a slot |
| DirtyScan.RegisteredPairs | src/tensix_data_plane.rs:748-750 | The pairs visited are exactly those of registered slots with an index below the queue count and below 8 |
| DirtyScan.OthersUntouched | src/tensix_data_plane.rs:742-759 | No cursor and no byte of an unregistered pair changes |
| ShadowRead.RunInv | src/tensix_data_plane.rs:832-868 | In every run that fills and clears one configuration: the entry is what the stores so far make of it, and every word a dispatch has loaded is the guest's or 0 |
| ShadowRead.MissesOne | src/tensix_data_plane.rs:832-868 | For each of the six address words, a run in which a dispatch reads it as 0 and every other word as the guest's |
| ShadowRead.NextDispatch | src/tensix_data_plane.rs:399-413 | From every reachable state the daemon alone can end its dispatch and begin the next |
| ShadowRead.TornIff | src/tensix_data_plane.rs:870-917 | For a configuration the daemon accepts: in every run every accepted dispatch has exactly the guest's words, if and only if no address has two nonzero halves of which one alone passes the range check |
| ShadowRead.LateIsWhole | brisc-firmware/virtio.c:376-381 | For any window: a dispatch whose first load finds the entry filled accepts only the guest's words, even while the entry is cleared, because NUM is cleared first and loaded last |
| ShadowRead.MixedAcrossRefill | src/tensix_data_plane.rs:832-917 | For any window and two accepted configurations, a dispatch across a device reset accepts the old descriptor table with the new rings |
| ShadowRead.WindowSafeIff | src/tensix_data_plane.rs:894-917 | For memory of at least 64 bytes: no aligned configuration, filled and cleared any number of times, is ever accepted torn exactly when the memory ends less than 6 bytes after its first positive multiple of 4 GiB |
| ShadowRead.OnlyThirdIsSafe | src/l2cpu.rs:29-42 | Of the memories of the four L2CPUs exactly the third is safe |
| Wakeup.Low16Exact | src/virtio/mod.rs:177-181 | The 16-bit comparison of cursor and published index is exact for a driver that owns at most the ring's entries |
| Wakeup.RunInv | src/tensix_data_plane.rs:742-804 | The invariant of guest, BRISC and daemon on one queue holds in every reachable state |
| Wakeup.NoLostWakeup | src/tensix_data_plane.rs:742-804 | For any guest: after BRISC sets the byte it is still set, or the pair is between read and dispatch, or a dispatch began after that set |
| Wakeup.SetIsServed | src/tensix_data_plane.rs:929-951 | With nothing to stop a drain early, once the byte is clear and the daemon between passes every chain published before the last set has been consumed |
| Wakeup.NotifyIsServed | brisc-firmware/virtio.c:803-816 | Once all is quiet, every chain published before the last notify has been consumed: for a guest that waits for the sentinel with nothing to stop a drain early, and on an RX-polled queue with a supplied device for any guest |
| Wakeup.QuietIsReachable | src/tensix_data_plane.rs:379-413 | From any reachable state BRISC and the daemon's passes alone come to quiet |
| Wakeup.OverwrittenNotify | brisc-firmware/virtio.c:803-816 | On a queue that is not RX-polled, a run in which a notify for another queue overwrites this one before BRISC reads it |
| Wakeup.MalformedStrands | src/tensix_data_plane.rs:929-951 | On a queue that is not RX-polled, a run in which a malformed chain ends the drain and strands the chain notified behind it |
| Wakeup.NotifyUnderSentinel | brisc-firmware/virtio.c:803-816 | On a queue that is not RX-polled, a run in which a second notify of the same queue falls under the sentinel store and its chain is left behind |
| Wakeup.ServedIff | src/tensix_data_plane.rs:379-413 | Every notify is served in every run exactly when the device always has data and the queue is RX-polled, or the guest waits for the sentinel and chains are well formed or the ring has one entry |
| ChainWalk.NoRepeat | src/virtio/mod.rs:200-212 | A chain that ends visits no descriptor slot twice |
| ChainWalk.EndsWithinTable | src/virtio/mod.rs:200-212 | A chain that ends is no longer than the table, so the step limit refuses only chains that never end |
| ChainWalk.InRangeExact | src/virtio/mod.rs:216-231 | The address check accepts exactly the buffers that begin in guest memory and lie in it byte by byte |
| ChainWalk.BuffersExact | src/virtio/mod.rs:214-243 | Buffer by buffer: the walk follows the next fields from the head; each buffer is its descriptor's address and length, and goes to the header callback exactly while fewer than the header's bytes have gone by |
| ChainWalk.ChainExact | src/virtio/mod.rs:244-250 | The last buffer of a chain is its descriptor's and goes to the completion callback |
| ChainWalk.Queue.Walk | src/virtio/mod.rs:195-254 | For any table contents: success exactly for a chain that ends with every buffer in memory; every buffer given to the device lies in guest memory; callbacks, order and total length are the chain's |
| ChainWalk.Queue.ProcessOneChain | src/virtio/mod.rs:161-274 | Nothing changes when the ring is empty or there is no data; otherwise the cursor moves by one and one used entry naming the head is added exactly for a well-formed chain |
| ChainWalk.Queue.TakeOne | src/virtio/mod.rs:177-274 | One call removes the first waiting chain and reports whether it was well formed |
| ChainWalk.Queue.TakeAll | src/tensix_data_plane.rs:929-951 | The loop takes the well-formed chains up to the first malformed one and that one too |
| ChainWalk.Queue.Drain | src/tensix_data_plane.rs:929-951 | The drain posts the well-formed chains up to the first malformed one, and empties the ring exactly when all but the last are well formed |
| Words.LeRoundTrip | src/clock.rs:50-59 | Encoding post-divider bytes and decoding the word gives them back |
| Words.LeBytes | src/clock.rs:44-59 | The four bytes of a word, lowest first |
| Words.LeReencode | src/clock.rs:50-59 | Decoding CNTL5 and encoding it again gives the word back |
| Clock.SolutionFrequency | src/clock.rs:10-18 | Exactly 15, 200 and 1750 MHz have a solution, and it gives that frequency on all four outputs: 25 MHz times fbdiv over the divisor the post-divider selects |
| Clock.FbdivRoundTrip | src/clock.rs:29-42 | A rewritten CNTL1 carries the new fbdiv and the old refdiv and postdiv bytes |
| Clock.NextMovesOne | src/clock.rs:94-121 | Each write changes exactly one divider by exactly one |
| Clock.NextApproaches | src/clock.rs:94-121 | Each write is one nearer to the target |
| Clock.NextDoesNotOvershoot | src/clock.rs:94-121 | One write lifts no output above the higher of where it is and where it goes, for any positive non-decreasing divisor map |
| Clock.PathDoesNotOvershoot | src/clock.rs:87-122 | At every write from any contents to any target each output's ratio is at most the larger of its start and target ratios |
| Clock.PathStepsByOne | src/clock.rs:87-122 | Every write of the whole sequence changes one divider by one |
| Clock.PathEndsAtTarget | src/clock.rs:87-122 | The last write is the target |
| Clock.Path | src/clock.rs:87-122 | The number of writes is the sum of the divider differences |
| Clock.Pll.RaiseOne | src/clock.rs:95-101 | The inner loop of step 1 follows the path and brings one post-divider up to its target |
| Clock.Pll.StepFbdiv | src/clock.rs:104-112 | Step 2 follows the path to the target fbdiv |
| Clock.Pll.LowerOne | src/clock.rs:115-121 | The inner loop of step 3 follows the path and brings one post-divider down to its target |
| Clock.Pll.SetFrequency | src/clock.rs:87-122 | The routine's register writes are exactly the path to the solution, none touches the low half of CNTL1, and an unsupported frequency writes nothing |
| ResetSequence.RunInv | src/shared_chip.rs:378-420 | For any number of callers: only the lock holder is inside and its copies agree with the registers, in every reachable state |
| ResetSequence.ResetOnlyAt200 | src/shared_chip.rs:401-411 | Every L2CPU_RESET access happens by the holder with the PLL exactly at the 200 MHz solution |
| ResetSequence.RestsAtASolution | src/shared_chip.rs:378-420 | With nobody inside the PLL is where it started or at one of the two solutions, also after a failed access |
| ResetSequence.CallEndsDone | src/shared_chip.rs:378-422 | In every locked run a call that ends without a failed access ends done: `idle_pll` with the PLL at 200 MHz, `reset_x280` with its bits in L2CPU_RESET and the PLL at 1750 MHz |
| ResetSequence.FailureFreesLock | src/shared_chip.rs:404-414 | In every locked run a failed L2CPU_RESET access ends the call, frees the lock and leaves both registers, the PLL at 200 MHz; no other access can fail |
| ResetSequence.HolderFinishes | src/shared_chip.rs:378-422 | From every reachable state the holder's own steps alone end its call done and free the lock |
| ResetSequence.CallCanEnd | src/shared_chip.rs:378-422 | From every reachable state any caller's call, also one still waiting for the lock, can end done by steps alone |
| ResetSequence.RegistersMoveByOne | src/shared_chip.rs:378-420 | In every run successive register contents differ in at most one divider, by one |
| ResetSequence.NeverOverclocked | src/shared_chip.rs:378-420 | In every run no output's ratio exceeds the highest of the initial one and the two solutions' |
| ResetSequence.ReleasesAreKept | src/shared_chip.rs:178-187 | L2CPU_RESET is at every moment the initial value OR'd with every mask written |
| ResetSequence.LostRelease | src/shared_chip.rs:170-187 | A run of two callers without the lock that loses a release |
| ResetSequence.KeptIffLocked | src/shared_chip.rs:170-187 | Releases are kept in every run exactly when the lock is taken |
| ResetSequence.MaskBits | src/shared_chip.rs:183 | The 1 bits of the folded mask are exactly those some index selects |
| Bits.OnesOfOr | src/shared_chip.rs:184 | The 1 bits of an OR are the union, so the word and the set of its 1 bits step alike |
| ResetSequence.ResetRegister.ApplyReleaseBits | src/shared_chip.rs:178-187 | The register's 1 bits become those it had and those the indices select; an index past the word panics before the write when overflow checks are on and wraps when they are off |
| BringUp.StampStays | src/tensix_engine.rs:200-241 | From clean stats, once stamped the version word stays the daemon's in every interleaving |
| BringUp.AckIsFirmwares | src/tensix_engine.rs:516-572 | Without a leftover ack a successful bring-up has read the firmware's own constants |
| BringUp.StampLost | src/tensix_engine.rs:200-241 | A run in which a leftover stats magic makes the firmware overwrite the stamp of a successful bring-up |
| BringUp.StampWiped | src/tensix_engine.rs:200-246 | A run in which bring-up succeeds on leftovers alone and the firmware then zeroes the stamp |
| BringUp.StampKeptIff | src/tensix_engine.rs:200-246 | For any leftover contents, the exact condition under which the stamp survives every successful bring-up |
| BringUp.AckTorn | src/tensix_engine.rs:537-562 | A run in which a leftover ack magic makes bring-up report a version word not yet written |
| BringUp.AckAuthenticIff | src/tensix_engine.rs:516-572 | Bring-up reports the firmware's constants in every run exactly when no ack magic was left over |
| BringUp.HelloCanBeLost | brisc-firmware/virtio.c:1270-1272 | A run from clean pages in which the hello is stored ahead of the wipe and bring-up can no longer succeed |
| BringUp.TimeoutIsFinal | src/tensix_engine.rs:200-219 | A time-out strikes only while the daemon waits for a magic word and ends `bring_up` for good; anywhere else it changes nothing |
| BringUp.CanSucceedIff | brisc-firmware/virtio.c:1252-1272 | For any leftover contents and from any reachable state bring-up can still succeed exactly while its hello is not stored, or is past the wipe, or an acceptable leftover ack is still to be read |
| BringUp.StampParts | src/tensix_engine.rs:240-241 | The stamped word splits into the protocol byte and the low 24 bits of the build id |
| BringUp.AdoptIff | src/tensix_engine.rs:330-397 | After a bring-up from clean stats a daemon adopts exactly when its protocol and its 24-bit build id are those stamped |
| Telemetry.WalkInWindow | src/telemetry.rs:272-290 | Every tag and data address of an accepted table leaves four bytes in the 2 MiB window, whatever offset the entry carries; tags stay in CSM |
| Telemetry.Chip.CsmRead32 | src/shared_chip.rs:321-328 | The read succeeds exactly for an aligned address with four bytes in the window |
| Telemetry.Chip.ReadEntries | src/telemetry.rs:280-291 | Every read stays in the window; entry by entry the tag word in memory is the tag plus 65536 times the offset, and the data is the word that many words after the tags |
| Telemetry.Chip.ReadTelemetry | src/telemetry.rs:250-294 | For any memory and pointer: reads stay in the window; each outcome comes exactly for its pointer range, alignment, version byte and count; a table has `entry_count` entries, each as its words in memory say; the only panic is a misaligned pointer in CSM |
| Telemetry.DataInCsmIff | src/telemetry.rs:269-291 | Data words stay inside the 512 KiB of CSM exactly when every offset is below the words left after the tags |
| Telemetry.DataCanLeaveCsm | src/telemetry.rs:269-291 | An accepted table with a data word outside CSM |
| BulkCopy.NextChunk | src/boot.rs:49-53 | Each chunk is the part of the copy that lies in the next 2 MiB window |
| BulkCopy.Noc.CopyChunk | src/boot.rs:60-64 | A copy that must stay inside its window stores the bytes at the window's base plus offset and is recorded |
| BulkCopy.Noc.WriteBulk | src/boot.rs:44-68 | Memory becomes a plain copy of the bytes written, all of them unless a window cannot be created; the copies made are the parts in the consecutive windows, none crosses its window, they end where the written bytes end, and there is none exactly when nothing was written |
| BulkCopy.Tile.Write32 | src/tlb.rs:203-213 | A word store changes four bytes, little-endian |
| BulkCopy.Tile.LoadFirmware | src/tensix.rs:387-407 | L1 becomes, byte by byte, the image, zeros up to a whole word and the old rest; a larger image is refused and changes nothing |

## Left out

- Memory ordering across L1 banks, fences, cycle timing and the statistics counters: memory is sequentially consistent and time is a schedule.
- TRISC2 and DEVICE_FEATURES, the DRIVER_FEATURES snapshots, heartbeats and the UART receive path: one-word mirrors that would only add easy members.
- A guest that resets a device in the middle of queue set-up: `QueueSteps` covers one set-up session in increasing QUEUE_SEL order; the reset itself is `InitDevice`.
- `dispatch_chain`'s interrupt and the device back ends: a device is its `has_data` answer and its reported length.
- The guest's set-up in `ShadowRead`: BRISC fills an entry with any seven words; which words those are is `QueueSteps`.
- Guest memory changing while a chain is walked: `ChainWalk` reads one table; `Wakeup` fixes whether a published chain is well formed.
- Concurrent `publish_active_mask` calls: the masks are an arbitrary sequence.
- The daemon's UART cursor across a restart: one daemon lifetime.
- Time-outs of `bring_up` as durations: a time-out may fire at any poll.
- File descriptor rotation (`reset_board`) and I/O errors of `csm_read32`; I/O errors of the L2CPU_RESET accesses are modelled.
- TLB, mmap and ioctl code, device-tree patching, images, cloud-init, the command line and `decode_entries`.
- Clock.SolutionFrequency: the 25 MHz step and the divisor rule (code plus one up to 16, twice that above) are the hardware's and appear in no file of the repository.
- BulkCopy.Noc.WriteBulk: the window base is computed by a division, not by the bit mask the source uses.
