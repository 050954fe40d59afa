# Shared machinery of PCBox, modelled and proved

PCBox emulates PCs. Every emulated device leans on a few pieces of shared machinery, and this project models them in Dafny and proves what they promise:

- the event scheduler (`src/timer.c`): wrapping 32.32 fixed-point timestamps, a sorted doubly linked list, draining through callbacks that re-arm, long periods split into seconds, rebasing the clock;
- the cascaded pair of 8259A interrupt controllers (`src/pic.c`): rotating priorities, nesting, acknowledge and end of interrupt, level lines shared by several sources;
- the two implementations of the 8253/8254 counter, one that ticks (`src/pit.c`) and one that computes deadlines (`src/pit_fast.c`), and how far the second refines the first;
- the DMA controller (`src/dma.c`): auto-initialise, terminal counts, memory to memory, bus-master copies, scatter/gather;
- I/O port handler chains (`src/io.c`), the debugger's breakpoints and watchpoints (`src/gdbstub.c`, with the accesses of `src/mem/mem.c`) and the calendar clock (`src/nvr.c`).

Each part has a specification on values, in which the theorems are stated, and classes that hold the same state in fields, linked nodes and arrays and change it in place, as the source does. Every method of a class is proved to compute what the specification says, so the theorems hold of it.

| files | part |
|---|---|
| `Timestamps`, `Scheduling`, `SchedulingLaws`, `SchedulerDrain`, `SchedulerRuns`, `TimerActions`, `SplitPeriods`, `RepeatingTimers` | the scheduler on values |
| `TimerLinks`, `TimerQueue` | its linked list |
| `Pic`, `PicPriority`, `PicLines`, `PicRuns`, `PicDelivery`, `PicNesting`, `PicSharing`, `PicCascade`, `PicRegisters` | the interrupt controllers on values |
| `PicChips` | the two chips as objects |
| `PitCount`, `PitTicking`, `PitFast`, `PitRates`, `PitShots`, `PitSquare`, `PitPrograms`, `PitTriggers`, `PitStrobes`, `PitGates`, `PitRewrites`, `PitStates`, `PitClocked` | the two counters and their comparison |
| `PitCounters`, `PitTogether` | the two counters as objects, alone and side by side |
| `DmaMemory`, `DmaChannels`, `DmaCopies`, `DmaPlaces`, `DmaAddresses`, `DmaScatter`, `DmaDescriptors` | DMA on values, and copies over arrays |
| `DmaEngine` | controller and scatter/gather channel as objects |
| `IoPorts`, `IoBits`, `IoChains` | port accesses, and the handler chains |
| `GdbPoints`, `GdbPages`, `GdbAccesses`, `GdbKinds`, `GdbLookups`, `GdbTables`, `GdbSwaps` | the debugger's points and their page map, the accesses they catch, those that pass them by, and the opcodes they put into memory |
| `GdbStub`, `GdbCore` | its linked lists and page map, and the processor's look-up tables |
| `Rtc` | the clock |
| `Division`, `Options` | quotients and remainders, optional values |

`dafny verify dfyconfig.toml` checks everything.

## How the source is rendered

- A callback of the scheduler is any finite list of scheduler actions; statements range over all scripts of such callbacks. The one thing asked of them is that they arm timers forward and inside half the wrap window, which is what the comment on `src/include/86box/timer.h:27-37` asks of callers.
- Periods are real numbers (the source uses `double`), truncated to fixed point where the source casts.
- 64-, 32- and 16-bit wrap-around is written out. Interrupt registers are sets of levels; port values are bit vectors.
- Histories (the scheduler's armings and expiries, the edges of OUT) are ghost: they record what happened and decide nothing.
- Memory is a full array of 2^32 bytes. A port handler is a number for each of its functions and an oracle for what its input functions return. Where linear addresses lie and which cells can be written is a parameter of the debugger's model, one for each time breakpoints are swapped.
- A chip out of 8086 mode answers an acknowledge with the bytes of a CALL; its low address byte is kept as the level it is made from.

## Where the code does not do what one would expect

These are properties that turned out false of the code. Each is stated exactly, with the condition under which the code does meet the expectation.

- Re-initialising the slave controller recomputes the pair with the slave's identity already wiped, so bit 0 of the master's requests is cleared in place of the cascade bit (`PicCascade.SlaveReinitReachesRepair`). Requests are kept if and only if line 0 is edge-triggered or nobody asserts it, and all other lines are conserved (`PicSharing.SlaveReinitRequests`, `PicCascade.SlaveSetUpConserves`; `PicCascade.SlaveSetUpLosesRequest` is an instance). The branch meant to turn this into a spurious IRQ 15 is dead code otherwise (`PicRuns.RepairIsUnreachable`), and it delivers the vector of the master's level 2 (`PicCascade.RepairDeliversMaster`).
- An interrupt is two acknowledge cycles in every mode. It comes back with the pair whole if and only if the master is in 8086 mode and has not selected a level, other than 2, that its ICW3 names: there is no slave there, and the source follows a null pointer (`PicRuns.AcknowledgeIsWhole`). Out of 8086 mode the pair is left frozen. `PicCascade.CoherentPairCrashes` is an instance, `PicCascade.GuestCrashes` says how a guest gets there, and `PicCascade.LevelTwoIsSafe` that none does whose ICW3 names only level 2.
- With the slave in 8086 mode and the master not, an automatic end of interrupt comes twice and takes another of the slave's services with it (`PicRegisters.MixedModesEndTwice`).
- While the master does not know of its slave, sources are counted rightly if and only if they are on neither a line of the slave nor line 2 (`PicSharing.UninitialisedMasterMissesSources`, `PicSharing.ResetPairMissesSource`).
- The ticking counter's square waves are two ticks longer than the count says: the waves agree until the first falling edge is due and no longer (`PitSquare.EdgesDrift`, `PitSquare.SquareWavesPart`). After a terminal count the deadline counter wraps every 65535 ticks, not every 65536 (`PitShots.ReadsAfterTerminal`).
- A written count of 1 is read as 2 by the ticking counter in mode 2 and as 65536 in mode 3, and as 1 by the deadline counter in both: rates programmed alike agree if and only if the count is not 1, square waves until the first edge is due (`PitPrograms.ProgrammedRatesAgree`, `PitPrograms.ProgrammedSquaresPart`). With a 1 in mode 3 the deadline counter falls and rises at one time (`PitRates.OverMovesOn`).
- A one-shot triggered again exactly when its pulse ends makes a spike in the deadline counter and none in the ticking one; at every other schedule the two agree (`PitTriggers.TriggeredShotsAgree`).
- The deadline counter holds the OUT of a strobe low until the strobe, not during it: the two agree if and only if more than N ticks have gone by (`PitStrobes.StrobesAgreeAfterwards`, `PitStrobes.StrobeReads`).
- A falling gate makes the ticking counter's square wave high and leaves the other's as it is, so they part if and only if the deadline counter is in its low half (`PitGates.SquaresWhileLow`). A terminal count that a low gate interrupts goes on in the ticking counter and starts over in the other: they agree again if and only if neither or both are over by then (`PitGates.InterruptedCount`).
- A count written to a running rate generator costs the ticking counter a clock cycle, and in the last tick of a period the two disagree about which count the next one has (`PitRewrites.RewrittenRates`). Written to a strobe that is still to come it makes the deadline counter strobe twice (`PitRewrites.RewrittenStrobe`).
- A deadline counter reprogrammed as a hardware strobe pulses OUT without a trigger if and only if a deadline of its earlier mode is still to come (`PitStates.StaleStrobe`). Its square wave, clocked from outside, is right for one period only (`PitClocked.ClockedSquare`). Strobes that are clocked from outside are never at the same level in the two counters (`PitClocked.ClockedStrobesOppose`).
- On the tick of an expiry, and at no other, the deadline counter already reads the next period (`PitRates.ReadableCountsAgree`).
- Word writes of a descending DMA channel move by two words: every value lands in its place if and only if the channel does not write words downwards or writes at most one (`DmaPlaces.InPlaceExactly`).
- A scatter/gather transfer that ends exactly with a block is resumed at the start of that block (`DmaScatter.BoundaryRepeats`); one that ends inside a block is resumed where it stopped (`DmaScatter.ResumeIsExact`).
- A watchpoint does not catch every access to its bytes: the first access to a page of RAM puts the page into a table of the processor core, past which aligned accesses do not come. An access is caught if and only if it is covered and its page is not in the table, or it is misaligned, or its segment is not usable (`GdbLookups.CoreCatches`, `GdbLookups.RunCatches`); when that is again, says `GdbLookups.CaughtAgain`; `GdbLookups.WatchedTwice` and `GdbLookups.WatchedTooLate` are instances, and `GdbTables.OpenedRunMisses` says it for any point of any run. After a flush nothing is missed (`GdbTables.FlushedRunCatches`).
- Removing a watchpoint can leave a page flagged in which none lies: if and only if the offsets of its range in its groups of 64 pages add up to a whole group, and then in the last group (`GdbPages.RemovalLeavesFlags`). The tests before an access are then made in vain; no access is caught by that.
- A write of eight bytes does not notice that its second page faults, because the address it tests has 32 bits (`src/mem/mem.c:1787`, `src/cpu/cpu.h:872`), so its halves are tested all the same; when a faulting access is caught, says `GdbAccesses.FaultIsCaught`.
- A guest that changes its page tables while a breakpoint is in memory can be left with the debugger's opcode; exactly when, says `GdbSwaps.OpcodeStays`; `GdbSwaps.RemappedPageKeepsOpcode` is an instance.
- The clock is reset to day 0 of January 1980, though the comment says 1980/01/01 (`Rtc.ResetIsADayLate`).

## Model

| member | source | states |
|---|---|---|
| Timestamps.ComparisonExactIffInWindow | src/include/86box/timer.h:84-85 | The wrapping comparison orders two stamps by the time they have left if and only if those times differ by at most half the wrap window |
| Timestamps.WholeTicksLeft | src/include/86box/timer.h:86-87 | The 32-bit expiry test on the whole-tick halves is exact for every pair of stamps, with no window at all: it holds if and only if less than one tick is left |
| Timestamps.DelayIsRemaining | src/include/86box/timer.h:103-112 | A delay set from now is what is left afterwards, for every delay below half the window |
| Timestamps.AdvanceAddsToRemaining | src/include/86box/timer.h:93-100 | Advancing lengthens the time left by exactly the delay |
| Timestamps.RebaseKeepsRemaining | src/timer.c:282-287 | A rebased stamp has the time left it had before, fraction included |
| Timestamps.RebaseKeepsDifference | src/timer.c:282-287 | Two rebased stamps keep their difference modulo the wrap |
| Timestamps.ClockEatsRemaining | src/timer.c:280-284 | A running clock takes the elapsed ticks from every stamp |
| Scheduling.Slot | src/timer.c:38-83 | The insertion scan stops at the first queued timer that the new one does not come after, and no earlier one qualifies |
| Scheduling.DisabledIsStructured | src/timer.c:91-110 | Taking a timer out removes exactly that timer and leaves queue and flags consistent |
| SchedulingLaws.DisabledKeeps | src/timer.c:91-110 | Disabling keeps order, window, target bound and the pairing of expiries with armings; no other timer changes and the cached target is not refreshed |
| SchedulingLaws.SlotSeparates | src/timer.c:38-83 | Everything in front of the insertion place is due strictly earlier and everything behind it no earlier, across the wrap |
| SchedulingLaws.InsertKeeps | src/timer.c:38-87 | Insertion keeps all of that |
| SchedulingLaws.ArmKeeps | src/include/86box/timer.h:93-112 | Arming a timer at a stamp inside the window keeps all invariants and touches no other timer, whether or not it was enabled |
| SchedulingLaws.AdvanceExKeeps | src/timer.c:221-238 | So does arming the next stretch of a period; a timer stays marked as split only while some of its period is left |
| SchedulingLaws.StoppedKeeps | src/timer.c:197-206 | So does stopping, after which the timer is out of the queue and no longer split |
| SchedulingLaws.OnAutoKeeps | src/timer.c:251-262 | So does starting a period, from now or from the old stamp as the timer's state demands |
| SchedulingLaws.PerformKeepsValid | src/timer.c:22-110 | Every action a caller can take keeps every invariant, arms exactly the stamp it names and touches no other timer |
| SchedulingLaws.RebaseLeavesTimeLeft | src/timer.c:264-290 | Rebasing the clock changes no remaining delay and no pairwise difference modulo the wrap, and nothing but the stamps |
| SchedulingLaws.RebaseKeepsValid | src/timer.c:264-290 | Rebasing keeps every invariant, and the target becomes the rebased earliest deadline |
| SchedulingLaws.TickKeepsValid | src/include/86box/timer.h:65-67 | The clock may run on past the target by up to half a window without breaking any invariant |
| TimerActions.ArmingActions | src/include/86box/timer.h:93-112 | Advancing lengthens the time left by the delay and setting a delay makes it that; nothing of the timer's period changes, and a timer that was enabled is no longer inside its callback |
| TimerActions.Armed | src/include/86box/timer.h:93-112 | The cached target becomes the whole tick of the new stamp if and only if the timer is then the first of the queue |
| TimerActions.EndingActions | src/timer.c:91-110 | Disabling leaves the rest of a period to be taken up later; stopping, and starting a period that is not positive, clears it, the split and the callback flag |
| TimerActions.PeriodBegins | src/timer.c:220-262 | A period of more than a second is kept less its first second and the timer marked as split; a shorter one is used up at once |
| TimerActions.ClockIsSet | src/timer.c:264-290 | Rebasing sets the clock whether or not a timer is enabled and leaves the stamps of disabled timers alone |
| SchedulerDrain.NextStretchFits | src/timer.c:133-135 | The next stretch of a split period is always inside the window, so splitting needs no assumption of its own |
| SchedulerDrain.PerformAllKeeps | src/timer.c:136-143 | A callback, whatever well-behaved actions it takes, keeps every invariant, expires nothing, arms nothing before the tick being served and makes no timer more overdue |
| SchedulerDrain.StepProgresses | src/timer.c:120-144 | Every round of the drain, whatever its callback does, keeps all invariants, records exactly one expiry, of the head, and lowers a weight: the termination measure |
| SchedulerRuns.DrainLeavesNothingDue | src/timer.c:112-147 | The drain ends with all invariants in force, no enabled timer expired, and the target at the earliest deadline unless callbacks emptied the list |
| SchedulerRuns.DrainExpiresInOrder | src/timer.c:112-147 | Timers run out in nondecreasing order of whole-tick deadlines, and only timers whose tick has come |
| SchedulerRuns.FreshIsValid | src/timer.c:169-193 | A new scheduler satisfies every invariant |
| SchedulerRuns.ApplyKeepsValid | src/timer.c:22-290 | Each operation keeps every invariant |
| SchedulerRuns.RunKeepsInvariants | src/timer.c:22-290 | Any sequence of arming, disabling, stopping, draining, running and rebasing keeps the queue distinct, ordered and made of exactly the enabled timers, pairs every expiry with one arming, and keeps the cached target no later than any live deadline |
| SplitPeriods.StartMakesPlan | src/timer.c:240-262 | Beginning a period arms its first stretch, from now or, in the middle of a period or inside the timer's own callback, from the deadline it had |
| SplitPeriods.FreshMayStart | src/timer.c:240-262 | On a new scheduler a period of any length can be begun for an idle timer |
| SplitPeriods.RoundKeepsPlan | src/timer.c:120-144 | A round of the drain either serves another timer, or begins the next stretch where the last one ended, or, at the last stretch and only then, runs the callback and leaves the timer out |
| SplitPeriods.ApplyKeepsPlan | src/timer.c:22-290 | No other operation disturbs a period: other timers and their callbacks, draining, and rebasing leave its deadline where it was, and the clock takes from it exactly the ticks it runs |
| SplitPeriods.SplittingIsExact | src/timer.c:208-262 | Over any run that does not name the timer after a period P is begun: it has expired k times, k at most n = ceil(P / 1 s); it is enabled if and only if k < n; until then its time left is that to the end of stretch k, at the last floor(P * TIMER_USEC) after the start, less the ticks elapsed, rebasing included; its callback has been called once if k = n and never before |
| SplitPeriods.CallbackOnTime | src/timer.c:112-147 | So each time the scheduler has been drained, the callback has been called if and only if floor(P * TIMER_USEC) less the ticks elapsed is below one tick, as if P had never been split |
| RepeatingTimers.AutoMovesOn | src/timer.c:251-262 | A period begun inside the timer's own callback, or in the middle of another, lengthens the time left by its first stretch: it starts at the deadline the timer had |
| RepeatingTimers.AutoStarts | src/timer.c:251-262 | A period begun for any other timer starts now: what is left is its first stretch |
| RepeatingTimers.RenewalRound | src/timer.c:120-144 | A round whose callback begins the timer's next period, among actions on other timers, puts the end of that period floor(P * TIMER_USEC) after the end of the last one, however late the round comes |
| RepeatingTimers.RepeatingNeverDrifts | src/timer.c:112-262 | Over any run in which each callback of the timer begins its next period P and nothing else names it: after k expiries the callback has run k / n times, n = ceil(P / 1 s), the timer is enabled, and its time left is that of the start plus (k / n) * floor(P * TIMER_USEC) and the stretches since, less the ticks elapsed: no drift, ever |
| TimerLinks.UnlinkChain | src/timer.c:103-109 | Bypassing a node turns the doubly linked list of a queue into that of the queue without it |
| TimerLinks.LinkChain | src/timer.c:38-83 | Linking a node between two neighbours turns it into that of the queue with the node at that place |
| TimerQueue.TimerList.Disable | src/timer.c:90-110 | On the heap: takes the timer out of the linked list, which stays acyclic and doubly linked, and matches the value-level operation |
| TimerQueue.TimerList.Enable | src/timer.c:22-88 | On the heap: the sorted insertion into the linked list matches the value-level operation |
| TimerQueue.TimerList.AdvanceU64 | src/include/86box/timer.h:93-100 | On the heap: the stamp moves by the delay, then the timer is enabled |
| TimerQueue.TimerList.SetDelayU64 | src/include/86box/timer.h:103-112 | On the heap: the stamp is set from the clock, then the timer is enabled |
| TimerQueue.TimerList.AdvanceEx | src/timer.c:220-238 | On the heap: the next stretch of a period |
| TimerQueue.TimerList.Stop | src/timer.c:196-206 | On the heap: stop |
| TimerQueue.TimerList.OnAuto | src/timer.c:240-262 | On the heap: start or continue a period |
| TimerQueue.TimerList.SetNewTsc | src/timer.c:264-290 | On the heap: the loop that rebases every linked timer, and the target |
| TimerQueue.TimerList.Step | src/timer.c:120-144 | On the heap: one round of the drain |
| TimerQueue.TimerList.Process | src/timer.c:112-147 | On the heap: the drain loop terminates for every well-behaved callback script and ends in the state the drain defines; an emptied list is reported |
| TimerQueue.TimerList.Apply | src/timer.c:22-290 | Any operation of a run on the heap keeps the list linked and computes the value-level operation |
| TimerQueue.TimerList.RunAll | src/timer.c:22-290 | Any admissible sequence of operations on the heap leaves the list linked and in the state the run defines, to which RunKeepsInvariants applies |
| PicPriority.BestIsFirstDeliverable | src/pic.c:190-221 | The priority scan selects a level if and only if it is the first in rotated order that is requested, unmasked and not covered by a service of its own or higher priority; it selects none if and only if there is none |
| PicPriority.NonSpecificFromMeans | src/pic.c:329-347 | A non-specific end of interrupt finds the in-service level of highest rotated priority that special mask mode does not hide |
| PicPriority.AcknowledgedGoesOnTop | src/pic.c:316-325 | An acknowledged level has strictly higher priority than every open service |
| PicPriority.NonSpecificIsTop | src/pic.c:329-347 | In a nested state a non-specific end of interrupt means exactly the most recently opened service, and nothing if there is none |
| PicPriority.EndedComesOffTop | src/pic.c:350-363 | Ending it leaves the stack below it |
| PicPriority.StruckIsNested | src/pic.c:350-363 | Ending a service anywhere in the stack takes out that one and leaves the others in order |
| PicPriority.RotationMovesUp | src/pic.c:350-363 | After a rotating service every level that lost has moved up by at least one place |
| PicPriority.NobodyStarves | src/pic.c:198-208 | However requests and masks change between services, a level that stays requested and unmasked waits for at most 7 rotating services |
| PicNesting.RotatingService | src/pic.c:350-393 | On the pair: serving the selected line, each chip ending it by itself with rotation or by the handler's rotate-on-non-specific-EOI, on the slave first if the line is its own, leaves nothing in service and makes the served levels the lowest of their chips |
| PicNesting.ServiceMovesUp | src/pic.c:350-393 | Every service of another line, on either chip, brings a waiting line strictly closer: a service of the slave moves its own lines up even though it sends the cascade level to the back |
| PicNesting.EveryLineIsServed | src/pic.c:350-393 | However lines and masks change in between, a line that stays requested and unmasked waits for at most 7 other services if it is the master's and 63 if it is the slave's |
| PicNesting.NestingIsAStack | src/pic.c:316-363 | Over any run of line changes, acknowledges, EOIs that do not rotate, mask writes and master re-initialisation, each chip's in-service register is a stack of strictly rising priority; a non-specific EOI closes the latest service, a specific one strikes its level out of the stack |
| PicRuns.UpdateMakesCoherent | src/pic.c:232-245 | Recomputing makes any unfrozen pair coherent: pending flags, selected levels and the cascade request agree |
| PicRuns.AcknowledgeIsWhole | src/pic.c:865-906 | An interrupt comes back with a coherent pair if and only if the master is in 8086 mode and has not selected a level without a slave that ICW3 names, where the null pointer of the missing slave is followed; in another mode the two cycles stop after the second of three, the pair stays frozen, and one more cycle makes it coherent |
| PicRuns.ApplyKeepsCoherent | src/pic.c:232-245 | Every operation keeps the pair coherent, but for re-initialising the slave and acknowledging with the master out of 8086 mode or at a missing slave |
| PicRuns.Cycle0Effect | src/pic.c:799-807 | The first acknowledge cycle freezes the pair and changes nothing of its set-up |
| PicRuns.LaterEffect | src/pic.c:808-829 | In a later cycle of a frozen pair each acknowledged chip that is in 8086 mode, or any in the third cycle, drops its request and ends the interrupt by itself if told to; a chip in the second of three cycles changes nothing; nothing is recomputed |
| PicRuns.SpecificCommand | src/pic.c:379-393 | A specific command takes its level out of service if and only if its EOI bit is set, and makes it the lowest if and only if its rotate bit is set; the other chip keeps services and priority |
| PicRuns.PlainCommand | src/pic.c:379-393 | Without a level an end of interrupt means the first level in service, rotating to it if told to; without EOI the command sets the rotation of automatic ends alone |
| PicRegisters.InterruptOnRegisters | src/pic.c:791-906 | Every register after an interrupt in 8086 mode: the selected level, and with the cascade the slave's, goes into service, and out again where the chip ends interrupts by itself, becoming the lowest if it rotates then; its request is kept if and only if the line is level-triggered (by ELCR, or else ICW1 bit 3) and still asserted; nothing else changes |
| PicRegisters.MarksSlave | src/pic.c:865-892 | In any state of the pair an acknowledge takes a request for the slave's if and only if it was marked so, or the slave has a request and the master, in a cascade, has selected a level of ICW3 that is neither idle nor frozen |
| PicRegisters.SpuriousIsSeven | src/pic.c:865-906 | An acknowledge that nothing caused answers level 7 of the master and leaves it in service, whatever the slave |
| PicRegisters.CallInThree | src/pic.c:791-829 | Outside 8086 mode three cycles answer the opcode of a CALL, its low byte by the level and its high byte, from the chip whose line it is; a slave in 8086 mode answers its vector instead |
| PicRegisters.CallOnRegisters | src/pic.c:808-829 | Then the levels are in service after two cycles, and automatic ends come in the third |
| PicRegisters.MixedModesEndTwice | src/pic.c:808-829 | A slave in 8086 mode under a master that is not ends interrupts by itself twice: it loses another service, unless all it has open are hidden by special mask mode |
| PicRegisters.RepairSelectsSeven | src/pic.c:872-880 | In the error-correction branch the slave is given level 7 to answer, which does not go into service |
| PicRegisters.EndUnderMask | src/pic.c:329-363 | Special mask mode on: an end of interrupt means the first unmasked level in service; off: the first in service; none: nothing changes |
| PicRegisters.EdgeOnRegisters | src/pic.c:672-783 | Raising or lowering lines sets or clears exactly the request bits they reach, line 2 standing for 9 and the slave's lines dropped if ICW3 names none |
| PicRegisters.SetUpOnRegisters | src/pic.c:508-564 | ICW1 and the words it asks for, ICW3 only with a cascade and ICW4 only if announced, set up vectors, cascade and mode and clear the rest; the next word is a mask |
| PicRegisters.ReinitInAcknowledge | src/pic.c:542-564 | A slave re-initialised during an acknowledge has no request left |
| PicRuns.RepairIsUnreachable | src/pic.c:865-887 | A run without slave re-initialisation, acknowledges made in 8086 mode and at no missing slave, does not crash, and the master never selects its slave while that has no request: the error-correction branch is dead |
| PicDelivery.FirstLineIsUnique | src/pic.c:190-245 | There is at most one first deliverable line in the combined rotated order of the fifteen lines |
| PicDelivery.PendingIffDeliverable | src/pic.c:232-245 | The processor is interrupted if and only if some line can be delivered |
| PicDelivery.CurrentIsFirstLine | src/pic.c:190-245 | The selected line is that first line, an in-service cascade level blocking the whole slave |
| PicDelivery.InterruptDelivers | src/pic.c:791-906 | With the master in 8086 mode an acknowledge delivers the first deliverable line, by its vector if that line's own chip is in 8086 mode, and puts it, and the cascade level for a slave line, into service, automatic EOI included |
| PicCascade.SlaveReinitReachesRepair | src/pic.c:542-564 | Re-initialising the slave recomputes with its identity wiped: it clears master request 0, and reaches the error-correction branch if and only if level 2 would win without level 0 |
| PicCascade.SlaveReinitCanReachRepair | src/pic.c:542-564 | A concrete pair on which that happens |
| PicCascade.RepairDeliversMaster | src/pic.c:872-880 | The error-correction branch crashes if and only if the level is not 2; at level 2 it does not mark the request as the slave's: what is delivered is the vector of the master's level 2, and the slave has nothing put into service |
| PicCascade.CoherentPairCrashes | src/pic.c:871-872 | A coherent pair in 8086 mode whose interrupt crashes: the master was told of a slave on level 3, and line 3 asks |
| PicCascade.GuestCrashes | src/pic.c:508-535 | A guest reaches such a pair from the usual set-up by re-initialising the master with ICW3 set to 8 |
| PicCascade.LevelTwoIsSafe | src/pic.c:865-887 | Any run at all, in every mode and with the slave re-initialised or not, is free of that crash if every ICW3 the master is given names no level but 2 |
| PicCascade.SlaveSetUpConserves | src/pic.c:514-564 | Setting up the slave anew, from ICW1 to the mask, makes the pair coherent again and keeps all counters and the requests of every line but 0; it keeps that of line 0 if and only if the line is edge-triggered or nobody asserts it |
| PicCascade.SlaveSetUpLosesRequest | src/pic.c:514-564 | A coherent pair in level mode, with a source that holds line 0, on which the request is lost |
| PicSharing.SharedConserves | src/pic.c:707-783 | A source that asserts or releases shared lines keeps every line counter equal to the number of asserting sources and every level-triggered request equal to "counter positive" |
| PicSharing.InterruptKeepsRequests | src/pic.c:316-325 | An interrupt that does not crash, in 8086 mode or not, keeps requests and counters right: a level line still asserted stays requested |
| PicSharing.ReinitKeepsRequests | src/pic.c:542-564 | Re-initialising a chip takes its requests anew from the counters, in either trigger mode; on the slave, line 0 is at risk |
| PicSharing.SlaveReinitRequests | src/pic.c:542-564 | Re-initialising the slave keeps requests right if and only if line 0 is edge-triggered or nobody asserts it |
| PicSharing.UninitialisedMasterMissesSources | src/pic.c:682-728 | While the master has not been told of its slave, a source that changes is recorded as changed, and the counters go on matching the sources if and only if it has no line on the slave and not line 2 |
| PicSharing.ResetPairMissesSource | src/pic.c:682-728 | So after a reset a source on line 9 asserts without being counted |
| PicSharing.SharedLinesAreConserved | src/pic.c:672-783 | Over whole runs of raising, lowering, acknowledging, commands and re-initialisation, each line counter is the number of asserting sources and the request bit of each level-triggered line (by ELCR, or else by ICW1 bit 3) says whether there is one, on all lines but those that the slave's own word for its level may name: the cascade line alone, or line 0 too if the slave is re-initialised |
| PicLines.EffectiveOneMore | src/pic.c:717-725 | Which request bits follow a shared change can be decided line by line, as the loop does |
| PicChips.PicChip.FindBest | src/pic.c:190-221 | The scan loop over eight levels computes the selected level in place |
| PicChips.PicChip.NonSpecificFind | src/pic.c:329-347 | The EOI scan loop |
| PicChips.PicChip.AssertedLevels | src/pic.c:553-557 | The loop that rebuilds requests from the line counters |
| PicChips.PicPair.Update | src/pic.c:232-245 | Recomputes both chips and the cascade request in place |
| PicChips.PicPair.Acknowledge | src/pic.c:316-325 | Moves the selected level into service |
| PicChips.PicPair.Act | src/pic.c:350-363 | Ends and rotates |
| PicChips.PicPair.Command | src/pic.c:379-393 | OCW2 |
| PicChips.PicPair.AckCycle0 | src/pic.c:799-807 | First acknowledge cycle on the objects |
| PicChips.PicPair.AckLater | src/pic.c:808-829 | The later cycles on the objects, in any mode of either chip |
| PicChips.PicPair.AckStep | src/pic.c:893-903 | One cycle on the objects, and the thaw after the last of two or three |
| PicChips.PicPair.Interrupt | src/pic.c:865-906 | The crash at a missing slave, or the two cycles of an interrupt in place and what the second answers, in any mode |
| PicChips.PicPair.Reinit | src/pic.c:542-564 | ICW1 |
| PicChips.PicPair.WriteOdd | src/pic.c:514-541 | Initialisation words and the mask |
| PicChips.PicPair.Translate | src/pic.c:682-697 | The loop that drops slave lines and turns line 2 into 9 |
| PicChips.PicPair.Edge | src/pic.c:672-783 | Edge requests |
| PicChips.PicPair.Shared | src/pic.c:672-783 | Shared requests: the counting loop, the source's state, and the requests that follow |
| PicChips.PicPair.RunAll | src/pic.c:190-906 | Any sequence of operations on the objects ends in the state the run defines, or stops at the operation that crashes |
| PitRates.RateTicks | src/pit.c:216-235 | Mode 2 tick by tick in closed form: after t ticks the state, count, OUT and every edge so far, for any count from 2 to 65536 |
| PitRates.DueUntil | src/pit_fast.c:325-333 | Mode 2 deadline by deadline in closed form, at any time between ticks too |
| PitRates.OverMovesOn | src/pit_fast.c:305-394 | An expiry sets a later deadline, unless a square wave with a count of 1 is high, and then it comes again at the same time with OUT low: so catching up with the clock always terminates |
| PitRates.FallingEdgesAgree | src/pit.c:216-235 | Whenever they are compared, both counters have made the same falling edges at the same times, N - 1 + kN ticks after a load |
| PitRates.ReadableCountsAgree | src/pit_fast.c:125-143 | On a whole tick the readable mode 2 counts agree if and only if it is not the tick of an expiry; between ticks the deadline counter shows the ticking counter's next value |
| PitShots.ShotTicks | src/pit.c:170-213 | Modes 0 and 1 tick by tick in closed form: OUT rises once, at tick N |
| PitShots.SpentUntil | src/pit_fast.c:316-324 | Modes 0, 1, 4 and 5 deadline by deadline in closed form: OUT rises once |
| PitShots.TerminalCountAgrees | src/pit_fast.c:316-324 | Both counters raise OUT exactly N ticks after the count is in place and never again, for counts 1 to 65536 |
| PitShots.ReadsAgreeBeforeTerminal | src/pit_fast.c:125-143 | Up to the terminal count both read the same value |
| PitShots.ReadsAfterTerminal | src/pit_fast.c:316-324 | After it they agree if and only if the number of rounds of 65535 ticks is 65535 modulo 65536: one counter wraps after 65536 ticks, the other after 65535 |
| PitSquare.SquareTicks | src/pit.c:236-278 | Mode 3 tick by tick in closed form: OUT is high (N+1)/2 + 1 ticks and low N/2 + 1 |
| PitSquare.HalfUntil | src/pit_fast.c:334-361 | Mode 3 deadline by deadline in closed form: high (N+1)/2 ticks, low N/2 |
| PitSquare.EdgesDrift | src/pit.c:236-278 | The i-th falling edge of the ticking counter comes 2i + 1 ticks later than the other's, its i-th rising edge 2i + 2 |
| PitSquare.SquareWavesPart | src/pit.c:236-278 | So the two square waves agree if and only if the first falling edge is not yet due |
| PitStrobes.StrobeTicks | src/pit.c:282-310 | Modes 4 and 5 tick by tick in closed form: OUT is low from tick N to tick N + 1 and high otherwise |
| PitStrobes.StrobesAgreeAfterwards | src/pit_fast.c:201-212 | From the moment the count N is in place the deadline counter holds OUT low until tick N, the ticking one drops it at tick N: their levels agree if and only if more than N ticks have gone by |
| PitStrobes.StrobeReads | src/pit_fast.c:360-386 | The counts of the two strobes read alike if and only if the strobe is still to come, or the number of rounds of 65535 ticks since is 65534 modulo 65536 |
| PitStrobes.StrobeIsLoaded | src/pit.c:344-365 | A mode 4 program with its gate high is loaded two clock cycles later |
| PitStrobes.StrobeIsArmed | src/pit_fast.c:201-212 | The deadline counter, programmed in mode 4, is due in N ticks, with OUT low |
| PitStrobes.StrobeTriggerLoads | src/pit.c:439-475 | In mode 5 a rising gate loads the ticking counter at the next tick |
| PitStrobes.StrobeTriggerArms | src/pit_fast.c:248-258 | And starts the deadline counter at once, with OUT low |
| PitStrobes.TriggeredStrobes | src/pit_fast.c:248-258 | The hardware strobe from its trigger on, all edges of both counters: low for one tick after N + 1 ticks, and low for N ticks at once |
| PitGates.LowGateHolds | src/pit.c:170-310 | With the gate low in its counting states, modes 0, 2, 3 and 4 keep count, state and OUT for as long as it is |
| PitGates.FallingGate | src/pit.c:439-475 | A falling gate leaves OUT high in modes 2 and 3, with a rising edge exactly if it was low, and OUT alone in the others |
| PitGates.FallingGateStops | src/pit_fast.c:248-288 | A falling gate takes the deadline from the other counter in modes 0, 2, 3 and 4 and leaves OUT as it is |
| PitGates.NoDeadlineNoEdge | src/pit_fast.c:248-288 | So it makes no edge until the gate rises |
| PitGates.LevelsWhileLow | src/pit_fast.c:248-288 | While the gate is low the two counters are at the same level, in modes 2 and 3, if and only if the deadline counter was high, and in modes 0 and 4 if and only if they were before |
| PitGates.SquaresWhileLow | src/pit_fast.c:248-288 | Square waves whose gate falls t ticks after the load: the ticking one is high, and they agree if and only if the other was not in its low half |
| PitGates.RatesWhileLow | src/pit_fast.c:248-288 | Rate generators are both high while the gate is low, whenever it falls, and make no falling edge |
| PitGates.InterruptedCount | src/pit_fast.c:248-288 | A terminal count N whose gate is low for a while, t ticks into it: the ticking counter counts on and the deadline counter counts N again, so v ticks after the gate has risen they agree if and only if t + v < N or v >= N |
| PitGates.GateReloadsSquare | src/pit.c:439-475 | A rising gate reloads a square wave at the next tick |
| PitGates.GateRestartsSquare | src/pit_fast.c:259-268 | And restarts the other one at once |
| PitGates.GatedSquaresPart | src/pit_fast.c:259-268 | From a rising gate on the falling edges of the two square waves are the same if and only if the first is not yet due |
| PitRewrites.RewriteWaits | src/pit.c:344-365 | A count written to a counter that is running in modes 1, 2, 3 or 5 waits; the clock cycle that takes it is not counted |
| PitRewrites.RewriteReloads | src/pit.c:316-365 | In modes 0 and 4, from idle, or after a load in the middle of a two-byte write, it is loaded by the next tick |
| PitRewrites.RewriteKeepsDeadline | src/pit_fast.c:158-227 | The deadline counter keeps its deadline, and loses no tick |
| PitRewrites.RewriteRestartsCount | src/pit_fast.c:167-174 | In mode 0 both start over with the new count, OUT low at once |
| PitRewrites.NullUntilLoaded | src/pit.c:344-365 | The null count flag is set from the control word until the count is in place |
| PitRewrites.RunningFalls | src/pit.c:216-235 | A rate generator with q ticks to go falls after q - 1 ticks and then every M ticks, M being the count written last |
| PitRewrites.RewrittenRates | src/pit_fast.c:325-333 | A count M written t ticks into a rate generator of N: from then on both counters make the same falling edges, counted in ticks, if and only if it was not the last tick of a period, or M is N, or no edge has come; the ticking one needs a clock cycle more |
| PitRewrites.RewrittenStrobe | src/pit_fast.c:201-212 | A count written to a strobe that is still to come: the deadline counter strobes at its time, and again that count later |
| PitRewrites.StrobeStartsAgain | src/pit_fast.c:201-212 | Written after the strobe, it starts a new one at once |
| PitRewrites.WaitingRunsOn | src/pit.c:183-213 | A triggered counter that waits counts on from its count, below zero to 65535, with OUT high |
| PitStates.EdgesThatTick | src/pit.c:477-504 | Which clock edges tick: every falling one, but while a count is about to be loaded only one that follows another edge |
| PitStates.WrittenReads | src/pit.c:374-377 | A latch reads the written count until it is in place, but the old one while a triggered counter waits to load |
| PitStates.RunningReads | src/pit_fast.c:125-143 | A running counter with q whole ticks to go reads q, one more in mode 2, twice as much in mode 3, 65536 ticks at most |
| PitStates.StoppedReads | src/pit_fast.c:125-143 | A stopped one, and in mode 3 any whose gate is low, reads the count it was left with |
| PitStates.GateKeepsRead | src/pit_fast.c:145-156 | In modes 0, 2 and 4 a falling gate leaves to be read what was to be read when it fell |
| PitStates.SquareKeepsCount | src/pit_fast.c:145-156 | In mode 3 it leaves the count of the last load or expiry |
| PitStates.Settled | src/pit_fast.c:223-288 | After a count or a gate change a counter on the timer is running if and only if it is enabled, and has no deadline if not; a held one only notes its gate |
| PitStates.WriteEnables | src/pit_fast.c:158-227 | A write enables the triggered modes always, the others by their gate |
| PitStates.SameGate | src/pit.c:439-475 | A gate set to the level it has does nothing, in either counter |
| PitStates.ControlHoldsDeadline | src/pit_fast.c:470-480 | From a control word on OUT is low in mode 0 and high in the others, and the deadline counter makes no edge until a count is written |
| PitStates.ControlHoldsTicking | src/pit.c:580-592 | Nor does the ticking one |
| PitStates.ProgrammedShotWaits | src/pit_fast.c:175-177 | A programmed one-shot waits without an edge, even if a deadline of an earlier mode is still to come |
| PitStates.StaleStrobe | src/pit_fast.c:378-386 | A programmed hardware strobe pulses OUT without a trigger if and only if there is such a deadline, and then at it |
| PitClocked.ClockedRatesAgree | src/pit_fast.c:636-655 | Clocked from outside, a rate generator has the falling edges of one on the timer, clock for tick, if and only if its count is not 1; with 1 it has none |
| PitClocked.ClockedShots | src/pit_fast.c:636-655 | In modes 0, 1, 4 and 5 OUT rises N clocks after the count is in place and the counter stops |
| PitClocked.ClockedSquare | src/pit_fast.c:334-361 | A square wave of N clocked from outside has one right period; its next high half lasts three quarters of N, or for ever if N is 1 or 2 modulo 4 |
| PitClocked.ClockedSquareOfOne | src/pit_fast.c:636-655 | One of 1 falls once and never rises |
| PitClocked.WrittenOffTimer | src/pit.c:316-365 | Off its timer the ticking counter has a written count in place at the next clock |
| PitClocked.ClocksAreTicks | src/pit.c:316-329 | In modes 2 and 3 an outside clock is a tick |
| PitClocked.ClockedCountsAgree | src/pit.c:316-329 | Clocked from outside the two terminal counts are at the same level at every clock, and raise OUT at clock N |
| PitClocked.ClockedStrobesOppose | src/pit.c:316-329 | And the two strobes at none: the ticking counter stops at its terminal count with OUT low, the other holds OUT low until then |
| PitPrograms.CycleIsTick | src/pit.c:477-504 | A rising and a falling clock edge make one tick, in the loading state too |
| PitPrograms.RateIsLoaded | src/pit.c:344-365 | A mode 2 program with its gate high is loaded two clock cycles later, 1 counting as 2 |
| PitPrograms.SquareIsLoaded | src/pit.c:344-365 | The same for mode 3, 1 counting as 65536 |
| PitPrograms.CountIsLoaded | src/pit.c:344-365 | The same for mode 0, with OUT low |
| PitPrograms.ShotIsTriggered | src/pit.c:157-168 | A programmed one-shot waits with OUT high |
| PitPrograms.TriggerLoads | src/pit.c:439-475 | Its rising gate loads it and drops OUT at the next tick |
| PitPrograms.GateReloadsRate | src/pit.c:439-475 | A rising gate reloads a rate generator at the next tick |
| PitPrograms.RateIsStarted | src/pit_fast.c:158-187 | The deadline counter, programmed in mode 2, is due in N - 1 ticks, for every count, 1 included |
| PitPrograms.SquareIsStarted | src/pit_fast.c:188-200 | In mode 3, in (N+1)/2 ticks, for every count, 1 included |
| PitPrograms.CountIsArmed | src/pit_fast.c:167-174 | In mode 0, in N ticks, OUT low |
| PitPrograms.TriggerArms | src/pit_fast.c:248-258 | A rising gate starts its one-shot at once |
| PitPrograms.GateRestartsRate | src/pit_fast.c:259-268 | A rising gate restarts its rate generator, due in N ticks rather than N - 1 |
| PitPrograms.CyclesAreTicks | src/pit.c:477-504 | Clock cycles are ticks as long as nothing is written |
| PitPrograms.OneShotsAgree | src/pit_fast.c:248-258 | From trigger to end: both one-shots hold OUT low for exactly N ticks, the ticking one a tick later on both edges |
| PitPrograms.GatedRatesAgree | src/pit_fast.c:259-268 | From a rising gate on, both rate generators fall at N + kN ticks |
| PitPrograms.ProgrammedRatesAgree | src/pit_fast.c:158-187 | From the control word to the edges: rate generators programmed alike have the same falling edges, counted from load and write, if and only if the count is not 1, which the ticking counter takes for 2 |
| PitPrograms.ProgrammedSquaresPart | src/pit_fast.c:188-200 | Square waves programmed alike have the same falling edges if and only if the first one is not yet due, for every count; 1 is 65536 to the ticking counter and 1 to the other |
| PitPrograms.ProgrammedCountsAgree | src/pit_fast.c:167-174 | Terminal counts programmed alike hold OUT low for N ticks and raise it once, for every count |
| PitTriggers.TickingShots | src/pit.c:439-475 | The ticking one-shot under any schedule of triggers, those that come during a pulse included: when OUT falls, rises, and what it is in the end |
| PitTriggers.DeadlineShots | src/pit_fast.c:248-258 | The same for the deadline counter |
| PitTriggers.TriggeredShotsAgree | src/pit_fast.c:248-258 | Under any schedule both make the same edges, the ticking one a tick later, if and only if no trigger, and not the end, comes exactly N ticks after the trigger before it |
| PitCounters.Counter.Tick | src/pit.c:157-314 | The tick on the counter object, all modes |
| PitCounters.Counter.Clock | src/pit.c:316-329 | An outside clock on the counter object |
| PitCounters.Counter.SetClock | src/pit.c:477-504 | Clock edges on the object, the pending load included |
| PitCounters.Counter.SetGate | src/pit.c:439-475 | Gate edges on the object |
| PitCounters.Counter.Load | src/pit.c:344-365 | A written count on the object |
| PitCounters.Counter.Control | src/pit.c:580-592 | A control word on the object |
| PitCounters.Counter.RunCycles | src/pit.c:522-533 | The clock loop on the object |
| PitCounters.Counter.LatchCount | src/pit.c:374-377 | What a latch command reads |
| PitCounters.FastCounter.Load | src/pit_fast.c:158-227 | A written count on the deadline object |
| PitCounters.FastCounter.SetGate | src/pit_fast.c:230-288 | Gate changes on the deadline object |
| PitCounters.FastCounter.Over | src/pit_fast.c:305-394 | The expiry callback on the deadline object |
| PitCounters.FastCounter.Run | src/pit_fast.c:305-394 | Catching up with the clock on the deadline object |
| PitCounters.FastCounter.Clock | src/pit_fast.c:636-655 | An outside clock on the deadline object |
| PitCounters.FastCounter.ReadTimer | src/pit_fast.c:125-143 | What a read finds |
| PitTogether.RunRates | src/pit.c:522-533 | The two objects run side by side in mode 2 make the same falling edges |
| PitTogether.RunShots | src/pit.c:522-533 | In modes 0 and 1 they hold OUT at the same level and raise it once, after N ticks |
| PitTogether.RunStrobes | src/pit.c:522-533 | In modes 4 and 5 they are at the same level if and only if more than N ticks have gone by |
| DmaMemory.PeekPoke | src/dma.c:1891-1938 | Bytes stored at wrapping 32-bit addresses are read back, and no other cell changes |
| DmaMemory.PokeMerged | src/dma.c:1929-1933 | Storing the merged tail is storing only the requested bytes |
| DmaMemory.BmRead | src/dma.c:1891-1912 | The loop of transfers plus the tail returns exactly the requested bytes, for every length and every width of 1, 2 or 4 |
| DmaMemory.BmWrite | src/dma.c:1914-1938 | The loop plus the read-merge-write tail changes exactly the requested bytes, for every length and width |
| DmaMemory.RoundTrip | src/dma.c:1891-1938 | A copy in and a copy out of the same place, with any two widths, return the bytes and touch no other cell |
| DmaChannels.AutoReads | src/dma.c:1612-1705 | With auto-initialise, after n reads the count is cb - (n mod (cb+1)), the address that many transfers from the base inside its page, and read i returned the cell that closed form names, in either direction and width |
| DmaChannels.TerminalCounts | src/dma.c:1684-1702 | Exactly n div (cb+1) of n reads report a terminal count |
| DmaChannels.OnceReads | src/dma.c:1612-1705 | Without auto-initialise exactly cb+1 hardware requests are served, the last with a terminal count, and nothing changes afterwards; software requests go on |
| DmaChannels.DeferredIsRead | src/dma.c:1506-1609 | A read that puts off its count, caught up later, is a read |
| DmaCopies.ProgrammedWrites | src/dma.c:1707-1794 | A programmed transfer to memory in closed form, up to its whole count, in every mode |
| DmaPlaces.WordsDownSkip | src/dma.c:1746-1755 | A write lands where the channel's address says if and only if the channel does not write words downwards or it is the first of the transfer |
| DmaPlaces.SecondWordsAreLost | src/dma.c:1746-1755 | A transfer of words downwards leaves the place of every second word as it was |
| DmaPlaces.InPlaceExactly | src/dma.c:1707-1794 | A programmed transfer of n values puts every one of them in its place, whatever they are, if and only if it does not write words downwards or n is at most 1 |
| DmaAddresses.PlaceInside | src/dma.c:1640-1683 | Inside its page a channel goes straight on: up, or with bit 5 of the mode down, by one for bytes and two for words |
| DmaAddresses.ReadsInOrder | src/dma.c:1612-1705 | What each of n reads brings and reports, from the mode bits: the byte or word, low byte first, at its place in the count, from the base up or down; a terminal count exactly when the count is complete |
| DmaAddresses.WriteLands | src/dma.c:1707-1794 | Each write of a programmed transfer changes just the byte or the two bytes at its place, and reports the end if and only if the channel is masked then, which the last write of the count does without auto-initialise |
| DmaAddresses.Requests | src/dma.c:1612-1638 | A request is refused, and changes nothing, if and only if the controller is off, the channel not enabled, masked without software asking, or set to the other direction |
| DmaAddresses.WriteForgets | src/dma.c:1707-1794 | A write forgets a count that a read has put off |
| DmaCopies.WholePass | src/dma.c:161-174 | What a whole software-requested pass over a count reads, with or without auto-initialise |
| DmaCopies.MemToMemMoves | src/dma.c:161-180 | Memory-to-memory transfers have the semantics of memmove over page wrap, overlap and direction; cells beyond the source count get what the buffer held; no other cell changes |
| DmaAddresses.MemToMemEnds | src/dma.c:161-180 | It is fatal if and only if a channel is set to the wrong direction; otherwise both channels are used up, or ready again with auto-initialise, their terminal counts are reported and no other channel changes |
| DmaScatter.Trichotomy | src/dma.c:1326-1387 | With S the bytes up to and including the first end-of-table block, a transfer of L visits exactly the first min(L, S) cells of the chain and reports 1 iff L < S, 5 iff L = S, 4 iff L > S |
| DmaScatter.OpenTransfer | src/dma.c:1326-1387 | On a chain with no end in reach every transfer ends with 1 and is complete |
| DmaScatter.ResumeIsExact | src/dma.c:1359-1362 | A transfer stopped inside a block and resumed visits the cells of one whole transfer, none lost and none repeated, with the same report |
| DmaScatter.BoundaryRepeats | src/dma.c:1371-1374 | A transfer that stopped exactly at the end of a block leaves that block in place, so the next one takes it again |
| DmaScatter.FetchGathers | src/dma.c:1343-1350 | A transfer out of memory delivers the bytes of the cells it visits, in order |
| DmaScatter.DeliverScatters | src/dma.c:1343-1357 | A transfer into memory that does not overwrite the descriptors it still has to read stores its bytes in those cells and ends alike |
| DmaScatter.ThereAndBack | src/dma.c:1326-1387 | Bytes sent into memory over a chain that overlaps neither itself nor its descriptors come back over the same chain |
| DmaDescriptors.LoadsEntry | src/dma.c:113-134 | Eight bytes of memory load a block: the address, low byte first and even for words, the length, 0 for 65536, and the end mark in bit 7 of the last |
| DmaDescriptors.ChainIsListed | src/dma.c:113-134 | Descriptors laid out one after the other make the chain of just those blocks |
| DmaDescriptors.ListedTransfer | src/dma.c:1326-1387 | A transfer of L bytes over listed blocks of S bytes in all visits the first min(L, S) cells of their ranges, in order, and reports 1, 5 or 4 as L is less than, equal to or more than S |
| DmaDescriptors.ListedFetch | src/dma.c:1343-1350 | Out of memory it delivers what those ranges hold |
| DmaDescriptors.ListedDelivery | src/dma.c:1343-1357 | Into memory it stores its bytes there, if it overwrites no descriptor it has still to read |
| DmaEngine.Controller.Read | src/dma.c:1612-1705 | A channel read on the controller object |
| DmaEngine.Controller.ReadOnly | src/dma.c:1506-1574 | A read that puts off its count |
| DmaEngine.Controller.Advance | src/dma.c:1577-1609 | The count that was put off |
| DmaEngine.Controller.Write | src/dma.c:1707-1794 | A channel write on the controller object and memory |
| DmaEngine.Controller.MemToMem | src/dma.c:161-180 | The two transfer loops over the buffer; a channel in the wrong direction is fatal and changes nothing |
| DmaEngine.SgChannel.NextAddr | src/dma.c:113-134 | Loading the next descriptor, with the alignment, length and page rules |
| DmaEngine.SgChannel.Fetch | src/dma.c:1326-1387 | The descriptor-walking loop out of memory terminates with report, table and data as defined; 2 and no change while the channel is stopped |
| DmaEngine.SgChannel.Deliver | src/dma.c:1326-1387 | The same loop into memory, reading descriptors from memory as it is by then |
| IoPorts.WordsAreBytes | src/io.c:491-522 | A word read where no handler reads words is two byte reads, across the end of the port space too |
| IoPorts.LongsAreWords | src/io.c:644-706 | A long read where no handler reads longs is two word reads |
| IoPorts.HandlersPullDown | src/io.c:489-524 | A whole word read has no bit set that a word handler of its port clears, nor one that a byte handler of either port clears, unless that one reads words |
| IoPorts.WordWritesAreBytes | src/io.c:571-600 | A word write where no handler takes words makes the calls of two byte writes, in order |
| IoPorts.LongWritesAreWords | src/io.c:755-800 | A long write where no handler takes longs makes the calls of two word writes, no more and no fewer, in another order |
| IoPorts.AppendThenRemove | src/io.c:112-189 | Registering and removing again is the identity unless an equal handler was there, whose first copy then moves to the end |
| IoBits.ByteReadBits | src/io.c:366-379 | A bit of a byte read is 0 if and only if some byte handler of the port clears it |
| IoBits.WordReadBits | src/io.c:491-522 | A bit of a word read is 0 if and only if a word handler of the port clears it, or a byte handler of the bit's own port that does not read words |
| IoBits.LongReadBits | src/io.c:644-706 | The same for a long read, over long, word and byte handlers, none asked twice |
| IoBits.ByteWriteCalls | src/io.c:436-449 | A byte write calls the byte handlers of the port and no others |
| IoBits.WordWriteCalls | src/io.c:571-600 | A word write calls exactly the word handlers, and the byte handlers of both ports that do not take words |
| IoBits.LongWriteCalls | src/io.c:755-800 | A long write calls exactly the long handlers, the word handlers that do not take longs, and the byte handlers that take neither |
| IoBits.ByteWritesInOrder | src/io.c:436-449 | Handlers are called in the order of their registration |
| IoBits.CoveredPorts | src/io.c:112-152 | A registration covers every step-th port of its range, counted from its base |
| IoChains.Ports.Append | src/io.c:122-151 | Adding a handler to the linked chain of one port appends it there and leaves every other port alone |
| IoChains.Ports.Remove | src/io.c:164-188 | Removing takes out the first equal handler, if any, keeping head, tail and links of every chain consistent |
| IoChains.Ports.SetHandler | src/io.c:112-152 | The loop over ports appends to exactly the covered ports, for any stride |
| IoChains.Ports.RemoveHandler | src/io.c:154-189 | The loop over ports removes from exactly the covered ports |
| IoChains.Ports.ReadB | src/io.c:366-379 | The walk over the linked chain computes the byte read |
| IoChains.Ports.ReadW | src/io.c:491-522 | The walks over two chains compute the word read |
| IoChains.Ports.ReadL | src/io.c:644-706 | The walks over four chains compute the long read |
| IoChains.Ports.WriteB | src/io.c:436-449 | The byte handlers called, in order |
| IoChains.Ports.WriteW | src/io.c:571-600 | The word and byte handlers called, in order |
| IoChains.Ports.WriteL | src/io.c:755-800 | The long, word and byte handlers called, in order |
| GdbPoints.RequestKeepsUnique | src/gdbstub.c:1370-1407 | An insertion or removal succeeds if and only if it changes something, keeps addresses unique in the list, and affects its own address alone |
| GdbPoints.InsertThenRemove | src/gdbstub.c:1383-1407 | Inserting and removing again is the identity |
| GdbPoints.HandleKeeps | src/gdbstub.c:1318-1440 | Every packet keeps addresses unique in all five lists and every page of every watchpoint flagged |
| GdbPoints.RunIsGood | src/gdbstub.c:1318-1440 | After any sequence of packets no list holds an address twice and every page of every watchpoint is flagged |
| GdbPages.InsertIsExact | src/gdbstub.c:1409-1435 | Setting a watchpoint flags the pages it lies in and no others |
| GdbPages.RemovalLeavesFlags | src/gdbstub.c:1409-1435 | Taking it away again as it was set restores lists and pages, but that a page in the last group of its range stays flagged if and only if the offsets of the range in its groups of 64 pages add up to a whole group |
| GdbKinds.PacketAnswers | src/gdbstub.c:1318-1440 | A packet gets no answer if and only if it is for a software breakpoint that cannot be written, an error if and only if it asks for what there is; otherwise it changes its own kind at its own address and nothing else |
| GdbKinds.PacketCatches | src/gdbstub.c:1813-1855 | After a Z2, Z3 or Z4 packet at a fresh address an access is caught if and only if it was before, or it is a write, a read, or either, with a byte in the range |
| GdbKinds.PacketReports | src/gdbstub.c:1813-1855 | And it is reported as that kind, watchpoints for its direction before those for any access; accesses of the other direction are reported as before |
| GdbAccesses.MatchIsFlagged | src/gdbstub.c:1409-1435 | Any address a watchpoint matches lies in a flagged page |
| GdbAccesses.SplitIffTwoPages | src/mem/mem.c:1067-1081 | The alignment tests make an access in halves exactly if its first and last byte lie in different pages, across the end of memory too |
| GdbAccesses.OnePageIsCaught | src/gdbstub.c:1813-1855 | An access that stays in its page is caught, and reported, exactly as the watchpoint lists demand |
| GdbAccesses.SlowPathIsCaught | src/mem/mem.c:1424-1464 | Every access of 1, 2, 4 or 8 bytes that the memory functions make, whether or not it leaves its page, is caught if and only if a watchpoint for its kind, or for any access, covers one of its bytes; one that faults is caught only if so; the reported kind is that of a watchpoint that does |
| GdbAccesses.FaultIsCaught | src/mem/mem.c:1763-1800 | An access over two pages that faults is caught if and only if it is covered and its first page flagged, or it is a write of eight bytes, whose fault goes unnoticed, and its second half is covered and begins in the second page |
| GdbAccesses.HalvesDecide | src/mem/mem.c:1345-1373 | What an access over two pages reports is what the last of its halves that is caught reports |
| GdbLookups.AddIsSound | src/mem/mem.c:638-724 | A page added to a look-up table, in place of the oldest, leaves every page of the table in the ring |
| GdbLookups.FlushIsEmpty | src/mem/mem.c:207-231 | So a flush leaves no page in the table |
| GdbLookups.CoreCatches | src/cpu/386_common.h:129-171 | An access of the processor core is caught if and only if a watchpoint covers one of its bytes and it does not find its page in the look-up table, or is misaligned, or its segment is not usable |
| GdbLookups.StepIsReady | src/mem/mem.c:2064-2103 | Packets, accesses and flushes keep the debugger's lists and the look-up tables in order |
| GdbLookups.RunCatches | src/cpu/386_common.h:129-171 | So it is after any run of packets, accesses and flushes from the start |
| GdbTables.FlushedRunCatches | src/mem/mem.c:207-231 | After any run that ends with a flush, the next access that can be translated is caught if and only if a watchpoint covers it |
| GdbTables.SetAndFlushed | src/gdbstub.c:1318-1440 | A watchpoint set at any point of any run catches, from the next flush on, exactly the accesses of its kind to its range, beside those that were covered |
| GdbTables.OpenedRunMisses | src/cpu/386_common.h:129-171 | At any point of any run, once an aligned access has opened a page of RAM, every watchpoint set from then on misses the next aligned access of that direction to the page |
| GdbTables.RunIsTidy | src/mem/mem.c:638-724 | Over any run the read table holds its open pages once each, and only pages with translated code are guarded |
| GdbTables.WriteEnters | src/mem/mem.c:674-724 | How many entries of the ring a write uses: one for a page with translated code that is not there yet, one at every write and two at a write of eight bytes for a page without, none for a misaligned write to an open page |
| GdbLookups.AccessOpens | src/mem/mem.c:2064-2103 | A page that is not in the table is there after an access in it if and only if it is RAM, holds no translated code if written, and the access does not begin at the last address |
| GdbLookups.SecondIsMissed | src/mem/mem.c:638-724 | So a watched page is good for one aligned access: after it no aligned access to the page is caught, whatever watchpoints there are by then |
| GdbLookups.WatchedTwice | src/cpu/386_common.h:129-135 | An instance: of two equal reads of a watched word the first is caught and the second is not |
| GdbLookups.WatchedTooLate | src/cpu/386_common.h:129-135 | And a word that was read before its watchpoint is set is not caught at all |
| GdbLookups.OpenUntilEvicted | src/mem/mem.c:638-672 | A page stays in the read table until exactly as many others have been added as its entry had left |
| GdbLookups.CaughtAgain | src/mem/mem.c:638-672 | Over any run of reads, a page of RAM that was read is caught again, if a watchpoint covers the access, exactly when 256 other pages have been added to the table in between |
| GdbCore.Lookup.Add | src/mem/mem.c:638-724 | Adding a page to the arrays of a table |
| GdbCore.Core.Slow | src/mem/mem.c:1744-1800 | An access through the memory functions on lists, page map and tables: the tests, the halves, and the pages the RAM handlers add |
| GdbCore.Core.Access | src/cpu/386_common.h:129-171 | An access of the core on the objects |
| GdbCore.Core.Flush | src/mem/mem.c:207-231 | The loop that empties both tables |
| GdbSwaps.SavedIs | src/gdbstub.c:1454-1461 | Each breakpoint saves the byte it replaces, or the opcode where an earlier one shares its cell |
| GdbSwaps.SwappedOut | src/gdbstub.c:1470-1476 | Swapping out, under any mapping of addresses, gives a cell that holds the opcode the first other byte saved by a breakpoint that lies there now, and changes nothing else |
| GdbSwaps.OpcodeStays | src/gdbstub.c:1454-1476 | With the mapping at swap-in and at swap-out any two: a cell holding the opcode keeps it if and only if it cannot be written, or every breakpoint that lies there now had found the opcode in the cell it lay in |
| GdbSwaps.RemappedPageKeepsOpcode | src/gdbstub.c:1470-1476 | So a page the guest moves in between keeps the debugger's opcode |
| GdbSwaps.SwapRestores | src/gdbstub.c:1454-1476 | If every breakpoint lies where it lay, then whatever the guest does to memory, swapping out changes exactly the cells that still hold the opcode, back to what they held, even where addresses alias |
| GdbSwaps.SwapIsIdentity | src/gdbstub.c:1454-1476 | In and out again is then the identity on every cell the guest leaves alone |
| GdbSwaps.GuestOpcodeLost | src/gdbstub.c:1470-1476 | A guest's own INT 3 byte is then lost if and only if a breakpoint in writable memory lies there and the byte was another before |
| GdbStub.BreakList.Request | src/gdbstub.c:1370-1407 | The search, insertion and removal on the linked list |
| GdbStub.BreakList.SwapIn | src/gdbstub.c:1454-1461 | The swap-in loop over the list and memory |
| GdbStub.BreakList.SwapOut | src/gdbstub.c:1470-1476 | The swap-out loop |
| GdbStub.BreakList.Flag | src/gdbstub.c:1415-1424 | The loops that flag every page of every point |
| GdbStub.Stub.Recompute | src/gdbstub.c:1409-1435 | Wiping the groups of one watchpoint and flagging all watchpoints anew |
| GdbStub.Stub.Handle | src/gdbstub.c:1318-1440 | A whole packet on the lists, the page map and memory, which the writability trial leaves as it was |
| GdbStub.Stub.MemAccess | src/gdbstub.c:1813-1855 | The walk over the watchpoint lists |
| GdbStub.Stub.Access | src/mem/mem.c:1118-1158 | An access on the lists and the page map: the test in front of the whole and of every part |
| Rtc.LeapYearCounts | src/nvr.c:87-98 | The leap-year rule gives every year the length the Gregorian count needs, century rules included |
| Rtc.YearLength | src/nvr.c:101-108 | The months of a year add up to it |
| Rtc.MonthLength | src/nvr.c:101-108 | Every month has the length that the day count gives it, where the days before a month are a formula that reads no table: (153 * (mon - 3) + 2) / 5 + 59, and a leap day |
| Rtc.TickAddsOne | src/nvr.c:111-132 | A tick takes a valid date to a valid date exactly one second later in the Gregorian count |
| Rtc.TicksAdd | src/nvr.c:111-132 | n ticks add n seconds across months, leap days and centuries |
| Rtc.SameCountSameDate | src/nvr.c:101-132 | The count names valid dates uniquely |
| Rtc.ClockShowsTheDate | src/nvr.c:111-132 | So after n ticks the clock shows a date if and only if that date lies n seconds later |
| Rtc.ResetIsADayLate | src/nvr.c:168-176 | The reset date has day 0: the clock shows a valid date if and only if a day has passed, and then 1 January 1980 |
| Rtc.Clock.Second | src/nvr.c:111-132 | The nested carries on the clock's fields |

## Left out

- SchedulerRuns.DrainLeavesNothingDue: asks callbacks to arm forward and inside half the wrap window; a callback that keeps setting a delay below one tick makes the source's loop run forever.
- TimerQueue.TimerList.Process: reports a list that callbacks have emptied, where the source goes on to read the stamp of a head that is not there (`src/timer.c:121-123`, `src/timer.c:146`); processing re-entered from a callback is not modelled.
- PitRates.FallingEdgesAgree: from one count that is in place in both, 2 to 65536, with the gate held high; a written 1 is not the same count in both (`PitPrograms.ProgrammedRatesAgree`). The rising edges differ by design, as the deadline counter pulses OUT low and high at one time.
- PicNesting.EveryLineIsServed: services one at a time, acknowledged in 8086 mode, that rotate at their end, by the handler or by the chip itself; without rotation there is no such bound.
- SplitPeriods.SplittingIsExact: what happens after the start does not name the timer; the timer whose own callback begins its next period is that of `RepeatingTimers.RepeatingNeverDrifts`.
- DmaScatter.BoundaryRepeats: the converse of ResumeIsExact is stated on the block that is taken again, because two different blocks may hold the same bytes.
- DmaScatter.DeliverScatters: asks that the transfer does not overwrite descriptors it has still to read; the general case is defined by Deliver, to which the loop is tied, without a closed form.
- GdbLookups.CoreCatches: in builds with the debug registers of the 486 the core goes straight to memory only while no breakpoint is set in DR7, and the 286/386 core never does (`src/cpu/386_common.h:25-51`, `src/cpu/386_common.h:52-127`); there the memory functions see every access (SlowPathIsCaught).
- GdbLookups.CaughtAgain: reads; a page can be twice in the ring of the write table, and is then closed by the older entry. Which pages are RAM and which hold translated code is a parameter that does not change during a run: a page that is compiled later is moved to the guarded ones at once.
- GdbStub.Stub.Handle: watchpoints at addresses and of lengths below 2^31, because the source shifts signed integers to index the page map; breakpoints at any address.
- Scheduler: `timer_close`, which clears only the first node's links; the `timer_inited` and null-pointer guards; that `timer_set_new_tsc` first lets a dynamic recompiler update the clock; rounding of `double` periods.
- Interrupt controllers: poll mode, the address interval and upper bits of ICW1 in the bytes of a CALL, the single-cycle entry `pic_irq_ack` with its fatal check, a second interrupt while the pair is frozen (`src/pic.c:871` then shifts by more than the width of an int), keyboard and mouse latches, SMI, the ACPI status bit, the write filter of PCI chipsets, the mask write that waits on a timer before the 286, the gate of the second PIT that IRQ 0 lowers, `cpu_fast_off`.
- Counters: BCD counting, writing and reading a count byte by byte, status reads, the half-tick rounding of `pit_const`.
- DMA: advanced channels (their address steps test the scatter/gather bit of channel 0, `src/dma.c:1455`, `src/dma.c:1471`), PS/2 mode, register and page ports, memory refresh, cache invalidation, block requests (whose 16-bit index never passes a count of 0xffff, `src/dma.c:145`).
- I/O ports: PCI configuration windows, the Amstrad latch, I/O traps, debug registers, the delay charged when nobody answers.
- Debugger: sockets, threads, packet framing and parsing (a packet that does not parse is answered with nothing), registers, monitor commands, hardware breakpoints on execution.
- Clock: setting and reading it, its weekday formula (which is not a calendar's), the NVRAM file, time synchronisation.
- Everything else in the repository: video, sound, storage, chipsets, the processor, the user interface.
