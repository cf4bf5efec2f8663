# CNSS2 WLAN platform driver: a verified model

The CNSS2 platform driver stands between a WLAN chip on PCIe and the host driver
that uses it: it powers the chip, brings up its link and firmware, reacts to what
the firmware reports, and collects a dump when the chip crashes.  This project
models the driver's control plane in Dafny and proves what its parts keep, over
every run and whatever the hardware, the firmware or an allocation answers.

| file | models | source |
|---|---|---|
| `EventQueue.dfy`, `EventQueueProofs.dfy` | the event queue: any number of posting calls and one worker, interleaved at every lock section and every access to an event | `cnss2/main.c` |
| `ColdBootCal.dfy` | cold-boot calibration against driver registration, over the FIFO queue | `cnss2/pci.c`, `cnss2/main.c` |
| `WlfwServer.dfy` | QMI server callbacks and the ARRIVE and EXIT handlers | `cnss2/qmi.c` |
| `Pci.dfy`, `PciProofs.dfy` | MHI state bits, link and bus suspend, QMI usage count, power-up, shutdown and RAM dump | `cnss2/pci.c` |
| `Power.dfy` | regulator and clock sequencing with rollback | `cnss2/power.c` |
| `OlCpr.dfy` | open-loop CPR: aggregation of voltages and the messages sent | `cnss2/power.c` |
| `Smmu.dfy` | the IOVA bump allocator | `cnss2/pci.c` |
| `RegWindow.dfy` | windowed register access | `cnss2/pci.c`, `cnss2/reg.h` |
| `DumpInfo.dfy`, `Ramdump.dfy`, `ElfDump.dfy` | the dump pipeline: collect and clear, meta information, ELF core writer | `cnss2/pci.c`, `cnss2/main.c` |
| `IpcFile.dfy` | segmented file upload and download | `cnss_utils/cnss_plat_ipc_qmi.c` |
| `Qdss.dfy` | trace fetch from firmware and netlink messages | `cnss2/qmi.c`, `cnss2/genl.c` |
| `Common.dfy`, `Slices.dfy` | shared types, error codes and facts about slices | |

Code that updates structures in place is a class or a method with loops
(`...Driver` modules), proved equal to functions on values (`...Spec` modules);
what runs keep is proved about these functions (`...Proofs` modules).  Automatic
induction is switched off: every proof by induction is written out.  The three
protocols with concurrent threads are step relations: each lock section, each
unlocked access to an event, each state-bit operation and each post to the queue is
one atomic step.

Hypotheses the code needs, and the model has:

- `CNSS_ASSERT` is a warning and does not stop the driver.
- Event handlers run one at a time, in the single work item.
- Quirk bits and set-up stay fixed during a run; the debugfs commands do not run.
- Calls into the kernel, the MHI core, regulators, clocks, the IOMMU, the QMI
  transport and the firmware appear as answers that are universally quantified
  (`hw`, `answer`, `alloc`, `choice`, ...), with only the effect the caller relies on.

## Where a property has a condition

Where one of these names a condition, it is proved in both directions, and is one a
caller or a maintainer can check.

- An event is leaked if a handler returns 2989, the value that marks a pending event,
  to a call that a signal has interrupted (`QuietMeansDone`, `NothingLostIff`);
  nothing else goes wrong then.
- The registration work ignores whether its CAL_DONE post fails; if it does,
  registration overtakes calibration (`RegisterAfterCalIff`).
- ARRIVE and EXIT alternate only if no ARRIVE post fails (`AlternatesIff`).
- The service can be connected again only while no EXIT has been lost: one whose post
  fails leaves QMI_DEL_SERVER set, and every later server is ignored (`CanReconnectIff`).
- A second power-up without a completed shutdown is refused INIT (`InitRefusedIff`,
  `SecondPowerupRefused`).
- RDDM_DONE survives power-off and deinit if MHI was not powered on (`PowerOffThenDeinit`).
- The link follows its use through a run as long as each operation meets the condition
  `KeepsStep`: no resume of the first user fails half-way, the last user's suspend goes
  through, and a suspend that is undone is undone completely (`LinkFollowsUseIff`).  A
  link left up with MHI suspended follows its use no longer, although nothing fails
  any more (`LeftSuspendedBreaksUse`).
- A get after a failed first get reports success although the link is down
  (`GetAfterFailedGet`).
- Sleep voltages below 5 wrap to about four billion (`SleepLevelIff`); a regulator
  whose name is contained in an earlier one gets no slot (`OwnSlotsIff`), one whose name
  has 32 characters or more a slot for every pin (`SlotFoundIff`); a refused wake
  message followed by an accepted sleep message goes unnoticed (`SendIff`).
- An IOVA mapping can be taken back as long as its address is not cut to 32 bits
  (`RunKeepsInvIff`), which a window below 2^32 with the geometry attribute ensures
  (`WindowNeverCuts`).  Only the last live mapping may be unmapped (`OutOfOrderIff`);
  without the geometry attribute map hands out ranges that unmap refuses
  (`MapThenUnmapIff`).
- Register offsets from 0x2000000 on alias; WLAON_INTR_ENABLE, 0x1F807040, is one
  (`ReachesIff`).
- A failed segment allocation moves the meta information's start off by one
  (`EntryRightIff`); an ELF32 file keeps only 32 bits of an address
  (`AddressReadsBackIff`).
- Clearing dump info leaves a region behind if its address cannot be found again
  (`ClearUndoesCollectIff`).
- An upload response that is not sent uses up its index, so the end comes too early
  (`SentAllIff`, `EndMeansSentIff`); the download bound holds for buffers below
  2^32 - 61440 bytes (`NoOverrunIff`).

Two results of the code differ from what the surrounding code suggests and are
modelled as they are: a failed allocation of the QDSS buffer returns a positive
ENOMEM, and an upload request for a wrong segment completes the transfer and is
served all the same.

## Model

| member | source | states |
|---|---|---|
| EventQueueProofs.MemorySafe | cnss2/main.c:833-879 | in every interleaving, whatever the handlers return, no event is used or freed when it is not allocated, and none is freed twice |
| EventQueueProofs.OnlyAllocatedAccessed | cnss2/main.c:809-879 | each event that a step reads, writes, links, unlinks or frees is allocated at that step |
| EventQueueProofs.HandledInOrder | cnss2/main.c:2219-2328 | events are handled in the order they were put on the list, each at most once, and only known types get there |
| EventQueueProofs.ReturnValue | cnss2/main.c:809-879 | a returned call has returned -EINVAL, -ENOMEM, 0 for async, its own event's handler result, or, if its wait can be interrupted, -EINTR |
| EventQueueProofs.ListedIff | cnss2/main.c:826-848 | a returned call has put its event on the list exactly if the event is of a known type and could be allocated, and otherwise returned -EINVAL or -ENOMEM |
| EventQueueProofs.HandledIff | cnss2/main.c:826-848 | once the queue is at rest, exactly the events of a known type that could be allocated have been handled |
| EventQueueProofs.RunIsBounded | cnss2/main.c:2204-2331 | a run in which n calls begin has at most 129 n steps, whatever the schedule |
| EventQueueProofs.RunsOn | cnss2/main.c:2204-2331 | nothing gets stuck: from every state of every run the calls and the worker can run on, without further calls, until all calls have returned and the worker sleeps |
| EventQueueProofs.StayAwakeCount | cnss2/main.c:252-276 | the stay-awake count is the calls between stay-awake and relax plus one while the worker is active, and never drops below zero |
| EventQueueProofs.QuietMeansDone | cnss2/main.c:2204-2331 | once all calls returned and the worker sleeps, every event on the list was handled, the count is zero, and each event was freed exactly once or leaked, the latter only if its handler returned 2989 and its call -EINTR |
| EventQueueProofs.NothingLostIff | cnss2/main.c:864-871 | no run ever leaves an event allocated for good, exactly if no handler returns the value that means pending |
| EventQueueProofs.RunKeepsInv | cnss2/main.c:833-879 | ownership of every event, the queue's history, the count and the wake-up hold in every state of every run |
| ColdBootCal.RegisterAfterCalIff | cnss2/pci.c:2974-3027 | with calibration enabled every REGISTER event is handled with COLD_BOOT_CAL_DONE set, in all runs, exactly if the work's CAL_DONE posts succeed |
| ColdBootCal.NeverBoth | cnss2/main.c:1940-2065 | IN_COLD_BOOT_CAL and COLD_BOOT_CAL_DONE are never both set, whatever posts fail |
| ColdBootCal.BegunStaysBegun | cnss2/main.c:1940-2065 | calibration once begun ends only in a handler that also marks it done |
| ColdBootCal.LostCalDoneRun | cnss2/pci.c:3007-3027 | a run in which a failed CAL_DONE post lets registration overtake calibration |
| ColdBootCal.RegisteredRun | cnss2/pci.c:3105-3130 | a driver that registers after calibration gets registered |
| ColdBootCal.CalStartHandled | cnss2/main.c:1940-2016 | what handling CAL_START ends with, for every outcome of its steps: unchanged, running, or marked done |
| ColdBootCal.CalDoneHandled | cnss2/main.c:2018-2065 | handling CAL_DONE ends a calibration that runs and marks it done, and changes nothing otherwise |
| ColdBootCal.OthersHandled | cnss2/main.c:2219-2328 | a REGISTER event carries out one registration, other events leave calibration alone |
| ColdBootCal.WorkerDrains | cnss2/main.c:2219-2328 | whatever the outcomes, the worker comes to handle all that is queued |
| ColdBootCal.RegistrationsConserved | cnss2/pci.c:2974-3130 | the registrations handled, being handled and queued are as many as were posted |
| ColdBootCal.AskedIffPassed | cnss2/pci.c:2974-3130 | a thread that has ended has tried to post a registration exactly if it passed its tests |
| ColdBootCal.RunKeepsInv | cnss2/pci.c:3105-3130 | every queued REGISTER has calibration done, being finished, or a CAL_DONE before it |
| WlfwServer.ArriveNeverUnexpected | cnss2/qmi.c:3009-3119 | no ARRIVE finds the service connected, and an EXIT stands between two ARRIVEs, whatever fails |
| WlfwServer.AlternatesIff | cnss2/qmi.c:3069-3119 | ARRIVE and EXIT strictly alternate in all runs exactly if no ARRIVE post fails |
| WlfwServer.CanReconnectIff | cnss2/qmi.c:3045-3119 | in every state of every run the service can be connected anew exactly if an EXIT is on its way, or the handle is alive and QMI_DEL_SERVER does not hide its servers |
| WlfwServer.LostExitRun | cnss2/qmi.c:3099-3119 | a run in which one failed post of an EXIT hides all later servers |
| WlfwServer.RunKeepsInv | cnss2/qmi.c:3045-3119 | while an EXIT is queued or handled QMI_DEL_SERVER stays set and nothing is queued behind it |
| PciDriver.PciDevice.SetMhiState | cnss2/pci.c:1766-1871 | nothing for a device without MHI, else permission check, core call with retries on busy, then the bit, equal to the transition function |
| PciDriver.PciDevice.Start | cnss2/pci.c:1873-1926 | prepare and power on, with POWER_ON forced on a time-out |
| PciDriver.PciDevice.SuspendBusCore | cnss2/pci.c:3258-3301 | MHI suspend then link down, undone when the link does not go down |
| PciDriver.PciDevice.ResumeBusCore | cnss2/pci.c:3303-3339 | link up then MHI resume, with the link-down indication on failure |
| PciDriver.PciDevice.AutoSuspendBus | cnss2/pci.c:3763-3797 | the driver's auto-suspend: the bus is suspended unless QMI uses it, and stays marked only if that went well |
| PciDriver.PciDevice.AutoResumeBus | cnss2/pci.c:3800-3827 | the driver's auto-resume: the mark is cleared only if the bus was resumed |
| PciDriver.PciDevice.QmiSendGet | cnss2/pci.c:3973-3990 | the first user of an auto-suspended device resumes the bus, and is counted whether that went well or not |
| PciDriver.PciDevice.QmiSendPut | cnss2/pci.c:3992-4011 | the last user of an auto-suspended, healthy device suspends the bus |
| PciDriver.PciDevice.BringUpDevice | cnss2/pci.c:2632-2698 | power and link with at most four retries on -EAGAIN |
| PciDriver.PciDevice.PowerupDevice | cnss2/pci.c:2632-2742 | the whole power-up with its clean-ups |
| PciDriver.PciDevice.ShutdownDevice | cnss2/pci.c:2744-2810 | the whole shutdown, with optional dump collection |
| PciDriver.PciDevice.CollectDumpInfo | cnss2/pci.c:5034-5144 | the conditions under which a dump is collected and what becomes valid |
| PciDriver.PciDevice.RamdumpDevice | cnss2/pci.c:2824-2845 | a valid dump is cleared and the device taken down, otherwise nothing happens |
| PciProofs.MhiRunOk | cnss2/pci.c:1647-1962 | any sequence of MHI operations keeps POWER_ON implying INIT, and SUSPEND, POWERING_OFF, TRIGGER_RDDM implying POWER_ON |
| PciProofs.AllowedIff | cnss2/pci.c:1647-1694 | a request is permitted exactly if it changes the MHI bits and keeps them in order; power-off, forced or not, and the end of a RAM dump by rules of their own |
| PciProofs.RequestIff | cnss2/pci.c:1766-1871 | a request succeeds and has its effect exactly if it is permitted and the core accepts it: a suspend after at most three busy answers, a RAM dump at the second try |
| PciProofs.PowerOffThenDeinit | cnss2/pci.c:1928-1962 | power-off then deinit is never refused and leaves at most RDDM_DONE, exactly when that was set without POWER_ON |
| PciProofs.LinkDownMeansSuspended | cnss2/pci.c:3763-4011 | under any interleaving and any failures, a link that is down belongs to an auto-suspended device with MHI SUSPEND set |
| PciProofs.StepKeptIff | cnss2/pci.c:3763-4011 | an operation keeps the link in step with its use exactly under a condition on the answers it gets |
| PciProofs.BusReturns | cnss2/pci.c:3763-4011 | what each bus operation returns and what its success and its errors mean for mark, link and count |
| PciProofs.GetAfterFailedGet | cnss2/pci.c:3973-3990 | after a first get that failed, the next one reports success with the link still down |
| PciProofs.LinkFollowsUseIff | cnss2/pci.c:3763-4011 | in every state of a run the link is up exactly while not auto-suspended or in use, and MHI suspended exactly while it is down, exactly if every operation meets that condition |
| PciProofs.LinkFollowsUse | cnss2/pci.c:3763-4011 | when nothing fails, the device is not reported down and the 32-bit count does not wrap, the link is up exactly while not auto-suspended or in use |
| PciProofs.LeftSuspendedBreaksUse | cnss2/pci.c:3258-3339 | a link that is up with MHI left suspended stops following its use in some run without further failures |
| PciProofs.InitRefusedIff | cnss2/pci.c:2632-2742 | when a power-up asks for INIT although the bit is set |
| PciProofs.TearDownClears | cnss2/pci.c:2787-2792 | the common clean-up clears INIT and power and keeps the bits in order |
| PciProofs.BringUpIff | cnss2/pci.c:2652-2692 | power and link come up exactly if one of at most five attempts has power and a link that answers, after attempts that had power and failed in training only |
| PciProofs.BringUpEnds | cnss2/pci.c:2652-2692 | what a bring-up returns otherwise, powered off: the first power error, the link's error, or -EAGAIN after five failed trainings |
| PciProofs.IgnoredLinkFailure | cnss2/pci.c:2663-2668 | with the quirk that ignores link failures there is one attempt, which returns 0 and stays powered |
| PciProofs.StartIff | cnss2/pci.c:1873-1926 | from clean bits MHI is initialised exactly if prepared, powered on exactly if it then boots or times out; the result in each case |
| PciProofs.PowerupIff | cnss2/pci.c:2632-2742 | a power-up ends with power, link and MHI on exactly if power and link come up, MHI is prepared and boots or times out, and no probe fails; and what it returns |
| PciProofs.PreparedIs | cnss2/pci.c:2640-2649 | a power-up starts unused and without the dump an earlier run left |
| PciProofs.PowerupPreserves | cnss2/pci.c:2632-2742 | a permitted power-up keeps INIT and a valid dump implying power, whatever the hardware answers |
| PciProofs.ShutdownPreserves | cnss2/pci.c:2744-2810 | a shutdown that does not return -EAGAIN leaves INIT clear or a valid dump |
| PciProofs.ShutdownEnds | cnss2/pci.c:2744-2810 | a shutdown that may proceed ends powered off, or with a valid dump kept or collected, not auto-suspended, with the result of the driver or the link |
| PciProofs.CollectIff | cnss2/pci.c:5034-5144 | a dump is collected exactly if there is none since power-on, the device can be reached and the download succeeds; it is valid if it has entries |
| PciProofs.CollectOnce | cnss2/pci.c:5034-5060 | a dump that has been collected is not collected again |
| PciProofs.RamdumpEnds | cnss2/pci.c:2824-2845 | a dump that was written out is gone and the device off |
| PciProofs.LifeRunOk | cnss2/pci.c:2632-2845 | the lifecycle invariant in every run in which a power-up follows a power-up only after a shutdown that did not return -EAGAIN |
| PciProofs.NeverRefused | cnss2/pci.c:2632-2845 | in every such run INIT and a valid dump imply power, and no power-up is refused INIT |
| PciProofs.SecondPowerupRefused | cnss2/pci.c:2632-2698 | a second power-up, or one after a shutdown that returned -EAGAIN, is refused INIT |
| PowerDriver.PlatPower.On | cnss2/power.c:419-444 | enable in list order, reverse rollback at the first failure |
| PowerDriver.PlatPower.PowerOnDevice | cnss2/power.c:1073-1118 | regulators, clocks, pins, with rollback of all that came before |
| PowerDriver.PlatPower.PowerOffDevice | cnss2/power.c:1120-1132 | clocks then regulators, each in reverse |
| PowerProofs.OnPlays | cnss2/power.c:728-753 | switching on leaves exactly the valid rails on, or none, and undoes last in first out |
| PowerProofs.PowerOnAgrees | cnss2/power.c:1073-1118 | power-on enables every valid rail or leaves all disabled, whichever call fails |
| PowerProofs.PowerOnIff | cnss2/power.c:1073-1118 | a power-on succeeds exactly if power is on already, or the board is not disabled and every valid regulator, every valid clock and the pins answer; otherwise it returns the first error in this order |
| PowerProofs.PowerOffAgrees | cnss2/power.c:1120-1132 | power-off disables the enabled rails in exactly the reverse order of their enabling |
| PowerProofs.PowerRunAgrees | cnss2/power.c:1073-1132 | powered_on agrees with every enable flag in every reachable state |
| OlCprDriver.PlatVregs.Aggregate | cnss2/power.c:1441-1477 | the slot loop: first free or matching slot, maxima, highest index |
| OlCprDriver.PlatVregs.Collect | cnss2/power.c:1411-1478 | the parameter loop fills the table as the fold over mapped parameters |
| OlCprDriver.PlatVregs.Send | cnss2/power.c:1480-1499 | the message loop, stopping at a slot whose last answer is an error |
| OlCprDriver.PlatVregs.Setup | cnss2/power.c:1384-1503 | the call with its early returns and its once-only flag |
| OlCprProofs.WakeLevelIff | cnss2/power.c:1451-1455 | the wake level is the voltage rounded up to 4 plus 14, exactly below the last 15 voltages |
| OlCprProofs.SleepLevelIff | cnss2/power.c:1456-1460 | the sleep level is the voltage rounded up to 4 minus 6, exactly from 5 on |
| OlCprProofs.TableFilled | cnss2/power.c:1441-1449 | slots fill from the first on, within 16, and no name contains a later one |
| OlCprProofs.RequestsAtMost | cnss2/power.c:1411-1433 | 16 parameters make at most 16 requests, so none finds the table full |
| OlCprProofs.TableHolds | cnss2/power.c:1411-1478 | under the same condition each regulator asked for has one slot with the maxima over its pins, and no other slot is used |
| OlCprProofs.MappedIff | cnss2/power.c:1424-1431 | a pin belongs to the regulator of the first map entry whose pin name contains it, and to none exactly if no entry's does |
| OlCprProofs.SlotFoundIff | cnss2/power.c:1441-1449 | a regulator finds its own slot again exactly if its name has fewer than 32 characters |
| OlCprProofs.OneSetupSends | cnss2/power.c:1384-1410 | of any calls, the first that has the configuration sends everything, and none does without a map or a mailbox |
| OlCprProofs.OwnSlotsIff | cnss2/power.c:1444-1449 | every regulator gets its own slot exactly if no earlier name contains its name |
| OlCprProofs.SendIff | cnss2/power.c:1480-1499 | what is sent is a prefix of what is due; all of it, with success, exactly if each slot's last message is accepted |
| OlCprProofs.EachRegulatorOnce | cnss2/power.c:1384-1503 | with at most 16 parameters, names that fit and none containing a later one, each regulator is sent once per sequence the maximum of the levels of exactly the parameters whose voltage is valid and whose pin belongs to it, no other any |
| SmmuDriver.SmmuIova.Map | cnss2/pci.c:4303-4346 | round, check the window, map, advance the pointer, with the error codes |
| SmmuDriver.SmmuIova.Unmap | cnss2/pci.c:4362-4384 | round, check, unmap, move the pointer back |
| SmmuProofs.MapTranslates | cnss2/pci.c:4303-4346 | the returned address, if it fits in 32 bits, translates byte for byte to the physical range |
| SmmuProofs.LengthRecomputed | cnss2/pci.c:4362-4384 | unmap recomputes the mapped length, even from an address that was cut |
| SmmuProofs.UnmapRecomputesIff | cnss2/pci.c:4362-4384 | unmap recomputes the mapped IOVA exactly if the address was not cut to 32 bits |
| SmmuProofs.MapThenUnmapIff | cnss2/pci.c:4303-4384 | if the address fits in 32 bits and the IOMMU unmaps whole ranges, map then unmap restores pages and pointer exactly if the range starts inside the window |
| SmmuProofs.MapKeptIff | cnss2/pci.c:4303-4346 | a mapping above the pointer is always fresh, and keeps the stack of live mappings exactly if its address was not cut to 32 bits |
| SmmuProofs.UnmapLiveIff | cnss2/pci.c:4362-4384 | unmapping a live mapping succeeds exactly if it starts in the window, nothing of it is gone and the IOMMU removes it whole; the pages removed and the pointer in each case |
| SmmuProofs.UnmapPreserves | cnss2/pci.c:4362-4384 | unmapping the last live mapping, refused, partial or complete, keeps the others |
| SmmuProofs.RunKeepsInvIff | cnss2/pci.c:4279-4385 | for every window, under last-in-first-out unmapping: in all states live mappings are aligned, disjoint, below the pointer and found again from their addresses, and the page table is what is left of them, exactly if no address was cut to 32 bits |
| SmmuProofs.WindowNeverCuts | cnss2/pci.c:4306-4314 | a window below 2^32 with the geometry attribute never hands out an address that is cut |
| SmmuProofs.RunStaysPacked | cnss2/pci.c:4303-4384 | then the live mappings also stand side by side from the start of the window: no IOVA space is ever lost |
| SmmuProofs.NoSpaceIff | cnss2/pci.c:4303-4341 | so a mapping lacks space exactly if the live mappings reach the end of the window, and otherwise starts right behind them or returns the IOMMU's error and changes nothing |
| SmmuProofs.OutOfOrderIff | cnss2/pci.c:4362-4384 | unmapping keeps the others below the pointer exactly if it was the last one |
| RegWindowDriver.RegisterAccess.SelectWindow | cnss2/pci.c:805-831 | the window of an offset is written to the remap register and remembered |
| RegWindowDriver.RegisterAccess.Read | cnss2/pci.c:833-868 | link check outside interrupts, direct or windowed read |
| RegWindowDriver.RegisterAccess.Write | cnss2/pci.c:870-902 | link check outside interrupts, direct or windowed write |
| RegWindowProofs.SelectDecodes | cnss2/pci.c:805-811 | after selection the masked address decodes to the register, whatever was selected before |
| RegWindowProofs.WriteRefines | cnss2/pci.c:870-902 | a write changes its own offset and nothing else clients see; refused without effect on a link known to be down, lost on a dead one |
| RegWindowProofs.ReadRefines | cnss2/pci.c:833-868 | a read returns the register named, or all ones from a dead device with interrupts off, and changes nothing clients see |
| RegWindowProofs.RefinesFlatFile | cnss2/pci.c:779-902 | every sequence of accesses below 0x2000000, the remap register excepted, behaves as on one flat register file, however the link changes in between |
| RegWindowProofs.ReachesIff | cnss2/reg.h:74-79 | a write reaches its own register exactly below 0x2000000 |
| RegWindowProofs.RemapOverwritten | cnss2/pci.c:805-831 | why the remap register is the exception: any windowed access rewrites it with the window the driver remembers |
| DumpInfoDriver.DumpInfo.Collect | cnss2/pci.c:5083-5142 | the segments and minidump regions recorded, in order, when the dump becomes valid, and that a table too small is written past |
| DumpInfoDriver.DumpInfo.Clear | cnss2/pci.c:5150-5195 | the regions removed and the dump made invalid |
| DumpInfoProofs.SegmentsStandFor | cnss2/pci.c:5097-5142 | the no-th segment of a kind has address, pointer and size of the no-th image buffer, RDDM buffer or contiguous heap, and there are no others |
| DumpInfoProofs.NamesAre | cnss2/main.c:3082-3099 | the name of the no-th region of a kind is its label and number, or what of them fits |
| DumpInfoProofs.HexReads | cnss2/main.c:3082-3099 | a number printed in hexadecimal is read back |
| DumpInfoProofs.RegionsAre | cnss2/pci.c:4889-4910 | a region added has pointer and size of its source and the physical address found |
| DumpInfoProofs.NamesDiffer | cnss2/main.c:3082-3099 | region names of different kinds or running numbers differ, if they fit the name buffer |
| DumpInfoProofs.ItemsDistinct | cnss2/pci.c:5097-5142 | no two segments of a collection share a region name, if the names fit |
| DumpInfoProofs.ClearUndoesCollectIff | cnss2/pci.c:5097-5195 | from a table without their names, clearing removes exactly the regions collection added and leaves all others, exactly if each region added is found again |
| DumpInfoProofs.SameAddressesSuffice | cnss2/pci.c:5097-5195 | that is so, whatever the names and failures, when clearing finds the addresses collection found |
| RamdumpDriver.ListSegments | cnss2/main.c:2736-2760 | the list and entries the loop builds, unknown types and failed allocations included |
| RamdumpDriver.DoElfRamdump | cnss2/main.c:2721-2786 | nothing when dumping is not enabled, else the file written for a dump, with the meta segment first, or the error |
| RamdumpProofs.CollectionGroups | cnss2/pci.c:5097-5142 | collection keeps the segments of a type together |
| RamdumpProofs.EntryRightIff | cnss2/main.c:2736-2760 | in a dump grouped by type an entry names exactly the headers of its type, exactly if no allocation failed up to its first segment |
| RamdumpProofs.EntriesOf | cnss2/main.c:2736-2773 | without failures an entry starts at the first header of its type and counts its sources |
| RamdumpProofs.SourcesFound | cnss2/main.c:2721-2786 | a tool that reads only the file finds, for the no-th source of each kind, the bytes its pointer leads to, or without one those at its physical address, or 0xff |
| RamdumpProofs.MetaFound | cnss2/main.c:2762-2773 | the first segment is the meta information: magic, version, chipset, three entries, each naming its type, first header and number |
| RamdumpProofs.EntryOfNone | cnss2/main.c:2730-2760 | the entry of a type without segments stays zero |
| RamdumpProofs.FoundWithoutMeta | cnss2/main.c:2762-2776 | without the meta information the file holds the sources alone, in collection order |
| ElfDumpDriver.QcomElfDump | cnss2/main.c:2606-2712 | error codes, and a file of exactly the computed size holding header, program headers and bytes |
| ElfDumpProofs.FitsIff | cnss2/main.c:2541-2566 | a field of n bytes gives back its value exactly if the value fits |
| ElfDumpProofs.ReadField | cnss2/main.c:2541-2566 | each field of a header is read back at its offset, as far as its width keeps it |
| ElfDumpProofs.ReadsHeader | cnss2/main.c:2629-2676 | every field of the file's ELF header is read back: magic, class, type, sizes, place and number of the program headers, zero elsewhere |
| ElfDumpProofs.ExtentsTile | cnss2/main.c:2677-2708 | the extents tile the file after the headers, without gap or overlap, and hold the bytes in memory, in mapped device memory, or 0xff |
| ElfDumpProofs.ReadsPhdr | cnss2/main.c:2678-2690 | program header i read back is the one written, as far as the class keeps it |
| ElfDumpProofs.ReadsBackIff | cnss2/main.c:2644-2712 | every segment's place and bytes are read back exactly if there are fewer than 65536 and all fit the class |
| ElfDumpProofs.SmallFilesFit | cnss2/main.c:2656-2666 | in a file shorter than the class addresses, everything fits |
| ElfDumpProofs.AddressReadsBackIff | cnss2/main.c:2683-2684 | a segment's address is read back exactly if it fits the class |
| IpcFileDriver.FileData.UploadRequest | cnss_utils/cnss_plat_ipc_qmi.c:342-408 | the upload handler: index, length, end, and what a failed send leaves |
| IpcFileDriver.FileData.DownloadRequest | cnss_utils/cnss_plat_ipc_qmi.c:488-558 | the download handler: the three refusals, the copy and the counters |
| IpcFileDriver.FileUpload | cnss_utils/cnss_plat_ipc_qmi.c:269-326 | the upload call: 0 exactly if the end was sent; requests that come after it gave up are not served |
| IpcFileDriver.FileDownload | cnss_utils/cnss_plat_ipc_qmi.c:419-471 | the download call: the size received, and 0 exactly if the end came |
| IpcFileProofs.UploadKeeps | cnss_utils/cnss_plat_ipc_qmi.c:360-405 | for any number of requests, offset plus rest is the file size, the segments sent are the file up to the offset, and the index counts the requests served modulo 2^32 |
| IpcFileProofs.SentAllIff | cnss_utils/cnss_plat_ipc_qmi.c:360-405 | after any requests the whole file was sent exactly if as many responses were sent as it has segments |
| IpcFileProofs.EndMeansSentIff | cnss_utils/cnss_plat_ipc_qmi.c:381-402 | the end is reported when the 32-bit index comes to the number of segments; before the index has gone round, the whole file was then sent exactly if no response was lost |
| IpcFileProofs.UploadEndsIff | cnss_utils/cnss_plat_ipc_qmi.c:360-405 | the end is reported exactly if the last response was sent, and the caller is woken exactly then or when a wrong segment is asked for |
| IpcFileProofs.LateUploadIgnored | cnss_utils/cnss_plat_ipc_qmi.c:360-367 | requests to a transfer its caller has given up are not served |
| IpcFileProofs.LateDownloadIgnored | cnss_utils/cnss_plat_ipc_qmi.c:508-515 | nor do they write into the buffer |
| IpcFileProofs.UploadDelivers | cnss_utils/cnss_plat_ipc_qmi.c:193-198 | served requests deliver ceil(size / 61440) segments in order, only the last marked as the end |
| IpcFileProofs.TransferRoundTrip | cnss_utils/cnss_plat_ipc_qmi.c:360-557 | what an upload with all responses sent delivers, a download into a large enough buffer rebuilds, leaving the rest of the buffer alone |
| IpcFileProofs.DownloadKeeps | cnss_utils/cnss_plat_ipc_qmi.c:516-557 | for any requests to a buffer below 2^32 - 61440 bytes, exactly those are taken that fit and have the next number; the buffer holds their bytes, the size is their number, and the caller is woken by the last or a refused one |
| IpcFileProofs.NoOverrunIff | cnss_utils/cnss_plat_ipc_qmi.c:521-526 | no requests write past the buffer exactly if it is smaller than 2^32 - 61440 bytes |
| QdssDriver.GenlSendMsg | cnss2/genl.c:157-197 | segmentation with two tries per message |
| QdssDriver.QdssDataSendSync | cnss2/qmi.c:1096-1219 | the fetch loop with all its refusals, then the messages |
| QdssProofs.DueIsRight | cnss2/genl.c:169-194 | the messages carry the buffer in order, ceil(size / 15360) of them, numbered, only the last marked as the end |
| QdssProofs.SendIff | cnss2/genl.c:169-194 | what gets through is a prefix of what is due; all of it exactly if each message is accepted within two tries |
| QdssProofs.FetchIff | cnss2/qmi.c:1126-1189 | the fetch succeeds exactly if some first exchanges are a whole trace, and then yields their bytes |
| QdssProofs.FetchReturns | cnss2/qmi.c:1126-1189 | the error of every fetch: of the exchange that fails or is refused, -1 at a wrong response or an end mark that does not meet the size, a time-out |
| QdssProofs.FetchAndSendReturns | cnss2/qmi.c:1107-1219 | what the call returns when an allocation, the fetch or a message fails |
| QdssProofs.FetchAndSendIff | cnss2/qmi.c:1124-1203 | success exactly if the firmware gave a whole trace and every message got through; the messages then carry its segments byte for byte |
| QdssProofs.DeliveredIsPrefix | cnss2/qmi.c:1191-1210 | whatever fails, what got through is a prefix of what the whole trace would have sent, and nothing if there was no whole trace |

## Left out

- Kernel, PCIe, MHI, regulator, clock, IOMMU, QMI and netlink internals: foreign code, present only as answers.
- Timers, sleeps and time-outs as time, and fair scheduling: what is claimed about progress is that runs are bounded and can always go on.
- debugfs, sysfs, logging and name tables: user interface; the debugfs commands set state bits directly.
- QMI element tables, the other request wrappers of `cnss2/qmi.c`, and `cnss2/bus.c`: data and dispatch.
- System suspend and resume, probe and remove, and recovery from a link loss: they bypass the bus-suspend protocol.
- `icnss2`, `cnss_prealloc`, `cnss_utils.c`, `cnss_nl.c`: near copies of modelled code or getters and setters.
- Memory ordering: each step of the three protocols is atomic and in program order.
- Whether MHI is powered off gracefully or by force: the request differs, its effect on the bits does not.
- The register lock: window selection and access are one step; taking no lock in panic is not modelled.
- The 64-character limit of an AOP message and the signed printing of its value: a message is its regulator, sequence and value.
- SmmuDriver.SmmuIova.Map: sizes and addresses are unbounded; 64-bit wrap-around of their sums is not modelled.
- QdssDriver.QdssDataSendSync: the exchanges are a finite sequence, and a fetch that outlasts them counts as timed out; a response is what the response structure holds after the wait.
- WlfwServer.AlternatesIff: a server announced by two handles at once is not modelled; a handle's callbacks alternate.
