# ObsBox driver core in Dafny

This project models the acquisition and DMA engine of the ObsBox Linux driver.
ObsBox is an FMC board read through a GN4124 DMA engine and driven through
the ZIO framework. The model covers:

- **ObsRegs** (`registers.dfy`) models the register field accessor of
  `kernel/obsbox.h` and the `ob_regs[]` descriptor table of
  `kernel/obsbox-regtable.c`:
  - registers are `bv32` words and a field is an (offset, mask, is_bitfield)
    descriptor;
  - `ob_readl` is `ReadField`;
  - `ob_writel`'s read-modify-write is `WriteField`;
  - the C code multiplies and divides by the mask's lowest set bit, and the
    model shifts instead. `ShiftIsMultiplication` proves the writer's shift
    is the C product for every nonzero mask, and `ReadIsDivision` proves the
    reader's shift is the C quotient for every bitfield of the table.
- **DmaDesc** (`dmadesc.dfy`) models the hardware DMA descriptor
  (`struct gncore_dma_item`) and what `gncore_dma_fill` stores in one record:
  - `FillItem` fills one record;
  - `FillAll` is the pool after the fill has run on each segment in turn;
  - `FillAllChain` proves that a chain of segments becomes a linked list of
    descriptors.
- **ObsBus** (`bus.dfy`) models the FMC bus and a trace of what the driver
  does outside its own memory:
  - the trace holds every `fmc_writel` plus every call into ZIO or the
    carrier (arm, abort, data done, DMA allocate/map/unmap/free, IRQ
    acknowledge);
  - the trace also holds every word the hardware stores in a register (a
    status bit raised, the address of a new page), as `HwWrite` events;
  - the register file is the file found at probe time with the trace's
    stores replayed;
  - each interrupt controller's enable status is its initial status with
    every enable-mask and disable-mask write of the driver applied.
- **ObsEvents** (`events.dfy`) models, as a function, the exact bus traffic
  of each C function, plus lemmas on what that traffic does:
  - which registers end up holding which values;
  - which interrupts end up masked;
  - when the trigger is aborted;
  - where the acknowledge comes.
- **ObsDevice** (`device.dfy`) models `struct ob_dev`, together with the
  bits of the ZIO channel set and trigger that the driver touches, as the
  class `ObsBox`:
  - it has one method per C function, which runs to completion;
  - each method states the events it appends to the trace and its effect on
    the counters `errors`, `c_err` and `done`, on the channel set's
    `ZIO_CSET_HW_BUSY` and `ZIO_CSET_SELF_TIMED` bits, on the trigger's
    armed bit and on `ob->flags`;
  - the descriptor pool is an `array` that `Fill` updates in place;
  - the interrupt handlers' counter updates are also given as functions on a
    `Tally` value, with lemmas on them.

What the ZIO framework and the carrier report is a parameter of the method
that calls them:

- `DmaEnv` carries:
  - whether the channel has an active block;
  - whether `zio_dma_alloc_sg` and `zio_dma_map_sg` succeed;
  - the pool's bus address and initial contents;
  - the segments the mapper hands to the fill callback;
  - whether the trigger is still armed once `zio_trigger_data_done` has
    returned on `ob_run_dma`'s failure path (`armedAfterDone`).
- `rearmOutcome` is what `zio_trigger_data_done` returns in the DMA
  handler, and `armedAfterDone` whether the trigger is still armed after it.
  ZIO, not the driver, decides that bit (a streaming trigger is rearmed
  there), so the model never assumes it is left alone.
- `armOutcome` is whether `zio_arm_trigger` leaves the trigger armed.
- `dmaReq` and `coreReq` are what the carrier's `irq_request` returns.
- `dma64Ok` and `dma32Ok` are whether `dma_set_mask` accepts 64-bit and
  32-bit addressing.

Where the driver's comments or its evident intent differ from the code, the
model follows the code:

- `c_err` is reset when a DMA transfer starts (`kernel/obsbox-irq.c:132`),
  not when it completes.
- A page dropped because a transfer is still running bumps `errors` but not
  `c_err`.
- A failed transfer does not stop the acquisition by itself. Only
  `ob_check_errors` stops it, when `c_err >= 5 || errors >= 20`.
- The minimum page size is the literal 0x800, although the comment says
  "1MB".
- A full-register write stores the user value unmasked.
- Stopping the acquisition leaves `OB_FLAG_RUNNING` as it was.
- The last descriptor of a chain gets attribute 0 and keeps its old link
  words.
- `ob_probe` ignores the result of `ob_init_irq`.
- `OB_FLAG_STOPPING` is tested by both handlers but is neither defined nor
  set anywhere in the driver:
  - the model gives it bit 1 of `flags`;
  - nothing in the model sets it;
  - every handler contract holds for either value.

## Model

| member | source | states |
|---|---|---|
| ObsRegs.Desc | kernel/obsbox-regtable.c:9-44 | the descriptor table `ob_regs[]`: offset, mask and bitfield flag of every register field |
| ObsRegs.ReadField | kernel/obsbox.h:119-134 | `ob_readl` past the bus read: a bitfield is masked and moved down to bit 0, a full register is only masked |
| ObsRegs.WriteField | kernel/obsbox.h:136-158 | the word `ob_writel` stores: for a bitfield, the shifted value cut to the mask over the old word's other bits; for a full register, the value as given |
| ObsRegs.Overflows | kernel/obsbox.h:149-153 | the condition of the "doesn't fit mask" warning: the shifted value, after 32-bit wrap-around, has a bit outside the mask |
| ObsRegs.TrailingZeros | kernel/obsbox.h:129 | the shift amount that stands for the divisor `mask & -mask` is at most 32 |
| ObsRegs.LowBitIsPower | kernel/obsbox.h:129 | `mask & -mask` is 2 to the number of trailing zeros of the mask, or 0 for a zero mask |
| ObsRegs.ShiftIsMultiplication | kernel/obsbox.h:149 | the writer's `usr_val * (mask & -mask)`, with 32-bit wrap-around, equals the left shift by the mask's trailing zeros |
| ObsRegs.TableShiftAmounts | kernel/obsbox-regtable.c:11-43 | the shift amounts of the table's bitfield masks are 0, 1, 2, 8, 9, 10, 11, 12 and 13 |
| ObsRegs.DivisionByPowers | kernel/obsbox.h:129 | unsigned division by each lowest set bit of the table's masks equals the right shift by that bit's position |
| ObsRegs.ReadIsDivision | kernel/obsbox.h:125-129 | for every bitfield of the table, the model's read is `(raw & mask) / (mask & -mask)`, the C reader's formula, and the divisor is nonzero |
| ObsRegs.ReadIsDivisionAt | kernel/obsbox.h:125-129 | the same formula for any bitfield descriptor whose mask is one of the table's nine bitfield masks |
| ObsRegs.TableMasks | kernel/obsbox-regtable.c:9-44 | bitfields of the table have one of nine single-run masks; full-register fields have 0xFFFFFFFF, 0x3 or 0x7 |
| ObsRegs.MaskNonzero | kernel/obsbox-regtable.c:11-43 | every mask of the table is nonzero |
| ObsRegs.TableMasksContiguous | kernel/obsbox-regtable.c:11-43 | every descriptor has a nonzero mask and a nonzero divisor, and every mask is one contiguous run of bits |
| ObsRegs.MaskContiguous | kernel/obsbox-regtable.c:11-43 | each mask value used by the table is nonzero and contiguous |
| ObsRegs.ReadBitfieldBound | kernel/obsbox.h:125-130 | a bitfield read never exceeds mask / lowbit, the field's largest value |
| ObsRegs.ReadFullRegister | kernel/obsbox.h:130-133 | a full-register read is the raw word masked, unshifted |
| ObsRegs.WriteFieldFrame | kernel/obsbox.h:146-155 | a bitfield write keeps every bit outside the mask and stores the in-mask bits of the shifted value, even when the value overflows |
| ObsRegs.WriteFullRegister | kernel/obsbox.h:143-157 | a full-register write stores the user value exactly, whatever the register held |
| ObsRegs.ReadBitfieldMasked | kernel/obsbox.h:125-130 | a bitfield read depends only on the bits under its mask |
| ObsRegs.ReadFullMasked | kernel/obsbox.h:130-133 | a full-register read depends only on the bits under its mask |
| ObsRegs.WriteThenRead | kernel/obsbox.h:125-155 | writing a value that fits a bitfield raises no warning, and reading the field back returns that value |
| ObsRegs.BitfieldRoundTrip | kernel/obsbox.h:125-155 | the same read-after-write round trip for any descriptor with one of the table's bitfield masks |
| ObsRegs.WriteThenReadFull | kernel/obsbox.h:130-157 | a full-register write followed by a read returns the value masked |
| ObsRegs.OverflowWarningMissed | kernel/obsbox.h:149-154 | the overflow warning tests the product after 32-bit wrap-around: 0x40000001 written to DMA_CTL_SWP exceeds the field yet raises no warning and stores 1 |
| ObsRegs.WritePreservesOtherField | kernel/obsbox.h:146-155 | writing one bitfield leaves the value read from any other bitfield of the same register unchanged |
| ObsRegs.WriteOtherBitfield | kernel/obsbox.h:146-155 | the same for any two bitfield descriptors with disjoint masks |
| ObsRegs.AcqCtrlBitsDisjoint | kernel/obsbox-regtable.c:11-17 | the seven ACQ_CTRL bits share offset 0 with pairwise disjoint single-bit masks, each holding 0 or 1 |
| ObsRegs.DmaCtlFieldsDisjoint | kernel/obsbox-regtable.c:32-34 | DMA_CTL_SWP, DMA_CTL_ABORT and DMA_CTL_START share offset 0 with disjoint masks |
| ObsRegs.SwapValueFits | kernel/obsbox-irq.c:129 | the byte-swap value 2 fits the 2-bit SWP field, so writing it raises no warning |
| ObsRegs.StartSequence | kernel/obsbox-irq.c:128-131 | after SWP := 2 then START := 1 on any DMA_CTL word, SWP reads 2 and START reads 1 |
| ObsRegs.BranchFieldsDisjoint | kernel/obsbox-regtable.c:42-43 | writing DMA_BR_LAST preserves DMA_BR_DIR, and an attribute of 0 or 1 reads back as written |
| ObsRegs.IrqStatusBound | kernel/obsbox-regtable.c:25-30 | both interrupt-source fields are full fields at 0x0C with mask 3, so a status read is at most 3 |
| ObsRegs.HeadRegistersLayout | kernel/obsbox-regtable.c:36-41 | DMA_ADDR through DMA_NEXT_H are full 32-bit fields at 0x08 to 0x1C, four bytes apart |
| DmaDesc.SplitJoin | kernel/obsbox-irq.c:32-33 | splitting a 64-bit address into high and low words and joining them gives it back, and the other way round |
| DmaDesc.FillItem | kernel/obsbox-irq.c:30-45 | the filled record:<br>- carries the device offset, the length and the joined bus address of the segment;<br>- a non-last segment gets attribute 1 and links to pool + 32 * (index + 1), with the index wrapping at 2^32;<br>- the last segment gets attribute 0 and keeps its link words;<br>- the reserved word is untouched |
| DmaDesc.FillAll | kernel/obsbox-irq.c:22-72 | filling segments one after the other keeps the pool's size |
| DmaDesc.FillAllAt | kernel/obsbox-irq.c:22-45 | when the fill runs once per record in order, record i is the fill of segment i and later records are untouched |
| DmaDesc.FillAllChain | kernel/obsbox-irq.c:30-45 | a chain of N segments in N records:<br>- becomes a linked descriptor list in which each record carries its segment;<br>- every record but the last is marked "more items" and points at the next;<br>- the last is marked 0 with its old link words |
| ObsBus.EnableEvents | kernel/obsbox.h:161-174 | ob_enable_irq's traffic: OBS_IRQ_ACQ to the acquisition enable mask, then 3 to the DMA enable mask |
| ObsBus.DisableEvents | kernel/obsbox.h:176-189 | ob_disable_irq's traffic: 3 to the acquisition disable mask, then 3 to the DMA disable mask |
| ObsBus.StopEvents | kernel/obsbox-zio.c:43-46 | the stop command's traffic: ob_disable_irq's writes, then the trigger abort |
| ObsBus.DisableMasksAll | kernel/obsbox.h:176-189 | after ob_disable_irq every acquisition and DMA interrupt is masked, whatever came before |
| ObsBus.EnableMasksOn | kernel/obsbox.h:161-174 | after ob_enable_irq the page-ready interrupt and both DMA interrupts are enabled, and the trigger interrupt's enable bit is as before |
| ObsBus.StopMasksAll | kernel/obsbox-zio.c:43-46 | after a stop every interrupt is masked |
| ObsEvents.PageSizeOk | kernel/obsbox.h:195 | the page sizes `ob_set_page_size` accepts: OB_MIN_PAGE_SIZE <= size < OB_MAX_PAGE_SIZE |
| ObsEvents.MustStop | kernel/obsbox-irq.c:168 | the condition on which `ob_check_errors` stops: not (`c_err < 5 && errors < 20`) |
| ObsEvents.StartEvents | kernel/obsbox-zio.c:47-78 | the start command's traffic: GTP reset, then either nothing more (rejected size) or the page-size write, the mask, the arm and, if armed, the unmask |
| ObsEvents.HeadEvents | kernel/obsbox-irq.c:47-64 | the head record's traffic: the six words to offsets 0x08 to 0x1C, then the attribute into DMA_BR_LAST |
| ObsEvents.ArmEvents | kernel/obsbox-zio.c:68-77 | the tail of the start command: mask, arm the trigger, then unmask only if it armed |
| ObsEvents.MapEvents | kernel/obsbox-irq.c:121-122 | the mapping's traffic: the fill callback's events on each segment in turn, each from the registers and pool the earlier calls left |
| ObsEvents.FillEvents | kernel/obsbox-irq.c:47-64 | one fill call's traffic: the head record for record 0, nothing for any other |
| ObsEvents.KickEvents | kernel/obsbox-irq.c:128-131 | byte swap 2, then START 1, both written to DMA_CTL |
| ObsEvents.DmaEvents | kernel/obsbox-irq.c:74-145 | ob_run_dma's traffic for each outcome: data done alone, allocation then data done, allocation, mapping, free then data done, or allocation, mapping and the transfer |
| ObsEvents.TransferEvents | kernel/obsbox-irq.c:121-131 | the fill's writes, then the kick from the registers they left |
| ObsEvents.StatusEvents | kernel/obsbox-irq.c:147-160 | the status write-back, present only for a nonzero status |
| ObsEvents.DoneEvents | kernel/obsbox-irq.c:201-229 | the DMA handler's traffic past the status write-back: unmap, free, data done, the two possible stops, then the acknowledge |
| ObsEvents.DmaIrqEvents | kernel/obsbox-irq.c:182-232 | the DMA handler's traffic: the write-back, then for a nonzero status unmap, free and data done, a stop for a completed transfer that is not rearmed, a stop when the error check fires, and the acknowledge |
| ObsEvents.CoreIrqEvents | kernel/obsbox-irq.c:238-271 | the page handler's traffic: the write-back, then nothing without the page-ready bit, the stop with OB_FLAG_STOPPING, and the page's events otherwise |
| ObsEvents.PageEvents | kernel/obsbox-irq.c:254-268 | the page's traffic: the transfer when armed, the stop when the error check fires, then the acknowledge |
| ObsEvents.ProbeEvents | kernel/obsbox-zio.c:192-199 | probe's traffic: the page-size write, then the mask of ob_init_irq |
| ObsEvents.HardwareStoreRead | kernel/obsbox-irq.c:147-152 | whatever the driver did before, a word the hardware stores in a register is what the next read of that register's fields returns |
| ObsEvents.PutThenField | kernel/obsbox.h:119-158 | after ob_writel of a fitting value to a bitfield, a later ob_readl of it returns the value, as long as no later event writes that register |
| ObsEvents.StartResetsGtp | kernel/obsbox-zio.c:53-78 | after the start command the GTP reset bit reads 1, whether or not the page size is accepted |
| ObsEvents.StartSetsPageSize | kernel/obsbox-zio.c:57-60 | after a start with an accepted page size, ACQ_PAGE_SIZE reads that size |
| ObsEvents.StartRejected | kernel/obsbox-zio.c:57-60 | a rejected page size ends the start command: the trigger is never armed and neither interrupt mask moves |
| ObsEvents.StartArmedUnmasks | kernel/obsbox-zio.c:68-77 | a start that arms the trigger ends with the page-ready and DMA interrupts enabled |
| ObsEvents.StartUnarmedMasks | kernel/obsbox-zio.c:68-74 | a start whose trigger does not arm ends with every interrupt masked |
| ObsEvents.HeadMirrored | kernel/obsbox-irq.c:48-60 | after the head record is written, register 0x08 + 4j of the DMA engine holds word j of the record |
| ObsEvents.HeadLaterWrites | kernel/obsbox-irq.c:48-63 | event j of the head record writes word j, and no later event of it writes that register |
| ObsEvents.HeadBranchBits | kernel/obsbox-irq.c:61-63 | after the head record is written, DMA_BR_LAST reads the record's attribute and DMA_BR_DIR is unchanged |
| ObsEvents.HeadBranchWord | kernel/obsbox-irq.c:61-63 | the DMA_BR_LAST register ends up holding the attribute written over its previous word |
| ObsEvents.HeadFrame | kernel/obsbox-irq.c:48-64 | writing the head record changes no register outside DMA_ADDR..DMA_BR_LAST |
| ObsEvents.MapStep | kernel/obsbox-irq.c:121-122 | one more fill call grows the pool and the mapping's events by exactly what that call does |
| ObsEvents.MapWritesHeadOnly | kernel/obsbox-irq.c:47-64 | when the fill runs once per record in order, the mapping's only bus traffic is the head record filled from segment 0 |
| ObsEvents.MapWrites | kernel/obsbox-irq.c:22-72 | every event of the mapping is a write to a descriptor register of the DMA engine, offsets 0x08 to 0x20; it calls nothing in ZIO and never touches DMA_CTL |
| ObsEvents.FillWrites | kernel/obsbox-irq.c:47-64 | every event of one fill call is a write to a descriptor register of the DMA engine, offsets 0x08 to 0x20 |
| ObsEvents.DmaFailureWritesNothing | kernel/obsbox-irq.c:81-144 | each failure of ob_run_dma writes no register, so never DMA_CTL_START, and notifies data done exactly once, last |
| ObsEvents.KickStarts | kernel/obsbox-irq.c:128-131 | after the kick, DMA_CTL's byte-swap field reads 2 and its START bit reads 1 |
| ObsEvents.KickWord | kernel/obsbox-irq.c:128-131 | the DMA_CTL word after the kick is START written over SWP written over the old word |
| ObsEvents.DmaStartedOrder | kernel/obsbox-irq.c:110-133 | a started transfer:<br>- allocates, then maps;<br>- then writes only descriptor registers (offsets 0x08 to 0x20 of the DMA engine);<br>- ends with two writes to DMA_CTL (offset 0);<br>- never notifies data done |
| ObsEvents.TransferOrder | kernel/obsbox-irq.c:121-131 | a mapped transfer is descriptor writes followed by exactly two writes to DMA_CTL |
| ObsEvents.KickAddrs | kernel/obsbox-irq.c:128-131 | the kick is two bus writes, both to DMA_CTL at offset 0 of the DMA engine |
| ObsEvents.DmaStartedKicks | kernel/obsbox-irq.c:110-133 | after a started transfer, START reads 1 and SWP reads 2 |
| ObsEvents.DmaStartedAppend | kernel/obsbox-irq.c:110-131 | the allocation and mapping calls followed by the transfer make up ob_run_dma's successful traffic |
| ObsEvents.TransferAppend | kernel/obsbox-irq.c:121-131 | the fill writes followed by the kick make up the transfer |
| ObsEvents.DmaIrqAppend | kernel/obsbox-irq.c:201-229 | the DMA handler's steps past the status read compose into its events |
| ObsEvents.DmaIrqSplit | kernel/obsbox-irq.c:190-229 | the status write-back followed by the rest is the DMA handler's traffic |
| ObsEvents.DmaIrqAckLast | kernel/obsbox-irq.c:190-231 | with status 0 the DMA handler does nothing. Otherwise it:<br>- clears the status;<br>- unmaps, frees and notifies data done, in that order;<br>- acknowledges exactly once, last |
| ObsEvents.DmaIrqStopIff | kernel/obsbox-irq.c:196-227 | the DMA handler aborts the trigger if and only if (a) a completed transfer is not rearmed or (b) the error check fires; a transfer error alone never stops it |
| ObsEvents.DmaIrqStopMasks | kernel/obsbox-irq.c:216-229 | whenever the DMA handler stops, every interrupt is masked afterwards, the acknowledge included |
| ObsEvents.PageAppend | kernel/obsbox-irq.c:254-268 | the page handler's transfer, error check and acknowledge compose into its events |
| ObsEvents.CoreIrqAppend | kernel/obsbox-irq.c:244-268 | the status write-back followed by the page's events is the page handler's traffic |
| ObsEvents.CoreIrqShape | kernel/obsbox-irq.c:244-270 | the page handler:<br>- without the page-ready bit, only clears the status;<br>- with OB_FLAG_STOPPING, ends with the abort and no acknowledge;<br>- otherwise acknowledges last;<br>- with the trigger disarmed, neither allocates nor notifies data done |
| ObsEvents.ProbeLeavesMasked | kernel/obsbox-zio.c:192-199 | after probe, ACQ_PAGE_SIZE reads OB_MIN_PAGE_SIZE and every interrupt is masked |
| ObsDevice.SetRunning | kernel/obsbox-zio.c:107-113 | RUNNING ends set iff asked, and every other flag bit is kept |
| ObsDevice.RunningBit | kernel/obsbox-zio.c:139-140 | the run parameter reads 0 or 1, and 1 exactly when RUNNING is set |
| ObsDevice.RunParamRoundTrip | kernel/obsbox-zio.c:107-140 | after conf_set of the run parameter, info_get returns 1 if the written value was nonzero, else 0 |
| ObsDevice.Checked | kernel/obsbox-irq.c:166-175 | the error check on the tally: the trigger is disarmed when `MustStop` holds, nothing else changes |
| ObsDevice.AfterDma | kernel/obsbox-irq.c:95-145 | ob_run_dma on the tally: a failure adds one to `errors` and leaves the trigger as data done left it; a start sets busy, clears `c_err` and keeps the trigger |
| ObsDevice.PageTally | kernel/obsbox-irq.c:244-268 | the page handler on the tally: OB_FLAG_STOPPING disarms; otherwise the page is served and the errors checked |
| ObsDevice.Served | kernel/obsbox-irq.c:254-264 | a page with the trigger disarmed adds one to `errors` and `c_err`; with it armed, ob_run_dma runs |
| ObsDevice.DmaTally | kernel/obsbox-irq.c:196-227 | the DMA handler on the tally: a failed transfer adds one to both counters, busy is cleared, the trigger is as data done left it unless a completed transfer is not rearmed, then the errors are checked |
| ObsDevice.DisarmedStays | kernel/obsbox-irq.c:182-271 | only ZIO rearms the trigger:<br>- a page that finds it disarmed leaves it disarmed;<br>- a page leaves it armed only if it was armed and either the transfer started or ZIO left it armed after data done;<br>- a DMA interrupt leaves it armed only if ZIO left it armed after data done |
| ObsDevice.LostPageCounts | kernel/obsbox-irq.c:254-261 | a page that arrives with the trigger disarmed adds one to `errors` and one to `c_err`, and leaves the busy bit alone |
| ObsDevice.PageTallyOutcome | kernel/obsbox-irq.c:74-145 | with the trigger armed, a page that starts a transfer:<br>- counts no error;<br>- clears `c_err`;<br>- marks the channel set busy;<br>- keeps the trigger armed iff `errors < 20`.<br>Any other page counts one error, leaves `c_err` and the busy bit as they were, and leaves the trigger armed iff ZIO left it armed after data done and the error check passes |
| ObsDevice.StartedPage | kernel/obsbox-irq.c:95-132 | the tally after a page that starts a transfer: errors kept, `c_err` 0, busy, armed iff `errors < 20` |
| ObsDevice.FailedPage | kernel/obsbox-irq.c:136-144 | the tally after a page on which ob_run_dma gives up: one more error, then the error check on the trigger ZIO left |
| ObsDevice.BusyPageDropped | kernel/obsbox-irq.c:88-144 | a page that finds a transfer running stays busy and adds one to `errors` but not to `c_err` |
| ObsDevice.DmaTallyCounts | kernel/obsbox-irq.c:196-207 | a DMA interrupt always clears the busy bit. A completed transfer counts no error; a failed one adds one to both `errors` and `c_err` |
| ObsDevice.DmaTallyArmed | kernel/obsbox-irq.c:196-227 | the trigger is armed after a DMA interrupt iff all of these hold:<br>- ZIO left it armed after data done;<br>- the transfer failed or is rearmed;<br>- `c_err < 5 && errors < 20` after the update |
| ObsDevice.ObsBox.WriteReg | kernel/obsbox.h:136-158 | one bus write:<br>- for a bitfield, the stored read-modify-write word;<br>- for a full register, the user value unchanged |
| ObsDevice.ObsBox.EnableIrq | kernel/obsbox.h:161-174 | writes OBS_IRQ_ACQ to the acquisition enable mask, then 3 to the DMA enable mask |
| ObsDevice.ObsBox.DisableIrq | kernel/obsbox.h:176-189 | writes 3 to both disable masks |
| ObsDevice.ObsBox.SetPageSize | kernel/obsbox.h:191-206 | succeeds iff 0x800 <= val < 0x8000000:<br>- on success it records the size and writes it to ACQ_PAGE_SIZE;<br>- otherwise it returns -EINVAL and changes neither the size nor the bus |
| ObsDevice.ObsBox.Stop | kernel/obsbox-zio.c:43-46 | masks every interrupt, aborts the trigger, and changes no counter and no flag |
| ObsDevice.ObsBox.Start | kernel/obsbox-zio.c:47-78 | resets `done`, `c_err` and `errors` in every case, then issues the start traffic. The page size and the armed bit change only when the sample count is an accepted page size |
| ObsDevice.ObsBox.Arm | kernel/obsbox-zio.c:67-77 | masks, arms, and enables the interrupts only when the trigger reports armed |
| ObsDevice.ObsBox.CheckErrors | kernel/obsbox-irq.c:166-175 | stops the acquisition exactly when `c_err >= 5 \|\| errors >= 20`; otherwise changes nothing |
| ObsDevice.ObsBox.ObStart | kernel/obsbox-zio.c:89-94 | the timer is no longer pending. With RUNNING set it runs the start command: counters reset, start traffic, and the page size and armed bit take the sample count and the arm outcome only when the sample count is accepted. Otherwise it runs the stop: stop traffic, trigger disarmed, counters and page size kept |
| ObsDevice.ObsBox.ConfSet | kernel/obsbox-zio.c:100-127 | always returns 0:<br>- RUN sets RUNNING iff the value is nonzero, keeps the other flags and schedules the timer;<br>- STREAM sets SELF_TIMED iff the value is nonzero;<br>- any other parameter changes nothing |
| ObsDevice.ObsBox.InfoGet | kernel/obsbox-zio.c:132-148 | always returns 0:<br>- RUN reads `!!(flags & RUNNING)`;<br>- STREAM reads `!!SELF_TIMED`;<br>- any other parameter leaves the caller's value.<br>With ConfSet's STREAM clause (SELF_TIMED set iff the value is nonzero), reading STREAM after writing `v` returns `!!v`, the STREAM round trip |
| ObsDevice.ObsBox.InputCset | kernel/obsbox-zio.c:158-162 | always -EAGAIN |
| ObsDevice.ObsBox.Fill | kernel/obsbox-irq.c:22-72 | updates the named record in place to `FillItem` of its old contents and leaves every other record as it was. Only record 0 is written to the head registers. Returns 0 |
| ObsDevice.ObsBox.MapSg | kernel/obsbox-irq.c:121-122 | after one fill call per segment, in order, the pool is `FillAll` of the old pool and the trace has grown by `MapEvents` |
| ObsDevice.ObsBox.Kick | kernel/obsbox-irq.c:128-131 | writes byte swap 2, then START 1, to DMA_CTL |
| ObsDevice.ObsBox.RunDma | kernel/obsbox-irq.c:74-145 | on each failure (no block, busy, allocation, mapping) it:<br>- adds one to `errors` and keeps `c_err` and the busy bit;<br>- notifies data done, leaving the trigger armed as ZIO says;<br>- keeps the pool.<br>On success it:<br>- sets busy and clears `c_err`;<br>- keeps `errors`;<br>- takes the device offset from ACQ_PAGE_ADDR;<br>- fills a fresh pool and kicks |
| ObsDevice.ObsBox.GiveUp | kernel/obsbox-irq.c:142-144 | notifies data done, after which the trigger is armed as ZIO leaves it, and adds one to `errors` |
| ObsDevice.ObsBox.StartTransfer | kernel/obsbox-irq.c:121-133 | fills a fresh pool from the mapper's segments, kicks the engine and clears `c_err` |
| ObsDevice.ObsBox.GetIrqStatus | kernel/obsbox-irq.c:147-160 | returns the source field (at most 3) and writes it back only when nonzero |
| ObsDevice.ObsBox.DmaIrqHandler | kernel/obsbox-irq.c:182-232 | status 0 gives IRQ_NONE with no change. Otherwise the result is IRQ_HANDLED with:<br>- the `DmaIrqEvents` traffic;<br>- counters as `DmaTally` says;<br>- `done` raised only for a completed transfer |
| ObsDevice.ObsBox.CompleteTransfer | kernel/obsbox-irq.c:196-229 | the handler past a nonzero status:<br>- traffic `DoneEvents`;<br>- counters `DmaTally`;<br>- OB_FLAG_STOPPING forces no rearm |
| ObsDevice.ObsBox.CountTransferError | kernel/obsbox-irq.c:196-200 | a transfer without the DONE bit adds one to `errors` and one to `c_err` |
| ObsDevice.ObsBox.ReleaseBlock | kernel/obsbox-irq.c:201-210 | unmaps, frees, clears the busy bit and notifies data done, after which the trigger is armed as ZIO leaves it |
| ObsDevice.ObsBox.CountDone | kernel/obsbox-irq.c:216-225 | a completed transfer adds one to `done` and stops the acquisition unless it is rearmed |
| ObsDevice.ObsBox.CoreIrqHandler | kernel/obsbox-irq.c:238-271 | without the page-ready bit: IRQ_NONE and no change. With it:<br>- IRQ_HANDLED with the `CoreIrqEvents` traffic;<br>- counters as `PageTally` says;<br>- a stopping or disarmed handler leaves the pool and the device offset alone;<br>- otherwise the pool and device offset are as RunDma leaves them: a started page builds a fresh pool equal to `FillAll` of the mapper's segments, any other outcome keeps the pool, and the offset is ACQ_PAGE_ADDR as read after the status write-back when allocation succeeded |
| ObsDevice.ObsBox.HandlePage | kernel/obsbox-irq.c:254-268 | runs the transfer only with the trigger armed (a lost page otherwise), then the error check and the acknowledge. Counters as `PageTally` says; with the trigger armed, pool and device offset as RunDma leaves them |
| ObsDevice.ObsBox.ServePage | kernel/obsbox-irq.c:254-264 | with the trigger armed, runs the transfer. Without it, adds one to `errors` and one to `c_err` and touches nothing else. Counters and armed bit as `Served` says; with the trigger armed, pool and device offset as RunDma leaves them (a fresh `FillAll` pool for a started transfer) |
| ObsDevice.ObsBox.HardwareStores | kernel/obsbox-irq.c:147-152 | a store of the hardware between two calls of the driver changes only the stored register, so the next status read or ACQ_PAGE_ADDR read sees it |
| ObsDevice.ObsBox.InitIrq | kernel/obsbox-irq.c:278-296 | masks every interrupt first, then returns the first failing registration's error, or the second's result |
| ObsDevice.ObsBox.Probe | kernel/obsbox-zio.c:165-202 | without 64-bit or 32-bit DMA it returns -EINVAL and changes nothing. Otherwise it:<br>- turns streaming on;<br>- sets the sample count and page size to OB_MIN_PAGE_SIZE;<br>- writes that size to ACQ_PAGE_SIZE;<br>- masks every interrupt;<br>- returns 0 |

## Left out

- The internals of `zio_dma_alloc_sg`, `zio_dma_map_sg`, `zio_dma_unmap_sg`
  and `zio_dma_free_sg` (`kernel/zio-helpers.h` holds only declarations):
  - the segments the fill callback receives, their order and their
    device-memory offsets are inputs;
  - nothing is claimed about how the mapper walks the block;
  - a failed mapping is modelled as failing before any fill call.
- RunDma keeps only the device offset of `ob->zdma`. The pointer itself, and
  the error pointer left behind by a failed allocation, are not modelled.
- Spinlocks, concurrency and interleaving of the handlers are left out. Each
  C function is one atomic method.
- Timers and delays:
  - ConfSet models `mod_timer` as a `timerPending` bit;
  - the 1000 ms deferral and `setup_timer` are left out;
  - Start does not model the `udelay` pauses.
- InitIrq takes the results of `irq_request` as parameters. The
  assignments to `fmc->irq` are not modelled.
- `ob_exit_irq` and `ob_remove` free the interrupts and are left out.
- EnableIrq and DisableIrq leave out the logging, including the diagnostic
  register reads in `pr_info`, because they change nothing.
- WriteReg: the overflow warning is only a log line, so it is not an event.
  `Overflows` states its condition.
- GetIrqStatus models the write-back as a plain write. The
  write-one-to-clear behaviour of the source register is not modelled, so
  the register file does not show the status cleared; what a source
  register reads at the next interrupt is whatever the hardware stores
  before it (HardwareStores), which the model leaves free.
- MaskStatus assumes the controllers' semantics: a write to the enable
  register (offset 0x04) sets the written bits of the enable status, a
  write to the disable register (offset 0x00) clears them, and the
  hardware never changes the status itself. This is the controllers'
  documented behaviour as the driver relies on it, not something the
  driver's code shows.
- The interrupt handlers read the source register at `bases.dmaIrq` and
  `bases.obsIrq`: the C handlers take that base as their `irq_core_base`
  argument, and the model fixes it to the base the handler was registered
  for.
- RecordAddr computes the link address in 64 bits: `size_t` and
  `dma_addr_t` are taken to be 64 bits wide.
- Fill assumes that the mapper's `page_desc` of a segment is record
  `page_idx` of the descriptor pool.
- Stop models `zio_trigger_abort_disable` as clearing the trigger's armed
  bit. The rest of the ZIO trigger state is left out.
- Probe does not model the trigger's post-samples attribute, the
  `ob->zdev` pointer or the lock and timer initialisation. It takes the
  outcome of `dma_set_mask` as two booleans.
- `OB_FLAG_STOPPING` is not defined in the driver. The model uses bit 1, and
  no operation sets it.
- ObsRegs.DivisionByPowers proves that division equals the shift only for
  the table's masks. The accessor is not proved for an arbitrary
  descriptor.
- `kernel/obsbox-fmc.c` (FMC and SDB setup, driver registration) is not part
  of this model.
- The user-space tool `tools/obsbox-dump.c` is not part of this model.
