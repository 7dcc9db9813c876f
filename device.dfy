/** The ObsBox driver object (struct ob_dev together with the bits of the
    ZIO channel set and trigger it uses) and its operations: the register
    helpers of kernel/obsbox.h, the acquisition command, parameters and probe
    of kernel/obsbox-zio.c, and the DMA and interrupt code of
    kernel/obsbox-irq.c.

    Every method is one C function run to completion.  The bus is the
    register file found at probe time with the stores of the trace applied
    (`Regs`), and every method states the events it appends to the trace as
    one of the functions of ObsEvents, applied to the register file it
    started from; the lemmas there say what those events do.  The ZIO
    framework and the DMA helpers are not modelled: what they report
    (whether a block is active, whether allocation and mapping succeed, the
    segments handed to the fill callback, whether the trigger arms, whether
    it is still armed after zio_trigger_data_done and whether to rearm) is a
    parameter of the method that calls them. */
module ObsDevice {
  import opened ObsRegs
  import opened DmaDesc
  import opened ObsBus
  import opened ObsEvents

  /** Bits of ob->flags.  OB_FLAG_STOPPING is tested by the interrupt
      handlers but neither defined nor set anywhere in the driver; the model
      gives it bit 1 and nothing sets it. */
  const OB_FLAG_RUNNING: bv64 := 1
  const OB_FLAG_STOPPING: bv64 := 2

  /** enum obsbox_parameters */
  const OB_PARM_RUN: nat := 0
  const OB_PARM_STREAM: nat := 1

  /** Linux error numbers the driver returns, negated. */
  const EAGAIN: int := 11
  const EINVAL: int := 22

  datatype IrqReturn = IrqNone | IrqHandled

  /** A 32-bit counter after `counter++` when `c` holds. */
  function Bump(x: bv32, c: bool): bv32
  {
    if c then x + 1 else x
  }

  /** ob->flags with OB_FLAG_RUNNING set (`on`) or cleared. */
  function SetRunning(flags: bv64, on: bool): (r: bv64)
    ensures (r & OB_FLAG_RUNNING != 0) == on
    ensures r & !OB_FLAG_RUNNING == flags & !OB_FLAG_RUNNING
  {
    if on then flags | OB_FLAG_RUNNING else flags & !OB_FLAG_RUNNING
  }

  /** `!!(flags & OB_FLAG_RUNNING)`, as the run parameter reports it. */
  function RunningBit(flags: bv64): (v: bv32)
    ensures v <= 1
    ensures v == 1 <==> flags & OB_FLAG_RUNNING != 0
  {
    if flags & OB_FLAG_RUNNING != 0 then 1 else 0
  }

  /** Run parameter round trip: whatever the old flags, after setting the run
      parameter to `usrVal` the run parameter reads `!!usrVal`. */
  lemma RunParamRoundTrip(flags: bv64, usrVal: bv32)
    ensures RunningBit(SetRunning(flags, usrVal != 0)) == (if usrVal != 0 then 1 else 0)
  {
  }

  /** The bookkeeping of ob_dev and of the ZIO objects that the interrupt
      handlers update: the error counters `errors` and `c_err`, the channel
      set's ZIO_CSET_HW_BUSY bit and the trigger's ZIO_TI_ARMED bit. */
  datatype Tally = Tally(errors: bv32, cErr: bv32, busy: bool, armed: bool)

  /** ob_check_errors: the trigger is aborted once the errors are too many. */
  function Checked(t: Tally): Tally
  {
    Tally(t.errors, t.cErr, t.busy, t.armed && !MustStop(t.errors, t.cErr))
  }

  /** ob_run_dma: every outcome but a started transfer counts an error and
      calls zio_trigger_data_done, after which the trigger is armed as
      `armedAfterDone` says; a started transfer marks the channel set busy,
      clears the consecutive errors and leaves the trigger alone. */
  function AfterDma(t: Tally, o: DmaOutcome, armedAfterDone: bool): Tally
  {
    Tally(Bump(t.errors, o != Started), if o == Started then 0 else t.cErr, t.busy || o == Started,
          if o == Started then t.armed else armedAfterDone)
  }

  /** ob_core_irq_handler past the status read, for a page-ready interrupt:
      with OB_FLAG_STOPPING set the trigger is aborted and nothing counted;
      otherwise a page that arrives with the trigger disarmed is lost and
      counts as an error, in total and consecutive, an armed trigger runs the
      transfer, and the errors are checked. */
  function PageTally(t: Tally, stopping: bool, env: DmaEnv): Tally
  {
    if stopping then Tally(t.errors, t.cErr, t.busy, false) else Checked(Served(t, env))
  }

  /** The page handled before the error check. */
  function Served(t: Tally, env: DmaEnv): Tally
  {
    if !t.armed then Tally(t.errors + 1, t.cErr + 1, t.busy, t.armed)
    else AfterDma(t, Outcome(t.busy, env), env.armedAfterDone)
  }

  /** ob_dma_irq_handler past the status read, for a non-zero status `st`:
      a transfer that did not complete counts as an error, the channel set is
      no longer busy, zio_trigger_data_done leaves the trigger armed as
      `armedAfterDone` says, a completed transfer that is not rearmed then
      disarms it, and the errors are checked. */
  function DmaTally(t: Tally, st: bv32, rearm: bool, armedAfterDone: bool): Tally
  {
    var failed := st & GNCORE_IRQ_DMA_DONE == 0;
    Checked(Tally(Bump(t.errors, failed), Bump(t.cErr, failed), false, armedAfterDone && !(!failed && !rearm)))
  }

  /** Only ZIO rearms the trigger: a page that finds it disarmed leaves it
      disarmed, a page that reaches zio_trigger_data_done leaves it as ZIO
      does (or aborts it), and so does a DMA interrupt. */
  lemma DisarmedStays(t: Tally, st: bv32, stopping: bool, rearm: bool, env: DmaEnv, armedAfterDone: bool)
    ensures !t.armed ==> !PageTally(t, stopping, env).armed
    ensures PageTally(t, stopping, env).armed ==> t.armed && (Outcome(t.busy, env) == Started || env.armedAfterDone)
    ensures DmaTally(t, st, rearm, armedAfterDone).armed ==> armedAfterDone
  {
  }

  /** A page that arrives with the trigger disarmed counts as one more error,
      total and consecutive, and leaves the channel set's busy bit alone. */
  lemma LostPageCounts(t: Tally, env: DmaEnv)
    requires !t.armed
    ensures var r := PageTally(t, false, env);
      r.errors == t.errors + 1 && r.cErr == t.cErr + 1 && r.busy == t.busy
  {
  }

  /** A page that starts a transfer counts no error, clears the consecutive
      errors and leaves the trigger armed unless twenty errors have
      accumulated; every other page with the trigger armed counts one error,
      leaves the consecutive errors as they were and leaves the trigger as
      zio_trigger_data_done does unless the error check aborts it. */
  lemma PageTallyOutcome(t: Tally, env: DmaEnv)
    requires t.armed
    ensures var r := PageTally(t, false, env);
      if Outcome(t.busy, env) == Started then
        r.errors == t.errors && r.cErr == 0 && r.busy && (r.armed <==> t.errors < 20)
      else
        r.errors == t.errors + 1 && r.cErr == t.cErr && r.busy == t.busy
        && (r.armed <==> env.armedAfterDone && r.cErr < 5 && r.errors < 20)
  {
    if Outcome(t.busy, env) == Started {
      StartedPage(t, env);
    } else {
      FailedPage(t, env);
    }
  }

  lemma StartedPage(t: Tally, env: DmaEnv)
    requires t.armed && Outcome(t.busy, env) == Started
    ensures PageTally(t, false, env) == Tally(t.errors, 0, true, t.errors < 20)
  {
  }

  lemma FailedPage(t: Tally, env: DmaEnv)
    requires t.armed && Outcome(t.busy, env) != Started
    ensures PageTally(t, false, env) == Checked(Tally(t.errors + 1, t.cErr, t.busy, env.armedAfterDone))
  {
  }

  /** A transfer is started only while the channel set is not busy: a page
      that finds it busy counts an error and starts nothing. */
  lemma BusyPageDropped(t: Tally, env: DmaEnv)
    requires t.armed && t.busy && env.hasBlock
    ensures var r := PageTally(t, false, env);
      r.busy && r.errors == t.errors + 1 && r.cErr == t.cErr
  {
  }

  /** A DMA interrupt always releases the channel set; a completed transfer
      counts no error, a failed one counts one in total and in a row. */
  lemma DmaTallyCounts(t: Tally, st: bv32, rearm: bool, armedAfterDone: bool)
    ensures var r := DmaTally(t, st, rearm, armedAfterDone);
      !r.busy
      && (st & GNCORE_IRQ_DMA_DONE != 0 ==> r.errors == t.errors && r.cErr == t.cErr)
      && (st & GNCORE_IRQ_DMA_DONE == 0 ==> r.errors == t.errors + 1 && r.cErr == t.cErr + 1)
  {
  }

  /** The trigger is armed after a DMA interrupt exactly when
      zio_trigger_data_done left it armed, the transfer either failed or is
      rearmed, and the errors are below the thresholds of ob_check_errors. */
  lemma DmaTallyArmed(t: Tally, st: bv32, rearm: bool, armedAfterDone: bool)
    ensures var r := DmaTally(t, st, rearm, armedAfterDone);
      r.armed <==> armedAfterDone && (st & GNCORE_IRQ_DMA_DONE == 0 || rearm) && r.cErr < 5 && r.errors < 20
  {
  }

  class ObsBox {
    /** The bus base addresses found at probe time. */
    const bases: Bases

    /** The register file before the driver touched it, and the record of
        what the driver did to the bus and to ZIO since. */
    const regs0: map<nat, bv32>
    var trace: seq<Event>

    /** struct ob_dev */
    var curPageSize: bv32
    var flags: bv64
    var errors: bv32
    var cErr: bv32
    var done: bv32
    var timerPending: bool
    /** The descriptor pool of the last mapping and the device-memory offset
        of the mapped block (ob->zdma). */
    var pool: array<DmaItem>
    var zdmaDevMemOff: bv32

    /** The channel set's ZIO_CSET_HW_BUSY and ZIO_CSET_SELF_TIMED bits, the
        trigger's sample count and its ZIO_TI_ARMED bit. */
    var hwBusy: bool
    var selfTimed: bool
    var nsamples: bv32
    var armed: bool

    /** The registers as the bus holds them now. */
    function Regs(): map<nat, bv32>
      reads this
    {
      Replay(regs0, trace)
    }

    /** What IRQ_ACQ_SRC and IRQ_DMA_SRC read now. */
    function AcqStatus(): bv32
      reads this
    {
      Field(Regs(), bases.obsIrq, IrqAcqSrc)
    }

    function DmaStatus(): bv32
      reads this
    {
      Field(Regs(), bases.dmaIrq, IrqDmaSrc)
    }

    /** The counters and state bits the interrupt handlers update. */
    function Counters(): Tally
      reads this`errors, this`cErr, this`hwBusy, this`armed
    {
      Tally(errors, cErr, hwBusy, armed)
    }

    /** Whether OB_FLAG_STOPPING is set. */
    function Stopping(): bool
      reads this
    {
      flags & OB_FLAG_STOPPING != 0
    }

    /** The object as the carrier driver hands it over: zero-allocated, with
        the bases of the four cores. */
    constructor (b: Bases, r0: map<nat, bv32>)
      ensures bases == b && regs0 == r0 && trace == []
      ensures curPageSize == 0 && flags == 0 && errors == 0 && cErr == 0 && done == 0
      ensures !timerPending && !hwBusy && !selfTimed && nsamples == 0 && !armed
      ensures fresh(pool) && pool.Length == 0 && zdmaDevMemOff == 0
    {
      bases := b;
      regs0 := r0;
      trace := [];
      curPageSize, flags, errors, cErr, done := 0, 0, 0, 0, 0;
      timerPending, hwBusy, selfTimed, nsamples, armed := false, false, false, 0, false;
      pool := new DmaItem[0];
      zdmaDevMemOff := 0;
    }

    /** A store of the hardware between two calls of the driver (a page
        becoming ready raises IRQ_ACQ_SRC, a finished transfer IRQ_DMA_SRC,
        a new page moves ACQ_PAGE_ADDR): the bus changes, the driver's own
        state does not. */
    method HardwareStores(addr: nat, v: bv32)
      modifies this`trace
      ensures trace == old(trace) + [HwWrite(addr, v)]
      ensures Regs() == old(Regs())[addr := v]
    {
      trace := trace + [HwWrite(addr, v)];
      ReplaySnoc(regs0, old(trace), HwWrite(addr, v));
    }

    /** ob_writel: a bitfield is read, cleared under its mask and or-ed with
        the shifted value; a full-register field is written as given.  The
        "value doesn't fit" warning is only logged. */
    method WriteReg(base: nat, r: Reg, usrVal: bv32)
      modifies this`trace
      ensures Desc(r).isBitfield ==> trace == old(trace) + [Put(old(Regs()), base, r, usrVal)]
      ensures !Desc(r).isBitfield ==> trace == old(trace) + [Write(base + Desc(r).offset, usrVal)]
    {
      var addr := base + Desc(r).offset;
      var cur := Raw(Regs(), addr);
      trace := trace + [Write(addr, WriteField(cur, Desc(r), usrVal))];
    }

    /** ob_enable_irq: unmask the page-ready interrupt and both DMA
        interrupts (the diagnostic reads it logs change nothing). */
    method EnableIrq()
      modifies this`trace
      ensures trace == old(trace) + EnableEvents(bases)
    {
      WriteReg(bases.obsIrq, IrqAcqEnableMask, OBS_IRQ_ACQ);
      WriteReg(bases.dmaIrq, IrqDmaEnableMask, GNCORE_IRQ_DMA_ALL);
    }

    /** ob_disable_irq: mask every acquisition and DMA interrupt. */
    method DisableIrq()
      modifies this`trace
      ensures trace == old(trace) + DisableEvents(bases)
    {
      WriteReg(bases.obsIrq, IrqAcqDisableMask, OBS_IRQ_ALL);
      WriteReg(bases.dmaIrq, IrqDmaDisableMask, GNCORE_IRQ_DMA_ALL);
    }

    /** ob_set_page_size: an out-of-range size is refused with -EINVAL and
        changes nothing; an accepted one is recorded and written to
        ACQ_PAGE_SIZE. */
    method SetPageSize(val: bv32) returns (err: int)
      modifies this`curPageSize, this`trace
      ensures err == 0 <==> PageSizeOk(val)
      ensures err != 0 ==> err == -EINVAL && curPageSize == old(curPageSize) && trace == old(trace)
      ensures err == 0 ==> curPageSize == val && trace == old(trace) + [Write(bases.obsCore + 0x18, val)]
    {
      if val < OB_MIN_PAGE_SIZE || val >= OB_MAX_PAGE_SIZE {
        return -EINVAL;
      }
      curPageSize := val;
      WriteReg(bases.obsCore, AcqPageSize, curPageSize);
      err := 0;
    }

    /** ob_acquisition_command(ob, 0): mask every interrupt and abort the
        trigger, which leaves it disarmed.  Counters and flags (RUNNING
        included) are not touched. */
    method Stop()
      modifies this`trace, this`armed
      ensures trace == old(trace) + StopEvents(bases)
      ensures !armed
    {
      DisableIrq();
      trace := trace + [AbortTrigger];
      armed := false;
    }

    /** ob_acquisition_command(ob, cmd) with cmd != 0: reset the counters,
        pulse the GTP reset bit, program the page size from the trigger's
        sample count (giving up silently if it is out of range), then mask,
        arm and unmask as `Arm` does.  `armOutcome` is whether
        zio_arm_trigger leaves the trigger armed. */
    method Start(armOutcome: bool)
      modifies this`trace, this`armed, this`done, this`cErr, this`errors, this`curPageSize
      ensures done == 0 && cErr == 0 && errors == 0
      ensures trace == old(trace) + StartEvents(old(Regs()), bases, nsamples, armOutcome)
      ensures PageSizeOk(nsamples) ==> curPageSize == nsamples && armed == armOutcome
      ensures !PageSizeOk(nsamples) ==> curPageSize == old(curPageSize) && armed == old(armed)
    {
      done := 0;
      cErr := 0;
      errors := 0;
      WriteReg(bases.obsCore, AcqCtrlRstGtp, 1);
      var err := SetPageSize(nsamples);
      if err != 0 {
        return;
      }
      Arm(armOutcome);
    }

    /** The tail of the start command, once the page size is set: mask the
        interrupts, arm the trigger and, only if it armed, unmask them. */
    method Arm(armOutcome: bool)
      modifies this`trace, this`armed
      ensures armed == armOutcome
      ensures trace == old(trace) + ArmEvents(bases, armOutcome)
    {
      DisableIrq();
      trace := trace + [ArmTrigger];
      armed := armOutcome;
      if !armed {
        return;
      }
      EnableIrq();
    }

    /** ob_check_errors: stop the acquisition when there have been too many
        errors; otherwise do nothing. */
    method CheckErrors()
      modifies this`trace, this`armed
      ensures trace == old(trace) + IfStop(MustStop(errors, cErr), bases)
      ensures Counters() == Checked(old(Counters()))
    {
      if cErr < 5 && errors < 20 {
        assert trace == old(trace) + [];
        return;
      }
      Stop();
    }

    /** ob_start, the timer callback of the run parameter: run the
        acquisition command with `!!(flags & OB_FLAG_RUNNING)`. */
    method ObStart(armOutcome: bool)
      modifies this`trace, this`armed, this`done, this`cErr, this`errors, this`curPageSize, this`timerPending
      ensures !timerPending
      ensures flags & OB_FLAG_RUNNING == 0 ==> trace == old(trace) + StopEvents(bases) && !armed
      ensures flags & OB_FLAG_RUNNING == 0 ==> done == old(done) && cErr == old(cErr) && errors == old(errors)
      ensures flags & OB_FLAG_RUNNING != 0 ==> done == 0 && cErr == 0 && errors == 0
      ensures flags & OB_FLAG_RUNNING != 0 ==> trace == old(trace) + StartEvents(old(Regs()), bases, nsamples, armOutcome)
      ensures flags & OB_FLAG_RUNNING != 0 && PageSizeOk(nsamples) ==> curPageSize == nsamples && armed == armOutcome
      ensures flags & OB_FLAG_RUNNING != 0 && !PageSizeOk(nsamples) ==> curPageSize == old(curPageSize) && armed == old(armed)
      ensures flags & OB_FLAG_RUNNING == 0 ==> curPageSize == old(curPageSize)
    {
      timerPending := false;
      if flags & OB_FLAG_RUNNING != 0 {
        Start(armOutcome);
      } else {
        Stop();
      }
    }

    /** ob_conf_set: the run parameter sets or clears OB_FLAG_RUNNING and
        schedules the command timer; the streaming parameter sets or clears
        the self-timed bit; any other parameter is ignored.  Always 0. */
    method ConfSet(id: nat, usrVal: bv32) returns (ret: int)
      modifies this`flags, this`selfTimed, this`timerPending
      ensures ret == 0
      ensures id == OB_PARM_RUN ==> flags == SetRunning(old(flags), usrVal != 0) && timerPending && selfTimed == old(selfTimed)
      ensures id == OB_PARM_STREAM ==> selfTimed == (usrVal != 0) && flags == old(flags) && timerPending == old(timerPending)
      ensures id != OB_PARM_RUN && id != OB_PARM_STREAM ==>
        flags == old(flags) && selfTimed == old(selfTimed) && timerPending == old(timerPending)
    {
      if id == OB_PARM_RUN {
        if usrVal == 0 {
          flags := flags & !OB_FLAG_RUNNING;
        } else {
          flags := flags | OB_FLAG_RUNNING;
        }
        timerPending := true;
      } else if id == OB_PARM_STREAM {
        if usrVal != 0 {
          selfTimed := true;
        } else {
          selfTimed := false;
        }
      }
      ret := 0;
    }

    /** ob_info_get: the run parameter reads `!!(flags & OB_FLAG_RUNNING)`,
        the streaming parameter the self-timed bit; for any other parameter
        the caller's value is left as it was.  Always 0. */
    method InfoGet(id: nat, usrVal: bv32) returns (v: bv32, ret: int)
      ensures ret == 0
      ensures id == OB_PARM_RUN ==> v == RunningBit(flags)
      ensures id == OB_PARM_STREAM ==> (v == 1 <==> selfTimed) && v <= 1
      ensures id != OB_PARM_RUN && id != OB_PARM_STREAM ==> v == usrVal
    {
      v := usrVal;
      if id == OB_PARM_RUN {
        v := if flags & OB_FLAG_RUNNING != 0 then 1 else 0;
      } else if id == OB_PARM_STREAM {
        v := if selfTimed then 1 else 0;
      }
      ret := 0;
    }

    /** ob_input_cset, the channel set's raw_io: nothing to do but wait for
        the interrupts, so the acquisition is never complete on return. */
    method InputCset() returns (ret: int)
      ensures ret == -EAGAIN
    {
      ret := -EAGAIN;
    }

    // -------------------------------------------------------------------
    // kernel/obsbox-irq.c

    /** gncore_dma_fill: fill the record the segment names in place and, for
        record 0, write it to the head registers with the seven ob_writel
        calls `HeadEvents` lists.  Always 0. */
    method Fill(seg: Segment, poolBus: bv64) returns (ret: int)
      requires seg.pageIdx < pool.Length
      modifies pool, this`trace
      ensures pool[..] == old(pool[..])[seg.pageIdx := FillItem(old(pool[seg.pageIdx]), seg, poolBus)]
      ensures trace == old(trace) + FillEvents(old(Regs()), bases.dmaCore, seg, FillItem(old(pool[seg.pageIdx]), seg, poolBus))
      ensures ret == 0
    {
      var item := FillItem(pool[seg.pageIdx], seg, poolBus);
      pool[seg.pageIdx] := item;
      if seg.pageIdx == 0 {
        trace := trace + HeadEvents(Regs(), bases.dmaCore, item);
      }
      ret := 0;
    }

    /** The calls of the fill callback zio_dma_map_sg makes, one per segment
        in the order the mapper hands them over. */
    method MapSg(segs: seq<Segment>, poolBus: bv64)
      requires InPool(segs, pool.Length)
      modifies pool, this`trace
      ensures pool[..] == FillAll(old(pool[..]), segs, poolBus)
      ensures trace == old(trace) + MapEvents(old(Regs()), bases.dmaCore, old(pool[..]), segs, poolBus)
    {
      ghost var p0, t0, r0 := pool[..], trace, Regs();
      var i := 0;
      assert segs[..0] == [];
      while i < |segs|
        invariant 0 <= i <= |segs|
        invariant InPool(segs[..i], |p0|)
        invariant pool[..] == FillAll(p0, segs[..i], poolBus)
        invariant trace == t0 + MapEvents(r0, bases.dmaCore, p0, segs[..i], poolBus)
      {
        MapStep(r0, bases.dmaCore, p0, segs, poolBus, i);
        ghost var prev := MapEvents(r0, bases.dmaCore, p0, segs[..i], poolBus);
        ReplayAppend(regs0, t0, prev);
        ghost var t1 := trace;
        var _ := Fill(segs[i], poolBus);
        AppendAssoc(t0, prev, trace[|t1|..]);
        assert t1 + trace[|t1|..] == trace;
        i := i + 1;
      }
      assert segs[..i] == segs;
    }

    /** The byte-swap and start writes that launch a mapped transfer. */
    method Kick()
      modifies this`trace
      ensures trace == old(trace) + KickEvents(old(Regs()), bases.dmaCore)
    {
      WriteReg(bases.dmaCore, DmaCtlSwp, 2);
      ReplayAppend(regs0, old(trace), [Put(old(Regs()), bases.dmaCore, DmaCtlSwp, 2)]);
      WriteReg(bases.dmaCore, DmaCtlStart, 1);
    }

    /** ob_run_dma: give up, notifying the end of the acquisition and
        counting an error, when there is no active block, when a transfer is
        already running, or when allocation or mapping fails; otherwise mark
        the hardware busy, record the page address ACQ_PAGE_ADDR reads as the
        block's device offset, fill the descriptor pool, start the transfer
        and clear the consecutive-error count. */
    method RunDma(env: DmaEnv)
      requires EnvOk(env)
      modifies this`trace, this`hwBusy, this`errors, this`cErr, this`zdmaDevMemOff, this`pool, this`armed
      ensures trace == old(trace) + DmaEvents(old(Regs()), bases, old(hwBusy), env)
      ensures armed == if Outcome(old(hwBusy), env) == Started then old(armed) else env.armedAfterDone
      ensures errors == Bump(old(errors), Outcome(old(hwBusy), env) != Started)
      ensures cErr == if Outcome(old(hwBusy), env) == Started then 0 else old(cErr)
      ensures hwBusy == (old(hwBusy) || Outcome(old(hwBusy), env) == Started)
      ensures Outcome(old(hwBusy), env) == Started ==> fresh(pool) && pool[..] == FillAll(env.poolInit, env.segs, env.poolBus)
      ensures Outcome(old(hwBusy), env) != Started ==> pool == old(pool)
      ensures zdmaDevMemOff == if Outcome(old(hwBusy), env) in {MapFailed, Started}
                               then Field(old(Regs()), bases.obsCore, AcqPageAddr) else old(zdmaDevMemOff)
    {
      if !env.hasBlock || hwBusy {
        GiveUp(env.armedAfterDone);
        return;
      }
      hwBusy := true;
      var acqPage := Field(Regs(), bases.obsCore, AcqPageAddr);
      trace := trace + [DmaAlloc];
      if !env.allocOk {
        hwBusy := false;
        GiveUp(env.armedAfterDone);
        return;
      }
      zdmaDevMemOff := acqPage;
      trace := trace + [DmaMap];
      if !env.mapOk {
        trace := trace + [DmaFree];
        hwBusy := false;
        GiveUp(env.armedAfterDone);
        return;
      }
      ghost var t1 := trace;
      StartTransfer(env);
      DmaStartedAppend(regs0, bases, old(hwBusy), env, old(trace), t1, trace);
    }

    /** The `out` path of ob_run_dma: notify ZIO that the acquisition is over,
        which leaves the trigger armed as `armedAfterDone` says, and count an
        error. */
    method GiveUp(armedAfterDone: bool)
      modifies this`trace, this`errors, this`armed
      ensures trace == old(trace) + [DataDone]
      ensures armed == armedAfterDone
      ensures errors == old(errors) + 1
    {
      trace := trace + [DataDone];
      armed := armedAfterDone;
      errors := errors + 1;
    }

    /** The end of ob_run_dma once the mapping succeeded: the pool is filled
        record by record, the transfer started, and the consecutive-error
        count cleared. */
    method StartTransfer(env: DmaEnv)
      requires EnvOk(env)
      modifies this`trace, this`pool, this`cErr
      ensures trace == old(trace) + TransferEvents(old(Regs()), bases, env)
      ensures fresh(pool) && pool[..] == FillAll(env.poolInit, env.segs, env.poolBus)
      ensures cErr == 0
    {
      pool := new DmaItem[|env.poolInit|](i requires 0 <= i < |env.poolInit| => env.poolInit[i]);
      assert pool[..] == env.poolInit;
      MapSg(env.segs, env.poolBus);
      ghost var t2 := trace;
      Kick();
      TransferAppend(regs0, bases, env, old(trace), t2, trace);
      cErr := 0;
    }

    /** ob_get_irq_status: read the source register of the controller at
        `base` and, if any bit is set, write it back to clear it. */
    method GetIrqStatus(base: nat, r: Reg) returns (st: bv32)
      requires r == IrqAcqSrc || r == IrqDmaSrc
      modifies this`trace
      ensures st == Field(old(Regs()), base, r) && st <= 3
      ensures trace == old(trace) + StatusEvents(base, st)
    {
      st := Field(Regs(), base, r);
      IrqStatusBound(Raw(Regs(), base + 0x0C));
      if st != 0 {
        WriteReg(base, r, st);
      }
    }

    /** ob_dma_irq_handler.  `rearmOutcome` is what zio_trigger_data_done
        returns, OB_FLAG_STOPPING overrides it; `armedAfterDone` is whether
        the trigger is armed once it has returned. */
    method DmaIrqHandler(rearmOutcome: bool, armedAfterDone: bool) returns (ret: IrqReturn)
      modifies this`trace, this`errors, this`cErr, this`done, this`hwBusy, this`armed
      ensures ret == if old(DmaStatus()) == 0 then IrqNone else IrqHandled
      ensures trace == old(trace) + DmaIrqEvents(bases, old(DmaStatus()), rearmOutcome && !Stopping(), MustStop(errors, cErr))
      ensures Counters() == if old(DmaStatus()) == 0 then old(Counters())
                            else DmaTally(old(Counters()), old(DmaStatus()), rearmOutcome && !Stopping(), armedAfterDone)
      ensures done == Bump(old(done), old(DmaStatus()) & GNCORE_IRQ_DMA_DONE != 0)
    {
      var status := GetIrqStatus(bases.dmaIrq, IrqDmaSrc);
      if status == 0 {
        return IrqNone;
      }
      ghost var t1 := trace;
      CompleteTransfer(status, rearmOutcome, armedAfterDone);
      DmaIrqSplit(bases, status, rearmOutcome && !Stopping(), MustStop(errors, cErr), old(trace), t1, trace);
      return IrqHandled;
    }

    /** ob_dma_irq_handler past a non-zero status read: count a failed
        transfer, release the block, count a completed one and stop unless
        it is rearmed (never with OB_FLAG_STOPPING set), check the errors and
        acknowledge. */
    method CompleteTransfer(status: bv32, rearmOutcome: bool, armedAfterDone: bool)
      modifies this`trace, this`errors, this`cErr, this`done, this`hwBusy, this`armed
      ensures trace == old(trace) + DoneEvents(bases, status, rearmOutcome && !Stopping(), MustStop(errors, cErr))
      ensures Counters() == DmaTally(old(Counters()), status, rearmOutcome && !Stopping(), armedAfterDone)
      ensures done == Bump(old(done), status & GNCORE_IRQ_DMA_DONE != 0)
    {
      CountTransferError(status);
      ReleaseBlock(armedAfterDone);
      ghost var t1 := trace;
      var rearm := rearmOutcome;
      if flags & OB_FLAG_STOPPING != 0 {
        rearm := false;
      }
      CountDone(status, rearm);
      ghost var t2 := trace;
      CheckErrors();
      trace := trace + [IrqAck];
      DmaIrqAppend(bases, status, rearm, MustStop(errors, cErr), old(trace), t1, t2, trace);
    }

    /** The start of ob_dma_irq_handler past the status read: a transfer that
        did not complete counts as an error, consecutive and in total. */
    method CountTransferError(status: bv32)
      modifies this`errors, this`cErr
      ensures errors == Bump(old(errors), status & GNCORE_IRQ_DMA_DONE == 0)
      ensures cErr == Bump(old(cErr), status & GNCORE_IRQ_DMA_DONE == 0)
    {
      if status & GNCORE_IRQ_DMA_DONE == 0 {
        errors := errors + 1;
        cErr := cErr + 1;
      }
    }

    /** The middle of ob_dma_irq_handler: the mapping is released and the
        block handed back to ZIO, which leaves the trigger armed as
        `armedAfterDone` says. */
    method ReleaseBlock(armedAfterDone: bool)
      modifies this`trace, this`hwBusy, this`armed
      ensures trace == old(trace) + [DmaUnmap] + [DmaFree] + [DataDone]
      ensures !hwBusy && armed == armedAfterDone
    {
      trace := trace + [DmaUnmap];
      trace := trace + [DmaFree];
      hwBusy := false;
      trace := trace + [DataDone];
      armed := armedAfterDone;
    }

    /** The end of ob_dma_irq_handler before the error check: a completed
        transfer is counted and, unless it is to be rearmed, stops the
        acquisition. */
    method CountDone(status: bv32, rearm: bool)
      modifies this`trace, this`done, this`armed
      ensures done == Bump(old(done), status & GNCORE_IRQ_DMA_DONE != 0)
      ensures trace == old(trace) + IfStop(status & GNCORE_IRQ_DMA_DONE != 0 && !rearm, bases)
      ensures armed == (old(armed) && !(status & GNCORE_IRQ_DMA_DONE != 0 && !rearm))
    {
      if status & GNCORE_IRQ_DMA_DONE != 0 {
        done := done + 1;
        if !rearm {
          Stop();
          return;
        }
      }
      assert trace == old(trace) + [];
    }

    /** ob_core_irq_handler: on a page-ready interrupt, stop if
        OB_FLAG_STOPPING is set, otherwise handle the page. */
    method CoreIrqHandler(env: DmaEnv) returns (ret: IrqReturn)
      requires EnvOk(env)
      modifies this`trace, this`errors, this`cErr, this`hwBusy, this`zdmaDevMemOff, this`pool, this`armed
      ensures ret == if old(AcqStatus()) & OBS_IRQ_ACQ == 0 then IrqNone else IrqHandled
      ensures trace == old(trace) + CoreIrqEvents(old(Regs()), bases, old(AcqStatus()), Stopping(), old(armed),
                                                  old(hwBusy), env, MustStop(errors, cErr))
      ensures Counters() == if old(AcqStatus()) & OBS_IRQ_ACQ == 0 then old(Counters())
                            else PageTally(old(Counters()), Stopping(), env)
      ensures old(AcqStatus()) & OBS_IRQ_ACQ == 0 || Stopping() || !old(armed) ==>
        zdmaDevMemOff == old(zdmaDevMemOff) && pool == old(pool)
      ensures old(AcqStatus()) & OBS_IRQ_ACQ != 0 && !Stopping() && old(armed) && Outcome(old(hwBusy), env) == Started ==>
        fresh(pool) && pool[..] == FillAll(env.poolInit, env.segs, env.poolBus)
      ensures old(AcqStatus()) & OBS_IRQ_ACQ != 0 && !Stopping() && old(armed) && Outcome(old(hwBusy), env) != Started ==>
        pool == old(pool)
      ensures old(AcqStatus()) & OBS_IRQ_ACQ != 0 && !Stopping() && old(armed) ==>
        zdmaDevMemOff == if Outcome(old(hwBusy), env) in {MapFailed, Started}
                         then Field(Replay(old(Regs()), StatusEvents(bases.obsIrq, old(AcqStatus()))), bases.obsCore, AcqPageAddr)
                         else old(zdmaDevMemOff)
    {
      var status := GetIrqStatus(bases.obsIrq, IrqAcqSrc);
      if status & OBS_IRQ_ACQ == 0 {
        return IrqNone;
      }
      if flags & OB_FLAG_STOPPING != 0 {
        Stop();
        return IrqHandled;
      }
      ghost var t1 := trace;
      HandlePage(env);
      CoreIrqAppend(regs0, bases, status, old(armed), old(hwBusy), env, MustStop(errors, cErr), old(trace), t1, trace);
      return IrqHandled;
    }

    /** The rest of ob_core_irq_handler: with the trigger armed, run the
        transfer; without, the page is lost and counts as an error, in total
        and consecutive.  Then check the errors and acknowledge. */
    method HandlePage(env: DmaEnv)
      requires EnvOk(env)
      modifies this`trace, this`errors, this`cErr, this`hwBusy, this`zdmaDevMemOff, this`pool, this`armed
      ensures trace == old(trace) + PageEvents(old(Regs()), bases, old(armed), old(hwBusy), env, MustStop(errors, cErr))
      ensures Counters() == PageTally(old(Counters()), false, env)
      ensures !old(armed) ==> zdmaDevMemOff == old(zdmaDevMemOff) && pool == old(pool)
      ensures old(armed) && Outcome(old(hwBusy), env) == Started ==>
        fresh(pool) && pool[..] == FillAll(env.poolInit, env.segs, env.poolBus)
      ensures old(armed) && Outcome(old(hwBusy), env) != Started ==> pool == old(pool)
      ensures old(armed) ==>
        zdmaDevMemOff == if Outcome(old(hwBusy), env) in {MapFailed, Started}
                         then Field(old(Regs()), bases.obsCore, AcqPageAddr) else old(zdmaDevMemOff)
    {
      ServePage(env);
      ghost var t2 := trace;
      CheckErrors();
      trace := trace + [IrqAck];
      PageAppend(regs0, bases, old(armed), old(hwBusy), env, MustStop(errors, cErr), old(trace), t2, trace);
    }

    /** The middle of ob_core_irq_handler: with the trigger armed, run the
        transfer; without, the page is lost and counts as an error, in total
        and consecutive. */
    method ServePage(env: DmaEnv)
      requires EnvOk(env)
      modifies this`trace, this`errors, this`cErr, this`hwBusy, this`zdmaDevMemOff, this`pool, this`armed
      ensures trace == old(trace) + if old(armed) then DmaEvents(old(Regs()), bases, old(hwBusy), env) else []
      ensures var r := Served(old(Counters()), env);
        errors == r.errors && cErr == r.cErr && hwBusy == r.busy && armed == r.armed
      ensures !old(armed) ==> zdmaDevMemOff == old(zdmaDevMemOff) && pool == old(pool)
      ensures old(armed) && Outcome(old(hwBusy), env) == Started ==>
        fresh(pool) && pool[..] == FillAll(env.poolInit, env.segs, env.poolBus)
      ensures old(armed) && Outcome(old(hwBusy), env) != Started ==> pool == old(pool)
      ensures old(armed) ==>
        zdmaDevMemOff == if Outcome(old(hwBusy), env) in {MapFailed, Started}
                         then Field(old(Regs()), bases.obsCore, AcqPageAddr) else old(zdmaDevMemOff)
    {
      if !armed {
        errors := errors + 1;
        cErr := cErr + 1;
        assert trace == old(trace) + [];
      } else {
        RunDma(env);
      }
    }

    /** ob_init_irq: mask every interrupt, then register the DMA handler and
        the acquisition handler; the result of the first registration that
        fails, or of the second.  `dmaReq` and `coreReq` are what the
        carrier's irq_request returns. */
    method InitIrq(dmaReq: int, coreReq: int) returns (err: int)
      modifies this`trace
      ensures trace == old(trace) + DisableEvents(bases)
      ensures err == if dmaReq != 0 then dmaReq else coreReq
    {
      DisableIrq();
      if dmaReq != 0 {
        return dmaReq;
      }
      return coreReq;
    }

    /** ob_probe: fail with -EINVAL, changing nothing, when neither 64-bit
        nor 32-bit DMA addressing is available; otherwise enable streaming,
        set the trigger's sample count and the page size to OB_MIN_PAGE_SIZE,
        write it to ACQ_PAGE_SIZE and mask every interrupt.  The result of
        ob_init_irq is ignored. */
    method Probe(dma64Ok: bool, dma32Ok: bool, dmaReq: int, coreReq: int) returns (err: int)
      modifies this`trace, this`selfTimed, this`nsamples, this`curPageSize
      ensures err == 0 <==> dma64Ok || dma32Ok
      ensures err != 0 ==>
        err == -EINVAL && trace == old(trace) && selfTimed == old(selfTimed)
        && nsamples == old(nsamples) && curPageSize == old(curPageSize)
      ensures err == 0 ==> selfTimed && nsamples == OB_MIN_PAGE_SIZE && curPageSize == OB_MIN_PAGE_SIZE
      ensures err == 0 ==> trace == old(trace) + ProbeEvents(bases)
    {
      if !dma64Ok && !dma32Ok {
        return -EINVAL;
      }
      selfTimed := true;
      nsamples := OB_MIN_PAGE_SIZE;
      curPageSize := nsamples;
      WriteReg(bases.obsCore, AcqPageSize, curPageSize);
      var _ := InitIrq(dmaReq, coreReq);
      err := 0;
    }
  }
}
