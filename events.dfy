/** The bus traffic of each operation of the ObsBox driver, as values, and
    what that traffic does to the registers and to the interrupt masks.

    Every function here is the sequence of events one C function of
    kernel/obsbox-zio.c or kernel/obsbox-irq.c produces, given the register
    file `r0` it starts from (only the read-modify-write of a bitfield depends
    on it) and what the framework reports.  The class ObsBox (device.dfy)
    runs the operations step by step and states that its trace grows by
    exactly these events; the lemmas below state what the events mean. */
module ObsEvents {
  import opened ObsRegs
  import opened DmaDesc
  import opened ObsBus

  // ---------------------------------------------------------------------
  // The accessor on the register file

  /** ob_readl: field `r` of the core at `base`. */
  function Field(regs: map<nat, bv32>, base: nat, r: Reg): bv32
  {
    ReadField(Raw(regs, base + Desc(r).offset), Desc(r))
  }

  /** The word ob_writel stores when it writes `usrVal` to field `f` of the
      core at `base`. */
  function Stored(regs: map<nat, bv32>, base: nat, f: FieldDesc, usrVal: bv32): bv32
  {
    WriteField(Raw(regs, base + f.offset), f, usrVal)
  }

  /** The bus write ob_writel issues. */
  function Put(regs: map<nat, bv32>, base: nat, r: Reg, usrVal: bv32): Event
  {
    Write(base + Desc(r).offset, Stored(regs, base, Desc(r), usrVal))
  }

  /** Writing a bitfield of the table and reading it back gives the value
      written when it fits the field. */
  lemma PutThenField(regs: map<nat, bv32>, t: seq<Event>, base: nat, r: Reg, v: bv32)
    requires Desc(r).isBitfield && v <= FieldMax(Desc(r))
    requires Untouched(t, base + Desc(r).offset)
    ensures Field(Replay(regs, [Put(regs, base, r, v)] + t), base, r) == v
  {
    var e := Put(regs, base, r, v);
    var evs := [e] + t;
    assert evs[0] == e && evs[1..] == t;
    ReplayWriteAt(regs, evs, 0);
    ReadBack(Replay(regs, evs), regs, base, r, v);
  }

  /** A register file whose word for `r` is what writing `v` to `r` over
      `regs` stores reads `v` back from `r`. */
  lemma ReadBack(m: map<nat, bv32>, regs: map<nat, bv32>, base: nat, r: Reg, v: bv32)
    requires Desc(r).isBitfield && v <= FieldMax(Desc(r))
    requires Raw(m, base + Desc(r).offset) == Stored(regs, base, Desc(r), v)
    ensures Field(m, base, r) == v
  {
    MaskNonzero(r);
    WriteThenRead(Raw(regs, base + Desc(r).offset), r, v);
  }

  /** A field reads what the word of its register says. */
  lemma FieldHolds(regs: map<nat, bv32>, base: nat, r: Reg, w: bv32)
    requires Raw(regs, base + Desc(r).offset) == w
    ensures WellFormed(Desc(r)) && Field(regs, base, r) == ReadField(w, Desc(r))
  {
  }

  /** Whatever the driver did before, a word the hardware stores in a
      register (a status bit raised, a new page address) is what the next
      read of that register's fields sees. */
  lemma HardwareStoreRead(r0: map<nat, bv32>, t: seq<Event>, base: nat, r: Reg, v: bv32)
    ensures WellFormed(Desc(r))
    ensures Field(Replay(r0, t + [HwWrite(base + Desc(r).offset, v)]), base, r) == ReadField(v, Desc(r))
  {
    ReplaySnoc(r0, t, HwWrite(base + Desc(r).offset, v));
  }

  /** ob_set_page_size accepts OB_MIN_PAGE_SIZE <= size < OB_MAX_PAGE_SIZE. */
  predicate PageSizeOk(v: bv32)
  {
    OB_MIN_PAGE_SIZE <= v < OB_MAX_PAGE_SIZE
  }

  /** ob_check_errors stops the acquisition unless there are fewer than 5
      consecutive and fewer than 20 errors in all. */
  predicate MustStop(errors: bv32, cErr: bv32)
  {
    !(cErr < 5 && errors < 20)
  }

  function IfStop(stop: bool, b: Bases): seq<Event>
  {
    if stop then StopEvents(b) else []
  }

  // ---------------------------------------------------------------------
  // ob_acquisition_command

  /** Masking, arming and, if the trigger armed, unmasking. */
  function ArmEvents(b: Bases, arm: bool): seq<Event>
  {
    DisableEvents(b) + [ArmTrigger] + if arm then EnableEvents(b) else []
  }

  /** The start command, with trigger sample count `ns`, when arming leaves
      the trigger armed (`arm`) or not: the GTP reset, then, if the page size
      is accepted, the page size and `ArmEvents`. */
  function StartEvents(r0: map<nat, bv32>, b: Bases, ns: bv32, arm: bool): seq<Event>
  {
    [Put(r0, b.obsCore, AcqCtrlRstGtp, 1)]
      + if PageSizeOk(ns) then [Write(b.obsCore + 0x18, ns)] + ArmEvents(b, arm) else []
  }

  /** After the start command the GTP reset bit reads 1, and an accepted page
      size reads back from ACQ_PAGE_SIZE. */
  lemma StartResetsGtp(r0: map<nat, bv32>, b: Bases, ns: bv32, arm: bool)
    requires ValidBases(b)
    ensures Field(Replay(r0, StartEvents(r0, b, ns, arm)), b.obsCore, AcqCtrlRstGtp) == 1
  {
    var gtp := Put(r0, b.obsCore, AcqCtrlRstGtp, 1);
    var rest := StartEvents(r0, b, ns, arm)[1..];
    assert StartEvents(r0, b, ns, arm) == [gtp] + rest;
    assert Untouched(rest, b.obsCore) by {
      forall k | 0 <= k < |rest| ensures Stores(rest[k]) ==> rest[k].addr != b.obsCore {
        if PageSizeOk(ns) {
          assert rest == [Write(b.obsCore + 0x18, ns)] + ArmEvents(b, arm);
        }
      }
    }
    PutThenField(r0, rest, b.obsCore, AcqCtrlRstGtp, 1);
  }

  lemma StartSetsPageSize(r0: map<nat, bv32>, b: Bases, ns: bv32, arm: bool)
    requires ValidBases(b) && PageSizeOk(ns)
    ensures Field(Replay(r0, StartEvents(r0, b, ns, arm)), b.obsCore, AcqPageSize) == ns
  {
    var ev := StartEvents(r0, b, ns, arm);
    assert ev[1] == Write(b.obsCore + 0x18, ns);
    assert Untouched(ev[2..], b.obsCore + 0x18) by {
      assert ev[2..] == ArmEvents(b, arm);
    }
    ReplayWriteAt(r0, ev, 1);
    FieldHolds(Replay(r0, ev), b.obsCore, AcqPageSize, ns);
  }

  /** A rejected page size ends the start command after the GTP reset: the
      trigger is not armed and neither interrupt mask moves. */
  lemma StartRejected(r0: map<nat, bv32>, t: seq<Event>, b: Bases, ns: bv32, arm: bool, m0: bv32)
    requires ValidBases(b) && !PageSizeOk(ns)
    ensures ArmTrigger !in StartEvents(r0, b, ns, arm)
    ensures MaskStatus(t + StartEvents(r0, b, ns, arm), b.obsIrq, m0) == MaskStatus(t, b.obsIrq, m0)
    ensures MaskStatus(t + StartEvents(r0, b, ns, arm), b.dmaIrq, m0) == MaskStatus(t, b.dmaIrq, m0)
  {
    var u := StartEvents(r0, b, ns, arm);
    assert u == [Put(r0, b.obsCore, AcqCtrlRstGtp, 1)];
    assert AllQuiet(u, b) by {
      WriteApartQuiet(b, b.obsCore, 0, Stored(r0, b.obsCore, Desc(AcqCtrlRstGtp), 1));
    }
    QuietKeepsMasks(t, u, b, m0);
  }

  /** Start enables the interrupts exactly when the page size is accepted
      and the trigger armed; if it did not arm, every interrupt is masked. */
  lemma StartArmedUnmasks(r0: map<nat, bv32>, t: seq<Event>, b: Bases, ns: bv32, m0: bv32)
    requires ValidBases(b) && PageSizeOk(ns)
    ensures AcqIrqOn(t + StartEvents(r0, b, ns, true), b, m0)
    ensures DmaIrqOn(t + StartEvents(r0, b, ns, true), b, m0)
  {
    var pre := [Put(r0, b.obsCore, AcqCtrlRstGtp, 1), Write(b.obsCore + 0x18, ns)] + DisableEvents(b) + [ArmTrigger];
    assert t + StartEvents(r0, b, ns, true) == (t + pre) + EnableEvents(b);
    EnableMasksOn(t + pre, b, m0);
  }

  lemma StartUnarmedMasks(r0: map<nat, bv32>, t: seq<Event>, b: Bases, ns: bv32, m0: bv32)
    requires ValidBases(b) && PageSizeOk(ns)
    ensures AllMasked(t + StartEvents(r0, b, ns, false), b, m0)
  {
    var pre := t + [Put(r0, b.obsCore, AcqCtrlRstGtp, 1), Write(b.obsCore + 0x18, ns)];
    assert t + StartEvents(r0, b, ns, false) == (pre + DisableEvents(b)) + [ArmTrigger];
    DisableMasksAll(pre, b, m0);
    MaskSnoc(pre + DisableEvents(b), ArmTrigger, b.obsIrq, m0);
    MaskSnoc(pre + DisableEvents(b), ArmTrigger, b.dmaIrq, m0);
  }

  // ---------------------------------------------------------------------
  // gncore_dma_fill and the mapping

  /** The six words of the head record that go to DMA_ADDR ... DMA_NEXT_H,
      in the order of struct gncore_dma_item. */
  function Words(item: DmaItem): seq<bv32>
  {
    [item.startAddr, item.dmaAddrL, item.dmaAddrH, item.dmaLen, item.nextAddrL, item.nextAddrH]
  }

  /** Word `j` of the head record is written to offset 0x08 + 4 * j. */
  function HeadWords(base: nat, item: DmaItem): seq<Event>
  {
    seq(6, j requires 0 <= j < 6 => Write(base + 0x08 + 4 * j, Words(item)[j]))
  }

  /** The head record written to the DMA engine at `base`: the six words,
      then the attribute into the DMA_BR_LAST bit. */
  function HeadEvents(r0: map<nat, bv32>, base: nat, item: DmaItem): seq<Event>
  {
    HeadWords(base, item) + [Put(Replay(r0, HeadWords(base, item)), base, DmaBrLast, item.attribute)]
  }

  /** What the fill of one record writes to the bus: the head registers for
      record 0, nothing for any other. */
  function FillEvents(r0: map<nat, bv32>, base: nat, seg: Segment, item: DmaItem): seq<Event>
  {
    if seg.pageIdx == 0 then HeadEvents(r0, base, item) else []
  }

  /** After the head record is written, register 0x08 + 4 * j of the engine
      holds word j of the record, for each of the six words. */
  lemma HeadMirrored(r0: map<nat, bv32>, base: nat, item: DmaItem)
    ensures forall j :: 0 <= j < 6 ==> Raw(Replay(r0, HeadEvents(r0, base, item)), base + 0x08 + 4 * j) == Words(item)[j]
  {
    var h := HeadEvents(r0, base, item);
    forall j | 0 <= j < 6
      ensures Raw(Replay(r0, h), base + 0x08 + 4 * j) == Words(item)[j]
    {
      HeadLaterWrites(r0, base, item, j);
      ReplayWriteAt(r0, h, j);
    }
  }

  /** Event j of the head words writes word j to offset 0x08 + 4 * j. */
  lemma HeadWordAt(base: nat, item: DmaItem, j: nat)
    requires j < 6
    ensures HeadWords(base, item)[j] == Write(base + 0x08 + 4 * j, Words(item)[j])
  {
  }

  /** Event j of the head record writes word j, and no later event writes
      that register again. */
  lemma HeadLaterWrites(r0: map<nat, bv32>, base: nat, item: DmaItem, j: nat)
    requires j < 6
    ensures |HeadEvents(r0, base, item)| == 7
    ensures HeadEvents(r0, base, item)[j] == Write(base + 0x08 + 4 * j, Words(item)[j])
    ensures Untouched(HeadEvents(r0, base, item)[j + 1..], base + 0x08 + 4 * j)
  {
    var h := HeadEvents(r0, base, item);
    var w := HeadWords(base, item);
    var last := Put(Replay(r0, w), base, DmaBrLast, item.attribute);
    assert h == w + [last];
    assert last.addr == base + 0x20;
    HeadWordAt(base, item, j);
    assert h[j] == w[j];
    forall k | j + 1 <= k < |h|
      ensures Stores(h[k]) ==> h[k].addr != base + 0x08 + 4 * j
    {
      if k < 6 {
        HeadWordAt(base, item, k);
        assert h[k] == w[k];
      }
    }
  }

  /** The head record's attribute (0 or 1, as the fill sets it) reads back
      from DMA_BR_LAST, and the direction bit sharing that register is kept. */
  lemma HeadBranchBits(r0: map<nat, bv32>, base: nat, item: DmaItem)
    requires item.attribute <= 1
    ensures Field(Replay(r0, HeadEvents(r0, base, item)), base, DmaBrLast) == item.attribute
    ensures Field(Replay(r0, HeadEvents(r0, base, item)), base, DmaBrDir) == Field(r0, base, DmaBrDir)
  {
    var w := HeadWords(base, item);
    var a := base + 0x20;
    var cur := Raw(Replay(r0, w), a);
    var v := WriteField(cur, Desc(DmaBrLast), item.attribute);
    HeadBranchWord(r0, base, item);
    BranchFieldsDisjoint(cur, item.attribute);
    FieldHolds(Replay(r0, HeadEvents(r0, base, item)), base, DmaBrLast, v);
    FieldHolds(Replay(r0, HeadEvents(r0, base, item)), base, DmaBrDir, v);
    FieldHolds(r0, base, DmaBrDir, cur);
  }

  /** The word DMA_BR_LAST's register holds after the head record: the
      attribute written over the word it held before. */
  lemma HeadBranchWord(r0: map<nat, bv32>, base: nat, item: DmaItem)
    ensures var cur := Raw(Replay(r0, HeadWords(base, item)), base + 0x20);
      && cur == Raw(r0, base + 0x20)
      && Raw(Replay(r0, HeadEvents(r0, base, item)), base + 0x20) == WriteField(cur, Desc(DmaBrLast), item.attribute)
  {
    var w := HeadWords(base, item);
    var a := base + 0x20;
    var v := WriteField(Raw(Replay(r0, w), a), Desc(DmaBrLast), item.attribute);
    assert HeadEvents(r0, base, item) == w + [Write(a, v)];
    ReplayLastWrite(r0, w, a, v);
    ReplayUntouched(r0, w, a);
  }

  /** Writing the head record touches only DMA_ADDR ... DMA_BR_LAST of the
      engine at `base`. */
  lemma HeadFrame(r0: map<nat, bv32>, base: nat, item: DmaItem, a: nat)
    requires a < base + 0x08 || base + 0x20 < a
    ensures Raw(Replay(r0, HeadEvents(r0, base, item)), a) == Raw(r0, a)
  {
    var h := HeadEvents(r0, base, item);
    assert Untouched(h, a) by {
      forall k | 0 <= k < |h| ensures Stores(h[k]) ==> h[k].addr != a {
      }
    }
    ReplayUntouched(r0, h, a);
  }

  /** The events of the fill callback run on each segment in turn, each
      from the register file and pool the previous ones left. */
  function MapEvents(r0: map<nat, bv32>, base: nat, pool: seq<DmaItem>, segs: seq<Segment>, poolBus: bv64): seq<Event>
    requires InPool(segs, |pool|)
    decreases |segs|
  {
    if segs == [] then []
    else
      var init := segs[..|segs| - 1];
      var prev := MapEvents(r0, base, pool, init, poolBus);
      var s := segs[|segs| - 1];
      prev + FillEvents(Replay(r0, prev), base, s, FillItem(FillAll(pool, init, poolBus)[s.pageIdx], s, poolBus))
  }

  /** One more call of the fill callback, on segment `i`: the pool and the
      mapping's events grow by what that call does. */
  lemma MapStep(r0: map<nat, bv32>, base: nat, pool: seq<DmaItem>, segs: seq<Segment>, poolBus: bv64, i: nat)
    requires i < |segs| && InPool(segs, |pool|)
    ensures InPool(segs[..i], |pool|) && InPool(segs[..i + 1], |pool|)
    ensures var s, p := segs[i], FillAll(pool, segs[..i], poolBus);
      FillAll(pool, segs[..i + 1], poolBus) == p[s.pageIdx := FillItem(p[s.pageIdx], s, poolBus)]
    ensures var s, p := segs[i], FillAll(pool, segs[..i], poolBus);
      var prev := MapEvents(r0, base, pool, segs[..i], poolBus);
      MapEvents(r0, base, pool, segs[..i + 1], poolBus)
      == prev + FillEvents(Replay(r0, prev), base, s, FillItem(p[s.pageIdx], s, poolBus))
  {
    assert segs[..i + 1][..i] == segs[..i];
  }

  /** When the fill runs once per record in pool order, only the first call
      touches the bus: it writes the head record as filled from segment 0. */
  lemma {:induction false} MapWritesHeadOnly(r0: map<nat, bv32>, base: nat, pool: seq<DmaItem>, segs: seq<Segment>, poolBus: bv64)
    requires Indexed(segs) && 0 < |segs| <= |pool|
    ensures InPool(segs, |pool|)
    ensures MapEvents(r0, base, pool, segs, poolBus) == HeadEvents(r0, base, FillItem(pool[0], segs[0], poolBus))
    decreases |segs|
  {
    var init := segs[..|segs| - 1];
    if |segs| == 1 {
      assert init == [];
    } else {
      assert Indexed(init);
      MapWritesHeadOnly(r0, base, pool, init, poolBus);
      assert segs[|segs| - 1].pageIdx != 0;
    }
  }

  // ---------------------------------------------------------------------
  // ob_run_dma

  /** What the ZIO framework reports to ob_run_dma: whether the channel has
      an active block, whether zio_dma_alloc_sg and zio_dma_map_sg succeed,
      the bus address of the descriptor pool, the pool's contents before the
      fill, the segments the mapper hands to the fill callback, and whether
      the trigger is still armed once zio_trigger_data_done has returned
      on the give-up path (ZIO, not the driver, decides that bit there). */
  datatype DmaEnv = DmaEnv(hasBlock: bool, allocOk: bool, mapOk: bool,
                           poolBus: bv64, poolInit: seq<DmaItem>, segs: seq<Segment>,
                           armedAfterDone: bool)

  /** The mapper only hands over segments that name records of its pool. */
  predicate EnvOk(env: DmaEnv)
  {
    InPool(env.segs, |env.poolInit|)
  }

  /** The four ways ob_run_dma gives up, and success. */
  datatype DmaOutcome = NoBlock | Busy | AllocFailed | MapFailed | Started

  function Outcome(busy: bool, env: DmaEnv): DmaOutcome
  {
    if !env.hasBlock then NoBlock
    else if busy then Busy
    else if !env.allocOk then AllocFailed
    else if !env.mapOk then MapFailed
    else Started
  }

  /** Byte swapping, then the start bit, both in DMA_CTL. */
  function KickEvents(r0: map<nat, bv32>, base: nat): seq<Event>
  {
    var swp := Put(r0, base, DmaCtlSwp, 2);
    [swp, Put(Replay(r0, [swp]), base, DmaCtlStart, 1)]
  }

  /** ob_run_dma: a failure ends with the data-done notification; success
      allocates, maps (filling the pool), then starts the engine. */
  function DmaEvents(r0: map<nat, bv32>, b: Bases, busy: bool, env: DmaEnv): seq<Event>
    requires EnvOk(env)
  {
    match Outcome(busy, env)
    case NoBlock => [DataDone]
    case Busy => [DataDone]
    case AllocFailed => [DmaAlloc, DataDone]
    case MapFailed => [DmaAlloc, DmaMap, DmaFree, DataDone]
    case Started => [DmaAlloc, DmaMap] + TransferEvents(Replay(r0, [DmaAlloc, DmaMap]), b, env)
  }

  /** A mapped transfer from register file `r1`: the fill's writes, then the
      kick. */
  function TransferEvents(r1: map<nat, bv32>, b: Bases, env: DmaEnv): seq<Event>
    requires EnvOk(env)
  {
    var fill := MapEvents(r1, b.dmaCore, env.poolInit, env.segs, env.poolBus);
    fill + KickEvents(Replay(r1, fill), b.dmaCore)
  }

  /** A started transfer as ob_run_dma issues it after trace `t0`: the
      allocation and mapping calls, then the transfer from the registers they
      left. */
  lemma DmaStartedAppend(r0: map<nat, bv32>, b: Bases, busy: bool, env: DmaEnv,
                         t0: seq<Event>, t1: seq<Event>, t2: seq<Event>)
    requires EnvOk(env) && Outcome(busy, env) == Started
    requires t1 == t0 + [DmaAlloc] + [DmaMap]
    requires t2 == t1 + TransferEvents(Replay(r0, t1), b, env)
    ensures t2 == t0 + DmaEvents(Replay(r0, t0), b, busy, env)
  {
    assert t1 == t0 + [DmaAlloc, DmaMap];
    ReplayAppend(r0, t0, [DmaAlloc, DmaMap]);
    AppendAssoc(t0, [DmaAlloc, DmaMap], TransferEvents(Replay(r0, t1), b, env));
  }

  /** The transfer as it is issued after trace `t1`: the fill's writes, then
      the kick from the registers they left. */
  lemma TransferAppend(r0: map<nat, bv32>, b: Bases, env: DmaEnv, t1: seq<Event>, t2: seq<Event>, t3: seq<Event>)
    requires EnvOk(env)
    requires t2 == t1 + MapEvents(Replay(r0, t1), b.dmaCore, env.poolInit, env.segs, env.poolBus)
    requires t3 == t2 + KickEvents(Replay(r0, t2), b.dmaCore)
    ensures t3 == t1 + TransferEvents(Replay(r0, t1), b, env)
  {
    var fill := MapEvents(Replay(r0, t1), b.dmaCore, env.poolInit, env.segs, env.poolBus);
    ReplayAppend(r0, t1, fill);
    AppendAssoc(t1, fill, KickEvents(Replay(r0, t2), b.dmaCore));
  }

  /** A failed ob_run_dma writes no register (so never DMA_CTL_START) and
      notifies the end of the acquisition exactly once, last. */
  lemma DmaFailureWritesNothing(r0: map<nat, bv32>, b: Bases, busy: bool, env: DmaEnv)
    requires EnvOk(env) && Outcome(busy, env) != Started
    ensures forall e :: e in DmaEvents(r0, b, busy, env) ==> !e.Write?
    ensures DmaEvents(r0, b, busy, env)[|DmaEvents(r0, b, busy, env)| - 1] == DataDone
    ensures multiset(DmaEvents(r0, b, busy, env))[DataDone] == 1
  {
  }

  /** A transfer is started with the byte-swap and start writes to DMA_CTL,
      after whatever came before: afterwards SWP reads 2 and START reads 1. */
  lemma KickStarts(r0: map<nat, bv32>, pre: seq<Event>, base: nat)
    ensures var ev := pre + KickEvents(Replay(r0, pre), base);
      Field(Replay(r0, ev), base, DmaCtlSwp) == 2 && Field(Replay(r0, ev), base, DmaCtlStart) == 1
  {
    var r := Replay(r0, pre);
    var k := KickEvents(r, base);
    var w2 := WriteField(WriteField(Raw(r, base), Desc(DmaCtlSwp), 2), Desc(DmaCtlStart), 1);
    KickWord(r, base);
    ReplayAppend(r0, pre, k);
    StartSequence(Raw(r, base));
    FieldHolds(Replay(r0, pre + k), base, DmaCtlSwp, w2);
    FieldHolds(Replay(r0, pre + k), base, DmaCtlStart, w2);
  }

  /** The word of DMA_CTL after the two writes: byte swap 2 written over the
      old word, then the start bit over that. */
  lemma KickWord(r: map<nat, bv32>, base: nat)
    ensures Raw(Replay(r, KickEvents(r, base)), base)
            == WriteField(WriteField(Raw(r, base), Desc(DmaCtlSwp), 2), Desc(DmaCtlStart), 1)
  {
    var w1 := WriteField(Raw(r, base), Desc(DmaCtlSwp), 2);
    var w2 := WriteField(w1, Desc(DmaCtlStart), 1);
    ReplayLastWrite(r, [], base, w1);
    assert [] + [Write(base, w1)] == [Write(base, w1)];
    assert KickEvents(r, base) == [Write(base, w1)] + [Write(base, w2)];
    ReplayLastWrite(r, [Write(base, w1)], base, w2);
  }

  /** A started transfer allocates and maps first, then writes the head
      descriptor registers, and only then the two DMA_CTL writes (byte swap
      and start); it does not notify the end of the acquisition. */
  lemma DmaStartedOrder(r0: map<nat, bv32>, b: Bases, busy: bool, env: DmaEnv)
    requires EnvOk(env) && Outcome(busy, env) == Started
    ensures var ev := DmaEvents(r0, b, busy, env);
      |ev| >= 4 && ev[..2] == [DmaAlloc, DmaMap] && DataDone !in ev
    ensures var ev := DmaEvents(r0, b, busy, env);
      && ev[|ev| - 2].Write? && ev[|ev| - 2].addr == b.dmaCore + 0
      && ev[|ev| - 1].Write? && ev[|ev| - 1].addr == b.dmaCore + 0
    ensures var ev := DmaEvents(r0, b, busy, env);
      forall k :: 2 <= k < |ev| - 2 ==> DescWrite(ev[k], b.dmaCore)
  {
    var r1 := Replay(r0, [DmaAlloc, DmaMap]);
    var t := TransferEvents(r1, b, env);
    var ev := DmaEvents(r0, b, busy, env);
    TransferOrder(r1, b, env);
    assert ev == [DmaAlloc, DmaMap] + t;
    forall k | 2 <= k < |ev| - 2
      ensures DescWrite(ev[k], b.dmaCore)
    {
      assert ev[k] == t[k - 2];
    }
    forall e | e in ev
      ensures e != DataDone
    {
      var k :| 0 <= k < |ev| && ev[k] == e;
      if k >= 2 {
        assert ev[k] == t[k - 2];
      }
    }
  }

  /** A mapped transfer: descriptor writes, then the two DMA_CTL writes. */
  lemma TransferOrder(r1: map<nat, bv32>, b: Bases, env: DmaEnv)
    requires EnvOk(env)
    ensures var t := TransferEvents(r1, b, env);
      && |t| >= 2
      && t[|t| - 2].Write? && t[|t| - 2].addr == b.dmaCore + 0
      && t[|t| - 1].Write? && t[|t| - 1].addr == b.dmaCore + 0
      && forall k :: 0 <= k < |t| - 2 ==> DescWrite(t[k], b.dmaCore)
  {
    var fill := MapEvents(r1, b.dmaCore, env.poolInit, env.segs, env.poolBus);
    var kick := KickEvents(Replay(r1, fill), b.dmaCore);
    MapWrites(r1, b.dmaCore, env.poolInit, env.segs, env.poolBus);
    KickAddrs(Replay(r1, fill), b.dmaCore);
    var t := fill + kick;
    assert t == TransferEvents(r1, b, env);
    forall k | 0 <= k < |t| - 2
      ensures DescWrite(t[k], b.dmaCore)
    {
      assert t[k] == fill[k];
    }
  }

  /** The kick is two writes, both to DMA_CTL at offset 0 of the engine. */
  lemma KickAddrs(r: map<nat, bv32>, base: nat)
    ensures var k := KickEvents(r, base);
      |k| == 2 && k[0].Write? && k[0].addr == base + 0 && k[1].Write? && k[1].addr == base + 0
  {
  }

  /** One of the writes of the descriptor fill: a register of the engine at
      `base` from DMA_ADDR (0x08) to DMA_BR_LAST (0x20). */
  predicate DescWrite(e: Event, base: nat)
  {
    e.Write? && base + 0x08 <= e.addr <= base + 0x20
  }

  /** After a started transfer DMA_CTL's START bit reads 1 and its byte-swap
      field reads 2. */
  lemma DmaStartedKicks(r0: map<nat, bv32>, b: Bases, busy: bool, env: DmaEnv)
    requires EnvOk(env) && Outcome(busy, env) == Started
    ensures Field(Replay(r0, DmaEvents(r0, b, busy, env)), b.dmaCore, DmaCtlStart) == 1
    ensures Field(Replay(r0, DmaEvents(r0, b, busy, env)), b.dmaCore, DmaCtlSwp) == 2
  {
    var r1 := Replay(r0, [DmaAlloc, DmaMap]);
    var fill := MapEvents(r1, b.dmaCore, env.poolInit, env.segs, env.poolBus);
    var pre := [DmaAlloc, DmaMap] + fill;
    ReplayAppend(r0, [DmaAlloc, DmaMap], fill);
    AppendAssoc([DmaAlloc, DmaMap], fill, KickEvents(Replay(r0, pre), b.dmaCore));
    assert DmaEvents(r0, b, busy, env) == pre + KickEvents(Replay(r0, pre), b.dmaCore);
    KickStarts(r0, pre, b.dmaCore);
  }

  /** The mapping only writes the descriptor registers of the engine: no
      fill call notifies ZIO or touches DMA_CTL. */
  lemma {:induction false} MapWrites(r0: map<nat, bv32>, base: nat, pool: seq<DmaItem>, segs: seq<Segment>, poolBus: bv64)
    requires InPool(segs, |pool|)
    ensures forall e :: e in MapEvents(r0, base, pool, segs, poolBus) ==> DescWrite(e, base)
    decreases |segs|
  {
    if segs != [] {
      var init := segs[..|segs| - 1];
      var prev := MapEvents(r0, base, pool, init, poolBus);
      var s := segs[|segs| - 1];
      var f := FillEvents(Replay(r0, prev), base, s, FillItem(FillAll(pool, init, poolBus)[s.pageIdx], s, poolBus));
      MapWrites(r0, base, pool, init, poolBus);
      FillWrites(Replay(r0, prev), base, s, FillItem(FillAll(pool, init, poolBus)[s.pageIdx], s, poolBus));
      assert MapEvents(r0, base, pool, segs, poolBus) == prev + f;
    }
  }

  /** The fill of one record only writes registers. */
  lemma FillWrites(r0: map<nat, bv32>, base: nat, seg: Segment, item: DmaItem)
    ensures forall e :: e in FillEvents(r0, base, seg, item) ==> DescWrite(e, base)
  {
    if seg.pageIdx == 0 {
      var w := HeadWords(base, item);
      assert HeadEvents(r0, base, item) == w + [Put(Replay(r0, w), base, DmaBrLast, item.attribute)];
    }
  }

  // ---------------------------------------------------------------------
  // The interrupt handlers

  /** ob_get_irq_status: a nonzero status is written back to clear it. */
  function StatusEvents(base: nat, st: bv32): seq<Event>
  {
    if st != 0 then [Write(base + 0x0C, st)] else []
  }

  /** Whether the DMA-done handler stops the acquisition: on a completed
      transfer that is not to be rearmed, or when there are too many errors. */
  predicate DmaIrqStops(st: bv32, rearm: bool, mustStop: bool)
  {
    st != 0 && ((st & GNCORE_IRQ_DMA_DONE != 0 && !rearm) || mustStop)
  }

  /** ob_dma_irq_handler, for status `st`, `rearm` the rearm decision after
      OB_FLAG_STOPPING is applied, and `mustStop` the verdict of
      ob_check_errors on the updated counters. */
  function DmaIrqEvents(b: Bases, st: bv32, rearm: bool, mustStop: bool): seq<Event>
  {
    if st == 0 then []
    else StatusEvents(b.dmaIrq, st) + [DmaUnmap, DmaFree, DataDone]
         + IfStop(st & GNCORE_IRQ_DMA_DONE != 0 && !rearm, b) + IfStop(mustStop, b) + [IrqAck]
  }

  /** The DMA-done handler's events past the status write-back. */
  function DoneEvents(b: Bases, st: bv32, rearm: bool, mustStop: bool): seq<Event>
  {
    [DmaUnmap, DmaFree, DataDone] + IfStop(st & GNCORE_IRQ_DMA_DONE != 0 && !rearm, b) + IfStop(mustStop, b) + [IrqAck]
  }

  /** The DMA-done handler's events past the status write-back, as it issues
      them after trace `t0`. */
  lemma DmaIrqAppend(b: Bases, st: bv32, rearm: bool, mustStop: bool,
                     t0: seq<Event>, t1: seq<Event>, t2: seq<Event>, t3: seq<Event>)
    requires t1 == t0 + [DmaUnmap] + [DmaFree] + [DataDone]
    requires t2 == t1 + IfStop(st & GNCORE_IRQ_DMA_DONE != 0 && !rearm, b)
    requires t3 == t2 + IfStop(mustStop, b) + [IrqAck]
    ensures t3 == t0 + DoneEvents(b, st, rearm, mustStop)
  {
    var i1 := IfStop(st & GNCORE_IRQ_DMA_DONE != 0 && !rearm, b);
    var i2 := IfStop(mustStop, b);
    assert t1 == t0 + [DmaUnmap, DmaFree, DataDone];
    AppendAssoc(t0, [DmaUnmap, DmaFree, DataDone], i1);
    AppendAssoc(t0, [DmaUnmap, DmaFree, DataDone] + i1, i2);
    AppendAssoc(t0, [DmaUnmap, DmaFree, DataDone] + i1 + i2, [IrqAck]);
  }

  /** The DMA-done handler for a non-zero status: the status write-back,
      then the rest. */
  lemma DmaIrqSplit(b: Bases, st: bv32, rearm: bool, mustStop: bool,
                    t0: seq<Event>, t1: seq<Event>, t2: seq<Event>)
    requires st != 0
    requires t1 == t0 + StatusEvents(b.dmaIrq, st)
    requires t2 == t1 + DoneEvents(b, st, rearm, mustStop)
    ensures t2 == t0 + DmaIrqEvents(b, st, rearm, mustStop)
  {
    var s := StatusEvents(b.dmaIrq, st);
    var i1 := IfStop(st & GNCORE_IRQ_DMA_DONE != 0 && !rearm, b);
    var i2 := IfStop(mustStop, b);
    AppendAssoc(t0, s, DoneEvents(b, st, rearm, mustStop));
    assert s + DoneEvents(b, st, rearm, mustStop) == s + [DmaUnmap, DmaFree, DataDone] + i1 + i2 + [IrqAck];
  }

  /** The DMA-done handler does nothing for status 0; otherwise it releases
      the mapping, notifies ZIO and acknowledges last. */
  lemma DmaIrqAckLast(b: Bases, st: bv32, rearm: bool, mustStop: bool)
    ensures st == 0 ==> DmaIrqEvents(b, st, rearm, mustStop) == []
    ensures st != 0 ==>
      var ev := DmaIrqEvents(b, st, rearm, mustStop);
      |ev| >= 5 && ev[..4] == [Write(b.dmaIrq + 0x0C, st), DmaUnmap, DmaFree, DataDone] && ev[|ev| - 1] == IrqAck
      && IrqAck !in ev[..|ev| - 1]
  {
  }

  /** The handler stops the acquisition (aborts the trigger) exactly when
      `DmaIrqStops` says so: a transfer error alone does not stop it. */
  lemma DmaIrqStopIff(b: Bases, st: bv32, rearm: bool, mustStop: bool)
    ensures AbortTrigger in DmaIrqEvents(b, st, rearm, mustStop) <==> DmaIrqStops(st, rearm, mustStop)
  {
    var ev := DmaIrqEvents(b, st, rearm, mustStop);
    if DmaIrqStops(st, rearm, mustStop) {
      if st & GNCORE_IRQ_DMA_DONE != 0 && !rearm {
        assert ev[6] == AbortTrigger;
      } else {
        assert ev[|ev| - 2] == AbortTrigger;
      }
    }
  }

  /** After a stop from the DMA-done handler every interrupt is masked. */
  lemma DmaIrqStopMasks(t: seq<Event>, b: Bases, st: bv32, rearm: bool, mustStop: bool, m0: bv32)
    requires Apart(b.obsIrq, b.dmaIrq) && DmaIrqStops(st, rearm, mustStop)
    ensures AllMasked(t + DmaIrqEvents(b, st, rearm, mustStop), b, m0)
  {
    var pre := t + StatusEvents(b.dmaIrq, st) + [DmaUnmap, DmaFree, DataDone]
               + IfStop(st & GNCORE_IRQ_DMA_DONE != 0 && !rearm, b);
    var ev := DmaIrqEvents(b, st, rearm, mustStop);
    if mustStop {
      assert t + ev == (pre + StopEvents(b)) + [IrqAck];
      StopMasksAll(pre, b, m0);
      MaskSnoc(pre + StopEvents(b), IrqAck, b.obsIrq, m0);
      MaskSnoc(pre + StopEvents(b), IrqAck, b.dmaIrq, m0);
    } else {
      var pre' := t + StatusEvents(b.dmaIrq, st) + [DmaUnmap, DmaFree, DataDone];
      assert t + ev == (pre' + StopEvents(b)) + [IrqAck];
      StopMasksAll(pre', b, m0);
      MaskSnoc(pre' + StopEvents(b), IrqAck, b.obsIrq, m0);
      MaskSnoc(pre' + StopEvents(b), IrqAck, b.dmaIrq, m0);
    }
  }

  /** ob_core_irq_handler, for status `st`, OB_FLAG_STOPPING `stopping`, the
      trigger's armed bit `armed`, the channel set's busy bit `busy`, what
      the framework reports to ob_run_dma, and `mustStop` the verdict of
      ob_check_errors on the updated counters. */
  function CoreIrqEvents(r0: map<nat, bv32>, b: Bases, st: bv32, stopping: bool, armed: bool, busy: bool,
                         env: DmaEnv, mustStop: bool): seq<Event>
    requires EnvOk(env)
  {
    var s := StatusEvents(b.obsIrq, st);
    if st & OBS_IRQ_ACQ == 0 then s
    else if stopping then s + StopEvents(b)
    else s + PageEvents(Replay(r0, s), b, armed, busy, env, mustStop)
  }

  /** The page-ready handler past the OB_FLAG_STOPPING test, from register
      file `r1`: a transfer if the trigger is armed, the error check, the
      acknowledge. */
  function PageEvents(r1: map<nat, bv32>, b: Bases, armed: bool, busy: bool, env: DmaEnv, mustStop: bool): seq<Event>
    requires EnvOk(env)
  {
    (if armed then DmaEvents(r1, b, busy, env) else []) + IfStop(mustStop, b) + [IrqAck]
  }

  /** The page-ready handler past the OB_FLAG_STOPPING test, as it issues
      its events after trace `t1`. */
  lemma PageAppend(r0: map<nat, bv32>, b: Bases, armed: bool, busy: bool, env: DmaEnv, mustStop: bool,
                   t1: seq<Event>, t2: seq<Event>, t3: seq<Event>)
    requires EnvOk(env)
    requires t2 == t1 + if armed then DmaEvents(Replay(r0, t1), b, busy, env) else []
    requires t3 == t2 + IfStop(mustStop, b) + [IrqAck]
    ensures t3 == t1 + PageEvents(Replay(r0, t1), b, armed, busy, env, mustStop)
  {
    var d := if armed then DmaEvents(Replay(r0, t1), b, busy, env) else [];
    AppendAssoc(t1, d, IfStop(mustStop, b));
    AppendAssoc(t1, d + IfStop(mustStop, b), [IrqAck]);
  }

  /** The page-ready handler, when the page is handled, after trace `t0`:
      the status write-back, then the page's events. */
  lemma CoreIrqAppend(r0: map<nat, bv32>, b: Bases, st: bv32, armed: bool, busy: bool, env: DmaEnv,
                      mustStop: bool, t0: seq<Event>, t1: seq<Event>, t2: seq<Event>)
    requires EnvOk(env) && st & OBS_IRQ_ACQ != 0
    requires t1 == t0 + StatusEvents(b.obsIrq, st)
    requires t2 == t1 + PageEvents(Replay(r0, t1), b, armed, busy, env, mustStop)
    ensures t2 == t0 + CoreIrqEvents(Replay(r0, t0), b, st, false, armed, busy, env, mustStop)
  {
    var s := StatusEvents(b.obsIrq, st);
    ReplayAppend(r0, t0, s);
    AppendAssoc(t0, s, PageEvents(Replay(r0, t1), b, armed, busy, env, mustStop));
  }

  /** Without the page-ready bit the handler only clears the status: no
      transfer, no acknowledge.  With OB_FLAG_STOPPING it stops and returns
      without acknowledging.  Otherwise the acknowledge comes last, and a
      transfer is attempted only when the trigger is armed. */
  lemma CoreIrqShape(r0: map<nat, bv32>, b: Bases, st: bv32, stopping: bool, armed: bool, busy: bool,
                     env: DmaEnv, mustStop: bool)
    requires EnvOk(env)
    ensures var ev := CoreIrqEvents(r0, b, st, stopping, armed, busy, env, mustStop);
      st & OBS_IRQ_ACQ == 0 ==> IrqAck !in ev && DataDone !in ev && DmaAlloc !in ev
    ensures var ev := CoreIrqEvents(r0, b, st, stopping, armed, busy, env, mustStop);
      st & OBS_IRQ_ACQ != 0 && stopping ==> IrqAck !in ev && ev[|ev| - 1] == AbortTrigger
    ensures var ev := CoreIrqEvents(r0, b, st, stopping, armed, busy, env, mustStop);
      st & OBS_IRQ_ACQ != 0 && !stopping ==> |ev| > 0 && ev[|ev| - 1] == IrqAck
    ensures var ev := CoreIrqEvents(r0, b, st, stopping, armed, busy, env, mustStop);
      st & OBS_IRQ_ACQ != 0 && !stopping && !armed ==> DataDone !in ev && DmaAlloc !in ev
  {
  }

  // ---------------------------------------------------------------------
  // ob_probe

  /** The bus traffic of ob_probe: the minimum page size, then ob_init_irq's
      masking of every interrupt. */
  function ProbeEvents(b: Bases): seq<Event>
  {
    [Write(b.obsCore + 0x18, OB_MIN_PAGE_SIZE)] + DisableEvents(b)
  }

  /** After probe ACQ_PAGE_SIZE reads OB_MIN_PAGE_SIZE and every interrupt
      is masked. */
  lemma ProbeLeavesMasked(r0: map<nat, bv32>, t: seq<Event>, b: Bases, m0: bv32)
    requires ValidBases(b)
    ensures Field(Replay(r0, ProbeEvents(b)), b.obsCore, AcqPageSize) == OB_MIN_PAGE_SIZE
    ensures AllMasked(t + ProbeEvents(b), b, m0)
  {
    var w := Write(b.obsCore + 0x18, OB_MIN_PAGE_SIZE);
    ReplayAppend(r0, [w], DisableEvents(b));
    ReplayLastWrite(r0, [], b.obsCore + 0x18, OB_MIN_PAGE_SIZE);
    ReplayUntouched(Replay(r0, [w]), DisableEvents(b), b.obsCore + 0x18);
    assert t + ProbeEvents(b) == (t + [w]) + DisableEvents(b);
    DisableMasksAll(t + [w], b, m0);
  }
}
