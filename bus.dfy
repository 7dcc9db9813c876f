/** The FMC bus as the ObsBox driver sees it, and the record of what the
    driver does to the world outside its own memory.

    The bus is a map from addresses to 32-bit words; an address that holds
    nothing reads 0 (fmc_readl).  Every bus write and every call into the
    ZIO framework or the carrier is an event of the trace, in order, and so
    is every word the hardware itself stores in one of its registers (a
    status bit raised, the address of a new page).  The register file after
    a run of events is the old file with the stored words (`Replay`), and
    the enable status of either interrupt controller after a trace is the
    initial status with every enable and disable write of the driver
    applied (`MaskStatus`). */
module ObsBus {

  /** What the driver does outside its own memory. */
  datatype Event =
    | Write(addr: nat, val: bv32)   // fmc_writel
    | HwWrite(addr: nat, val: bv32) // the hardware stores a word
    | DataDone                      // zio_trigger_data_done
    | ArmTrigger                    // zio_arm_trigger
    | AbortTrigger                  // zio_trigger_abort_disable
    | DmaAlloc                      // zio_dma_alloc_sg
    | DmaMap                        // zio_dma_map_sg
    | DmaUnmap                      // zio_dma_unmap_sg
    | DmaFree                       // zio_dma_free_sg
    | IrqAck                        // fmc->op->irq_ack

  /** The bus base addresses of the four cores the driver uses: the
      acquisition core, its interrupt controller, the DMA engine and the DMA
      interrupt controller. */
  datatype Bases = Bases(obsCore: nat, obsIrq: nat, dmaCore: nat, dmaIrq: nat)

  /** Two register windows of 0x40 bytes (every register of the table lies
      below offset 0x40) do not overlap. */
  predicate Apart(x: nat, y: nat)
  {
    x + 0x40 <= y || y + 0x40 <= x
  }

  /** The four cores sit at distinct, non-overlapping windows. */
  predicate ValidBases(b: Bases)
  {
    && Apart(b.obsCore, b.obsIrq) && Apart(b.obsCore, b.dmaCore) && Apart(b.obsCore, b.dmaIrq)
    && Apart(b.obsIrq, b.dmaCore) && Apart(b.obsIrq, b.dmaIrq) && Apart(b.dmaCore, b.dmaIrq)
  }

  /** fmc_readl */
  function Raw(regs: map<nat, bv32>, addr: nat): bv32
  {
    if addr in regs then regs[addr] else 0
  }

  /** An event that stores a word in the register file: a bus write of the
      driver or a store by the hardware. */
  predicate Stores(e: Event)
  {
    e.Write? || e.HwWrite?
  }

  /** The register file after the stores among `evs`, in order. */
  function Replay(regs: map<nat, bv32>, evs: seq<Event>): map<nat, bv32>
    decreases |evs|
  {
    if evs == [] then regs
    else
      var r := Replay(regs, evs[..|evs| - 1]);
      var e := evs[|evs| - 1];
      if Stores(e) then r[e.addr := e.val] else r
  }

  lemma ReplaySnoc(regs: map<nat, bv32>, evs: seq<Event>, e: Event)
    ensures Replay(regs, evs + [e]) == (var r := Replay(regs, evs); if Stores(e) then r[e.addr := e.val] else r)
  {
    assert (evs + [e])[..|evs + [e]| - 1] == evs;
  }

  /** Replaying two runs of events one after the other is replaying their
      concatenation. */
  lemma {:induction false} ReplayAppend(regs: map<nat, bv32>, e1: seq<Event>, e2: seq<Event>)
    ensures Replay(Replay(regs, e1), e2) == Replay(regs, e1 + e2)
    decreases |e2|
  {
    if e2 != [] {
      var init := e2[..|e2| - 1];
      var e := e2[|e2| - 1];
      ReplayAppend(regs, e1, init);
      assert e1 + e2 == (e1 + init) + [e];
      assert e2 == init + [e];
      ReplaySnoc(Replay(regs, e1), init, e);
      ReplaySnoc(regs, e1 + init, e);
    } else {
      assert e1 + e2 == e1;
    }
  }

  /** Appending two runs of events one after the other. */
  lemma AppendAssoc(a: seq<Event>, b: seq<Event>, c: seq<Event>)
    ensures (a + b) + c == a + (b + c)
  {
  }

  /** No event of `evs` stores a word at address `a`. */
  predicate Untouched(evs: seq<Event>, a: nat)
  {
    forall k :: 0 <= k < |evs| ==> (Stores(evs[k]) ==> evs[k].addr != a)
  }

  /** A register no event writes keeps its word. */
  lemma {:induction false} ReplayUntouched(regs: map<nat, bv32>, evs: seq<Event>, a: nat)
    requires Untouched(evs, a)
    ensures Raw(Replay(regs, evs), a) == Raw(regs, a)
    decreases |evs|
  {
    if evs != [] {
      var init := evs[..|evs| - 1];
      assert Untouched(init, a) by {
        forall k | 0 <= k < |init| ensures Stores(init[k]) ==> init[k].addr != a {
          assert init[k] == evs[k];
        }
      }
      ReplayUntouched(regs, init, a);
      assert Stores(evs[|evs| - 1]) ==> evs[|evs| - 1].addr != a;
    }
  }

  /** The word of `a` after a run of events that ends with a write to it. */
  lemma ReplayLastWrite(regs: map<nat, bv32>, evs: seq<Event>, a: nat, v: bv32)
    ensures Raw(Replay(regs, evs + [Write(a, v)]), a) == v
  {
    ReplaySnoc(regs, evs, Write(a, v));
  }

  /** The word of the address event `j` writes, when no later event writes
      it again. */
  lemma ReplayWriteAt(regs: map<nat, bv32>, evs: seq<Event>, j: nat)
    requires j < |evs| && Stores(evs[j]) && Untouched(evs[j + 1..], evs[j].addr)
    ensures Raw(Replay(regs, evs), evs[j].addr) == evs[j].val
  {
    var a := evs[j].addr;
    ReplaySnoc(regs, evs[..j], evs[j]);
    assert evs[..j] + [evs[j]] == evs[..j + 1];
    ReplayUntouched(Replay(regs, evs[..j + 1]), evs[j + 1..], a);
    ReplayAppend(regs, evs[..j + 1], evs[j + 1..]);
    assert evs[..j + 1] + evs[j + 1..] == evs;
  }

  // ---------------------------------------------------------------------
  // Interrupt masks

  /** The enable register sits at offset 0x04 and the disable register at
      offset 0x00 of both interrupt controllers (IRQ_*_ENABLE_MASK and
      IRQ_*_DISABLE_MASK): a write to the first sets the written bits of the
      enable status, a write to the second clears them.  Only the driver
      writes them. */
  function MaskStep(m: bv32, e: Event, base: nat): bv32
  {
    if e.Write? && e.addr == base + 4 then m | e.val
    else if e.Write? && e.addr == base then m & !e.val
    else m
  }

  /** The enable status of the controller at `base` after trace `tr`,
      starting from `m0`. */
  function MaskStatus(tr: seq<Event>, base: nat, m0: bv32): bv32
    decreases |tr|
  {
    if tr == [] then m0
    else MaskStep(MaskStatus(tr[..|tr| - 1], base, m0), tr[|tr| - 1], base)
  }

  lemma MaskSnoc(tr: seq<Event>, e: Event, base: nat, m0: bv32)
    ensures MaskStatus(tr + [e], base, m0) == MaskStep(MaskStatus(tr, base, m0), e, base)
  {
    assert (tr + [e])[..|tr + [e]| - 1] == tr;
  }

  /** The page-ready interrupt is unmasked after trace `t`. */
  predicate AcqIrqOn(t: seq<Event>, b: Bases, m0: bv32)
  {
    MaskStatus(t, b.obsIrq, m0) & 2 != 0
  }

  /** Both DMA interrupts (done and error) are unmasked after trace `t`. */
  predicate DmaIrqOn(t: seq<Event>, b: Bases, m0: bv32)
  {
    MaskStatus(t, b.dmaIrq, m0) & 3 == 3
  }

  /** Every acquisition and DMA interrupt is masked after trace `t`. */
  predicate AllMasked(t: seq<Event>, b: Bases, m0: bv32)
  {
    MaskStatus(t, b.obsIrq, m0) & 3 == 0 && MaskStatus(t, b.dmaIrq, m0) & 3 == 0
  }

  /** An event that cannot move either controller's enable status: not a
      write, or a write to neither mask register. */
  predicate Quiet(e: Event, b: Bases)
  {
    e.Write? ==> e.addr != b.obsIrq && e.addr != b.obsIrq + 4 && e.addr != b.dmaIrq && e.addr != b.dmaIrq + 4
  }

  predicate AllQuiet(u: seq<Event>, b: Bases)
  {
    forall k :: 0 <= k < |u| ==> Quiet(u[k], b)
  }

  /** Quiet events leave both enable statuses as they were. */
  lemma {:induction false} QuietKeepsMasks(t: seq<Event>, u: seq<Event>, b: Bases, m0: bv32)
    requires AllQuiet(u, b)
    ensures MaskStatus(t + u, b.obsIrq, m0) == MaskStatus(t, b.obsIrq, m0)
    ensures MaskStatus(t + u, b.dmaIrq, m0) == MaskStatus(t, b.dmaIrq, m0)
    decreases |u|
  {
    if u != [] {
      var init := u[..|u| - 1];
      var e := u[|u| - 1];
      assert AllQuiet(init, b) by {
        forall k | 0 <= k < |init| ensures Quiet(init[k], b) {
          assert init[k] == u[k];
        }
      }
      QuietKeepsMasks(t, init, b, m0);
      assert Quiet(e, b);
      assert t + u == (t + init) + [e];
      MaskSnoc(t + init, e, b.obsIrq, m0);
      MaskSnoc(t + init, e, b.dmaIrq, m0);
    } else {
      assert t + u == t;
    }
  }

  /** A write into the window of a core that is clear of both interrupt
      controllers is quiet. */
  lemma WriteApartQuiet(b: Bases, base: nat, off: nat, v: bv32)
    requires Apart(base, b.obsIrq) && Apart(base, b.dmaIrq) && off < 0x40
    ensures Quiet(Write(base + off, v), b)
  {
  }

  /** Two consecutive quiet runs are quiet. */
  lemma AllQuietAppend(u: seq<Event>, v: seq<Event>, b: Bases)
    requires AllQuiet(u, b) && AllQuiet(v, b)
    ensures AllQuiet(u + v, b)
  {
    forall k | 0 <= k < |u + v| ensures Quiet((u + v)[k], b) {
      if k >= |u| {
        assert (u + v)[k] == v[k - |u|];
      }
    }
  }

  // ---------------------------------------------------------------------
  // The fixed sequences of the interrupt helpers

  /** ob_enable_irq: unmask the page-ready interrupt and both DMA interrupts. */
  function EnableEvents(b: Bases): seq<Event>
  {
    [Write(b.obsIrq + 4, 2), Write(b.dmaIrq + 4, 3)]
  }

  /** ob_disable_irq: mask every acquisition and DMA interrupt. */
  function DisableEvents(b: Bases): seq<Event>
  {
    [Write(b.obsIrq, 3), Write(b.dmaIrq, 3)]
  }

  /** The stop of an acquisition (ob_acquisition_command(ob, 0)): mask all
      interrupts, then abort the trigger. */
  function StopEvents(b: Bases): seq<Event>
  {
    DisableEvents(b) + [AbortTrigger]
  }

  /** The enable status after two writes. */
  lemma TwoWritesMask(tr: seq<Event>, e1: Event, e2: Event, base: nat, m0: bv32)
    ensures MaskStatus(tr + [e1, e2], base, m0) == MaskStep(MaskStep(MaskStatus(tr, base, m0), e1, base), e2, base)
  {
    MaskSnoc(tr, e1, base, m0);
    MaskSnoc(tr + [e1], e2, base, m0);
    assert tr + [e1, e2] == tr + [e1] + [e2];
  }

  /** After ob_disable_irq every interrupt of both controllers is masked,
      whatever came before. */
  lemma DisableMasksAll(tr: seq<Event>, b: Bases, m0: bv32)
    requires Apart(b.obsIrq, b.dmaIrq)
    ensures AllMasked(tr + DisableEvents(b), b, m0)
  {
    TwoWritesMask(tr, Write(b.obsIrq, 3), Write(b.dmaIrq, 3), b.obsIrq, m0);
    TwoWritesMask(tr, Write(b.obsIrq, 3), Write(b.dmaIrq, 3), b.dmaIrq, m0);
  }

  /** After ob_enable_irq the page-ready interrupt and both DMA interrupts
      are unmasked, and the acquisition controller's other bit (the trigger
      interrupt) is left as it was. */
  lemma EnableMasksOn(tr: seq<Event>, b: Bases, m0: bv32)
    requires Apart(b.obsIrq, b.dmaIrq)
    ensures AcqIrqOn(tr + EnableEvents(b), b, m0) && DmaIrqOn(tr + EnableEvents(b), b, m0)
    ensures MaskStatus(tr + EnableEvents(b), b.obsIrq, m0) & 1 == MaskStatus(tr, b.obsIrq, m0) & 1
  {
    TwoWritesMask(tr, Write(b.obsIrq + 4, 2), Write(b.dmaIrq + 4, 3), b.obsIrq, m0);
    TwoWritesMask(tr, Write(b.obsIrq + 4, 2), Write(b.dmaIrq + 4, 3), b.dmaIrq, m0);
  }

  /** After a stop every interrupt is masked. */
  lemma StopMasksAll(tr: seq<Event>, b: Bases, m0: bv32)
    requires Apart(b.obsIrq, b.dmaIrq)
    ensures AllMasked(tr + StopEvents(b), b, m0)
  {
    DisableMasksAll(tr, b, m0);
    assert tr + StopEvents(b) == (tr + DisableEvents(b)) + [AbortTrigger];
    MaskSnoc(tr + DisableEvents(b), AbortTrigger, b.obsIrq, m0);
    MaskSnoc(tr + DisableEvents(b), AbortTrigger, b.dmaIrq, m0);
  }
}
