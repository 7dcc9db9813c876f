/** The register field accessor of the ObsBox driver (kernel/obsbox.h) and the
    constant table of register field descriptors (kernel/obsbox-regtable.c).

    A register is a 32-bit word; a field is a (byte offset, mask, is_bitfield)
    descriptor.  Reading a bitfield masks the raw word and divides by the
    lowest set bit of the mask (a right shift); reading a full-register field
    only masks.  Writing a bitfield is a read-modify-write; writing a
    full-register field stores the user value as it is. */
module ObsRegs {

  // Page-size bounds (kernel/obsbox.h:13-14).  The comment in the source calls
  // the minimum "1MB", but the literal is 0x800 (2 KiB); the literal is used.
  const OB_MAX_PAGE_SIZE: bv32 := 0x800_0000
  const OB_MIN_PAGE_SIZE: bv32 := 0x800

  // Interrupt source bits (kernel/obsbox.h:19-25).
  const GNCORE_IRQ_DMA_DONE: bv32 := 1
  const GNCORE_IRQ_DMA_ERR: bv32 := 2
  const GNCORE_IRQ_DMA_ALL: bv32 := 3
  const OBS_IRQ_TRG: bv32 := 1
  const OBS_IRQ_ACQ: bv32 := 2
  const OBS_IRQ_ALL: bv32 := 3

  /** struct zio_field_desc */
  datatype FieldDesc = FieldDesc(offset: nat, mask: bv32, isBitfield: bool)

  /** enum obsbox_registers */
  datatype Reg =
    | AcqCtrlTxDis | AcqCtrlRstGtp | AcqCtrlRstRx | AcqCtrlRstTx
    | AcqCtrlRstCdr | AcqCtrlRstAlg | AcqCtrlRstBuf
    | AcqPageSize | AcqPageAddr | AcqMarkAddr
    | IrqAcqDisableMask | IrqAcqEnableMask | IrqAcqMaskStatus | IrqAcqSrc
    | IrqDmaDisableMask | IrqDmaEnableMask | IrqDmaMaskStatus | IrqDmaSrc
    | DmaCtlSwp | DmaCtlAbort | DmaCtlStart | DmaSta
    | DmaAddr | DmaAddrL | DmaAddrH | DmaLen | DmaNextL | DmaNextH
    | DmaBrDir | DmaBrLast

  /** The ob_regs[] table: the descriptor of every register field. */
  function Desc(r: Reg): FieldDesc
  {
    match r
    // acquisition core CSR
    case AcqCtrlTxDis => FieldDesc(0x00, 0x0000_0001, true)
    case AcqCtrlRstGtp => FieldDesc(0x00, 0x0000_0100, true)
    case AcqCtrlRstRx => FieldDesc(0x00, 0x0000_0200, true)
    case AcqCtrlRstTx => FieldDesc(0x00, 0x0000_0400, true)
    case AcqCtrlRstCdr => FieldDesc(0x00, 0x0000_0800, true)
    case AcqCtrlRstAlg => FieldDesc(0x00, 0x0000_1000, true)
    case AcqCtrlRstBuf => FieldDesc(0x00, 0x0000_2000, true)
    case AcqPageSize => FieldDesc(0x18, 0xFFFF_FFFF, false)
    case AcqPageAddr => FieldDesc(0x1C, 0xFFFF_FFFF, false)
    case AcqMarkAddr => FieldDesc(0x20, 0xFFFF_FFFF, false)
    // acquisition interrupt source
    case IrqAcqDisableMask => FieldDesc(0x00, 0x0000_0003, false)
    case IrqAcqEnableMask => FieldDesc(0x04, 0x0000_0003, false)
    case IrqAcqMaskStatus => FieldDesc(0x08, 0x0000_0003, false)
    case IrqAcqSrc => FieldDesc(0x0C, 0x0000_0003, false)
    // DMA interrupt source
    case IrqDmaDisableMask => FieldDesc(0x00, 0x0000_0003, false)
    case IrqDmaEnableMask => FieldDesc(0x04, 0x0000_0003, false)
    case IrqDmaMaskStatus => FieldDesc(0x08, 0x0000_0003, false)
    case IrqDmaSrc => FieldDesc(0x0C, 0x0000_0003, false)
    // DMA engine
    case DmaCtlSwp => FieldDesc(0x00, 0x0000_000C, true)
    case DmaCtlAbort => FieldDesc(0x00, 0x0000_0002, true)
    case DmaCtlStart => FieldDesc(0x00, 0x0000_0001, true)
    case DmaSta => FieldDesc(0x04, 0x0000_0007, false)
    case DmaAddr => FieldDesc(0x08, 0xFFFF_FFFF, false)
    case DmaAddrL => FieldDesc(0x0C, 0xFFFF_FFFF, false)
    case DmaAddrH => FieldDesc(0x10, 0xFFFF_FFFF, false)
    case DmaLen => FieldDesc(0x14, 0xFFFF_FFFF, false)
    case DmaNextL => FieldDesc(0x18, 0xFFFF_FFFF, false)
    case DmaNextH => FieldDesc(0x1C, 0xFFFF_FFFF, false)
    case DmaBrDir => FieldDesc(0x20, 0x0000_0002, true)
    case DmaBrLast => FieldDesc(0x20, 0x0000_0001, true)
  }

  /** `mask & -mask`: the lowest set bit of a mask, the divisor and multiplier
      that shift a bitfield into and out of position. */
  function LowBit(mask: bv32): bv32
  {
    mask & -mask
  }

  /** The number of zero bits below the lowest set bit of `mask` (32 for a
      zero mask), found by halving the window five times. */
  function TrailingZeros(mask: bv32): (k: bv32)
    ensures k <= 32
  {
    if mask == 0 then 32 else
    var a: bv32 := if mask & 0xFFFF == 0 then 16 else 0;
    var m1 := mask >> a;
    var b: bv32 := if m1 & 0xFF == 0 then 8 else 0;
    var m2 := m1 >> b;
    var c: bv32 := if m2 & 0xF == 0 then 4 else 0;
    var m3 := m2 >> c;
    var d: bv32 := if m3 & 0x3 == 0 then 2 else 0;
    var m4 := m3 >> d;
    var e: bv32 := if m4 & 1 == 0 then 1 else 0;
    a + b + c + d + e
  }

  /** The user value moved into the position of `mask`.  The source
      multiplies by the lowest set bit of the mask; `ShiftIsMultiplication`
      shows the left shift computes the same 32-bit product. */
  function Shift(usrVal: bv32, mask: bv32): bv32
  {
    usrVal << TrailingZeros(mask)
  }

  /** A masked word moved down to bit 0.  The source divides by the lowest
      set bit of the mask (hence a zero mask is excluded);
      `DivisionByPowers` shows the right shift gives the same quotient for
      every mask of the table. */
  function Unshift(v: bv32, mask: bv32): bv32
    requires mask != 0
  {
    v >> TrailingZeros(mask)
  }

  /** The lowest set bit of a mask is 2 to the number of trailing zeros. */
  lemma LowBitIsPower(mask: bv32)
    ensures LowBit(mask) == if mask == 0 then 0 else 1 << TrailingZeros(mask)
  {
  }

  /** `usr_val * (mask & -mask)`, with 32-bit wrap-around, is the shift:
      the multiplier is 2 to the number of trailing zeros. */
  lemma ShiftIsMultiplication(usrVal: bv32, mask: bv32)
    requires mask != 0
    ensures LowBit(mask) == 1 << TrailingZeros(mask)
    ensures Shift(usrVal, mask) == usrVal * (1 << TrailingZeros(mask))
  {
    LowBitIsPower(mask);
  }

  /** The shift amounts of the table's bitfield masks: their lowest set bits
      are 1, 2, 4, 0x100, ..., 0x2000. */
  lemma TableShiftAmounts()
    ensures TrailingZeros(0x1) == 0 && TrailingZeros(0x2) == 1 && TrailingZeros(0xC) == 2
    ensures TrailingZeros(0x100) == 8 && TrailingZeros(0x200) == 9 && TrailingZeros(0x400) == 10
    ensures TrailingZeros(0x800) == 11 && TrailingZeros(0x1000) == 12 && TrailingZeros(0x2000) == 13
  {
  }

  /** `cur / (mask & -mask)` for the table's bitfield masks: unsigned
      division by each of their lowest set bits is the right shift by the
      amount `TableShiftAmounts` gives, so `Unshift` is the reader's
      division on every field of the table. */
  lemma DivisionByPowers(v: bv32)
    ensures v / 0x1 == v >> 0 && v / 0x2 == v >> 1 && v / 0x4 == v >> 2
    ensures v / 0x100 == v >> 8 && v / 0x200 == v >> 9 && v / 0x400 == v >> 10
    ensures v / 0x800 == v >> 11 && v / 0x1000 == v >> 12 && v / 0x2000 == v >> 13
  {
  }

  /** A descriptor the accessor can use without dividing by zero. */
  predicate WellFormed(f: FieldDesc)
  {
    f.isBitfield ==> f.mask != 0
  }

  /** The largest value a field can hold once shifted down. */
  function FieldMax(f: FieldDesc): bv32
    requires f.mask != 0
  {
    Unshift(f.mask, f.mask)
  }

  /** The mask is one run of consecutive one bits. */
  predicate Contiguous(mask: bv32)
  {
    mask != 0 && var q := Unshift(mask, mask); q & (q + 1) == 0
  }

  /** The value ob_readl returns for a raw register word. */
  function ReadField(raw: bv32, f: FieldDesc): bv32
    requires WellFormed(f)
  {
    if f.isBitfield then Unshift(raw & f.mask, f.mask) else raw & f.mask
  }

  /** The word ob_writel stores, given the current register word `cur` (only
      read for a bitfield) and the user value. */
  function WriteField(cur: bv32, f: FieldDesc, usrVal: bv32): bv32
  {
    if f.isBitfield then (Shift(usrVal, f.mask) & f.mask) | (cur & !f.mask)
    else usrVal
  }

  /** The condition under which ob_writel warns that a value does not fit:
      the shifted value, after 32-bit wrap-around, has a bit outside the mask. */
  predicate Overflows(f: FieldDesc, usrVal: bv32)
  {
    f.isBitfield && Shift(usrVal, f.mask) & !f.mask != 0
  }

  // ---------------------------------------------------------------------
  // The accessor for every field of the table

  /** The masks the table gives its bitfields. */
  predicate BitfieldMask(m: bv32)
  {
    m == 0x1 || m == 0x2 || m == 0xC || m == 0x100 || m == 0x200
    || m == 0x400 || m == 0x800 || m == 0x1000 || m == 0x2000
  }

  /** The masks the table gives its full-register fields. */
  predicate FullMask(m: bv32)
  {
    m == 0xFFFF_FFFF || m == 0x3 || m == 0x7
  }

  lemma TableMasks(r: Reg)
    ensures Desc(r).isBitfield ==> BitfieldMask(Desc(r).mask)
    ensures !Desc(r).isBitfield ==> FullMask(Desc(r).mask)
  {
  }

  /** Every mask of the table is nonzero. */
  lemma MaskNonzero(r: Reg)
    ensures Desc(r).mask != 0
  {
  }

  /** Every descriptor of the table has a nonzero mask, so the divisor the
      reader uses is never zero, and every mask is one contiguous run. */
  lemma TableMasksContiguous(r: Reg)
    ensures Desc(r).mask != 0 && LowBit(Desc(r).mask) != 0
    ensures Contiguous(Desc(r).mask)
    ensures WellFormed(Desc(r))
  {
    TableMasks(r);
    MaskContiguous(Desc(r).mask);
  }

  lemma MaskContiguous(m: bv32)
    requires BitfieldMask(m) || FullMask(m)
    ensures m != 0 && LowBit(m) != 0 && Contiguous(m)
  {
    if m == 0x1 {} else if m == 0x2 {} else if m == 0xC {} else if m == 0x100 {}
    else if m == 0x200 {} else if m == 0x400 {} else if m == 0x800 {}
    else if m == 0x1000 {} else if m == 0x2000 {}
    else if m == 0xFFFF_FFFF {} else if m == 0x3 {} else {}
  }

  /** A bitfield read of a table field is the masked raw word divided by the
      lowest set bit of the mask, so it never exceeds mask / lowbit. */
  lemma ReadBitfieldBound(raw: bv32, r: Reg)
    requires Desc(r).isBitfield
    ensures WellFormed(Desc(r)) && ReadField(raw, Desc(r)) <= FieldMax(Desc(r))
  {
    TableMasks(r);
    BitfieldReadBound(raw, Desc(r));
  }

  /** A full-register read of a table field is the masked raw word, unshifted. */
  lemma ReadFullRegister(raw: bv32, r: Reg)
    requires !Desc(r).isBitfield
    ensures WellFormed(Desc(r)) && ReadField(raw, Desc(r)) == raw & Desc(r).mask
  {
    FullRead(raw, Desc(r));
  }

  lemma BitfieldReadBound(raw: bv32, f: FieldDesc)
    requires f.isBitfield && BitfieldMask(f.mask)
    ensures WellFormed(f) && ReadField(raw, f) <= FieldMax(f)
  {
    TableShiftAmounts();
    var m := f.mask;
    if m == 0x1 {} else if m == 0x2 {} else if m == 0xC {} else if m == 0x100 {}
    else if m == 0x200 {} else if m == 0x400 {} else if m == 0x800 {}
    else if m == 0x1000 {} else {}
  }

  lemma FullRead(raw: bv32, f: FieldDesc)
    requires !f.isBitfield
    ensures WellFormed(f) && ReadField(raw, f) == raw & f.mask
  {
  }

  /** ob_readl's own formula: a bitfield read of any table field is the
      masked word divided by the lowest set bit of the mask. */
  lemma ReadIsDivision(raw: bv32, r: Reg)
    requires Desc(r).isBitfield
    ensures WellFormed(Desc(r)) && LowBit(Desc(r).mask) != 0
    ensures ReadField(raw, Desc(r)) == (raw & Desc(r).mask) / LowBit(Desc(r).mask)
  {
    TableMasks(r);
    ReadIsDivisionAt(raw, Desc(r));
  }

  lemma ReadIsDivisionAt(raw: bv32, f: FieldDesc)
    requires f.isBitfield && BitfieldMask(f.mask)
    ensures WellFormed(f) && LowBit(f.mask) != 0
    ensures ReadField(raw, f) == (raw & f.mask) / LowBit(f.mask)
  {
    TableShiftAmounts();
    DivisionByPowers(raw & f.mask);
    var m := f.mask;
    if m == 0x1 { assert LowBit(m) == 0x1; }
    else if m == 0x2 { assert LowBit(m) == 0x2; }
    else if m == 0xC { assert LowBit(m) == 0x4; }
    else if m == 0x100 { assert LowBit(m) == 0x100; }
    else if m == 0x200 { assert LowBit(m) == 0x200; }
    else if m == 0x400 { assert LowBit(m) == 0x400; }
    else if m == 0x800 { assert LowBit(m) == 0x800; }
    else if m == 0x1000 { assert LowBit(m) == 0x1000; }
    else { assert LowBit(m) == 0x2000; }
  }

  /** A bitfield write leaves every bit outside the field's mask as it was,
      and keeps exactly the in-mask bits of the shifted value, whether or not
      the value overflowed the mask (an overflow only warns). */
  lemma WriteFieldFrame(cur: bv32, f: FieldDesc, usrVal: bv32)
    requires f.isBitfield
    ensures WriteField(cur, f, usrVal) & !f.mask == cur & !f.mask
    ensures WriteField(cur, f, usrVal) & f.mask == Shift(usrVal, f.mask) & f.mask
  {
    MaskSplit(Shift(usrVal, f.mask), cur, f.mask);
  }

  lemma MaskSplit(p: bv32, cur: bv32, m: bv32)
    ensures ((p & m) | (cur & !m)) & !m == cur & !m
    ensures ((p & m) | (cur & !m)) & m == p & m
  {
  }

  /** A full-register write stores the user value exactly: it does not depend
      on the current register word and applies no mask. */
  lemma WriteFullRegister(cur: bv32, cur': bv32, f: FieldDesc, usrVal: bv32)
    requires !f.isBitfield
    ensures WriteField(cur, f, usrVal) == usrVal
    ensures WriteField(cur, f, usrVal) == WriteField(cur', f, usrVal)
  {
  }

  /** Reading a bitfield of the table depends only on the bits under its
      mask. */
  lemma ReadBitfieldMasked(raw: bv32, raw': bv32, r: Reg)
    requires Desc(r).isBitfield
    requires raw & Desc(r).mask == raw' & Desc(r).mask
    ensures WellFormed(Desc(r)) && ReadField(raw, Desc(r)) == ReadField(raw', Desc(r))
  {
    TableMasksContiguous(r);
    BitfieldReadMasked(raw, raw', Desc(r));
  }

  /** Reading a full register of the table depends only on the bits under its
      mask. */
  lemma ReadFullMasked(raw: bv32, raw': bv32, r: Reg)
    requires !Desc(r).isBitfield
    requires raw & Desc(r).mask == raw' & Desc(r).mask
    ensures WellFormed(Desc(r)) && ReadField(raw, Desc(r)) == ReadField(raw', Desc(r))
  {
    FullRead(raw, Desc(r));
    FullRead(raw', Desc(r));
  }

  lemma BitfieldReadMasked(raw: bv32, raw': bv32, f: FieldDesc)
    requires f.isBitfield && f.mask != 0 && raw & f.mask == raw' & f.mask
    ensures WellFormed(f) && ReadField(raw, f) == ReadField(raw', f)
  {
  }

  /** Read after write: writing a value that fits a bitfield of the table and
      reading the same field back returns that value, and no warning is
      issued. */
  lemma WriteThenRead(cur: bv32, r: Reg, usrVal: bv32)
    requires Desc(r).isBitfield
    requires Desc(r).mask != 0 && usrVal <= FieldMax(Desc(r))
    ensures !Overflows(Desc(r), usrVal)
    ensures ReadField(WriteField(cur, Desc(r), usrVal), Desc(r)) == usrVal
  {
    TableMasks(r);
    BitfieldRoundTrip(cur, Desc(r), usrVal);
  }

  lemma BitfieldRoundTrip(cur: bv32, f: FieldDesc, usrVal: bv32)
    requires f.isBitfield && BitfieldMask(f.mask) && usrVal <= FieldMax(f)
    ensures !Overflows(f, usrVal)
    ensures ReadField(WriteField(cur, f, usrVal), f) == usrVal
  {
    var m := f.mask;
    if m == 0x1 {} else if m == 0x2 {} else if m == 0xC {} else if m == 0x100 {}
    else if m == 0x200 {} else if m == 0x400 {} else if m == 0x800 {}
    else if m == 0x1000 {} else {}
  }

  /** Read after write for a full-register field: the masked user value. */
  lemma WriteThenReadFull(cur: bv32, r: Reg, usrVal: bv32)
    requires !Desc(r).isBitfield
    ensures ReadField(WriteField(cur, Desc(r), usrVal), Desc(r)) == usrVal & Desc(r).mask
  {
  }

  /** The overflow warning tests the shifted value after it has wrapped at 32
      bits, so a value whose excess bits are shifted out of the word is
      truncated without warning: 0x4000_0001 written to DMA_CTL_SWP (mask
      0xC) stores 1 silently. */
  lemma OverflowWarningMissed(cur: bv32)
    ensures Desc(DmaCtlSwp).mask != 0 && 0x4000_0001 > FieldMax(Desc(DmaCtlSwp))
    ensures !Overflows(Desc(DmaCtlSwp), 0x4000_0001)
    ensures ReadField(WriteField(cur, Desc(DmaCtlSwp), 0x4000_0001), Desc(DmaCtlSwp)) == 1
  {
  }

  /** Two different table fields of one register with disjoint masks:
      writing one never changes what a read of the other returns. */
  predicate SharedRegister(r: Reg, s: Reg)
  {
    r != s && Desc(r).offset == Desc(s).offset && Desc(r).mask & Desc(s).mask == 0
  }

  lemma WritePreservesOtherField(cur: bv32, r: Reg, s: Reg, usrVal: bv32)
    requires Desc(r).isBitfield && Desc(s).isBitfield && SharedRegister(r, s)
    ensures WellFormed(Desc(s))
    ensures ReadField(WriteField(cur, Desc(r), usrVal), Desc(s)) == ReadField(cur, Desc(s))
  {
    TableMasksContiguous(s);
    WriteOtherBitfield(cur, Desc(r), Desc(s), usrVal);
  }

  lemma WriteOtherBitfield(cur: bv32, f: FieldDesc, g: FieldDesc, usrVal: bv32)
    requires f.isBitfield && g.isBitfield && g.mask != 0 && f.mask & g.mask == 0
    ensures WellFormed(g) && ReadField(WriteField(cur, f, usrVal), g) == ReadField(cur, g)
  {
    var w := WriteField(cur, f, usrVal);
    assert w & g.mask == cur & g.mask by {
      WriteFieldOutside(cur, f, usrVal, g.mask);
    }
    ReadAgrees(w, cur, g);
  }

  lemma ReadAgrees(w: bv32, cur: bv32, g: FieldDesc)
    requires g.isBitfield && g.mask != 0 && w & g.mask == cur & g.mask
    ensures WellFormed(g) && ReadField(w, g) == ReadField(cur, g)
  {
    BitfieldReadMasked(w, cur, g);
  }

  lemma WriteFieldOutside(cur: bv32, f: FieldDesc, usrVal: bv32, other: bv32)
    requires f.isBitfield && f.mask & other == 0
    ensures WriteField(cur, f, usrVal) & other == cur & other
  {
    OutsideMaskUnchanged(Shift(usrVal, f.mask), cur, f.mask, other);
  }

  lemma OutsideMaskUnchanged(p: bv32, cur: bv32, mask: bv32, other: bv32)
    requires mask & other == 0
    ensures ((p & mask) | (cur & !mask)) & other == cur & other
  {
  }

  /** The seven acquisition-control bits share offset 0x00 with pairwise
      disjoint single-bit masks. */
  predicate IsAcqCtrl(r: Reg)
  {
    || r.AcqCtrlTxDis? || r.AcqCtrlRstGtp? || r.AcqCtrlRstRx? || r.AcqCtrlRstTx?
    || r.AcqCtrlRstCdr? || r.AcqCtrlRstAlg? || r.AcqCtrlRstBuf?
  }

  lemma AcqCtrlBitsDisjoint(r: Reg, s: Reg)
    requires IsAcqCtrl(r) && IsAcqCtrl(s) && r != s
    ensures Desc(r).isBitfield && SharedRegister(r, s)
    ensures Desc(r).offset == 0 && FieldMax(Desc(r)) == 1
  {
  }

  /** DMA_CTL_SWP, DMA_CTL_ABORT and DMA_CTL_START share offset 0x00 with
      disjoint masks, and 2, the byte-swap value the driver writes, fits SWP. */
  predicate IsDmaCtl(r: Reg)
  {
    r.DmaCtlSwp? || r.DmaCtlAbort? || r.DmaCtlStart?
  }

  lemma DmaCtlFieldsDisjoint(r: Reg, s: Reg)
    requires IsDmaCtl(r) && IsDmaCtl(s) && r != s
    ensures Desc(r).isBitfield && SharedRegister(r, s)
  {
  }

  /** The byte-swap field holds two bits, so the value 2 fits it. */
  lemma SwapValueFits()
    ensures Desc(DmaCtlSwp).mask != 0 && FieldMax(Desc(DmaCtlSwp)) == 3
    ensures !Overflows(Desc(DmaCtlSwp), 2)
  {
  }

  /** The start sequence of ob_run_dma on the DMA control word: after
      byte swap 2 is written the field reads 2, and after START is then set
      it reads 1 while the byte swap still reads 2. */
  lemma StartSequence(cur: bv32)
    ensures var w1 := WriteField(cur, Desc(DmaCtlSwp), 2);
      ReadField(w1, Desc(DmaCtlSwp)) == 2
    ensures var w2 := WriteField(WriteField(cur, Desc(DmaCtlSwp), 2), Desc(DmaCtlStart), 1);
      ReadField(w2, Desc(DmaCtlStart)) == 1
    ensures var w2 := WriteField(WriteField(cur, Desc(DmaCtlSwp), 2), Desc(DmaCtlStart), 1);
      ReadField(w2, Desc(DmaCtlSwp)) == 2
  {
    var w1 := WriteField(cur, Desc(DmaCtlSwp), 2);
    WriteThenRead(cur, DmaCtlSwp, 2);
    WriteThenRead(w1, DmaCtlStart, 1);
    WritePreservesOtherField(w1, DmaCtlStart, DmaCtlSwp, 1);
  }

  /** DMA_BR_DIR and DMA_BR_LAST share offset 0x20 with disjoint masks, so
      writing the last flag preserves the direction bit; a flag of 0 or 1
      reads back as written. */
  lemma BranchFieldsDisjoint(cur: bv32, attribute: bv32)
    ensures SharedRegister(DmaBrLast, DmaBrDir)
    ensures Desc(DmaBrLast).isBitfield && Desc(DmaBrDir).isBitfield
    ensures ReadField(WriteField(cur, Desc(DmaBrLast), attribute), Desc(DmaBrDir))
            == ReadField(cur, Desc(DmaBrDir))
    ensures attribute <= 1 ==> ReadField(WriteField(cur, Desc(DmaBrLast), attribute), Desc(DmaBrLast)) == attribute
  {
    WritePreservesOtherField(cur, DmaBrLast, DmaBrDir, attribute);
    if attribute <= 1 {
      WriteThenRead(cur, DmaBrLast, attribute);
    }
  }

  /** Both interrupt-source fields are full-register fields at 0x0C with mask
      0x3, so a status read is at most 3. */
  lemma IrqStatusBound(raw: bv32)
    ensures Desc(IrqAcqSrc) == Desc(IrqDmaSrc) == FieldDesc(0x0C, 3, false)
    ensures ReadField(raw, Desc(IrqAcqSrc)) <= 3 && ReadField(raw, Desc(IrqDmaSrc)) <= 3
  {
  }

  /** The six head-descriptor registers are full 32-bit fields at 0x08..0x1C,
      four bytes apart, in the order of struct gncore_dma_item. */
  lemma HeadRegistersLayout()
    ensures forall i :: 0 <= i < 6 ==>
      Desc([DmaAddr, DmaAddrL, DmaAddrH, DmaLen, DmaNextL, DmaNextH][i]) == FieldDesc(0x08 + 4 * i, 0xFFFF_FFFF, false)
  {
  }
}
