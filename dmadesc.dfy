/** The hardware DMA descriptor of the GN4124 core (struct gncore_dma_item,
    kernel/obsbox.h) and what gncore_dma_fill (kernel/obsbox-irq.c) stores in
    one record, as values.  The descriptors of one transfer live in a pool
    whose bus address is `poolBus`; record `i` sits at `poolBus + 32 * i`.
    The class ObsBox (device.dfy) keeps the pool in an array and fills it in
    place; the functions here are its specification. */
module DmaDesc {

  /** struct gncore_dma_item: eight 32-bit words. */
  datatype DmaItem = DmaItem(
    startAddr: bv32, dmaAddrL: bv32, dmaAddrH: bv32, dmaLen: bv32,
    nextAddrL: bv32, nextAddrH: bv32, attribute: bv32, reserved: bv32)

  /** sizeof(struct gncore_dma_item), the stride of the descriptor pool. */
  const PAGE_DESC_SIZE: bv64 := 32

  /** `page_idx` is a C unsigned int; the fill computes `page_idx + 1` in
      that type, so the successor index wraps at 2^32. */
  type PageIdx = i: int | 0 <= i < 0x1_0000_0000

  /** What the fill callback receives for one scatter segment: its bus
      address and length, the device-memory offset it reads from, its index
      in the pool and whether it is the last segment of the mapping. */
  datatype Segment = Segment(dmaAddr: bv64, len: bv32, devMemOff: bv32, pageIdx: PageIdx, isLast: bool)

  /** The low and high 32-bit words of a 64-bit bus address. */
  function Lo(a: bv64): bv32
  {
    (a & 0xFFFF_FFFF) as bv32
  }

  function Hi(a: bv64): bv32
  {
    (a >> 32) as bv32
  }

  /** The 64-bit address a (high, low) pair of words denotes. */
  function Join(hi: bv32, lo: bv32): bv64
  {
    ((hi as bv64) << 32) | (lo as bv64)
  }

  /** Splitting an address into words and joining them gives it back, and a
      pair of words survives the round trip the other way as well. */
  lemma SplitJoin(a: bv64, hi: bv32, lo: bv32)
    ensures Join(Hi(a), Lo(a)) == a
    ensures Hi(Join(hi, lo)) == hi && Lo(Join(hi, lo)) == lo
  {
  }

  /** The bus address of record `i` of the pool: pool + size * index, with
      64-bit wrap-around. */
  function RecordAddr(poolBus: bv64, i: PageIdx): bv64
  {
    poolBus + PAGE_DESC_SIZE * (i as bv64)
  }

  /** The index of the record after `i`, computed as an unsigned int. */
  function NextIdx(i: PageIdx): PageIdx
  {
    (i + 1) % 0x1_0000_0000
  }

  /** gncore_dma_fill on one record: it copies the device offset and the
      segment length, splits the bus address, and for a segment that is not
      the last links the record to its successor in the pool and marks it
      "more items"; the last segment is marked 0 and keeps its link words.
      The reserved word is never touched. */
  function FillItem(item: DmaItem, seg: Segment, poolBus: bv64): (r: DmaItem)
    ensures r.startAddr == seg.devMemOff && r.dmaLen == seg.len
    ensures Join(r.dmaAddrH, r.dmaAddrL) == seg.dmaAddr
    ensures !seg.isLast ==>
              r.attribute == 1 && Join(r.nextAddrH, r.nextAddrL) == RecordAddr(poolBus, NextIdx(seg.pageIdx))
    ensures seg.isLast ==>
              r.attribute == 0 && r.nextAddrL == item.nextAddrL && r.nextAddrH == item.nextAddrH
    ensures r.reserved == item.reserved
  {
    SplitJoin(seg.dmaAddr, 0, 0);
    var base := item.(startAddr := seg.devMemOff, dmaAddrL := Lo(seg.dmaAddr),
                      dmaAddrH := Hi(seg.dmaAddr), dmaLen := seg.len);
    if !seg.isLast then
      var next := poolBus + PAGE_DESC_SIZE * (NextIdx(seg.pageIdx) as bv64);
      SplitJoin(next, 0, 0);
      base.(nextAddrL := Lo(next), nextAddrH := Hi(next), attribute := 1)
    else
      base.(attribute := 0)
  }

  /** Every segment names a record of a pool of `n` records. */
  predicate InPool(segs: seq<Segment>, n: nat)
  {
    forall i :: 0 <= i < |segs| ==> segs[i].pageIdx < n
  }

  /** The pool after the fill has run on each segment in turn. */
  function FillAll(pool: seq<DmaItem>, segs: seq<Segment>, poolBus: bv64): (r: seq<DmaItem>)
    requires InPool(segs, |pool|)
    ensures |r| == |pool|
    decreases |segs|
  {
    if segs == [] then pool
    else
      var p := FillAll(pool, segs[..|segs| - 1], poolBus);
      var s := segs[|segs| - 1];
      p[s.pageIdx := FillItem(p[s.pageIdx], s, poolBus)]
  }

  /** The fill is called once per record, in pool order. */
  predicate Indexed(segs: seq<Segment>)
  {
    forall i :: 0 <= i < |segs| ==> segs[i].pageIdx == i
  }

  /** The segments of one mapping as a well-formed chain: one per record, in
      order, and only the final one marked last. */
  predicate OneChain(segs: seq<Segment>)
  {
    Indexed(segs) && forall i :: 0 <= i < |segs| ==> (segs[i].isLast <==> i == |segs| - 1)
  }

  /** When the fill runs once per record in order, record `i` is the fill
      of segment `i` on the record's old contents, and the records past the
      segments are untouched. */
  lemma {:induction false} FillAllAt(pool: seq<DmaItem>, segs: seq<Segment>, poolBus: bv64, i: int)
    requires Indexed(segs) && |segs| <= |pool| && 0 <= i < |pool|
    ensures InPool(segs, |pool|)
    ensures i < |segs| ==> FillAll(pool, segs, poolBus)[i] == FillItem(pool[i], segs[i], poolBus)
    ensures i >= |segs| ==> FillAll(pool, segs, poolBus)[i] == pool[i]
    decreases |segs|
  {
    if segs != [] {
      var init := segs[..|segs| - 1];
      assert Indexed(init);
      FillAllAt(pool, init, poolBus, i);
    }
  }

  /** Record `item` is marked "more items" and links to record `j`. */
  predicate LinksTo(item: DmaItem, poolBus: bv64, j: PageIdx)
  {
    item.attribute == 1 && Join(item.nextAddrH, item.nextAddrL) == RecordAddr(poolBus, j)
  }

  /** Record `item` transfers segment `s`. */
  predicate Carries(item: DmaItem, s: Segment)
  {
    item.startAddr == s.devMemOff && Join(item.dmaAddrH, item.dmaAddrL) == s.dmaAddr && item.dmaLen == s.len
  }

  /** A chain of N segments filled into a pool of N records is a linked
      descriptor list: record i carries segment i, every record but the last
      is marked "more items" and points at record i + 1, and the last is
      marked 0 with its link words left as the pool had them. */
  lemma FillAllChain(pool: seq<DmaItem>, segs: seq<Segment>, poolBus: bv64)
    requires OneChain(segs) && |segs| == |pool|
    ensures InPool(segs, |pool|)
    ensures forall i :: 0 <= i < |segs| ==> Carries(FillAll(pool, segs, poolBus)[i], segs[i])
    ensures forall i :: 0 <= i < |segs| - 1 ==> LinksTo(FillAll(pool, segs, poolBus)[i], poolBus, i + 1)
    ensures |segs| > 0 ==>
      var last := FillAll(pool, segs, poolBus)[|segs| - 1];
      last.attribute == 0 && last.nextAddrL == pool[|segs| - 1].nextAddrL && last.nextAddrH == pool[|segs| - 1].nextAddrH
  {
    var r := FillAll(pool, segs, poolBus);
    forall i | 0 <= i < |segs|
      ensures Carries(r[i], segs[i])
      ensures i < |segs| - 1 ==> LinksTo(r[i], poolBus, i + 1)
    {
      FillAllAt(pool, segs, poolBus, i);
    }
    if |segs| > 0 {
      FillAllAt(pool, segs, poolBus, |segs| - 1);
    }
  }
}
