/**
 * One channel of the Nuvoton NPCM8xx general-purpose DMA controller: seven
 * 32-bit registers with a read-only mask per register, a CTL register whose
 * GDMAEN or SOFTREQ bit starts a memory-to-memory transfer at once, and the
 * controller's interrupt line.
 *
 * The transfer does its address arithmetic on the register values as
 * numbers (`uint32_t` sums, modulo 2^32). Guest memory is a map from byte
 * addresses to bytes: an access succeeds when every byte it touches is
 * mapped.
 */
module Npcm8xxGdma {

  import opened Words

  // ---------------------------------------------------------------------
  // Registers
  // ---------------------------------------------------------------------

  // Register indices: the offset divided by 4.
  const CTL: nat := 0
  const SRCB: nat := 1
  const DSTB: nat := 2
  const TCNT: nat := 3
  const CSRC: nat := 4
  const CDST: nat := 5
  const CTCNT: nat := 6
  const NR_REGS: nat := 7
  /** Size of a channel's window. */
  const MMIO_SIZE: int := 0x1C

  type Regs = r: seq<bv32> | |r| == NR_REGS witness [0, 0, 0, 0, 0, 0, 0]

  // CTL fields.
  const CTL_GDMAEN: bv32 := 0x1
  const CTL_DADIR: bv32 := 0x10
  const CTL_SADIR: bv32 := 0x20
  const CTL_DAFIX: bv32 := 0x40
  const CTL_SAFIX: bv32 := 0x80
  const CTL_SIEN: bv32 := 0x100
  const CTL_BME: bv32 := 0x200
  const CTL_TWS_LOW: bv32 := 0x1000
  const CTL_TWS_HIGH: bv32 := 0x2000
  const CTL_SOFTREQ: bv32 := 0x1_0000
  const CTL_TC: bv32 := 0x4_0000

  /** The read-only bits of CTL. */
  const CTL_READ_ONLY: bv32 := 0xFFFE_1802

  /** The read-only mask of register `i`: CSRC, CDST and CTCNT are read-only
      as a whole. */
  function ReadOnly(i: nat): bv32
    requires i < NR_REGS
  {
    [CTL_READ_ONLY, 0, 0, 0, 0xFFFF_FFFF, 0xFFFF_FFFF, 0xFFFF_FFFF][i]
  }

  /** The bits of CTL that a transfer reads. */
  datatype Control = Control(
    size: nat,
    srcFixed: bool, srcDecrement: bool,
    dstFixed: bool, dstDecrement: bool)

  /** The transfer width field TWS (bits 12 and 13). */
  function Tws(ctl: bv32): nat
  {
    (if Has(ctl, CTL_TWS_LOW) then 1 else 0) + (if Has(ctl, CTL_TWS_HIGH) then 2 else 0)
  }

  /** The unit of a transfer, `1 << TWS` bytes. */
  function UnitSize(ctl: bv32): nat
  {
    [1, 2, 4, 8][Tws(ctl)]
  }

  function ControlOf(ctl: bv32): Control
  {
    Control(UnitSize(ctl), Has(ctl, CTL_SAFIX), Has(ctl, CTL_SADIR), Has(ctl, CTL_DAFIX), Has(ctl, CTL_DADIR))
  }

  /** The number of units: TCNT, a quarter of it in burst mode. */
  function Count(ctl: bv32, tcnt: bv32): bv32
  {
    if Has(ctl, CTL_BME) then tcnt / 4 else tcnt
  }

  /** The interrupt level: SIEN or TC. */
  predicate Level(ctl: bv32)
  {
    Has(ctl, CTL_SIEN) || Has(ctl, CTL_TC)
  }

  // ---------------------------------------------------------------------
  // Guest memory
  // ---------------------------------------------------------------------

  type Memory = map<int, bv8>

  /** Every byte of `[a, a + size)` is mapped. */
  predicate Mapped(mem: Memory, a: int, size: nat)
  {
    forall x :: a <= x < a + size ==> x in mem
  }

  /** The `size` bytes at `a`. */
  function Fetch(mem: Memory, a: int, size: nat): (data: seq<bv8>)
    requires Mapped(mem, a, size)
    ensures |data| == size && forall k :: 0 <= k < size ==> data[k] == mem[a + k]
  {
    seq(size, k requires 0 <= k < size => mem[a + k])
  }

  /** `data` stored at `a`. */
  function Put(mem: Memory, a: int, data: seq<bv8>): Memory
    decreases |data|
  {
    if data == [] then mem else Put(mem[a := data[0]], a + 1, data[1..])
  }

  // ---------------------------------------------------------------------
  // The transfer
  // ---------------------------------------------------------------------

  /** A `uint32_t` address after one unit. */
  function Advance(p: Word, size: nat, fixed: bool, decrement: bool): Word
  {
    if fixed then p else if decrement then Wrap(p - size) else Wrap(p + size)
  }

  /** Where a transfer stands: memory, both addresses, and whether every
      access so far succeeded. */
  datatype Progress = Progress(mem: Memory, src: Word, dst: Word, ok: bool)

  /** One unit of `npcm8xx_gdma_channel_do_dma`: read it, write it, move
      both addresses; a failed access stops with nothing changed. */
  function Unit(p: Progress, c: Control): Progress
  {
    if !p.ok || !Mapped(p.mem, p.src, c.size) || !Mapped(p.mem, p.dst, c.size) then p.(ok := false)
    else Progress(Put(p.mem, p.dst, Fetch(p.mem, p.src, c.size)),
                  Advance(p.src, c.size, c.srcFixed, c.srcDecrement),
                  Advance(p.dst, c.size, c.dstFixed, c.dstDecrement), true)
  }

  /** The first `n` units of a transfer from `src` to `dst`. */
  function Transfer(mem: Memory, src: Word, dst: Word, n: nat, c: Control): Progress
  {
    if n == 0 then Progress(mem, src, dst, true) else Unit(Transfer(mem, src, dst, n - 1, c), c)
  }

  // ---------------------------------------------------------------------
  // Channel state
  // ---------------------------------------------------------------------

  /** A channel: its registers, guest memory, and the level it last drove
      on the controller's line. */
  datatype Channel = Channel(regs: Regs, mem: Memory, irq: bool)

  /** The transfer a channel's registers describe. */
  function TransferOf(s: Channel): Progress
  {
    var ctl := s.regs[CTL];
    Transfer(s.mem, Num(s.regs[SRCB]), Num(s.regs[DSTB]), Num(Count(ctl, s.regs[TCNT])), ControlOf(ctl))
  }

  /** `npcm8xx_gdma_channel_do_dma`: after a complete transfer the current
      source, destination and count registers take their final values and
      the line is updated; a failed access leaves registers and line as
      they were. */
  function AfterDma(s: Channel): Channel
  {
    var t := TransferOf(s);
    if t.ok then
      Channel(Completed(s.regs, Reg(t.src), Reg(t.dst), Count(s.regs[CTL], s.regs[TCNT])),
              t.mem, Level(s.regs[CTL]))
    else s.(mem := t.mem)
  }

  /** The registers with the current source, destination and count set. */
  function Completed(r: Regs, src: bv32, dst: bv32, count: bv32): Regs
  {
    r[CSRC := src][CDST := dst][CTCNT := count]
  }

  /** Whether a CTL write of `value` (already masked) starts a transfer. */
  predicate Starts(value: bv32)
  {
    Has(value, CTL_GDMAEN) || Has(value, CTL_SOFTREQ)
  }

  /** `npcm8xx_gdma_channel_ctl_w`: SOFTREQ is write-only. */
  function AfterCtl(s: Channel, value: bv32): Channel
  {
    var t := s.(regs := s.regs[CTL := Without(value, CTL_SOFTREQ)]);
    if Starts(value) then AfterDma(t) else t
  }

  /** `npcm8xx_gdma_channel_read`. */
  function ReadValue(s: Channel, offset: int): bv32
    requires 0 <= offset < MMIO_SIZE
  {
    s.regs[offset / 4]
  }

  /** `npcm8xx_gdma_channel_write`: the read-only bits are cleared from the
      value first. */
  function AfterWrite(s: Channel, offset: int, value: bv32): Channel
    requires 0 <= offset < MMIO_SIZE
  {
    var i := offset / 4;
    var v := Without(value, ReadOnly(i));
    if i == CTL then AfterCtl(s, v) else s.(regs := s.regs[i := v])
  }

  /** `npcm8xx_gdma_channel_enter_reset`: every register to 0. */
  function AfterReset(s: Channel): Channel
  {
    s.(regs := [0, 0, 0, 0, 0, 0, 0])
  }

  // ---------------------------------------------------------------------
  // The device
  // ---------------------------------------------------------------------

  class GdmaChannel {
    const regs: array<bv32>
    var mem: Memory
    /** The level this channel last drove on the controller's line. */
    var irq: bool

    predicate Valid()
      reads this
    {
      regs.Length == NR_REGS
    }

    function Snapshot(): Channel
      requires Valid()
      reads this, regs
    {
      Channel(regs[..], mem, irq)
    }

    /** A channel after reset, over guest memory `mem`. */
    constructor(mem: Memory)
      ensures Valid() && fresh(regs)
      ensures Snapshot() == Channel([0, 0, 0, 0, 0, 0, 0], mem, false)
    {
      regs := new bv32[NR_REGS];
      this.mem := mem;
      irq := false;
      new;
      EnterReset();
    }

    /** `npcm8xx_gdma_channel_enter_reset`. */
    method EnterReset()
      requires Valid()
      modifies regs
      ensures Valid() && Snapshot() == AfterReset(old(Snapshot()))
    {
      for i := 0 to regs.Length
        invariant forall j :: 0 <= j < i ==> regs[j] == 0
      {
        regs[i] := 0;
      }
      assert regs[..] == [0, 0, 0, 0, 0, 0, 0];
    }

    /** `npcm8xx_gdma_update_irq`. */
    method UpdateIrq()
      requires Valid()
      modifies this
      ensures Valid() && Snapshot() == old(Snapshot()).(irq := Level(regs[CTL]))
    {
      irq := Has(regs[CTL], CTL_SIEN) || Has(regs[CTL], CTL_TC);
    }

    /** `npcm8xx_gdma_channel_read`: changes nothing. */
    method Read(offset: int) returns (value: bv32)
      requires Valid() && 0 <= offset < MMIO_SIZE
      ensures value == ReadValue(Snapshot(), offset)
    {
      value := regs[offset / 4];
    }

    /** `npcm8xx_gdma_channel_write`. */
    method Write(offset: int, value: bv32)
      requires Valid() && 0 <= offset < MMIO_SIZE
      modifies this, regs
      ensures Valid() && Snapshot() == AfterWrite(old(Snapshot()), offset, value)
    {
      var i := offset / 4;
      var v := Without(value, ReadOnly(i));
      if i == CTL {
        CtlWrite(v);
      } else {
        regs[i] := v;
      }
    }

    /** `npcm8xx_gdma_channel_ctl_w`. */
    method CtlWrite(value: bv32)
      requires Valid()
      modifies this, regs
      ensures Valid() && Snapshot() == AfterCtl(old(Snapshot()), value)
    {
      var start := Has(value, CTL_GDMAEN) || Has(value, CTL_SOFTREQ);
      regs[CTL] := Without(value, CTL_SOFTREQ);
      if start {
        DoDma();
      }
    }

    /** `npcm8xx_gdma_channel_do_dma`. */
    method DoDma()
      requires Valid()
      modifies this, regs
      ensures Valid() && Snapshot() == AfterDma(old(Snapshot()))
    {
      ghost var r0 := regs[..];
      var count := Count(regs[CTL], regs[TCNT]);
      var ok, src, dst := Move(Num(regs[SRCB]), Num(regs[DSTB]), Num(count), ControlOf(regs[CTL]));
      if ok {
        regs[CSRC] := Reg(src);
        regs[CDST] := Reg(dst);
        regs[CTCNT] := count;
        assert regs[..] == Completed(r0, Reg(src), Reg(dst), count);
        UpdateIrq();
      }
    }

    /** The loop of `npcm8xx_gdma_channel_do_dma`: `count` units from `src`
        to `dst`, stopping at the first failed access. */
    method Move(src0: Word, dst0: Word, count: nat, c: Control) returns (ok: bool, src: Word, dst: Word)
      modifies this
      ensures Transfer(old(mem), src0, dst0, count, c) == Progress(mem, src, dst, ok)
      ensures irq == old(irq)
    {
      src, dst := src0, dst0;
      var i := 0;
      while i < count
        invariant 0 <= i <= count
        invariant Transfer(old(mem), src0, dst0, i, c) == Progress(mem, src, dst, true)
        invariant irq == old(irq)
      {
        if !Mapped(mem, src, c.size) || !Mapped(mem, dst, c.size) {
          FailureSticks(old(mem), src0, dst0, i + 1, count, c);
          return false, src, dst;
        }
        mem := Put(mem, dst, Fetch(mem, src, c.size));
        src := Advance(src, c.size, c.srcFixed, c.srcDecrement);
        dst := Advance(dst, c.size, c.dstFixed, c.dstDecrement);
        i := i + 1;
      }
      ok := true;
    }
  }

  // ---------------------------------------------------------------------
  // Properties: register writes
  // ---------------------------------------------------------------------

  /** SRCB, DSTB and TCNT take the written value; CSRC, CDST and CTCNT are
      read-only and a write sets them to 0. Nothing else changes. */
  lemma WriteStores(s: Channel, offset: int, value: bv32)
    requires 4 <= offset < MMIO_SIZE
    ensures var i := offset / 4;
      AfterWrite(s, offset, value) == s.(regs := s.regs[i := if i <= TCNT then value else 0])
  {
  }

  /** No read-only bit of CTL is set. */
  predicate CtlClean(ctl: bv32)
  {
    ctl & CTL_READ_ONLY == 0
  }

  /** The bits of CTL a write keeps: bits 0, 2-10 and 13-15 (TWS bit 12
      is read-only and SOFTREQ is never stored). GDMAEN and SOFTREQ are
      both writable. */
  lemma CtlWriteBits(value: bv32)
    ensures Without(Without(value, CTL_READ_ONLY), CTL_SOFTREQ) == value & 0xE7FD
    ensures Starts(Without(value, CTL_READ_ONLY)) <==> Has(value, CTL_GDMAEN) || Has(value, CTL_SOFTREQ)
  {
  }

  /** A CTL write stores the kept bits, and starts a transfer on the
      channel so updated exactly when GDMAEN or SOFTREQ is written as 1;
      without one, nothing but CTL changes. */
  lemma CtlWriteRule(s: Channel, value: bv32)
    ensures var t := s.(regs := s.regs[CTL := value & 0xE7FD]);
      AfterWrite(s, 0, value) == if Has(value, CTL_GDMAEN) || Has(value, CTL_SOFTREQ) then AfterDma(t) else t
    ensures AfterWrite(s, 0, value).regs[CTL] == value & 0xE7FD
  {
    CtlWriteBits(value);
    DmaKeepsCtl(s.(regs := s.regs[CTL := value & 0xE7FD]));
  }

  // ---------------------------------------------------------------------
  // Properties: the transfer
  // ---------------------------------------------------------------------

  /** Once an access fails the transfer stays failed and changes nothing
      more. */
  lemma {:induction false} FailureSticks(mem: Memory, src: Word, dst: Word, i: nat, n: nat, c: Control)
    requires i <= n && !Transfer(mem, src, dst, i, c).ok
    ensures Transfer(mem, src, dst, n, c) == Transfer(mem, src, dst, i, c)
    decreases n - i
  {
    if i < n {
      FailureSticks(mem, src, dst, i + 1, n, c);
    }
  }

  /** An address after `n` units: moved by `n * size`, modulo 2^32. */
  function Moved(a: Word, n: nat, size: nat, fixed: bool, decrement: bool): Word
  {
    if fixed then a else if decrement then Wrap(a - n * size) else Wrap(a + n * size)
  }

  /** After `n` units that all succeeded, the source and destination have
      moved by `n` units each. */
  lemma {:induction false} TransferMoves(mem: Memory, src: Word, dst: Word, n: nat, c: Control)
    requires Transfer(mem, src, dst, n, c).ok
    ensures Transfer(mem, src, dst, n, c).src == Moved(src, n, c.size, c.srcFixed, c.srcDecrement)
    ensures Transfer(mem, src, dst, n, c).dst == Moved(dst, n, c.size, c.dstFixed, c.dstDecrement)
  {
    if n > 0 {
      TransferMoves(mem, src, dst, n - 1, c);
      AdvanceMoved(src, n - 1, c.size, c.srcFixed, c.srcDecrement);
      AdvanceMoved(dst, n - 1, c.size, c.dstFixed, c.dstDecrement);
    }
  }

  /** One more unit moves an address by one more `size`. */
  lemma AdvanceMoved(a: Word, n: nat, size: nat, fixed: bool, decrement: bool)
    ensures Advance(Moved(a, n, size, fixed, decrement), size, fixed, decrement) == Moved(a, n + 1, size, fixed, decrement)
  {
    var m := n * size;
    assert (n + 1) * size == m + size;
    WrapStep(a, m, size);
  }

  /** Wrapping after each step is wrapping once. */
  lemma WrapStep(a: int, m: int, size: int)
    ensures Wrap(Wrap(a - m) - size) == Wrap(a - (m + size))
    ensures Wrap(Wrap(a + m) + size) == Wrap(a + (m + size))
  {
  }

  /** Storing bytes keeps the set of mapped addresses when they were all
      mapped. */
  lemma {:induction false} PutKeepsKeys(mem: Memory, a: int, data: seq<bv8>)
    requires Mapped(mem, a, |data|)
    ensures Put(mem, a, data).Keys == mem.Keys
    decreases |data|
  {
    if data != [] {
      assert a in mem;
      var m := mem[a := data[0]];
      assert m.Keys == mem.Keys;
      PutKeepsKeys(m, a + 1, data[1..]);
    }
  }

  /** `data` lands at `[a, a + |data|)` and nothing else changes. */
  lemma {:induction false} PutStores(mem: Memory, a: int, data: seq<bv8>, x: int)
    requires x in mem || a <= x < a + |data|
    ensures x in Put(mem, a, data)
    ensures Put(mem, a, data)[x] == if a <= x < a + |data| then data[x - a] else mem[x]
    decreases |data|
  {
    if data != [] {
      PutStores(mem[a := data[0]], a + 1, data[1..], x);
    }
  }

  /** A transfer never maps or unmaps memory. */
  lemma {:induction false} TransferKeepsKeys(mem: Memory, src: Word, dst: Word, n: nat, c: Control)
    ensures Transfer(mem, src, dst, n, c).mem.Keys == mem.Keys
  {
    if n > 0 {
      var p := Transfer(mem, src, dst, n - 1, c);
      TransferKeepsKeys(mem, src, dst, n - 1, c);
      if p.ok && Mapped(p.mem, p.src, c.size) && Mapped(p.mem, p.dst, c.size) {
        PutKeepsKeys(p.mem, p.dst, Fetch(p.mem, p.src, c.size));
      }
    }
  }

  /** Unit `i` can read its source and write its destination. */
  predicate UnitMapped(mem: Memory, src: Word, dst: Word, i: nat, c: Control)
  {
    Mapped(mem, Moved(src, i, c.size, c.srcFixed, c.srcDecrement), c.size) &&
    Mapped(mem, Moved(dst, i, c.size, c.dstFixed, c.dstDecrement), c.size)
  }

  /** Mapping depends on the keys alone. */
  lemma MappedByKeys(m1: Memory, m2: Memory, a: int, size: nat)
    requires m1.Keys == m2.Keys
    ensures Mapped(m1, a, size) == Mapped(m2, a, size)
  {
    assert forall x :: x in m1 <==> x in m1.Keys;
  }

  /** A transfer of `n` units succeeds exactly when every unit's source and
      destination bytes are mapped. */
  lemma {:induction false} TransferSucceeds(mem: Memory, src: Word, dst: Word, n: nat, c: Control)
    ensures Transfer(mem, src, dst, n, c).ok <==> AllMapped(mem, src, dst, n, c)
  {
    if n > 0 {
      var p := Transfer(mem, src, dst, n - 1, c);
      TransferSucceeds(mem, src, dst, n - 1, c);
      if p.ok {
        TransferKeepsKeys(mem, src, dst, n - 1, c);
        TransferMoves(mem, src, dst, n - 1, c);
        MappedByKeys(p.mem, mem, p.src, c.size);
        MappedByKeys(p.mem, mem, p.dst, c.size);
        assert Transfer(mem, src, dst, n, c).ok <==> UnitMapped(mem, src, dst, n - 1, c);
      }
    }
  }

  /** Every unit of an `n`-unit transfer can read its source and write
      its destination. */
  predicate AllMapped(mem: Memory, src: Word, dst: Word, n: nat, c: Control)
  {
    forall i :: 0 <= i < n ==> UnitMapped(mem, src, dst, i, c)
  }

  /** The transfer a channel's registers describe, when it can complete. */
  predicate CanComplete(s: Channel)
  {
    var ctl := s.regs[CTL];
    AllMapped(s.mem, Num(s.regs[SRCB]), Num(s.regs[DSTB]), Num(Count(ctl, s.regs[TCNT])), ControlOf(ctl))
  }

  /** A complete transfer leaves CSRC and CDST at the base addresses moved
      by count units (fixed, decreasing or increasing, modulo 2^32) and
      CTCNT at the count, and sets the line to SIEN or TC. */
  lemma DmaCompletes(s: Channel)
    requires CanComplete(s)
    ensures var ctl := s.regs[CTL];
      var n := Count(ctl, s.regs[TCNT]);
      var c := ControlOf(ctl);
      AfterDma(s).regs == Completed(s.regs,
        Reg(Moved(Num(s.regs[SRCB]), Num(n), c.size, c.srcFixed, c.srcDecrement)),
        Reg(Moved(Num(s.regs[DSTB]), Num(n), c.size, c.dstFixed, c.dstDecrement)), n)
    ensures AfterDma(s).irq == Level(s.regs[CTL])
  {
    var ctl := s.regs[CTL];
    var n := Num(Count(ctl, s.regs[TCNT]));
    var c := ControlOf(ctl);
    TransferSucceeds(s.mem, Num(s.regs[SRCB]), Num(s.regs[DSTB]), n, c);
    TransferMoves(s.mem, Num(s.regs[SRCB]), Num(s.regs[DSTB]), n, c);
  }

  /** A transfer that meets an unmapped byte leaves every register and the
      line as they were. */
  lemma DmaFails(s: Channel)
    requires !CanComplete(s)
    ensures AfterDma(s) == s.(mem := AfterDma(s).mem)
  {
    var ctl := s.regs[CTL];
    TransferSucceeds(s.mem, Num(s.regs[SRCB]), Num(s.regs[DSTB]), Num(Count(ctl, s.regs[TCNT])), ControlOf(ctl));
  }

  /** A transfer never maps or unmaps memory. */
  lemma DmaKeepsKeys(s: Channel)
    ensures AfterDma(s).mem.Keys == s.mem.Keys
  {
    var ctl := s.regs[CTL];
    TransferKeepsKeys(s.mem, Num(s.regs[SRCB]), Num(s.regs[DSTB]), Num(Count(ctl, s.regs[TCNT])), ControlOf(ctl));
  }

  /** The count is TCNT, or a quarter of it in burst mode, and the unit is
      `1 << TWS` bytes for the two-bit field TWS at bit 12. */
  lemma CountAndSize(ctl: bv32, tcnt: bv32)
    ensures Count(ctl, tcnt) == if ctl & CTL_BME != 0 then tcnt / 4 else tcnt
    ensures ControlOf(ctl).size == [1, 2, 4, 8][((ctl >> 12) & 3) as int]
  {
  }

  /** With no read-only bit set in CTL the unit is 1 or 4 bytes, so it fits
      the 4-byte buffer a unit passes through, and the line is SIEN. */
  lemma CleanControl(ctl: bv32)
    requires CtlClean(ctl)
    ensures ControlOf(ctl).size in {1, 4}
    ensures Level(ctl) == Has(ctl, CTL_SIEN)
  {
  }

  /** One unit copies the source bytes, as they were, to the destination. */
  lemma UnitCopies(p: Progress, c: Control, k: nat)
    requires p.ok && Mapped(p.mem, p.src, c.size) && Mapped(p.mem, p.dst, c.size) && k < c.size
    ensures p.dst + k in Unit(p, c).mem
    ensures Unit(p, c).mem[p.dst + k] == p.mem[p.src + k]
  {
    PutStores(p.mem, p.dst, Fetch(p.mem, p.src, c.size), p.dst + k);
  }

  // ---------------------------------------------------------------------
  // Properties: the channel invariant
  // ---------------------------------------------------------------------

  /** A transfer does not change CTL. */
  lemma DmaKeepsCtl(s: Channel)
    ensures AfterDma(s).regs[CTL] == s.regs[CTL]
  {
  }

  /** Reset and every write keep the read-only bits of CTL clear, so every
      transfer's unit fits its 4-byte buffer. */
  lemma WriteKeepsCtlClean(s: Channel, offset: int, value: bv32)
    requires 0 <= offset < MMIO_SIZE && CtlClean(s.regs[CTL])
    ensures CtlClean(AfterWrite(s, offset, value).regs[CTL])
    ensures CtlClean(AfterReset(s).regs[CTL])
  {
    if offset / 4 == CTL {
      CtlWriteRule(s, value);
    }
  }
}
