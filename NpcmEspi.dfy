/**
 * The Nuvoton NPCM eSPI slave interface: a 4 KiB window over 0x180 32-bit
 * registers, two write-1-to-clear error paths, a reset that sets the ID and
 * configuration registers, and the "vwire_state" / "vwire_valid" device
 * properties that pack one 4-bit field of each of the sixteen
 * master-to-slave virtual-wire registers into a 64-bit value.
 */
module NpcmEspi {

  import opened Words

  // ---------------------------------------------------------------------
  // Registers
  // ---------------------------------------------------------------------

  // Register indices: the offset divided by 4.
  const ESPIID: nat := 0x0
  const ESPICFG: nat := 0x1
  const ESPISTS: nat := 0x2
  const ESPIIE: nat := 0x3
  const ESPIERR: nat := 0xF
  /** The first master-to-slave virtual-wire register (offset 0x1C0). */
  const VWGPMS: nat := 0x70
  /** Virtual-wire registers in each direction, four wires each. */
  const VW_REG_NUM: nat := 16
  const NR_REGS: nat := 0x180
  /** Size of the device's window. */
  const MMIO_SIZE: int := 0x1000

  const ESPIID_DEFAULT: bv32 := 0x801
  const ESPICFG_DEFAULT: bv32 := 0x300_0010

  // Fields of a virtual-wire register.
  const STATE_MASK: bv32 := 0xF
  const VALID_MASK: bv32 := 0xF0
  const INDEX_EN: bv32 := 0x8000

  type Regs = r: seq<bv32> | |r| == NR_REGS witness seq(NR_REGS, _ => 0)

  /** An access the window lets through: four aligned bytes inside it. */
  predicate Access(offset: int)
  {
    0 <= offset < MMIO_SIZE && offset % 4 == 0
  }

  /** `npcm_espi_core_read` as corrected: offsets past the register file
      read as 0. */
  function ReadValue(r: Regs, offset: int): bv32
    requires Access(offset)
  {
    if offset / 4 < NR_REGS then r[offset / 4] else 0
  }

  /** `npcm_espi_core_write` as corrected: a write to ESPISTS or ESPIERR
      clears the written bits of ESPIERR, a write past the register file is
      dropped, and every other write stores the value. */
  function AfterWrite(r: Regs, offset: int, input: bv32): Regs
    requires Access(offset)
  {
    var i := offset / 4;
    if i == ESPISTS || i == ESPIERR then r[ESPIERR := Without(r[ESPIERR], input)]
    else if i < NR_REGS then r[i := input]
    else r
  }

  /** `npcm_espi_enter_reset`: only ESPIID and ESPICFG are set. */
  function AfterReset(r: Regs): Regs
  {
    r[ESPIID := ESPIID_DEFAULT][ESPICFG := ESPICFG_DEFAULT]
  }

  // ---------------------------------------------------------------------
  // Virtual wires
  // ---------------------------------------------------------------------

  /** The two properties: the STATE field (bits 0-3) or the VALID field
      (bits 4-7) of each master-to-slave register. */
  datatype Wire = State | Valid

  /** The field of `x` that property `w` reads. */
  function Field(x: bv32, w: Wire): bv32
  {
    if w == State then x & STATE_MASK else (x >> 4) & 0xF
  }

  /** `x` with the low four bits of `nibble` put in the field of `w`;
      setting a nonzero VALID field also sets INDEX_EN. */
  function Deposit(x: bv32, w: Wire, nibble: bv32): bv32
  {
    if w == State then Without(x, STATE_MASK) | (nibble & 0xF)
    else
      var y := Without(x, VALID_MASK) | ((nibble & 0xF) << 4);
      if nibble & 0xF != 0 then With(y, INDEX_EN) else y
  }

  /** `x` shifted one nibble up, modulo 2^64. */
  function NibbleUp(x: bv64): bv64
  {
    x << 4
  }

  /** `x` shifted one nibble down. */
  function NibbleDown(x: bv64): bv64
  {
    x >> 4
  }

  /** The low nibble of `x`. */
  function LowNibble(x: bv64): bv32
  {
    (x & 0xF) as bv32
  }

  /** `v` with its low `k` nibbles shifted out. */
  function Drop(v: bv64, k: nat): bv64
  {
    if k == 0 then v else NibbleDown(Drop(v, k - 1))
  }

  /** Nibble `k` of `v`. */
  function Nibble(v: bv64, k: nat): bv32
  {
    LowNibble(Drop(v, k))
  }

  /** A property set: nibble `k` of `v` goes into the field of register
      VWGPMS + k, for k from 0 to 15. */
  function AfterSet(r: Regs, w: Wire, v: bv64): Regs
  {
    SetFirst(r, w, v, VW_REG_NUM)
  }

  /** The first `n` registers of a property set done. */
  function SetFirst(r: Regs, w: Wire, v: bv64, n: nat): Regs
  {
    seq(NR_REGS, j requires 0 <= j < NR_REGS =>
      if VWGPMS <= j < VWGPMS + n then Deposit(r[j], w, Nibble(v, j - VWGPMS)) else r[j])
  }

  /** The field of property `w` in each of the sixteen master-to-slave
      registers. */
  function Fields(r: Regs, w: Wire): (fs: seq<bv32>)
    ensures |fs| == VW_REG_NUM
  {
    seq(VW_REG_NUM, k requires 0 <= k < VW_REG_NUM => Field(r[VWGPMS + k], w))
  }

  /** Fields `k` to the last, the last one highest, as the corrected getter
      packs them: shift, then add the next field. */
  function Gather(fs: seq<bv32>, k: nat): bv64
    requires k <= |fs|
    decreases |fs| - k
  {
    if k == |fs| then 0 else Push(Gather(fs, k + 1), fs[k])
  }

  /** The packed value so far shifted a nibble up, with `field` below it. */
  function Push(acc: bv64, field: bv32): bv64
  {
    (acc << 4) | field as bv64
  }

  /** The packed value so far with `field` added, then shifted a nibble
      up. */
  function PushAsWritten(acc: bv64, field: bv32): bv64
  {
    (acc | field as bv64) << 4
  }

  /** The value a property reads, field k in nibble k. */
  function Packed(r: Regs, w: Wire): bv64
  {
    Gather(Fields(r, w), 0)
  }

  /** `npcm_vwire_get` as written: it adds each field and then shifts, so
      every field lands one nibble too high. */
  function GatherAsWritten(fs: seq<bv32>, k: nat): bv64
    requires k <= |fs|
    decreases |fs| - k
  {
    if k == |fs| then 0 else PushAsWritten(GatherAsWritten(fs, k + 1), fs[k])
  }

  function PackedAsWritten(r: Regs, w: Wire): bv64
  {
    GatherAsWritten(Fields(r, w), 0)
  }

  // ---------------------------------------------------------------------
  // The device
  // ---------------------------------------------------------------------

  class Espi {
    const regs: array<bv32>

    predicate Valid()
      reads this
    {
      regs.Length == NR_REGS
    }

    /** A device as created (registers zero) and then reset. */
    constructor()
      ensures Valid() && fresh(regs)
      ensures regs[..] == AfterReset(seq(NR_REGS, _ => 0))
    {
      regs := new bv32[NR_REGS](_ => 0);
      new;
      EnterReset();
    }

    /** `npcm_espi_enter_reset`. */
    method EnterReset()
      requires Valid()
      modifies regs
      ensures regs[..] == AfterReset(old(regs[..]))
    {
      regs[ESPIID] := ESPIID_DEFAULT;
      regs[ESPICFG] := ESPICFG_DEFAULT;
    }

    /** `npcm_espi_core_read`: changes nothing. */
    method Read(offset: int) returns (value: bv32)
      requires Valid() && Access(offset)
      ensures value == ReadValue(regs[..], offset)
    {
      var i := offset / 4;
      if i < NR_REGS {
        value := regs[i];
      } else {
        value := 0;
      }
    }

    /** `npcm_espi_core_write`. */
    method Write(offset: int, input: bv32)
      requires Valid() && Access(offset)
      modifies regs
      ensures regs[..] == AfterWrite(old(regs[..]), offset, input)
    {
      var i := offset / 4;
      if i == ESPISTS || i == ESPIERR {
        regs[ESPIERR] := Without(regs[ESPIERR], input);
      } else if i < NR_REGS {
        regs[i] := input;
      }
    }

    /** `npcm_vwire_get` as corrected: from register 15 down to 0, shift the
        value a nibble and add the register's field. */
    method GetWire(w: Wire) returns (value: bv64)
      requires Valid()
      ensures value == Packed(regs[..], w)
    {
      ghost var fs := Fields(regs[..], w);
      value := 0;
      var k := VW_REG_NUM;
      while k > 0
        invariant 0 <= k <= VW_REG_NUM
        invariant value == Gather(fs, k)
      {
        k := k - 1;
        assert fs[k] == Field(regs[VWGPMS + k], w);
        value := Push(value, Field(regs[VWGPMS + k], w));
      }
    }

    /** `npcm_vwire_state_set` and `npcm_vwire_valid_set`: from register 0
        up to 15, deposit the low nibble of the value and shift it out. */
    method SetWire(w: Wire, v: bv64)
      requires Valid()
      modifies regs
      ensures regs[..] == AfterSet(old(regs[..]), w, v)
    {
      ghost var r := regs[..];
      var value := v;
      for i := 0 to VW_REG_NUM
        invariant value == Drop(v, i)
        invariant regs[..] == SetFirst(r, w, v, i)
      {
        ghost var before := regs[..];
        SetOneMore(r, w, v, i);
        DropStep(v, i);
        var nibble := LowNibble(value);
        assert regs[VWGPMS + i] == r[VWGPMS + i];
        var x := Deposit(regs[VWGPMS + i], w, nibble);
        regs[VWGPMS + i] := x;
        assert regs[..] == before[VWGPMS + i := x];
        value := NibbleDown(value);
      }
    }
  }

  // ---------------------------------------------------------------------
  // Properties: register access
  // ---------------------------------------------------------------------

  /** Reset sets ESPIID to 0x801 and ESPICFG to 0x3000010 and keeps every
      other register. */
  lemma ResetRule(r: Regs)
    ensures ReadValue(AfterReset(r), 0x0) == 0x801
    ensures ReadValue(AfterReset(r), 0x4) == 0x300_0010
    ensures forall j :: ESPICFG < j < NR_REGS ==> AfterReset(r)[j] == r[j]
  {
  }

  /** A write to ESPISTS or ESPIERR clears the written bits of ESPIERR and
      nothing else: ESPISTS keeps its value. */
  lemma WriteClearsErrors(r: Regs, offset: int, input: bv32)
    requires offset == 0x8 || offset == 0x3C
    ensures var t := AfterWrite(r, offset, input);
      t[ESPIERR] & input == 0 &&
      t[ESPIERR] | (r[ESPIERR] & input) == r[ESPIERR] &&
      forall j :: 0 <= j < NR_REGS && j != ESPIERR ==> t[j] == r[j]
  {
  }

  /** Any other write inside the register file is read back as written and
      changes no other register. */
  lemma WriteStores(r: Regs, offset: int, input: bv32)
    requires Access(offset) && offset < 4 * NR_REGS && offset != 0x8 && offset != 0x3C
    ensures ReadValue(AfterWrite(r, offset, input), offset) == input
    ensures forall j :: 0 <= j < NR_REGS && j != offset / 4 ==> AfterWrite(r, offset, input)[j] == r[j]
  {
  }

  /** The window reaches past the register file: as written, the access at
      offset 0x600 indexes `regs[0x180]`, one past the end. */
  lemma WindowOverrun()
    ensures Access(0x600) && 0x600 / 4 == NR_REGS
  {
  }

  /** As corrected, an access past the register file reads 0 and a write
      there changes nothing. */
  lemma OutsideIgnored(r: Regs, offset: int, input: bv32)
    requires Access(offset) && offset >= 4 * NR_REGS
    ensures ReadValue(r, offset) == 0
    ensures AfterWrite(r, offset, input) == r
  {
  }

  // ---------------------------------------------------------------------
  // Properties: virtual wires
  // ---------------------------------------------------------------------

  /** Setting the STATE field puts the nibble's low four bits there and
      keeps every other bit. */
  lemma DepositState(x: bv32, nibble: bv32)
    ensures Field(Deposit(x, State, nibble), State) == nibble & 0xF
    ensures Without(Deposit(x, State, nibble), STATE_MASK) == Without(x, STATE_MASK)
  {
  }

  /** Setting the VALID field puts the nibble's low four bits there, sets
      INDEX_EN when they are not all zero (and never clears it), and keeps
      every other bit. */
  lemma DepositValid(x: bv32, nibble: bv32)
    ensures Field(Deposit(x, Valid, nibble), Valid) == nibble & 0xF
    ensures Deposit(x, Valid, nibble) & !0x80F0 == x & !0x80F0
  {
  }

  /** Setting a nonzero VALID field sets INDEX_EN, and setting a zero one
      leaves INDEX_EN as it was. */
  lemma DepositValidIndex(x: bv32, nibble: bv32)
    ensures Has(Deposit(x, Valid, nibble), INDEX_EN) <==> Has(x, INDEX_EN) || nibble & 0xF != 0
  {
  }

  /** One more register of a set done. */
  lemma SetOneMore(r: Regs, w: Wire, v: bv64, i: nat)
    requires i < VW_REG_NUM
    ensures SetFirst(r, w, v, i + 1) == SetFirst(r, w, v, i)[VWGPMS + i := Deposit(r[VWGPMS + i], w, Nibble(v, i))]
  {
    var a := SetFirst(r, w, v, i + 1);
    var b := SetFirst(r, w, v, i)[VWGPMS + i := Deposit(r[VWGPMS + i], w, Nibble(v, i))];
    forall j | 0 <= j < NR_REGS
      ensures a[j] == b[j]
    {
    }
  }

  /** Setting a property changes only the sixteen master-to-slave
      registers, and each of those only in the property's field (and
      INDEX_EN). */
  lemma SetKeeps(r: Regs, w: Wire, v: bv64)
    ensures forall j :: 0 <= j < NR_REGS && !(VWGPMS <= j < VWGPMS + VW_REG_NUM) ==> AfterSet(r, w, v)[j] == r[j]
    ensures forall j :: VWGPMS <= j < VWGPMS + VW_REG_NUM ==> AfterSet(r, w, v)[j] == Deposit(r[j], w, Nibble(v, j - VWGPMS))
  {
  }

  /** Field `k` after a set is nibble `k` of the value. */
  lemma FieldAfterSet(r: Regs, w: Wire, v: bv64, k: nat)
    requires k < VW_REG_NUM
    ensures Field(AfterSet(r, w, v)[VWGPMS + k], w) == Nibble(v, k)
  {
    var x := r[VWGPMS + k];
    assert AfterSet(r, w, v)[VWGPMS + k] == Deposit(x, w, Nibble(v, k));
    assert Nibble(v, k) & 0xF == Nibble(v, k);
    if w == State {
      DepositState(x, Nibble(v, k));
    } else {
      DepositValid(x, Nibble(v, k));
    }
  }

  /** One nibble shifted out is a shift by four. */
  lemma DropStep(v: bv64, k: nat)
    ensures Drop(v, k + 1) == NibbleDown(Drop(v, k))
  {
  }

  lemma {:induction false} DropAdd(v: bv64, a: nat, b: nat)
    ensures Drop(v, a + b) == Drop(Drop(v, a), b)
  {
    if b > 0 {
      DropAdd(v, a, b - 1);
    }
  }

  lemma DropFour(v: bv64)
    ensures Drop(v, 4) == v >> 16
  {
    assert Drop(v, 0) == v;
    DropStep(v, 0);
    DropStep(v, 1);
    DropStep(v, 2);
    DropStep(v, 3);
    ShiftFour(v);
  }

  lemma ShiftFour(x: bv64)
    ensures NibbleDown(NibbleDown(NibbleDown(NibbleDown(x)))) == x >> 16
  {
  }

  /** Sixteen nibbles are all of a 64-bit value. */
  lemma DropAll(v: bv64)
    ensures Drop(v, VW_REG_NUM) == 0
  {
    var a := Drop(v, 4);
    var b := Drop(a, 4);
    var c := Drop(b, 4);
    DropAdd(v, 4, 12);
    DropAdd(a, 4, 8);
    DropAdd(b, 4, 4);
    DropFour(v);
    DropFour(a);
    DropFour(b);
    DropFour(c);
  }

  /** A value is its high part shifted back over its low nibble. */
  lemma Rejoin(x: bv64)
    ensures Push(NibbleDown(x), LowNibble(x)) == x
  {
  }

  /** The nibbles of `v`, lowest first. */
  function Nibbles(v: bv64): (ns: seq<bv32>)
    ensures |ns| == VW_REG_NUM
  {
    seq(VW_REG_NUM, k requires 0 <= k < VW_REG_NUM => Nibble(v, k))
  }

  /** After a set, the fields are the nibbles of the value set. */
  lemma FieldsAfterSet(r: Regs, w: Wire, v: bv64)
    ensures Fields(AfterSet(r, w, v), w) == Nibbles(v)
  {
    forall k | 0 <= k < VW_REG_NUM
      ensures Fields(AfterSet(r, w, v), w)[k] == Nibbles(v)[k]
    {
      FieldAfterSet(r, w, v, k);
    }
  }

  /** Nibble `k` pushed below the nibbles of `v` above `k` gives the
      nibbles of `v` from `k` up. */
  lemma GatherStep(v: bv64, k: nat)
    requires k < VW_REG_NUM
    requires Gather(Nibbles(v), k + 1) == Drop(v, k + 1)
    ensures Gather(Nibbles(v), k) == Drop(v, k)
  {
    DropStep(v, k);
    assert Nibbles(v)[k] == LowNibble(Drop(v, k));
    Rejoin(Drop(v, k));
  }

  /** Packing the nibbles of `v` from `k` up gives `v` with its low `k`
      nibbles shifted out. */
  lemma {:induction false} GatherNibbles(v: bv64, k: nat)
    requires k <= VW_REG_NUM
    ensures Gather(Nibbles(v), k) == Drop(v, k)
    decreases VW_REG_NUM - k
  {
    if k == VW_REG_NUM {
      DropAll(v);
    } else {
      GatherNibbles(v, k + 1);
      GatherStep(v, k);
    }
  }

  /** With the getter corrected, reading a property after setting it gives
      back the value set. */
  lemma SetThenGet(r: Regs, w: Wire, v: bv64)
    ensures Packed(AfterSet(r, w, v), w) == v
  {
    FieldsAfterSet(r, w, v);
    GatherNibbles(v, 0);
  }

  /** Adding a field and then shifting, over a value already shifted, is
      the corrected step shifted. */
  lemma PushShifted(acc: bv64, field: bv32)
    ensures PushAsWritten(NibbleUp(acc), field) == NibbleUp(Push(acc, field))
  {
  }

  /** As written, the getter packs the same fields one nibble higher,
      modulo 2^64. */
  lemma {:induction false} AsWrittenShifted(fs: seq<bv32>, k: nat)
    requires k <= |fs|
    ensures GatherAsWritten(fs, k) == NibbleUp(Gather(fs, k))
    decreases |fs| - k
  {
    if k < |fs| {
      AsWrittenShifted(fs, k + 1);
      PushShifted(Gather(fs, k + 1), fs[k]);
    }
  }

  /** As written, reading a property after setting it to any `v` gives
      `v` shifted one nibble up, its top nibble lost. */
  lemma SetThenGetShifted(r: Regs, w: Wire, v: bv64)
    ensures PackedAsWritten(AfterSet(r, w, v), w) == NibbleUp(v)
  {
    SetThenGet(r, w, v);
    AsWrittenShifted(Fields(AfterSet(r, w, v), w), 0);
  }

  /** The getter as written loses what was set: a set of 1 reads back as
      0x10, and a value in nibble 15 alone reads back as 0. */
  lemma SetThenGetAsWritten(r: Regs, w: Wire)
    ensures PackedAsWritten(AfterSet(r, w, 1), w) == 0x10
    ensures PackedAsWritten(AfterSet(r, w, 0xF000_0000_0000_0000), w) == 0
  {
    SetThenGetShifted(r, w, 1);
    SetThenGetShifted(r, w, 0xF000_0000_0000_0000);
  }
}
