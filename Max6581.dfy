/**
 * The MAX6581 temperature sensor: seven remote diodes and one local diode,
 * each read as a whole number of degrees in one register, with an extended
 * register fifty bytes further on for the fraction. A status update
 * compares every channel against its ALERT-high and OVERT limits, the
 * shared ALERT-low limit and the diode-fault reading; the ALERT bits are
 * sticky until an SMBus read clears them.
 */
module Max6581 {
  import opened Bytes

  const TEMP_MAX: nat := 254
  const MANUFACTURER_ID_DEFAULT: bv8 := 0x4D
  const REMOTE_ALERT_HIGH_1_DEFAULT: bv8 := 0x7F
  const REMOTE_ALERT_HIGH_2_DEFAULT: bv8 := 0x64
  const LOCAL_ALERT_HIGH_DEFAULT: bv8 := 0x5A
  const LOCAL_OVERT_HIGH_DEFAULT: bv8 := 0x50
  const REMOTE_OVERT_HIGH_1_DEFAULT: bv8 := 0x6E
  const REMOTE_OVERT_HIGH_2_DEFAULT: bv8 := 0x7F
  const REMOTE_OVERT_HIGH_3_DEFAULT: bv8 := 0x5A
  const ALERT_LOW_DISABLE_DEFAULT: bv8 := 0xFF
  const EXTENDED_OFFSET: nat := 50
  const OVERT_LIMIT_OFFSET: int := 4
  const DIODE_FAULT_LIMIT: int := 255
  const DEFAULT_TEMPERATURE: bv8 := 32
  const EXTENDED_BIT_BASE: nat := 32
  const EXTENDED_DECIMAL_BASE: nat := 125

  /** Channels 0 to 5 are remote diodes 1 to 6; then the local diode, then
      remote diode 7, in the order the status update examines them. */
  const NUM_TEMPS: nat := 8
  const LOCAL: nat := 6
  const REMOTE_7: nat := 7

  /** The status bits of the local diode and of remote diode 7 (bit indices
      of the masks 0b01000000 and 0b10000000). */
  const ALERT_BIT_LOCAL: nat := 6
  const ALERT_BIT_REMOTE_7: nat := 7
  const OVERT_BIT_REMOTE_7: nat := 6
  const OVERT_BIT_LOCAL: nat := 7
  const DIODE_BIT_REMOTE_7: nat := 6

  type UInt32 = x: int | 0 <= x < 0x1_0000_0000

  // ---------------------------------------------------------------------
  // Temperatures
  // ---------------------------------------------------------------------

  /** The byte `set_temperature` stores for `value`: at most 254 degrees. */
  function Clamp(value: bv8): (r: bv8)
    ensures r as int <= TEMP_MAX
    ensures value as int <= TEMP_MAX ==> r == value
    ensures value as int > TEMP_MAX ==> r as int == TEMP_MAX
  {
    if value > 254 then 254 else value
  }

  /** The whole degrees of `value` millidegrees, saturated at 254. */
  function SaturatedWhole(value: UInt32): (r: bv8)
  {
    ToByte(if value / 1000 > TEMP_MAX then TEMP_MAX else value / 1000)
  }

  /** The extended register for `value` millidegrees: the fraction of a
      degree in units of 125/32 millidegrees, clamped like a temperature. */
  function Fraction(value: UInt32): (r: bv8)
    ensures r as int == if value % 1000 >= 997 then 254 else value % 1000 * EXTENDED_BIT_BASE / EXTENDED_DECIMAL_BASE
  {
    Clamp(ToByte(value % 1000 * EXTENDED_BIT_BASE / EXTENDED_DECIMAL_BASE))
  }

  /** The whole degrees the management setter stores as written: the
      quotient is narrowed to a byte by the call, and only then clamped. */
  function NarrowedWhole(value: UInt32): (r: bv8)
  {
    Clamp(Trunc8(value / 1000))
  }

  /** The management reading of the temperature at `a`, in millidegrees. */
  function QmpReading(r: seq<bv8>, a: nat): (value: int)
    requires a + EXTENDED_OFFSET < |r|
    ensures 0 <= value < 256000
  {
    r[a] as int * 1000 + r[a + EXTENDED_OFFSET] as int * EXTENDED_DECIMAL_BASE / EXTENDED_BIT_BASE
  }

  /** The register file after the management setter stores `value` at `a`. */
  function StoredQmp(r: seq<bv8>, a: nat, value: UInt32): (r': seq<bv8>)
    requires a + EXTENDED_OFFSET < |r|
    ensures |r'| == |r|
  {
    r[a := SaturatedWhole(value)][a + EXTENDED_OFFSET := Fraction(value)]
  }

  /** The same store with the whole degrees as the setter computes them. */
  function StoredQmpAsWritten(r: seq<bv8>, a: nat, value: UInt32): (r': seq<bv8>)
    requires a + EXTENDED_OFFSET < |r|
    ensures |r'| == |r|
  {
    r[a := NarrowedWhole(value)][a + EXTENDED_OFFSET := Fraction(value)]
  }

  /** The saturated whole degrees are the quotient capped at 254, so a
      hotter input never reads as a cooler one. */
  lemma SaturatedWholeIsCapped(value: UInt32, other: UInt32)
    ensures SaturatedWhole(value) as int == if value / 1000 > TEMP_MAX then TEMP_MAX else value / 1000
    ensures value <= other ==> SaturatedWhole(value) as int <= SaturatedWhole(other) as int
  {
  }

  /** As written, an input from 256000 to 509999 millidegrees narrows to
      its whole degrees less 256 before the clamp, so it reads back below 254
      degrees (300000 reads as 44000); saturating first reads 254 degrees. */
  lemma NarrowingWrapsAround(r: seq<bv8>, a: nat, value: UInt32)
    requires a + EXTENDED_OFFSET < |r| && 256000 <= value < 510000
    ensures NarrowedWhole(value) as int == value / 1000 - 256
    ensures QmpReading(StoredQmpAsWritten(r, a, value), a) < 254000
    ensures 254000 <= QmpReading(StoredQmp(r, a, value), a)
  {
    var s := StoredQmpAsWritten(r, a, value);
    assert s[a] == NarrowedWhole(value);
    var t := StoredQmp(r, a, value);
    assert t[a] == SaturatedWhole(value);
  }

  /** The extended register stores the fraction in 1/256-degree steps and
      reads back at most 7 millidegrees low: below 1000 * k + 997 it is
      within 4. */
  lemma FractionReadBack(f: nat)
    requires f < 1000
    ensures var e := if f >= 997 then 254 else f * EXTENDED_BIT_BASE / EXTENDED_DECIMAL_BASE;
            var got := e * EXTENDED_DECIMAL_BASE / EXTENDED_BIT_BASE;
            && got <= f < got + 8
            && (f % 125 == 0 ==> got == f)
  {
    var e := if f >= 997 then 254 else f * 32 / 125;
    var got := e * 125 / 32;
    if f < 997 {
      assert 125 * e <= 32 * f < 125 * e + 125;
      assert 32 * got <= 125 * e < 32 * got + 32;
      if f % 125 == 0 {
        var k := f / 125;
        assert f == 125 * k;
        assert e == 32 * k;
        assert got == 125 * k;
      }
    } else {
      assert got == 992;
    }
  }

  /** A temperature set through the management interface reads back as the
      input, to within 7 millidegrees, up to 254999 millidegrees, and exactly
      on a 1/8-degree step; a hotter input reads as 254 degrees and a
      fraction. */
  lemma {:induction false} QmpReadBack(r: seq<bv8>, a: nat, value: UInt32)
    requires a + EXTENDED_OFFSET < |r|
    ensures var got := QmpReading(StoredQmp(r, a, value), a);
            && (value < 255000 ==> got <= value < got + 8)
            && (value < 255000 && value % 1000 % 125 == 0 ==> got == value)
            && (value >= 255000 ==> 254000 <= got < 255000)
  {
    var s := StoredQmp(r, a, value);
    FractionReadBack(value % 1000);
    assert s[a] == SaturatedWhole(value) && s[a + EXTENDED_OFFSET] == Fraction(value);
  }

  // ---------------------------------------------------------------------
  // Register layout
  // ---------------------------------------------------------------------

  /** The register addresses of the device. Remote diodes 1 to 6 keep their
      temperature, ALERT-high limit and OVERT limit at consecutive
      addresses; the local diode and remote diode 7 have addresses of
      their own. */
  datatype Layout = Layout(
    size: nat,
    remote1Temperature: nat, localTemperature: nat, remote7Temperature: nat,
    remote1AlertHighLimit: nat, localAlertHighLimit: nat, remote7AlertHighLimit: nat,
    remote1OvertHighLimit: nat, localOvertHighLimit: nat, remote7OvertHighLimit: nat,
    alertHighStatus: nat, overtStatus: nat, diodeFaultStatus: nat, alertLowStatus: nat,
    alertLowLimits: nat, alertMask: nat, overtMask: nat,
    manufacturerId: nat, alertLowDisable: nat, offsetSelect: nat,
    remote7ExtendedTemperature: nat)

  /** Address of channel `ch`'s temperature. */
  function TempAddr(l: Layout, ch: nat): nat
  {
    if ch < LOCAL then l.remote1Temperature + ch
    else if ch == LOCAL then l.localTemperature
    else l.remote7Temperature
  }

  function AlertAddr(l: Layout, ch: nat): nat
  {
    if ch < LOCAL then l.remote1AlertHighLimit + ch
    else if ch == LOCAL then l.localAlertHighLimit
    else l.remote7AlertHighLimit
  }

  function OvertAddr(l: Layout, ch: nat): nat
  {
    if ch < LOCAL then l.remote1OvertHighLimit + ch
    else if ch == LOCAL then l.localOvertHighLimit
    else l.remote7OvertHighLimit
  }

  /** The four status registers. */
  datatype Status = AlertHigh | Overt | DiodeFault | AlertLow

  function StatusAddr(l: Layout, k: Status): nat
  {
    match k
    case AlertHigh => l.alertHighStatus
    case Overt => l.overtStatus
    case DiodeFault => l.diodeFaultStatus
    case AlertLow => l.alertLowStatus
  }

  /** The ALERT statuses keep their bits across updates; the update zeroes
      the other two first. */
  predicate Sticky(k: Status)
  {
    k == AlertHigh || k == AlertLow
  }

  /** The bit of status `k` that reports channel `ch`. The OVERT register
      swaps the local diode and remote diode 7; the local diode has no
      diode-fault check, and its nominal bit 7 is never set. */
  function StatusBit(k: Status, ch: nat): (b: nat)
    requires ch < NUM_TEMPS
    ensures b < 8
  {
    if ch < LOCAL then ch
    else if ch == LOCAL then
      match k
      case Overt => OVERT_BIT_LOCAL
      case DiodeFault => 7
      case _ => ALERT_BIT_LOCAL
    else
      match k
      case Overt => OVERT_BIT_REMOTE_7
      case DiodeFault => DIODE_BIT_REMOTE_7
      case _ => ALERT_BIT_REMOTE_7
  }

  /** Each status register reports each channel on a bit of its own, and
      every bit reports a channel. */
  lemma StatusBitInvolution(k: Status, ch: nat)
    requires ch < NUM_TEMPS
    ensures StatusBit(k, StatusBit(k, ch)) == ch
  {
  }

  /** Management input `i` is the register `i` bytes after remote 1's
      temperature. */
  function QmpAddr(l: Layout, i: nat): nat
  {
    l.remote1Temperature + i
  }

  /** The registers `update_status` may write. */
  predicate Written(l: Layout, j: nat)
  {
    j == l.alertHighStatus || j == l.overtStatus || j == l.diodeFaultStatus || j == l.alertLowStatus
  }

  /** The registers `update_status` reads for channel `ch` lie inside the
      register file and are none of the ones it writes. */
  predicate ChannelUntouched(l: Layout, ch: nat)
  {
    && TempAddr(l, ch) < l.size && AlertAddr(l, ch) < l.size && OvertAddr(l, ch) < l.size
    && !Written(l, TempAddr(l, ch)) && !Written(l, AlertAddr(l, ch)) && !Written(l, OvertAddr(l, ch))
  }

  /** Management input `i` and its extended register lie inside the
      register file and are not status registers. */
  predicate QmpUntouched(l: Layout, i: nat)
  {
    && QmpAddr(l, i) + EXTENDED_OFFSET < l.size
    && !Written(l, QmpAddr(l, i)) && !Written(l, QmpAddr(l, i) + EXTENDED_OFFSET)
  }

  /** The relations the device relies on: the registers it names lie inside
      the register file, the four status registers are distinct and none of
      the registers the update reads, and the management inputs with their
      extended registers stay inside the file. */
  predicate LayoutValid(l: Layout)
  {
    && l.alertHighStatus < l.size && l.overtStatus < l.size
    && l.diodeFaultStatus < l.size && l.alertLowStatus < l.size
    && l.alertLowLimits < l.size && l.alertMask < l.size && l.overtMask < l.size
    && l.manufacturerId < l.size && l.alertLowDisable < l.size
    && l.offsetSelect < l.size && l.remote7ExtendedTemperature < l.size
    && l.remote1Temperature + NUM_TEMPS - 1 + EXTENDED_OFFSET < l.size
    && l.localTemperature < l.size && l.remote7Temperature < l.size
    && l.remote1AlertHighLimit + LOCAL - 1 < l.size
    && l.localAlertHighLimit < l.size && l.remote7AlertHighLimit < l.size
    && l.remote1OvertHighLimit + LOCAL - 1 < l.size
    && l.localOvertHighLimit < l.size && l.remote7OvertHighLimit < l.size
    && l.alertHighStatus != l.overtStatus && l.alertHighStatus != l.diodeFaultStatus
    && l.alertHighStatus != l.alertLowStatus && l.overtStatus != l.diodeFaultStatus
    && l.overtStatus != l.alertLowStatus && l.diodeFaultStatus != l.alertLowStatus
    && !Written(l, l.alertLowLimits) && !Written(l, l.alertMask) && !Written(l, l.overtMask)
    && (forall ch | 0 <= ch < NUM_TEMPS :: ChannelUntouched(l, ch))
    && (forall i | 0 <= i < NUM_TEMPS :: QmpUntouched(l, i))
  }

  /** The layouts the device can run on; the witness is one of them. */
  type ValidLayout = l: Layout | LayoutValid(l)
    witness Layout(256, 0x01, 0x07, 0x08, 0x11, 0x17, 0x18, 0x21, 0x27, 0x28,
                   0x44, 0x45, 0x46, 0x47, 0x48, 0x49, 0x4A, 0x4B, 0x4C, 0x4D, 0x4E)

  // ---------------------------------------------------------------------
  // Status computation
  // ---------------------------------------------------------------------

  /** Whether the condition of status `k` holds for channel `ch` in the
      register file `cur`, given the shared low limit and the two masks:
      the temperature is above the ALERT-high limit, above the OVERT limit
      less 4 degrees, at the diode-fault reading 255 (remote diodes only),
      or below the low limit; the ALERT and OVERT conditions only while the
      channel's bit in the matching mask is clear. */
  predicate Condition(cur: seq<bv8>, l: ValidLayout, k: Status, ch: nat, low: bv8, alertMask: bv8, overtMask: bv8)
    requires |cur| == l.size && ch < NUM_TEMPS
  {
    var t := cur[TempAddr(l, ch)] as int;
    match k
    case AlertHigh => t > cur[AlertAddr(l, ch)] as int && !HasBit(alertMask, StatusBit(k, ch))
    case Overt => t > cur[OvertAddr(l, ch)] as int - OVERT_LIMIT_OFFSET && !HasBit(overtMask, StatusBit(k, ch))
    case DiodeFault => ch != LOCAL && t == DIODE_FAULT_LIMIT
    case AlertLow => t < low as int && !HasBit(alertMask, StatusBit(k, ch))
  }

  /** Whether status `k` fires for channel `ch` in register file `r`, with
      the low limit and the masks `r` holds. */
  predicate Fires(r: seq<bv8>, l: ValidLayout, k: Status, ch: nat)
    requires |r| == l.size && ch < NUM_TEMPS
  {
    Condition(r, l, k, ch, r[l.alertLowLimits], r[l.alertMask], r[l.overtMask])
  }

  /** What status register `k` starts from: its old value for the sticky
      ALERT registers, 0 for the others. */
  function Base(r: seq<bv8>, l: ValidLayout, k: Status): bv8
    requires |r| == l.size
  {
    if Sticky(k) then r[StatusAddr(l, k)] else 0
  }

  /** Status register `k` after the first `n` channels have been examined. */
  function StatusMask(r: seq<bv8>, l: ValidLayout, k: Status, n: nat): bv8
    requires |r| == l.size && n <= NUM_TEMPS
  {
    if n == 0 then Base(r, l, k)
    else Mark(StatusMask(r, l, k, n - 1), Fires(r, l, k, n - 1), StatusBit(k, n - 1))
  }

  /** The four status registers, as the passes of `update_status` carry
      them from channel to channel. */
  datatype Statuses = Statuses(alertHigh: bv8, overt: bv8, diodeFault: bv8, alertLow: bv8)

  /** Status register `k` of `s`. */
  function Get(s: Statuses, k: Status): bv8
  {
    match k
    case AlertHigh => s.alertHigh
    case Overt => s.overt
    case DiodeFault => s.diodeFault
    case AlertLow => s.alertLow
  }

  /** `r` with its four status registers holding `s`. */
  function Store(r: seq<bv8>, l: ValidLayout, s: Statuses): (r': seq<bv8>)
    requires |r| == l.size
    ensures |r'| == |r|
  {
    r[l.alertHighStatus := s.alertHigh][l.overtStatus := s.overt]
     [l.diodeFaultStatus := s.diodeFault][l.alertLowStatus := s.alertLow]
  }

  /** The status registers as the passes find them: the ALERT registers
      as they were, the OVERT and diode-fault registers cleared. */
  function Start(r: seq<bv8>, l: ValidLayout): Statuses
    requires |r| == l.size
  {
    Statuses(r[l.alertHighStatus], 0, 0, r[l.alertLowStatus])
  }

  /** One pass of `update_status` over channel `ch`: every status gains
      the bit that reports the channel when its condition holds in `r`;
      `low`, `alertMask` and `overtMask` are the values the update read
      before its first pass. */
  function ChannelStep(s: Statuses, r: seq<bv8>, l: ValidLayout, ch: nat, low: bv8, alertMask: bv8, overtMask: bv8): Statuses
    requires |r| == l.size && ch < NUM_TEMPS
  {
    Statuses(
      Mark(s.alertHigh, Condition(r, l, AlertHigh, ch, low, alertMask, overtMask), StatusBit(AlertHigh, ch)),
      Mark(s.overt, Condition(r, l, Overt, ch, low, alertMask, overtMask), StatusBit(Overt, ch)),
      Mark(s.diodeFault, Condition(r, l, DiodeFault, ch, low, alertMask, overtMask), StatusBit(DiodeFault, ch)),
      Mark(s.alertLow, Condition(r, l, AlertLow, ch, low, alertMask, overtMask), StatusBit(AlertLow, ch)))
  }

  /** The passes over the first `n` channels, in order. */
  function Scan(s: Statuses, r: seq<bv8>, l: ValidLayout, low: bv8, alertMask: bv8, overtMask: bv8, n: nat): Statuses
    requires |r| == l.size && n <= NUM_TEMPS
  {
    if n == 0 then s else ChannelStep(Scan(s, r, l, low, alertMask, overtMask, n - 1), r, l, n - 1, low, alertMask, overtMask)
  }

  /** The register file after `update_status`. */
  function Updated(r: seq<bv8>, l: ValidLayout): (r': seq<bv8>)
    requires |r| == l.size
    ensures |r'| == |r|
  {
    Store(r, l, Scan(Start(r, l), r, l, r[l.alertLowLimits], r[l.alertMask], r[l.overtMask], NUM_TEMPS))
  }

  /** A pass over channel `ch` sets, in status register `k`, the bit that
      reports the channel when the condition of `k` holds, and changes no
      other bit. */
  lemma StepGet(s: Statuses, r: seq<bv8>, l: ValidLayout, ch: nat, low: bv8, alertMask: bv8, overtMask: bv8, k: Status)
    requires |r| == l.size && ch < NUM_TEMPS
    ensures Get(ChannelStep(s, r, l, ch, low, alertMask, overtMask), k)
            == Mark(Get(s, k), Condition(r, l, k, ch, low, alertMask, overtMask), StatusBit(k, ch))
  {
    match k
    case AlertHigh =>
    case Overt =>
    case DiodeFault =>
    case AlertLow =>
  }

  /** Storing the status registers leaves every other register alone. */
  lemma StoreKeeps(r: seq<bv8>, l: ValidLayout, s: Statuses, j: nat)
    requires |r| == l.size && j < |r| && !Written(l, j)
    ensures Store(r, l, s)[j] == r[j]
  {
  }

  /** Each status register reads back what was stored in it. */
  lemma StoreGet(r: seq<bv8>, l: ValidLayout, s: Statuses, k: Status)
    requires |r| == l.size
    ensures Store(r, l, s)[StatusAddr(l, k)] == Get(s, k)
  {
    match k
    case AlertHigh =>
    case Overt =>
    case DiodeFault =>
    case AlertLow =>
  }

  /** A second store of the status registers replaces the first. */
  lemma StoreTwice(r: seq<bv8>, l: ValidLayout, s: Statuses, t: Statuses)
    requires |r| == l.size
    ensures Store(Store(r, l, s), l, t) == Store(r, l, t)
  {
    var a, b := Store(Store(r, l, s), l, t), Store(r, l, t);
    forall j | 0 <= j < |r|
      ensures a[j] == b[j]
    {
      if !Written(l, j) {
        StoreKeeps(Store(r, l, s), l, t, j);
        StoreKeeps(r, l, s, j);
        StoreKeeps(r, l, t, j);
      }
    }
  }

  /** Storing the starting statuses is clearing the OVERT and diode-fault
      registers. */
  lemma StoreStart(r: seq<bv8>, l: ValidLayout)
    requires |r| == l.size
    ensures Store(r, l, Start(r, l)) == r[l.overtStatus := 0][l.diodeFaultStatus := 0]
  {
    var a, b := Store(r, l, Start(r, l)), r[l.overtStatus := 0][l.diodeFaultStatus := 0];
    forall j | 0 <= j < |r|
      ensures a[j] == b[j]
    {
      if !Written(l, j) {
        StoreKeeps(r, l, Start(r, l), j);
      }
    }
  }

  /** Two register files that agree on channel `ch`'s temperature and
      limits give every condition of that channel the same value. */
  lemma ChannelAgrees(r: seq<bv8>, cur: seq<bv8>, l: ValidLayout, ch: nat, low: bv8, alertMask: bv8, overtMask: bv8)
    requires |r| == l.size && ch < NUM_TEMPS && |cur| == |r|
    requires cur[TempAddr(l, ch)] == r[TempAddr(l, ch)]
    requires cur[AlertAddr(l, ch)] == r[AlertAddr(l, ch)]
    requires cur[OvertAddr(l, ch)] == r[OvertAddr(l, ch)]
    ensures forall k: Status :: Condition(cur, l, k, ch, low, alertMask, overtMask) == Condition(r, l, k, ch, low, alertMask, overtMask)
  {
  }

  /** The passes compute each status register as its reference definition
      `StatusMask`, which examines one register at a time. */
  lemma {:induction false} ScanStatus(r: seq<bv8>, l: ValidLayout, k: Status, n: nat)
    requires |r| == l.size && n <= NUM_TEMPS
    ensures Get(Scan(Start(r, l), r, l, r[l.alertLowLimits], r[l.alertMask], r[l.overtMask], n), k)
            == StatusMask(r, l, k, n)
  {
    if n > 0 {
      ScanStatus(r, l, k, n - 1);
      ScanStatusStep(r, l, k, n);
    } else {
      match k
      case AlertHigh =>
      case Overt =>
      case DiodeFault =>
      case AlertLow =>
    }
  }

  /** The inductive step of `ScanStatus`: a pass adds to register `k` the
      bit its reference definition adds. */
  lemma ScanStatusStep(r: seq<bv8>, l: ValidLayout, k: Status, n: nat)
    requires |r| == l.size && 0 < n <= NUM_TEMPS
    requires Get(Scan(Start(r, l), r, l, r[l.alertLowLimits], r[l.alertMask], r[l.overtMask], n - 1), k)
             == StatusMask(r, l, k, n - 1)
    ensures Get(Scan(Start(r, l), r, l, r[l.alertLowLimits], r[l.alertMask], r[l.overtMask], n), k)
            == StatusMask(r, l, k, n)
  {
    var low, alertMask, overtMask := r[l.alertLowLimits], r[l.alertMask], r[l.overtMask];
    var prev := Scan(Start(r, l), r, l, low, alertMask, overtMask, n - 1);
    StepGet(prev, r, l, n - 1, low, alertMask, overtMask, k);
  }

  /** Bit `b` of a status register is set exactly when it was set at the
      start or the channel it reports has been examined and fires. */
  lemma {:induction false} StatusMaskBit(r: seq<bv8>, l: ValidLayout, k: Status, n: nat, b: nat)
    requires |r| == l.size && n <= NUM_TEMPS && b < 8
    ensures HasBit(StatusMask(r, l, k, n), b) <==> HasBit(Base(r, l, k), b) || (StatusBit(k, b) < n && Fires(r, l, k, StatusBit(k, b)))
  {
    if n > 0 {
      StatusMaskBit(r, l, k, n - 1, b);
      StatusBitInvolution(k, n - 1);
      StatusBitInvolution(k, b);
      OrBit(StatusMask(r, l, k, n - 1), StatusBit(k, n - 1), b, Fires(r, l, k, n - 1));
    }
  }

  /** After an update, bit `b` of status register `k` is set exactly when
      the channel it reports fires, or, for the ALERT registers, when it was
      already set. */
  lemma UpdatedStatusBit(r: seq<bv8>, l: ValidLayout, k: Status, b: nat)
    requires |r| == l.size && b < 8
    ensures HasBit(Updated(r, l)[StatusAddr(l, k)], b) <==>
              (Sticky(k) && HasBit(r[StatusAddr(l, k)], b)) || Fires(r, l, k, StatusBit(k, b))
  {
    StoreGet(r, l, Scan(Start(r, l), r, l, r[l.alertLowLimits], r[l.alertMask], r[l.overtMask], NUM_TEMPS), k);
    ScanStatus(r, l, k, NUM_TEMPS);
    StatusMaskBit(r, l, k, NUM_TEMPS, b);
  }

  /** An update never clears an ALERT bit. */
  lemma AlertBitsStick(r: seq<bv8>, l: ValidLayout, k: Status, b: nat)
    requires |r| == l.size && b < 8 && Sticky(k)
    requires HasBit(r[StatusAddr(l, k)], b)
    ensures HasBit(Updated(r, l)[StatusAddr(l, k)], b)
  {
    UpdatedStatusBit(r, l, k, b);
  }

  /** The local diode's diode-fault bit is never set. */
  lemma LocalDiodeBitClear(r: seq<bv8>, l: ValidLayout)
    requires |r| == l.size
    ensures !HasBit(Updated(r, l)[l.diodeFaultStatus], 7)
  {
    UpdatedStatusBit(r, l, DiodeFault, 7);
  }

  /** When every channel fires, a status register reads 0xFF; when none
      does, it keeps its starting value (0 for OVERT and diode fault). */
  lemma UpdatedAllOrNone(r: seq<bv8>, l: ValidLayout, k: Status)
    requires |r| == l.size
    ensures (forall ch | 0 <= ch < NUM_TEMPS :: Fires(r, l, k, ch)) ==> Updated(r, l)[StatusAddr(l, k)] == 0xFF
    ensures (forall ch | 0 <= ch < NUM_TEMPS :: !Fires(r, l, k, ch)) ==> Updated(r, l)[StatusAddr(l, k)] == Base(r, l, k)
  {
    var u := Updated(r, l)[StatusAddr(l, k)];
    forall b | 0 <= b < 8 {
      UpdatedStatusBit(r, l, k, b);
    }
    if forall ch | 0 <= ch < NUM_TEMPS :: Fires(r, l, k, ch) {
      SameBits(u, 0xFF);
    }
    if forall ch | 0 <= ch < NUM_TEMPS :: !Fires(r, l, k, ch) {
      SameBits(u, Base(r, l, k));
    }
  }

  /** The update changes only the four status registers. */
  lemma UpdateTouchesOnlyStatus(r: seq<bv8>, l: ValidLayout, j: nat)
    requires |r| == l.size && j < |r| && !Written(l, j)
    ensures Updated(r, l)[j] == r[j]
  {
    StoreKeeps(r, l, Scan(Start(r, l), r, l, r[l.alertLowLimits], r[l.alertMask], r[l.overtMask], NUM_TEMPS), j);
  }

  // ---------------------------------------------------------------------
  // Reset state
  // ---------------------------------------------------------------------

  /** The temperature and identification registers at reset. */
  function ResetTemperatures(l: ValidLayout, r: seq<bv8>): (r': seq<bv8>)
    requires |r| == l.size
    ensures |r'| == |r|
  {
    assert ChannelUntouched(l, 5) && ChannelUntouched(l, 6) && ChannelUntouched(l, 7);
    r[TempAddr(l, 0) := DEFAULT_TEMPERATURE]
     [TempAddr(l, 1) := DEFAULT_TEMPERATURE]
     [TempAddr(l, 2) := DEFAULT_TEMPERATURE]
     [TempAddr(l, 3) := DEFAULT_TEMPERATURE]
     [TempAddr(l, 4) := DEFAULT_TEMPERATURE]
     [TempAddr(l, 5) := DEFAULT_TEMPERATURE]
     [TempAddr(l, LOCAL) := DEFAULT_TEMPERATURE]
     [TempAddr(l, REMOTE_7) := DEFAULT_TEMPERATURE]
     [l.manufacturerId := MANUFACTURER_ID_DEFAULT]
  }

  /** The ALERT-high limits at reset. */
  function ResetAlertLimits(l: ValidLayout, r: seq<bv8>): (r': seq<bv8>)
    requires |r| == l.size
    ensures |r'| == |r|
  {
    assert ChannelUntouched(l, 5) && ChannelUntouched(l, 6) && ChannelUntouched(l, 7);
    r[AlertAddr(l, 0) := REMOTE_ALERT_HIGH_1_DEFAULT]
     [AlertAddr(l, 1) := REMOTE_ALERT_HIGH_1_DEFAULT]
     [AlertAddr(l, 2) := REMOTE_ALERT_HIGH_2_DEFAULT]
     [AlertAddr(l, 3) := REMOTE_ALERT_HIGH_2_DEFAULT]
     [AlertAddr(l, 4) := REMOTE_ALERT_HIGH_2_DEFAULT]
     [AlertAddr(l, 5) := REMOTE_ALERT_HIGH_2_DEFAULT]
     [AlertAddr(l, LOCAL) := LOCAL_ALERT_HIGH_DEFAULT]
     [AlertAddr(l, REMOTE_7) := REMOTE_ALERT_HIGH_2_DEFAULT]
  }

  /** The OVERT limits and the ALERT-low disable register at reset. */
  function ResetOvertLimits(l: ValidLayout, r: seq<bv8>): (r': seq<bv8>)
    requires |r| == l.size
    ensures |r'| == |r|
  {
    assert ChannelUntouched(l, 5) && ChannelUntouched(l, 6) && ChannelUntouched(l, 7);
    r[OvertAddr(l, LOCAL) := LOCAL_OVERT_HIGH_DEFAULT]
     [OvertAddr(l, 0) := REMOTE_OVERT_HIGH_1_DEFAULT]
     [OvertAddr(l, 1) := REMOTE_OVERT_HIGH_1_DEFAULT]
     [OvertAddr(l, 2) := REMOTE_OVERT_HIGH_1_DEFAULT]
     [OvertAddr(l, 3) := REMOTE_OVERT_HIGH_2_DEFAULT]
     [OvertAddr(l, 4) := REMOTE_OVERT_HIGH_3_DEFAULT]
     [OvertAddr(l, 5) := REMOTE_OVERT_HIGH_3_DEFAULT]
     [OvertAddr(l, REMOTE_7) := REMOTE_OVERT_HIGH_3_DEFAULT]
     [l.alertLowDisable := ALERT_LOW_DISABLE_DEFAULT]
  }

  /** The register file after `exit_reset`: all zero, then the defaults,
      written in the order the device writes them. */
  function ResetRegs(l: ValidLayout): (r: seq<bv8>)
    ensures |r| == l.size
  {
    ResetOvertLimits(l, ResetAlertLimits(l, ResetTemperatures(l, seq(l.size, _ => 0 as bv8))))
  }

  // ---------------------------------------------------------------------
  // SMBus access
  // ---------------------------------------------------------------------

  /** Whether a receive returns the register itself. */
  predicate Readable(l: Layout, command: bv8)
  {
    || l.remote1Temperature <= command as int <= l.overtMask
    || l.overtStatus <= command as int <= l.diodeFaultStatus
    || l.alertLowDisable <= command as int <= l.remote7ExtendedTemperature
  }

  /** The two ALERT status registers, which a receive clears. */
  predicate ClearsOnRead(l: Layout, command: bv8)
  {
    command as int == l.alertHighStatus || command as int == l.alertLowStatus
  }

  /** Whether a written byte reaches the register file. */
  predicate Writable(l: Layout, command: bv8)
  {
    || l.remote1AlertHighLimit <= command as int <= l.overtMask
    || l.alertLowDisable <= command as int <= l.offsetSelect
  }

  /** The byte a receive returns for `command` from the freshly updated
      register file `u`: 0xFF outside the supported registers. */
  function ReadByte(l: ValidLayout, u: seq<bv8>, command: bv8): bv8
    requires |u| == l.size
  {
    if ClearsOnRead(l, command) || Readable(l, command) then u[command] else 0xFF
  }

  /** The register file after a receive from `command`, starting from the
      freshly updated register file `u`. */
  function AfterRead(l: ValidLayout, u: seq<bv8>, command: bv8): (r': seq<bv8>)
    requires |u| == l.size
    ensures |r'| == |u|
  {
    if ClearsOnRead(l, command) then u[command as int := 0] else u
  }

  /** The register file after an SMBus write of `buf`: nothing but the
      command changes on a one-byte write; otherwise the data byte is
      stored when the register is writable, and the status is updated. */
  function AfterWrite(l: ValidLayout, r: seq<bv8>, buf: seq<bv8>): (r': seq<bv8>)
    requires |r| == l.size && 1 <= |buf|
    ensures |r'| == |r|
  {
    if |buf| == 1 then r
    else if Writable(l, buf[0]) then Updated(r[buf[0] as int := buf[1]], l)
    else Updated(r, l)
  }

  class Device {
    const layout: ValidLayout
    const regs: array<bv8>
    var command: bv8

    ghost predicate Valid()
      reads this
    {
      regs.Length == layout.size
    }

    constructor (l: ValidLayout)
      ensures Valid() && layout == l && fresh(regs)
      ensures regs[..] == ResetRegs(l) && command == 0
    {
      layout := l;
      regs := new bv8[l.size](_ => 0);
      command := 0;
      new;
      ExitReset();
    }

    /** Stores a temperature in whole degrees at `a`, capped at 254. */
    method SetTemperature(a: nat, value: bv8)
      requires a < regs.Length
      modifies regs
      ensures regs[..] == old(regs[..])[a := Clamp(value)]
    {
      var v := value;
      if v > 254 {
        v := 254;
      }
      regs[a] := v;
    }

    /** Recomputes the four status registers. */
    method UpdateStatus()
      requires Valid()
      modifies regs
      ensures regs[..] == Updated(old(regs[..]), layout)
    {
      ghost var r := regs[..];
      var l := layout;
      var lowLimits := regs[l.alertLowLimits];
      var alertMask := regs[l.alertMask];
      var overtMask := regs[l.overtMask];
      regs[l.overtStatus] := 0;
      regs[l.diodeFaultStatus] := 0;
      ghost var s := Start(r, l);
      StoreStart(r, l);
      var i := 0;
      while i < NUM_TEMPS - 2
        invariant 0 <= i <= NUM_TEMPS - 2
        invariant regs[..] == Store(r, l, Scan(s, r, l, lowLimits, alertMask, overtMask, i))
      {
        Examine(r, Scan(s, r, l, lowLimits, alertMask, overtMask, i), i, lowLimits, alertMask, overtMask);
        i := i + 1;
      }
      Examine(r, Scan(s, r, l, lowLimits, alertMask, overtMask, LOCAL), LOCAL, lowLimits, alertMask, overtMask);
      Examine(r, Scan(s, r, l, lowLimits, alertMask, overtMask, REMOTE_7), REMOTE_7, lowLimits, alertMask, overtMask);
    }

    /** One pass of `update_status` over channel `ch` (remote diodes 1 to 6
        in the loop, then the local diode, then remote diode 7), on a
        register file that differs from `r` only in the status registers,
        which hold `s`. */
    method Examine(ghost r: seq<bv8>, ghost s: Statuses, ch: nat, lowLimits: bv8, alertMask: bv8, overtMask: bv8)
      requires Valid() && ch < NUM_TEMPS && |r| == layout.size
      requires regs[..] == Store(r, layout, s)
      modifies regs
      ensures regs[..] == Store(r, layout, ChannelStep(s, r, layout, ch, lowLimits, alertMask, overtMask))
    {
      var aboveAlert, aboveOvert, diodeFault, belowLow := Conditions(ch, lowLimits, alertMask, overtMask);
      assert ChannelUntouched(layout, ch);
      StoreKeeps(r, layout, s, TempAddr(layout, ch));
      StoreKeeps(r, layout, s, AlertAddr(layout, ch));
      StoreKeeps(r, layout, s, OvertAddr(layout, ch));
      ChannelAgrees(r, regs[..], layout, ch, lowLimits, alertMask, overtMask);
      StoreStatus(r, s, ch, lowLimits, alertMask, overtMask, aboveAlert, aboveOvert, diodeFault, belowLow);
    }

    /** The four tests of a pass over channel `ch`: above the ALERT-high
        limit, above the OVERT limit less 4 degrees, at the diode-fault
        reading (never for the local diode) and below the shared low limit,
        the ALERT and OVERT tests only while the channel is unmasked. */
    method Conditions(ch: nat, lowLimits: bv8, alertMask: bv8, overtMask: bv8)
      returns (aboveAlert: bool, aboveOvert: bool, diodeFault: bool, belowLow: bool)
      requires Valid() && ch < NUM_TEMPS
      ensures aboveAlert == Condition(regs[..], layout, AlertHigh, ch, lowLimits, alertMask, overtMask)
      ensures aboveOvert == Condition(regs[..], layout, Overt, ch, lowLimits, alertMask, overtMask)
      ensures diodeFault == Condition(regs[..], layout, DiodeFault, ch, lowLimits, alertMask, overtMask)
      ensures belowLow == Condition(regs[..], layout, AlertLow, ch, lowLimits, alertMask, overtMask)
    {
      var l := layout;
      assert ChannelUntouched(l, ch);
      var temperature := regs[TempAddr(l, ch)] as int;
      var alertLimit := regs[AlertAddr(l, ch)] as int;
      var overtLimit := regs[OvertAddr(l, ch)] as int;
      aboveAlert := temperature > alertLimit && !HasBit(alertMask, StatusBit(AlertHigh, ch));
      aboveOvert := temperature > overtLimit - OVERT_LIMIT_OFFSET && !HasBit(overtMask, StatusBit(Overt, ch));
      diodeFault := ch != LOCAL && temperature == DIODE_FAULT_LIMIT;
      belowLow := temperature < lowLimits as int && !HasBit(alertMask, StatusBit(AlertLow, ch));
    }

    /** Sets, in each status register, the bit that reports channel `ch`
        when the pass found that status's condition to hold. */
    method StoreStatus(ghost r: seq<bv8>, ghost s: Statuses, ch: nat, lowLimits: bv8, alertMask: bv8, overtMask: bv8,
                       aboveAlert: bool, aboveOvert: bool, diodeFault: bool, belowLow: bool)
      requires Valid() && ch < NUM_TEMPS && |r| == layout.size && regs[..] == Store(r, layout, s)
      requires aboveAlert == Condition(r, layout, AlertHigh, ch, lowLimits, alertMask, overtMask)
      requires aboveOvert == Condition(r, layout, Overt, ch, lowLimits, alertMask, overtMask)
      requires diodeFault == Condition(r, layout, DiodeFault, ch, lowLimits, alertMask, overtMask)
      requires belowLow == Condition(r, layout, AlertLow, ch, lowLimits, alertMask, overtMask)
      modifies regs
      ensures regs[..] == Store(r, layout, ChannelStep(s, r, layout, ch, lowLimits, alertMask, overtMask))
    {
      var l := layout;
      ghost var cur := regs[..];
      StoreGet(r, l, s, AlertHigh);
      StoreGet(r, l, s, Overt);
      StoreGet(r, l, s, DiodeFault);
      StoreGet(r, l, s, AlertLow);
      regs[l.alertHighStatus] := Mark(regs[l.alertHighStatus], aboveAlert, StatusBit(AlertHigh, ch));
      regs[l.overtStatus] := Mark(regs[l.overtStatus], aboveOvert, StatusBit(Overt, ch));
      regs[l.diodeFaultStatus] := Mark(regs[l.diodeFaultStatus], diodeFault, StatusBit(DiodeFault, ch));
      regs[l.alertLowStatus] := Mark(regs[l.alertLowStatus], belowLow, StatusBit(AlertLow, ch));
      assert regs[..] == Store(cur, l, ChannelStep(s, r, l, ch, lowLimits, alertMask, overtMask));
      StoreTwice(r, l, s, ChannelStep(s, r, l, ch, lowLimits, alertMask, overtMask));
    }

    /** An SMBus receive: updates the status, then returns the register the
        last write selected (0xFF outside the supported registers), clearing
        it when it is an ALERT status register. */
    method Receive() returns (data: bv8)
      requires Valid()
      modifies regs
      ensures data == ReadByte(layout, Updated(old(regs[..]), layout), command)
      ensures regs[..] == AfterRead(layout, Updated(old(regs[..]), layout), command)
    {
      UpdateStatus();
      if ClearsOnRead(layout, command) {
        data := regs[command];
        regs[command] := 0;
      } else if Readable(layout, command) {
        data := regs[command];
      } else {
        data := 0xFF;
      }
    }

    /** An SMBus write: the first byte selects the register; with a data
        byte, it is stored when the register is writable and the status is
        recomputed. */
    method Write(buf: seq<bv8>)
      requires Valid() && 1 <= |buf|
      modifies this, regs
      ensures command == buf[0]
      ensures regs[..] == AfterWrite(layout, old(regs[..]), buf)
    {
      command := buf[0];
      if |buf| == 1 {
        return;
      }
      var data := buf[1];
      if Writable(layout, command) {
        regs[command] := data;
      }
      UpdateStatus();
    }

    /** The management interface's getter for temperature input `i`. */
    method QmpGetTemp(i: nat) returns (value: int)
      requires Valid() && i < NUM_TEMPS
      ensures value == QmpReading(regs[..], QmpAddr(layout, i))
    {
      assert QmpUntouched(layout, i);
      var reg := QmpAddr(layout, i);
      value := regs[reg] as int;
      value := value * 1000;
      var fraction := regs[reg + EXTENDED_OFFSET] as int;
      value := value + fraction * EXTENDED_DECIMAL_BASE / EXTENDED_BIT_BASE;
    }

    /** The management interface's setter for temperature input `i`: stores
        the whole degrees (saturated at 254) and the fraction, then
        recomputes the status registers. */
    method QmpSetTemp(i: nat, value: UInt32)
      requires Valid() && i < NUM_TEMPS
      modifies regs
      ensures regs[..] == Updated(StoredQmp(old(regs[..]), QmpAddr(layout, i), value), layout)
    {
      assert QmpUntouched(layout, i);
      ghost var r := regs[..];
      var reg := QmpAddr(layout, i);
      var whole := value / 1000;
      if whole > TEMP_MAX {
        whole := TEMP_MAX;
      }
      SetTemperature(reg, ToByte(whole));
      assert regs[..] == r[reg := SaturatedWhole(value)];
      SetTemperature(reg + EXTENDED_OFFSET, ToByte(value % 1000 * EXTENDED_BIT_BASE / EXTENDED_DECIMAL_BASE));
      assert regs[..] == StoredQmp(r, reg, value);
      UpdateStatus();
    }

    /** Sets every register to zero (the `memset` of the reset). */
    method Clear()
      modifies regs
      ensures regs[..] == seq(regs.Length, _ => 0 as bv8)
    {
      var j := 0;
      while j < regs.Length
        invariant 0 <= j <= regs.Length
        invariant forall k | 0 <= k < j :: regs[k] == 0
      {
        regs[j] := 0;
        j := j + 1;
      }
    }

    method ExitReset()
      requires regs.Length == layout.size
      modifies regs
      ensures regs[..] == ResetRegs(layout)
    {
      Clear();
      ResetTemperatureRegisters();
      ResetAlertLimitRegisters();
      ResetOvertLimitRegisters();
    }

    method ResetTemperatureRegisters()
      requires regs.Length == layout.size
      modifies regs
      ensures regs[..] == ResetTemperatures(layout, old(regs[..]))
    {
      var l := layout;
      assert ChannelUntouched(l, 5) && ChannelUntouched(l, 6) && ChannelUntouched(l, 7);
      regs[l.remote1Temperature] := DEFAULT_TEMPERATURE;
      regs[l.remote1Temperature + 1] := DEFAULT_TEMPERATURE;
      regs[l.remote1Temperature + 2] := DEFAULT_TEMPERATURE;
      regs[l.remote1Temperature + 3] := DEFAULT_TEMPERATURE;
      regs[l.remote1Temperature + 4] := DEFAULT_TEMPERATURE;
      regs[l.remote1Temperature + 5] := DEFAULT_TEMPERATURE;
      regs[l.localTemperature] := DEFAULT_TEMPERATURE;
      regs[l.remote7Temperature] := DEFAULT_TEMPERATURE;
      regs[l.manufacturerId] := MANUFACTURER_ID_DEFAULT;
    }

    method ResetAlertLimitRegisters()
      requires regs.Length == layout.size
      modifies regs
      ensures regs[..] == ResetAlertLimits(layout, old(regs[..]))
    {
      var l := layout;
      assert ChannelUntouched(l, 5) && ChannelUntouched(l, 6) && ChannelUntouched(l, 7);
      regs[l.remote1AlertHighLimit] := REMOTE_ALERT_HIGH_1_DEFAULT;
      regs[l.remote1AlertHighLimit + 1] := REMOTE_ALERT_HIGH_1_DEFAULT;
      regs[l.remote1AlertHighLimit + 2] := REMOTE_ALERT_HIGH_2_DEFAULT;
      regs[l.remote1AlertHighLimit + 3] := REMOTE_ALERT_HIGH_2_DEFAULT;
      regs[l.remote1AlertHighLimit + 4] := REMOTE_ALERT_HIGH_2_DEFAULT;
      regs[l.remote1AlertHighLimit + 5] := REMOTE_ALERT_HIGH_2_DEFAULT;
      regs[l.localAlertHighLimit] := LOCAL_ALERT_HIGH_DEFAULT;
      regs[l.remote7AlertHighLimit] := REMOTE_ALERT_HIGH_2_DEFAULT;
    }

    method ResetOvertLimitRegisters()
      requires regs.Length == layout.size
      modifies regs
      ensures regs[..] == ResetOvertLimits(layout, old(regs[..]))
    {
      var l := layout;
      assert ChannelUntouched(l, 5) && ChannelUntouched(l, 6) && ChannelUntouched(l, 7);
      regs[l.localOvertHighLimit] := LOCAL_OVERT_HIGH_DEFAULT;
      regs[l.remote1OvertHighLimit] := REMOTE_OVERT_HIGH_1_DEFAULT;
      regs[l.remote1OvertHighLimit + 1] := REMOTE_OVERT_HIGH_1_DEFAULT;
      regs[l.remote1OvertHighLimit + 2] := REMOTE_OVERT_HIGH_1_DEFAULT;
      regs[l.remote1OvertHighLimit + 3] := REMOTE_OVERT_HIGH_2_DEFAULT;
      regs[l.remote1OvertHighLimit + 4] := REMOTE_OVERT_HIGH_3_DEFAULT;
      regs[l.remote1OvertHighLimit + 5] := REMOTE_OVERT_HIGH_3_DEFAULT;
      regs[l.remote7OvertHighLimit] := REMOTE_OVERT_HIGH_3_DEFAULT;
      regs[l.alertLowDisable] := ALERT_LOW_DISABLE_DEFAULT;
    }
  }

  // ---------------------------------------------------------------------
  // Properties across operations
  // ---------------------------------------------------------------------

  /** A byte written over SMBus to a writable register that the update does
      not write reads back when the register is readable. */
  lemma WriteThenReceive(l: ValidLayout, r: seq<bv8>, command: bv8, data: bv8)
    requires |r| == l.size
    requires Writable(l, command) && Readable(l, command) && !Written(l, command as int)
    ensures ReadByte(l, Updated(AfterWrite(l, r, [command, data]), l), command) == data
  {
    var stored := r[command as int := data];
    UpdateTouchesOnlyStatus(stored, l, command as int);
    UpdateTouchesOnlyStatus(Updated(stored, l), l, command as int);
  }

  /** A write changes at most the register its first byte selects and the
      status registers. */
  lemma WriteTouchesOnlyCommand(l: ValidLayout, r: seq<bv8>, buf: seq<bv8>, j: nat)
    requires |r| == l.size && 1 <= |buf| && j < |r|
    requires j != buf[0] as int && !Written(l, j)
    ensures AfterWrite(l, r, buf)[j] == r[j]
  {
    if |buf| > 1 {
      UpdateTouchesOnlyStatus(if Writable(l, buf[0]) then r[buf[0] as int := buf[1]] else r, l, j);
    }
  }

  /** A second receive from an ALERT status register reports exactly the
      channels whose condition still holds: the first receive cleared the
      register, and no other register changed. */
  lemma SecondAlertRead(l: ValidLayout, r: seq<bv8>, k: Status, b: nat)
    requires |r| == l.size && Sticky(k) && b < 8 && StatusAddr(l, k) < 256
    ensures var command := ToByte(StatusAddr(l, k));
            var first := AfterRead(l, Updated(r, l), command);
            HasBit(ReadByte(l, Updated(first, l), command), b) <==> Fires(r, l, k, StatusBit(k, b))
  {
    var command := ToByte(StatusAddr(l, k));
    var u := Updated(r, l);
    var first := AfterRead(l, u, command);
    assert first[StatusAddr(l, k)] == 0;
    forall j | 0 <= j < |r| && !Written(l, j)
      ensures first[j] == r[j]
    {
      UpdateTouchesOnlyStatus(r, l, j);
    }
    UpdatedStatusBit(first, l, k, b);
    var ch := StatusBit(k, b);
    assert ChannelUntouched(l, ch);
    ChannelAgrees(r, first, l, ch, r[l.alertLowLimits], r[l.alertMask], r[l.overtMask]);
    assert first[l.alertMask] == r[l.alertMask] && first[l.alertLowLimits] == r[l.alertLowLimits];
  }

  /** A temperature set through the management interface reads back through
      the getter as the store left it: the status update after the store
      does not touch the temperature registers. */
  lemma QmpSetThenGet(r: seq<bv8>, l: ValidLayout, i: nat, value: UInt32)
    requires |r| == l.size && i < NUM_TEMPS
    ensures var a := QmpAddr(l, i);
            QmpReading(Updated(StoredQmp(r, a, value), l), a) == QmpReading(StoredQmp(r, a, value), a)
  {
    var a := QmpAddr(l, i);
    assert QmpUntouched(l, i);
    UpdateTouchesOnlyStatus(StoredQmp(r, a, value), l, a);
    UpdateTouchesOnlyStatus(StoredQmp(r, a, value), l, a + EXTENDED_OFFSET);
  }

  /** A temperature set through the management interface is at most 254
      degrees, so the channel reading it never reports a diode fault. */
  lemma QmpSetNoDiodeFault(r: seq<bv8>, l: ValidLayout, i: nat, value: UInt32, ch: nat)
    requires |r| == l.size && i < NUM_TEMPS && ch < NUM_TEMPS
    requires TempAddr(l, ch) == QmpAddr(l, i)
    ensures !HasBit(Updated(StoredQmp(r, QmpAddr(l, i), value), l)[l.diodeFaultStatus], StatusBit(DiodeFault, ch))
  {
    var s := StoredQmp(r, QmpAddr(l, i), value);
    assert QmpUntouched(l, i);
    assert s[TempAddr(l, ch)] == SaturatedWhole(value);
    StatusBitInvolution(DiodeFault, ch);
    UpdatedStatusBit(s, l, DiodeFault, StatusBit(DiodeFault, ch));
  }
}
