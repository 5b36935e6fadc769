/**
 * The MAX31732 temperature sensor: a file of 8-bit registers reached over
 * SMBus, four remote diodes and one local diode whose temperatures are set
 * from the management interface in millidegrees, and three thermal-status
 * registers recomputed from per-channel thresholds.
 *
 * The register addresses live in a header that is not part of this model, so
 * they are a `Layout` value whose `LayoutValid` predicate holds only the relations
 * the code relies on.
 */
module Max31732 {

  import opened Bytes

  type Int32 = x: int | -0x8000_0000 <= x < 0x8000_0000

  const TEMP_MAX: int := 127875
  const TEMP_MIN: int := -63875
  const ENABLE_ALL: bv8 := 0x7F
  const HIGH_THRESHOLD_DEFAULT: bv8 := 0x7F
  const TEMPERATURE_DEFAULT: bv8 := 32
  const MANUFACTURER_ID_DEFAULT: bv8 := 0x4F
  const CONFIGURATION_1_DEFAULT: bv8 := 0x10
  const CONFIGURATION_2_DEFAULT: bv8 := 0x11
  const CUSTOM_OFFSET_DEFAULT: bv8 := 0x77
  /** One local and four remote channels; channel 0 is the local diode. */
  const NUM_TEMPS: nat := 5

  // ---------------------------------------------------------------------
  // Fixed-point temperatures
  // ---------------------------------------------------------------------

  /** A stored temperature: whole degrees, sixteenths of a degree, and a
      sign flag that says whether the fraction is subtracted. */
  datatype Temperature = Temperature(whole: int, fraction: nat, sign: bool)

  predicate Storable(t: Temperature)
  {
    -128 <= t.whole < 128 && t.fraction < 16
  }

  /** Byte encoding of a temperature in two consecutive registers: whole
      degrees in two's complement in the first, the fraction in bits 7:4 and
      the sign flag in bit 0 of the second. */
  function PackHigh(t: Temperature): bv8
  {
    Trunc8(t.whole)
  }

  function PackLow(t: Temperature): bv8
    requires t.fraction < 16
  {
    ((t.fraction as bv8) << 4) | (if t.sign then 1 else 0)
  }

  function Unpack(hi: bv8, lo: bv8): (t: Temperature)
    ensures Storable(t)
  {
    Temperature(SignedByte(hi), (lo >> 4) as nat, lo & 1 == 1)
  }

  lemma UnpackPack(t: Temperature)
    requires Storable(t)
    ensures Unpack(PackHigh(t), PackLow(t)) == t
  {
    var lo := PackLow(t);
    assert (lo >> 4) as nat == t.fraction;
    assert (lo & 1 == 1) == t.sign;
    assert SignedByte(PackHigh(t)) == t.whole;
  }

  /** C division of `a` by a positive `b`, rounding toward zero. */
  function TruncDiv(a: int, b: nat): int
    requires b > 0
  {
    if a >= 0 then a / b else -((-a) / b)
  }

  function Abs(x: int): nat
  {
    if x < 0 then -x else x
  }

  function Clamp(value: int): (r: int)
    ensures TEMP_MIN <= r <= TEMP_MAX
    ensures TEMP_MIN <= value <= TEMP_MAX ==> r == value
    ensures r < 0 <==> value < 0
  {
    if value > TEMP_MAX then TEMP_MAX else if value < TEMP_MIN then TEMP_MIN else value
  }

  /** The reading of a stored temperature, in millidegrees. */
  function Millidegrees(t: Temperature): int
  {
    var fraction := t.fraction * 625 / 10;
    if !t.sign then t.whole * 1000 + fraction else t.whole * 1000 - fraction
  }

  /** The temperature stored for `value` millidegrees: the whole part comes
      from the clamped value, the fraction from the value as given. */
  function Encode(value: Int32): (t: Temperature)
    ensures Storable(t) && -63 <= t.whole <= 127
    ensures t.sign <==> value < 0
    ensures TEMP_MIN <= value <= TEMP_MAX ==> t.whole == TruncDiv(value, 1000)
  {
    var fraction := Abs(value) % 1000;
    var clamped := Clamp(value);
    Temperature(TruncDiv(clamped, 1000), fraction * 10 / 625, clamped < 0)
  }

  /** An in-range temperature whose sub-degree part is a multiple of 1/8
      degree reads back exactly. */
  lemma {:induction false} GetSetRoundTrip(value: Int32)
    requires TEMP_MIN <= value <= TEMP_MAX && Abs(value) % 1000 % 125 == 0
    ensures Millidegrees(Encode(value)) == value
  {
    var f := Abs(value) % 1000;
    var k := f / 125;
    assert f == 125 * k && k < 8;
    assert f * 10 / 625 == 2 * k;
    assert (2 * k) * 625 / 10 == f;
    var q := Abs(value) / 1000;
    assert Abs(value) == q * 1000 + f;
    if value >= 0 {
      assert TruncDiv(value, 1000) == q;
    } else {
      assert TruncDiv(value, 1000) == -q;
    }
  }

  /** Above the range the whole part saturates at 127 degrees but the
      fraction still comes from the value given. */
  lemma EncodeAboveRange(value: Int32)
    requires value > TEMP_MAX
    ensures Encode(value) == Encode(127000 + value % 1000)
  {
  }

  /** Below the range the whole part saturates at -63 degrees but the
      fraction still comes from the value given. */
  lemma EncodeBelowRange(value: Int32)
    requires value < TEMP_MIN
    ensures Encode(value) == Encode(-63000 - Abs(value) % 1000)
  {
  }

  /** Every stored reading lies within a sixteenth of a degree of the range. */
  lemma EncodedReadingBounds(value: Int32)
    ensures TEMP_MIN - 62 <= Millidegrees(Encode(value)) <= TEMP_MAX + 62
  {
    var t := Encode(value);
    assert t.fraction * 625 / 10 <= 937;
    if value > TEMP_MAX {
      assert t.whole == 127;
    } else if value < TEMP_MIN {
      assert t.whole == -63;
    } else {
      var f := Abs(value) % 1000;
      assert t.fraction * 625 / 10 <= f;
      if value >= 0 {
        assert t.whole * 1000 + f == value;
      } else {
        assert t.whole * 1000 - f == value;
      }
    }
  }

  // ---------------------------------------------------------------------
  // Register layout
  // ---------------------------------------------------------------------

  /** The register addresses of the device. Remote diode `k` (1 to 4) keeps
      its temperature and primary threshold two bytes after those of diode
      `k - 1`, and its secondary limit one byte after. */
  datatype Layout = Layout(
    size: nat,
    manufacturerId: nat, betaValueRemote4: nat,
    channelEnable: nat, mtpDin: nat,
    remote1Temperature: nat, localTemperature: nat,
    remote1OverThreshold: nat, localOverThreshold: nat,
    remote1SecondaryLimit: nat, localSecondaryLimit: nat,
    lowLimit: nat,
    statusHigh: nat, statusSecondary: nat, statusLow: nat,
    highestTemperature: nat, highestEnable: nat, highestEnableLocalBit: nat,
    configuration1: nat, configuration2: nat, customOffset: nat,
    secondaryLowLimit: nat)

  /** Address of channel `ch`'s temperature (channel 0 is the local diode). */
  function TempAddr(l: Layout, ch: nat): nat
  {
    if ch == 0 then l.localTemperature else l.remote1Temperature + 2 * (ch - 1)
  }

  function OverAddr(l: Layout, ch: nat): nat
  {
    if ch == 0 then l.localOverThreshold else l.remote1OverThreshold + 2 * (ch - 1)
  }

  function SecondaryAddr(l: Layout, ch: nat): nat
  {
    if ch == 0 then l.localSecondaryLimit else l.remote1SecondaryLimit + (ch - 1)
  }

  /** The three thermal statuses: primary over-temperature, secondary
      over-temperature and under-temperature. */
  datatype Status = Primary | Secondary | Low

  /** The register holding status `k`. */
  function StatusAddr(l: Layout, k: Status): nat
  {
    match k
    case Primary => l.statusHigh
    case Secondary => l.statusSecondary
    case Low => l.statusLow
  }

  /** Temperature input `i` of the management interface: the registers at
      remote 1's temperature plus `2 * i`. */
  function QmpAddr(l: Layout, i: nat): nat
  {
    l.remote1Temperature + 2 * i
  }

  /** The local diode's registers directly follow remote 4's, so that
      management input 4 is the local temperature. */
  predicate LocalAfterRemotes(l: Layout)
  {
    && l.localTemperature == l.remote1Temperature + 2 * (NUM_TEMPS - 1)
    && l.localOverThreshold == l.remote1OverThreshold + 2 * (NUM_TEMPS - 1)
    && l.localSecondaryLimit == l.remote1SecondaryLimit + (NUM_TEMPS - 1)
  }

  /** The registers `update_status` may write. */
  predicate Written(l: Layout, j: nat)
  {
    j == l.statusHigh || j == l.statusSecondary || j == l.statusLow || j == l.highestTemperature
  }

  /** The registers `update_status` reads for channel `ch` lie inside the
      register file and are none of the ones it writes. */
  predicate ChannelUntouched(l: Layout, ch: nat)
  {
    && TempAddr(l, ch) + 1 < l.size && OverAddr(l, ch) + 1 < l.size && SecondaryAddr(l, ch) < l.size
    && !Written(l, TempAddr(l, ch)) && !Written(l, TempAddr(l, ch) + 1)
    && !Written(l, OverAddr(l, ch)) && !Written(l, OverAddr(l, ch) + 1)
    && !Written(l, SecondaryAddr(l, ch))
  }

  /** The relations the device relies on: the registers it names lie inside
      the register file, the four registers `update_status` writes are
      distinct and are none of the registers it reads, and the readable and
      writable ranges and the fifth temperature input end inside the file. */
  predicate LayoutValid(l: Layout)
  {
    && l.manufacturerId < l.size && l.channelEnable < l.size
    && l.highestEnable < l.size && l.highestTemperature < l.size
    && l.statusHigh < l.size && l.statusSecondary < l.size && l.statusLow < l.size
    && l.lowLimit + 1 < l.size
    && l.configuration1 < l.size && l.configuration2 < l.size
    && l.customOffset < l.size && l.secondaryLowLimit < l.size
    && l.localTemperature + 1 < l.size && l.localOverThreshold + 1 < l.size
    && l.localSecondaryLimit < l.size
    && l.remote1Temperature + 2 * (NUM_TEMPS - 1) + 1 < l.size
    && l.remote1OverThreshold + 7 < l.size && l.remote1SecondaryLimit + 3 < l.size
    && l.betaValueRemote4 < l.size && l.mtpDin + 1 < l.size
    && l.highestEnableLocalBit < 8
    && l.statusHigh != l.statusSecondary && l.statusHigh != l.statusLow
    && l.statusHigh != l.highestTemperature && l.statusSecondary != l.statusLow
    && l.statusSecondary != l.highestTemperature && l.statusLow != l.highestTemperature
    && !Written(l, l.lowLimit) && !Written(l, l.lowLimit + 1)
    && !Written(l, l.channelEnable) && !Written(l, l.highestEnable)
    && (forall ch | 0 <= ch < NUM_TEMPS :: ChannelUntouched(l, ch))
  }

  // ---------------------------------------------------------------------
  // Status computation
  // ---------------------------------------------------------------------

  /** The temperature in the two registers at `a`, in millidegrees. */
  function Reading(r: seq<bv8>, a: nat): int
    requires a + 1 < |r|
  {
    Millidegrees(Unpack(r[a], r[a + 1]))
  }

  predicate Enabled(r: seq<bv8>, l: Layout, ch: nat)
    requires LayoutValid(l) && |r| == l.size && ch < NUM_TEMPS
  {
    HasBit(r[l.channelEnable], ch)
  }

  /** Whether status `k` fires for channel `ch` in register file `r`: the
      channel is enabled and its temperature is above its primary
      threshold, above its secondary limit (a signed whole-degree byte), or
      below the low threshold shared by all channels. */
  predicate Fires(r: seq<bv8>, l: Layout, k: Status, ch: nat)
    requires LayoutValid(l) && |r| == l.size && ch < NUM_TEMPS
  {
    && Enabled(r, l, ch)
    && match k
       case Primary => Reading(r, TempAddr(l, ch)) > Reading(r, OverAddr(l, ch))
       case Secondary => Reading(r, TempAddr(l, ch)) > SignedByte(r[SecondaryAddr(l, ch)]) * 1000
       case Low => Reading(r, TempAddr(l, ch)) < Reading(r, l.lowLimit)
  }

  /** Status register `k` after the first `n` channels have been examined. */
  function StatusMask(r: seq<bv8>, l: Layout, k: Status, n: nat): bv8
    requires LayoutValid(l) && |r| == l.size && n <= NUM_TEMPS
  {
    if n == 0 then 0
    else Mark(StatusMask(r, l, k, n - 1), Fires(r, l, k, n - 1), n - 1)
  }

  /** Whether channel `ch` takes part in the highest-temperature register. */
  predicate InHighest(r: seq<bv8>, l: Layout, ch: nat)
    requires LayoutValid(l) && |r| == l.size && ch < NUM_TEMPS
  {
    HasBit(r[l.highestEnable], if ch == 0 then l.highestEnableLocalBit else ch)
  }

  /** The highest-temperature register after the first `n` channels: the
      local channel stores its reading unconditionally, a remote one only
      when its reading exceeds the register's current byte. The reading, in
      millidegrees, is truncated to the register's eight bits. */
  function Highest(r: seq<bv8>, l: Layout, n: nat): bv8
    requires LayoutValid(l) && |r| == l.size && n <= NUM_TEMPS
  {
    if n == 0 then r[l.highestTemperature]
    else
      var prev := Highest(r, l, n - 1);
      var ch := n - 1;
      if Enabled(r, l, ch) && InHighest(r, l, ch) && (ch == 0 || Reading(r, TempAddr(l, ch)) > prev as int)
      then Trunc8(Reading(r, TempAddr(l, ch)))
      else prev
  }

  /** Whether the loop stores channel `ch`'s reading `t` in the
      highest-temperature register of `cur`: the local channel whenever it
      is selected, a remote one only above the register's current byte. */
  predicate TakesHighest(cur: seq<bv8>, l: Layout, ch: nat, t: int)
    requires LayoutValid(l) && |cur| == l.size && ch < NUM_TEMPS
  {
    InHighest(cur, l, ch) && (ch == 0 || t > cur[l.highestTemperature] as int)
  }

  /** One pass of `update_status` over channel `ch`, on the register file
      `cur` as the pass finds it; `low` is the shared low threshold. */
  function ChannelStep(cur: seq<bv8>, l: Layout, ch: nat, low: int): (next: seq<bv8>)
    requires LayoutValid(l) && |cur| == l.size && ch < NUM_TEMPS
    ensures |next| == |cur|
  {
    if !Enabled(cur, l, ch) then cur
    else
      var t := Reading(cur, TempAddr(l, ch));
      cur[l.statusHigh := Mark(cur[l.statusHigh], t > Reading(cur, OverAddr(l, ch)), ch)]
         [l.statusSecondary := Mark(cur[l.statusSecondary], t > 1000 * SignedByte(cur[SecondaryAddr(l, ch)]), ch)]
         [l.statusLow := Mark(cur[l.statusLow], t < low, ch)]
         [l.highestTemperature := if TakesHighest(cur, l, ch, t) then Trunc8(t) else cur[l.highestTemperature]]
  }

  /** The register file with the three status registers cleared. */
  function Cleared(r: seq<bv8>, l: Layout): (c: seq<bv8>)
    requires LayoutValid(l) && |r| == l.size
    ensures |c| == |r|
  {
    r[l.statusHigh := 0][l.statusSecondary := 0][l.statusLow := 0]
  }

  /** The passes over the first `n` channels, in order. */
  function Scan(cur: seq<bv8>, l: Layout, low: int, n: nat): (s: seq<bv8>)
    requires LayoutValid(l) && |cur| == l.size && n <= NUM_TEMPS
    ensures |s| == |cur|
  {
    if n == 0 then cur else ChannelStep(Scan(cur, l, low, n - 1), l, n - 1, low)
  }

  /** The register file after `update_status`. */
  function Updated(r: seq<bv8>, l: Layout): (r': seq<bv8>)
    requires LayoutValid(l) && |r| == l.size
    ensures |r'| == |r|
  {
    Scan(Cleared(r, l), l, Reading(r, l.lowLimit), NUM_TEMPS)
  }

  /** `cur` agrees with `r` outside the registers the update writes, and
      those hold the reference values for the first `n` channels. */
  ghost predicate AtProgress(r: seq<bv8>, cur: seq<bv8>, l: Layout, n: nat)
    requires LayoutValid(l) && |r| == l.size && n <= NUM_TEMPS
  {
    && |cur| == |r|
    && (forall j | 0 <= j < |r| && !Written(l, j) :: cur[j] == r[j])
    && cur[l.statusHigh] == StatusMask(r, l, Primary, n)
    && cur[l.statusSecondary] == StatusMask(r, l, Secondary, n)
    && cur[l.statusLow] == StatusMask(r, l, Low, n)
    && cur[l.highestTemperature] == Highest(r, l, n)
  }

  /** What a pass over channel `ch` leaves in each register. */
  lemma StepValues(cur: seq<bv8>, l: Layout, ch: nat, low: int)
    requires LayoutValid(l) && |cur| == l.size && ch < NUM_TEMPS
    ensures var next := ChannelStep(cur, l, ch, low);
            var e := Enabled(cur, l, ch);
            var t := Reading(cur, TempAddr(l, ch));
            && (forall j | 0 <= j < |cur| && !Written(l, j) :: next[j] == cur[j])
            && next[l.statusHigh] == Mark(cur[l.statusHigh], e && t > Reading(cur, OverAddr(l, ch)), ch)
            && next[l.statusSecondary] == Mark(cur[l.statusSecondary], e && t > 1000 * SignedByte(cur[SecondaryAddr(l, ch)]), ch)
            && next[l.statusLow] == Mark(cur[l.statusLow], e && t < low, ch)
            && next[l.highestTemperature] == if e && TakesHighest(cur, l, ch, t) then Trunc8(t) else cur[l.highestTemperature]
  {
  }

  /** A register file that agrees with `r` outside the written registers
      gives channel `ch` the same enable bits, readings and limits. */
  lemma FiresAgree(r: seq<bv8>, cur: seq<bv8>, l: Layout, ch: nat)
    requires LayoutValid(l) && |r| == l.size && ch < NUM_TEMPS && |cur| == |r|
    requires forall j | 0 <= j < |r| && !Written(l, j) :: cur[j] == r[j]
    ensures Enabled(cur, l, ch) == Enabled(r, l, ch) && InHighest(cur, l, ch) == InHighest(r, l, ch)
    ensures Reading(cur, TempAddr(l, ch)) == Reading(r, TempAddr(l, ch))
    ensures Reading(cur, OverAddr(l, ch)) == Reading(r, OverAddr(l, ch))
    ensures cur[SecondaryAddr(l, ch)] == r[SecondaryAddr(l, ch)]
  {
    assert ChannelUntouched(l, ch);
    var t := TempAddr(l, ch);
    var o := OverAddr(l, ch);
    assert cur[t] == r[t] && cur[t + 1] == r[t + 1];
    assert cur[o] == r[o] && cur[o + 1] == r[o + 1];
    assert cur[l.channelEnable] == r[l.channelEnable] && cur[l.highestEnable] == r[l.highestEnable];
  }

  /** A pass over channel `ch` reads only registers the earlier passes left
      alone, so it adds exactly the reference bit and highest value. */
  lemma StepProgress(r: seq<bv8>, cur: seq<bv8>, l: Layout, ch: nat)
    requires LayoutValid(l) && |r| == l.size && ch < NUM_TEMPS && AtProgress(r, cur, l, ch)
    ensures AtProgress(r, ChannelStep(cur, l, ch, Reading(r, l.lowLimit)), l, ch + 1)
  {
    StepValues(cur, l, ch, Reading(r, l.lowLimit));
    FiresAgree(r, cur, l, ch);
  }

  /** The update agrees with the per-channel reference definitions: the
      status registers hold `StatusMask`, the highest-temperature register
      holds `Highest`, and every other register is unchanged. */
  lemma {:induction false} ScanProgress(r: seq<bv8>, l: Layout, n: nat)
    requires LayoutValid(l) && |r| == l.size && n <= NUM_TEMPS
    ensures AtProgress(r, Scan(Cleared(r, l), l, Reading(r, l.lowLimit), n), l, n)
  {
    if n > 0 {
      ScanProgress(r, l, n - 1);
      StepProgress(r, Scan(Cleared(r, l), l, Reading(r, l.lowLimit), n - 1), l, n - 1);
    }
  }

  /** Bit `ch` of a status register is set exactly when channel `ch` has
      been examined and its condition holds. */
  lemma {:induction false} StatusMaskBit(r: seq<bv8>, l: Layout, k: Status, n: nat, ch: nat)
    requires LayoutValid(l) && |r| == l.size && n <= NUM_TEMPS && ch < NUM_TEMPS
    ensures HasBit(StatusMask(r, l, k, n), ch) <==> ch < n && Fires(r, l, k, ch)
  {
    if n > 0 {
      StatusMaskBit(r, l, k, n - 1, ch);
      OrBit(StatusMask(r, l, k, n - 1), n - 1, ch, Fires(r, l, k, n - 1));
    }
  }

  /** After an update, bit `ch` of status register `k` is set exactly when
      channel `ch` is enabled and its comparison holds. */
  lemma UpdatedStatusBit(r: seq<bv8>, l: Layout, k: Status, ch: nat)
    requires LayoutValid(l) && |r| == l.size && ch < NUM_TEMPS
    ensures HasBit(Updated(r, l)[StatusAddr(l, k)], ch) <==> Fires(r, l, k, ch)
  {
    ScanProgress(r, l, NUM_TEMPS);
    StatusMaskBit(r, l, k, NUM_TEMPS, ch);
  }

  /** After an update, the highest-temperature register holds the reading
      of the last selected channel that the reference rule picks. */
  lemma UpdatedHighest(r: seq<bv8>, l: Layout)
    requires LayoutValid(l) && |r| == l.size
    ensures Updated(r, l)[l.highestTemperature] == Highest(r, l, NUM_TEMPS)
  {
    ScanProgress(r, l, NUM_TEMPS);
  }

  /** When every channel fires, the status register reads 0x1F; when none
      does, it reads 0. */
  lemma {:induction false} AllOrNoneFire(r: seq<bv8>, l: Layout, k: Status, n: nat)
    requires LayoutValid(l) && |r| == l.size && n <= NUM_TEMPS
    ensures (forall ch | 0 <= ch < n :: Fires(r, l, k, ch)) ==> StatusMask(r, l, k, n) == Bit(n) - 1
    ensures (forall ch | 0 <= ch < n :: !Fires(r, l, k, ch)) ==> StatusMask(r, l, k, n) == 0
  {
    if n > 0 {
      AllOrNoneFire(r, l, k, n - 1);
    }
  }

  /** After an update, a status register reads 0x1F when every channel's
      condition holds and 0 when none does. */
  lemma UpdatedAllOrNone(r: seq<bv8>, l: Layout, k: Status)
    requires LayoutValid(l) && |r| == l.size
    ensures (forall ch | 0 <= ch < NUM_TEMPS :: Fires(r, l, k, ch)) ==> Updated(r, l)[StatusAddr(l, k)] == 0x1F
    ensures (forall ch | 0 <= ch < NUM_TEMPS :: !Fires(r, l, k, ch)) ==> Updated(r, l)[StatusAddr(l, k)] == 0
  {
    ScanProgress(r, l, NUM_TEMPS);
    AllOrNoneFire(r, l, k, NUM_TEMPS);
  }

  /** The update changes only the three status registers and the
      highest-temperature register. */
  lemma UpdateTouchesOnlyStatus(r: seq<bv8>, l: Layout, j: nat)
    requires LayoutValid(l) && |r| == l.size && j < |r| && !Written(l, j)
    ensures Updated(r, l)[j] == r[j]
  {
    ScanProgress(r, l, NUM_TEMPS);
  }

  // ---------------------------------------------------------------------
  // Reset state
  // ---------------------------------------------------------------------

  /** The identification and temperature registers at reset. */
  function ResetTemperatures(l: Layout, r: seq<bv8>): (r': seq<bv8>)
    requires LayoutValid(l) && |r| == l.size
    ensures |r'| == |r|
  {
    r[l.manufacturerId := MANUFACTURER_ID_DEFAULT]
     [TempAddr(l, 1) := TEMPERATURE_DEFAULT]
     [TempAddr(l, 2) := TEMPERATURE_DEFAULT]
     [TempAddr(l, 3) := TEMPERATURE_DEFAULT]
     [TempAddr(l, 4) := TEMPERATURE_DEFAULT]
     [TempAddr(l, 0) := TEMPERATURE_DEFAULT]
  }

  /** The enable and configuration registers at reset. */
  function ResetConfiguration(l: Layout, r: seq<bv8>): (r': seq<bv8>)
    requires LayoutValid(l) && |r| == l.size
    ensures |r'| == |r|
  {
    r[l.channelEnable := ENABLE_ALL | 0x80]
     [l.configuration1 := CONFIGURATION_1_DEFAULT]
     [l.configuration2 := CONFIGURATION_2_DEFAULT]
     [l.customOffset := CUSTOM_OFFSET_DEFAULT]
     [l.highestEnable := ENABLE_ALL]
  }

  /** The threshold registers at reset. */
  function ResetThresholds(l: Layout, r: seq<bv8>): (r': seq<bv8>)
    requires LayoutValid(l) && |r| == l.size
    ensures |r'| == |r|
  {
    r[OverAddr(l, 1) := HIGH_THRESHOLD_DEFAULT]
     [OverAddr(l, 2) := HIGH_THRESHOLD_DEFAULT]
     [OverAddr(l, 3) := HIGH_THRESHOLD_DEFAULT]
     [OverAddr(l, 4) := HIGH_THRESHOLD_DEFAULT]
     [OverAddr(l, 0) := HIGH_THRESHOLD_DEFAULT]
     [SecondaryAddr(l, 1) := HIGH_THRESHOLD_DEFAULT]
     [SecondaryAddr(l, 2) := HIGH_THRESHOLD_DEFAULT]
     [SecondaryAddr(l, 3) := HIGH_THRESHOLD_DEFAULT]
     [SecondaryAddr(l, 4) := HIGH_THRESHOLD_DEFAULT]
     [SecondaryAddr(l, 0) := HIGH_THRESHOLD_DEFAULT]
     [l.secondaryLowLimit := 0]
  }

  /** The register file after `exit_reset`: all zero, then the defaults,
      written in the order the device writes them. */
  function ResetRegs(l: Layout): (r: seq<bv8>)
    requires LayoutValid(l)
    ensures |r| == l.size
  {
    ResetThresholds(l, ResetConfiguration(l, ResetTemperatures(l, seq(l.size, _ => 0 as bv8))))
  }

  // ---------------------------------------------------------------------
  // The device
  // ---------------------------------------------------------------------

  /** Whether a received byte comes from the register file. */
  predicate Readable(l: Layout, command: bv8)
  {
    l.manufacturerId <= command as int <= l.betaValueRemote4
  }

  /** Whether a written byte reaches the register file. */
  predicate Writable(l: Layout, command: bv8)
  {
    l.channelEnable <= command as int <= l.mtpDin + 1
  }

  /** The byte an SMBus receive returns for register `command`. */
  function Received(l: Layout, r: seq<bv8>, command: bv8): bv8
    requires LayoutValid(l) && |r| == l.size
  {
    if Readable(l, command) then r[command] else 0xFF
  }

  /** The register file after an SMBus write of `buf`. */
  function AfterWrite(l: Layout, r: seq<bv8>, buf: seq<bv8>): (r': seq<bv8>)
    requires LayoutValid(l) && |r| == l.size && 1 <= |buf|
    ensures |r'| == |r|
  {
    if |buf| > 1 && Writable(l, buf[0]) then r[buf[0] as int := buf[1]] else r
  }

  /** The register file with `value` millidegrees stored at `a`. */
  function Stored(r: seq<bv8>, a: nat, value: Int32): (r': seq<bv8>)
    requires a + 1 < |r|
    ensures |r'| == |r|
  {
    r[a := PackHigh(Encode(value))][a + 1 := PackLow(Encode(value))]
  }

  class Device {
    const layout: Layout
    const regs: array<bv8>
    var command: bv8

    ghost predicate Valid()
      reads this
    {
      LayoutValid(layout) && regs.Length == layout.size
    }

    constructor (l: Layout)
      requires LayoutValid(l)
      ensures Valid() && layout == l && fresh(regs)
      ensures regs[..] == ResetRegs(l) && command == 0
    {
      layout := l;
      regs := new bv8[l.size](_ => 0);
      command := 0;
      new;
      ExitReset();
    }

    /** Reads the temperature stored at `a`, in millidegrees. */
    method GetTemperature(a: nat) returns (value: int)
      requires Valid() && a + 1 < regs.Length
      ensures value == Reading(regs[..], a)
    {
      var t := Unpack(regs[a], regs[a + 1]);
      value := t.whole * 1000;
      var fraction := t.fraction * 625 / 10;
      if !t.sign {
        value := value + fraction;
      } else {
        value := value - fraction;
      }
    }

    /** Stores `value` millidegrees in the two registers at `a`. */
    method SetTemperature(a: nat, value: Int32)
      requires Valid() && a + 1 < regs.Length
      modifies regs
      ensures regs[..] == Stored(old(regs[..]), a, value)
    {
      var fraction := Abs(value) % 1000;
      var v := value;
      if v > TEMP_MAX {
        v := TEMP_MAX;
      } else if v < TEMP_MIN {
        v := TEMP_MIN;
      }
      var t := Temperature(TruncDiv(v, 1000), fraction * 10 / 625, v < 0);
      regs[a] := PackHigh(t);
      regs[a + 1] := PackLow(t);
    }

    /** Recomputes the three thermal-status registers and the
        highest-temperature register. */
    method UpdateStatus()
      requires Valid()
      modifies regs
      ensures regs[..] == Updated(old(regs[..]), layout)
    {
      ghost var r := regs[..];
      var l := layout;
      assert ChannelUntouched(l, 0);
      var lowThreshold := GetTemperature(l.lowLimit);
      regs[l.statusHigh] := 0;
      regs[l.statusSecondary] := 0;
      regs[l.statusLow] := 0;
      ghost var c := regs[..];
      assert c == Cleared(r, l);
      LocalStep(lowThreshold);
      var i := 0;
      while i < NUM_TEMPS - 1
        invariant 0 <= i <= NUM_TEMPS - 1
        invariant regs[..] == Scan(c, l, lowThreshold, i + 1)
      {
        RemoteStep(i, lowThreshold);
        i := i + 1;
      }
    }

    /** Examines the local channel. */
    method LocalStep(lowThreshold: int)
      requires Valid()
      modifies regs
      ensures regs[..] == ChannelStep(old(regs[..]), layout, 0, lowThreshold)
    {
      var l := layout;
      assert ChannelUntouched(l, 0);
      ghost var cur := regs[..];
      if HasBit(regs[l.channelEnable], 0) {
        var temperature := GetTemperature(l.localTemperature);
        var highThreshold := GetTemperature(l.localOverThreshold);
        var secondaryThreshold := SignedByte(regs[l.localSecondaryLimit]) * 1000;
        var high, secondary, low, highest := regs[l.statusHigh], regs[l.statusSecondary], regs[l.statusLow], regs[l.highestTemperature];
        if temperature > highThreshold {
          high := SetBit(high, 0);
        }
        if temperature > secondaryThreshold {
          secondary := SetBit(secondary, 0);
        }
        if temperature < lowThreshold {
          low := SetBit(low, 0);
        }
        if HasBit(regs[l.highestEnable], l.highestEnableLocalBit) {
          highest := Trunc8(temperature);
        }
        StoreStatus(cur, 0, temperature, lowThreshold, high, secondary, low, highest);
      }
    }

    /** Examines remote diode `i + 1`. */
    method RemoteStep(i: nat, lowThreshold: int)
      requires Valid() && i < NUM_TEMPS - 1
      modifies regs
      ensures regs[..] == ChannelStep(old(regs[..]), layout, i + 1, lowThreshold)
    {
      var l := layout;
      var ch := i + 1;
      assert ChannelUntouched(l, ch);
      ghost var cur := regs[..];
      if HasBit(regs[l.channelEnable], ch) {
        var temperature := GetTemperature(TempAddr(l, ch));
        var highThreshold := GetTemperature(OverAddr(l, ch));
        var secondaryThreshold := 1000 * SignedByte(regs[SecondaryAddr(l, ch)]);
        var high, secondary, low, highest := regs[l.statusHigh], regs[l.statusSecondary], regs[l.statusLow], regs[l.highestTemperature];
        if temperature > highThreshold {
          high := SetBit(high, ch);
        }
        if temperature > secondaryThreshold {
          secondary := SetBit(secondary, ch);
        }
        if temperature < lowThreshold {
          low := SetBit(low, ch);
        }
        if HasBit(regs[l.highestEnable], ch) && temperature > highest as int {
          highest := Trunc8(temperature);
        }
        StoreStatus(cur, ch, temperature, lowThreshold, high, secondary, low, highest);
      }
    }

    /** Stores the values a pass over enabled channel `ch` computed. */
    method StoreStatus(ghost cur: seq<bv8>, ch: nat, temperature: int, lowThreshold: int, high: bv8, secondary: bv8, low: bv8, highest: bv8)
      requires Valid() && ch < NUM_TEMPS && cur == regs[..] && Enabled(cur, layout, ch)
      requires temperature == Reading(cur, TempAddr(layout, ch))
      requires high == Mark(cur[layout.statusHigh], temperature > Reading(cur, OverAddr(layout, ch)), ch)
      requires secondary == Mark(cur[layout.statusSecondary], temperature > 1000 * SignedByte(cur[SecondaryAddr(layout, ch)]), ch)
      requires low == Mark(cur[layout.statusLow], temperature < lowThreshold, ch)
      requires highest == if TakesHighest(cur, layout, ch, temperature) then Trunc8(temperature) else cur[layout.highestTemperature]
      modifies regs
      ensures regs[..] == ChannelStep(cur, layout, ch, lowThreshold)
    {
      var l := layout;
      regs[l.statusHigh], regs[l.statusSecondary], regs[l.statusLow], regs[l.highestTemperature] := high, secondary, low, highest;
    }

    /** An SMBus receive: the register the last write selected, or 0xFF
        outside the readable range. */
    method Receive() returns (data: bv8)
      requires Valid()
      ensures data == Received(layout, regs[..], command)
    {
      if Readable(layout, command) {
        data := regs[command];
      } else {
        data := 0xFF;
      }
    }

    /** An SMBus write: the first byte selects the register, the second (if
        any) is stored when the register is writable. */
    method Write(buf: seq<bv8>)
      requires Valid() && 1 <= |buf|
      modifies this, regs
      ensures command == buf[0]
      ensures regs[..] == AfterWrite(layout, old(regs[..]), buf)
    {
      command := buf[0];
      if |buf| == 1 {
        return;
      }
      var data := buf[1];
      if Writable(layout, command) {
        regs[command] := data;
      }
    }

    /** The management interface's getter for temperature input `i`. */
    method QmpGetTemp(i: nat) returns (value: int)
      requires Valid() && i < NUM_TEMPS
      ensures value == Reading(regs[..], QmpAddr(layout, i))
    {
      value := GetTemperature(QmpAddr(layout, i));
    }

    /** The management interface's setter for temperature input `i`: stores
        the temperature, then recomputes the status registers. */
    method QmpSetTemp(i: nat, value: Int32)
      requires Valid() && i < NUM_TEMPS
      modifies regs
      ensures regs[..] == Updated(Stored(old(regs[..]), QmpAddr(layout, i), value), layout)
    {
      SetTemperature(QmpAddr(layout, i), value);
      UpdateStatus();
    }

    /** Sets every register to zero (the `memset` of the reset). */
    method Clear()
      modifies regs
      ensures regs[..] == seq(regs.Length, _ => 0 as bv8)
    {
      var j := 0;
      while j < regs.Length
        invariant 0 <= j <= regs.Length
        invariant forall k | 0 <= k < j :: regs[k] == 0
      {
        regs[j] := 0;
        j := j + 1;
      }
    }

    method ExitReset()
      requires LayoutValid(layout) && regs.Length == layout.size
      modifies regs
      ensures regs[..] == ResetRegs(layout)
    {
      Clear();
      ResetTemperatureRegisters();
      ResetConfigurationRegisters();
      ResetThresholdRegisters();
    }

    method ResetTemperatureRegisters()
      requires LayoutValid(layout) && regs.Length == layout.size
      modifies regs
      ensures regs[..] == ResetTemperatures(layout, old(regs[..]))
    {
      var l := layout;
      assert ChannelUntouched(l, 0) && ChannelUntouched(l, 1) && ChannelUntouched(l, 2);
      assert ChannelUntouched(l, 3) && ChannelUntouched(l, 4);
      regs[l.manufacturerId] := MANUFACTURER_ID_DEFAULT;
      regs[TempAddr(l, 1)] := TEMPERATURE_DEFAULT;
      regs[TempAddr(l, 2)] := TEMPERATURE_DEFAULT;
      regs[TempAddr(l, 3)] := TEMPERATURE_DEFAULT;
      regs[TempAddr(l, 4)] := TEMPERATURE_DEFAULT;
      regs[TempAddr(l, 0)] := TEMPERATURE_DEFAULT;
    }

    method ResetConfigurationRegisters()
      requires LayoutValid(layout) && regs.Length == layout.size
      modifies regs
      ensures regs[..] == ResetConfiguration(layout, old(regs[..]))
    {
      var l := layout;
      regs[l.channelEnable] := ENABLE_ALL | 0x80;
      regs[l.configuration1] := CONFIGURATION_1_DEFAULT;
      regs[l.configuration2] := CONFIGURATION_2_DEFAULT;
      regs[l.customOffset] := CUSTOM_OFFSET_DEFAULT;
      regs[l.highestEnable] := ENABLE_ALL;
    }

    method ResetThresholdRegisters()
      requires LayoutValid(layout) && regs.Length == layout.size
      modifies regs
      ensures regs[..] == ResetThresholds(layout, old(regs[..]))
    {
      var l := layout;
      assert ChannelUntouched(l, 0) && ChannelUntouched(l, 1) && ChannelUntouched(l, 2);
      assert ChannelUntouched(l, 3) && ChannelUntouched(l, 4);
      regs[OverAddr(l, 1)] := HIGH_THRESHOLD_DEFAULT;
      regs[OverAddr(l, 2)] := HIGH_THRESHOLD_DEFAULT;
      regs[OverAddr(l, 3)] := HIGH_THRESHOLD_DEFAULT;
      regs[OverAddr(l, 4)] := HIGH_THRESHOLD_DEFAULT;
      regs[OverAddr(l, 0)] := HIGH_THRESHOLD_DEFAULT;
      regs[SecondaryAddr(l, 1)] := HIGH_THRESHOLD_DEFAULT;
      regs[SecondaryAddr(l, 2)] := HIGH_THRESHOLD_DEFAULT;
      regs[SecondaryAddr(l, 3)] := HIGH_THRESHOLD_DEFAULT;
      regs[SecondaryAddr(l, 4)] := HIGH_THRESHOLD_DEFAULT;
      regs[SecondaryAddr(l, 0)] := HIGH_THRESHOLD_DEFAULT;
      regs[l.secondaryLowLimit] := 0;
    }
  }

  // ---------------------------------------------------------------------
  // Properties across operations
  // ---------------------------------------------------------------------

  /** A byte written over SMBus reads back when its register is both
      writable and readable; a read-only register keeps its value and a
      register outside the readable range reads 0xFF. */
  lemma WriteThenReceive(l: Layout, r: seq<bv8>, command: bv8, data: bv8)
    requires LayoutValid(l) && |r| == l.size
    ensures Received(l, AfterWrite(l, r, [command, data]), command)
            == if !Readable(l, command) then 0xFF else if Writable(l, command) then data else r[command]
  {
  }

  /** A write changes at most the register its first byte selects. */
  lemma WriteTouchesOnlyCommand(l: Layout, r: seq<bv8>, buf: seq<bv8>, j: nat)
    requires LayoutValid(l) && |r| == l.size && 1 <= |buf| && j < |r| && j != buf[0] as int
    ensures AfterWrite(l, r, buf)[j] == r[j]
  {
  }

  /** Management input `i` is a channel's temperature, which the update
      does not write. */
  lemma QmpAddrUntouched(l: Layout, i: nat)
    requires LayoutValid(l) && i < NUM_TEMPS
    requires i < NUM_TEMPS - 1 || LocalAfterRemotes(l)
    ensures QmpAddr(l, i) + 1 < l.size && !Written(l, QmpAddr(l, i)) && !Written(l, QmpAddr(l, i) + 1)
  {
    if i < NUM_TEMPS - 1 {
      assert ChannelUntouched(l, i + 1);
    } else {
      assert ChannelUntouched(l, 0);
    }
  }

  /** The update leaves a temperature in registers it does not write. */
  lemma UpdateKeepsReading(r: seq<bv8>, l: Layout, a: nat)
    requires LayoutValid(l) && |r| == l.size && a + 1 < |r| && !Written(l, a) && !Written(l, a + 1)
    ensures Reading(Updated(r, l), a) == Reading(r, a)
  {
    UpdateTouchesOnlyStatus(r, l, a);
    UpdateTouchesOnlyStatus(r, l, a + 1);
  }

  /** A stored temperature reads back as its encoding. */
  lemma StoredReadsBack(r: seq<bv8>, a: nat, value: Int32)
    requires a + 1 < |r|
    ensures Reading(Stored(r, a, value), a) == Millidegrees(Encode(value))
  {
    UnpackPack(Encode(value));
  }

  /** A temperature set through the management interface reads back as its
      stored encoding, since the status update that follows the store
      leaves the temperature registers alone; an in-range value on a
      1/8-degree step reads back exactly. */
  lemma QmpSetThenGet(r: seq<bv8>, l: Layout, i: nat, value: Int32)
    requires LayoutValid(l) && |r| == l.size && i < NUM_TEMPS
    requires i < NUM_TEMPS - 1 || LocalAfterRemotes(l)
    ensures Reading(Updated(Stored(r, QmpAddr(l, i), value), l), QmpAddr(l, i)) == Millidegrees(Encode(value))
    ensures TEMP_MIN <= value <= TEMP_MAX && Abs(value) % 1000 % 125 == 0 ==>
              Reading(Updated(Stored(r, QmpAddr(l, i), value), l), QmpAddr(l, i)) == value
  {
    var a := QmpAddr(l, i);
    QmpAddrUntouched(l, i);
    StoredReadsBack(r, a, value);
    UpdateKeepsReading(Stored(r, a, value), l, a);
    if TEMP_MIN <= value <= TEMP_MAX && Abs(value) % 1000 % 125 == 0 {
      GetSetRoundTrip(value);
    }
  }
}
