/**
 * The ASPEED LPC controller's KCS (Keyboard Controller Style) channels: the
 * BMC-side register file of 32-bit words, and the host side of the transfer
 * state machine of section 9 of the IPMI v2.0 specification, which moves a
 * request from the IPMI core into the input data registers byte by byte and
 * collects the response from the output data registers.
 *
 * The register count, `MAX_IPMI_MSG_SIZE` and the subdevice numbering live in
 * headers that are not part of this model: the first two are parameters, the
 * subdevice interrupt of KCS channel `i` is line `i`.
 */
module AspeedLpc {

  import opened Wrappers
  import opened Words

  // ---------------------------------------------------------------------
  // Registers and bits
  // ---------------------------------------------------------------------

  /** Register index of a byte offset. */
  function ToReg(offset: nat): nat
  {
    offset / 4
  }

  // Register indices, each the byte offset shown divided by four.
  const HICR0: nat := 0  // offset 0x0
  const HICR2: nat := 2  // offset 0x8
  const HICR4: nat := 4  // offset 0x10
  const IDR1: nat := 9  // offset 0x24
  const IDR2: nat := 10  // offset 0x28
  const IDR3: nat := 11  // offset 0x2C
  const ODR1: nat := 12  // offset 0x30
  const ODR2: nat := 13  // offset 0x34
  const ODR3: nat := 14  // offset 0x38
  const STR1: nat := 15  // offset 0x3C
  const STR2: nat := 16  // offset 0x40
  const STR3: nat := 17  // offset 0x44
  const HICR7: nat := 34  // offset 0x88
  const HICRB: nat := 64  // offset 0x100
  const IDR4: nat := 69  // offset 0x114
  const ODR4: nat := 70  // offset 0x118
  const STR4: nat := 71  // offset 0x11C

  const HICR0_LPC3E: bv32 := 0x80
  const HICR0_LPC2E: bv32 := 0x40
  const HICR0_LPC1E: bv32 := 0x20
  const HICR2_IBFIE3: bv32 := 0x08
  const HICR2_IBFIE2: bv32 := 0x04
  const HICR2_IBFIE1: bv32 := 0x02
  const HICR4_KCSENBL: bv32 := 0x04
  const HICRB_IBFIE4: bv32 := 0x02
  const HICRB_LPC4E: bv32 := 0x01

  /** Status register bits (table 9-1 of IPMI v2.0). */
  const ST_OBF: bv32 := 0x01
  const ST_IBF: bv32 := 0x02
  const ST_CMD: bv32 := 0x08
  /** The bits of a status register the BMC may not write. */
  const ST_READ_ONLY: bv32 := 0x0B

  /** Control codes (table 9-3 of IPMI v2.0). */
  const KCS_CMD_WRITE_START: bv8 := 0x61
  const KCS_CMD_WRITE_END: bv8 := 0x62
  const KCS_CMD_READ: bv8 := 0x68

  const NUM_CHANNELS: nat := 4

  /** The state field, bits 7:6 of a status register (table 9-2). */
  datatype KcsState = IdleState | ReadState | WriteState | ErrorState

  function StateOf(str: bv32): KcsState
  {
    var s := (str >> 6) & 3;
    if s == 0 then IdleState
    else if s == 1 then ReadState
    else if s == 2 then WriteState
    else ErrorState
  }

  /** The low byte of a register, as a `uint8_t` receives it. */
  function Low8(x: bv32): (b: bv8)
    ensures b as bv32 == x & 0xFF
  {
    (x & 0xFF) as bv8
  }

  /** Input data, output data and status register of each channel. */
  function IdrOf(ch: nat): (r: nat)
    requires ch < NUM_CHANNELS
    ensures r <= STR4
  {
    [IDR1, IDR2, IDR3, IDR4][ch]
  }

  function OdrOf(ch: nat): (r: nat)
    requires ch < NUM_CHANNELS
    ensures r <= STR4 && r != IdrOf(ch)
  {
    [ODR1, ODR2, ODR3, ODR4][ch]
  }

  function StrOf(ch: nat): (r: nat)
    requires ch < NUM_CHANNELS
    ensures r <= STR4 && r != IdrOf(ch) && r != OdrOf(ch)
  {
    [STR1, STR2, STR3, STR4][ch]
  }

  /** Whether `reg` is one of channel `ch`'s three registers. */
  predicate Serves(reg: nat, ch: nat)
    requires ch < NUM_CHANNELS
  {
    reg == IdrOf(ch) || reg == OdrOf(ch) || reg == StrOf(ch)
  }

  /** A register file large enough for every register this model names. */
  predicate Fits(r: seq<bv32>)
  {
    |r| > STR4
  }

  // ---------------------------------------------------------------------
  // Channel enables
  // ---------------------------------------------------------------------

  /** Whether the BMC enabled channel `ch`: channels 1, 2 and 4 have one
      enable bit each, channel 3 needs both LPC3E and KCSENBL. */
  predicate ChannelEnabled(r: seq<bv32>, ch: nat)
    requires Fits(r) && ch < NUM_CHANNELS
  {
    match ch
    case 0 => Has(r[HICR0], HICR0_LPC1E)
    case 1 => Has(r[HICR0], HICR0_LPC2E)
    case 2 => Has(r[HICR0], HICR0_LPC3E) && Has(r[HICR4], HICR4_KCSENBL)
    case _ => Has(r[HICRB], HICRB_LPC4E)
  }

  /** Whether a byte from the host raises channel `ch`'s interrupt: only on
      an enabled channel whose IBF interrupt is enabled. */
  predicate IbfIrqEnabled(r: seq<bv32>, ch: nat)
    requires Fits(r) && ch < NUM_CHANNELS
  {
    ChannelEnabled(r, ch) &&
    match ch
    case 0 => Has(r[HICR2], HICR2_IBFIE1)
    case 1 => Has(r[HICR2], HICR2_IBFIE2)
    case 2 => Has(r[HICR2], HICR2_IBFIE3)
    case _ => Has(r[HICRB], HICRB_IBFIE4)
  }

  /** Channel 3 needs both of its enable bits; an IBF interrupt needs its
      channel enabled. */
  lemma EnableRules(r: seq<bv32>, ch: nat)
    requires Fits(r) && ch < NUM_CHANNELS
    ensures IbfIrqEnabled(r, ch) ==> ChannelEnabled(r, ch)
    ensures ch == 2 && ChannelEnabled(r, ch) ==> Has(r[HICR0], HICR0_LPC3E) && Has(r[HICR4], HICR4_KCSENBL)
    ensures r[HICR0] == 0 && r[HICRB] == 0 ==> !ChannelEnabled(r, ch)
  {
  }

  /** The channel enables and interrupt enables do not depend on the
      channels' data and status registers. */
  lemma EnablesIgnorePorts(r: seq<bv32>, ch: nat, c: nat, reg: nat, v: bv32)
    requires Fits(r) && ch < NUM_CHANNELS && c < NUM_CHANNELS && Serves(reg, c)
    ensures ChannelEnabled(r[reg := v], ch) == ChannelEnabled(r, ch)
    ensures IbfIrqEnabled(r[reg := v], ch) == IbfIrqEnabled(r, ch)
  {
  }

  // ---------------------------------------------------------------------
  // Host side of a channel
  // ---------------------------------------------------------------------

  /** The host reads the output data register: OBF clears, nothing else. */
  function HostRead(r: seq<bv32>, ch: nat): (r': seq<bv32>)
    requires Fits(r) && ch < NUM_CHANNELS
    ensures |r'| == |r|
  {
    r[StrOf(ch) := Without(r[StrOf(ch)], ST_OBF)]
  }

  /** The host writes a byte into the input data register: IBF sets, and
      the CMD bit says whether the byte is a control code. */
  function HostWrite(r: seq<bv32>, ch: nat, value: bv8, isCmd: bool): (r': seq<bv32>)
    requires Fits(r) && ch < NUM_CHANNELS
    ensures |r'| == |r|
  {
    var s := With(r[StrOf(ch)], ST_IBF);
    r[IdrOf(ch) := value as bv32][StrOf(ch) := if isCmd then With(s, ST_CMD) else Without(s, ST_CMD)]
  }

  /** A host read clears OBF and nothing else. */
  lemma HostReadRules(r: seq<bv32>, ch: nat)
    requires Fits(r) && ch < NUM_CHANNELS
    ensures HostRead(r, ch)[StrOf(ch)] & ST_OBF == 0
    ensures HostRead(r, ch)[StrOf(ch)] & !ST_OBF == Without(r[StrOf(ch)], ST_OBF)
    ensures forall j | 0 <= j < |r| && j != StrOf(ch) :: HostRead(r, ch)[j] == r[j]
  {
  }

  /** A host write leaves the byte in the input data register with IBF set,
      CMD set exactly for a control code, and OBF as it was. */
  lemma HostWriteRules(r: seq<bv32>, ch: nat, value: bv8, isCmd: bool)
    requires Fits(r) && ch < NUM_CHANNELS
    ensures HostWrite(r, ch, value, isCmd)[IdrOf(ch)] == value as bv32
    ensures HostWrite(r, ch, value, isCmd)[StrOf(ch)] & ST_IBF != 0
    ensures (HostWrite(r, ch, value, isCmd)[StrOf(ch)] & ST_CMD != 0) == isCmd
    ensures HostWrite(r, ch, value, isCmd)[StrOf(ch)] & ST_OBF == r[StrOf(ch)] & ST_OBF
    ensures forall j | 0 <= j < |r| && j != StrOf(ch) && j != IdrOf(ch) :: HostWrite(r, ch, value, isCmd)[j] == r[j]
  {
  }

  /** The host side of a channel: the request being sent and the response
      being collected. */
  datatype Kcs = Kcs(inmsg: seq<bv8>, inpos: nat, inlen: nat, outmsg: seq<bv8>, outlen: nat, lastByteNotReady: bool)

  /** A complete response handed to the IPMI core. */
  datatype Command = Command(msg: seq<bv8>, msgId: bv8)

  /** What one event leaves behind: the channel, the register file, whether
      the channel's interrupt was raised, and the responses handed on. */
  datatype Outcome = Outcome(kcs: Kcs, regs: seq<bv32>, raised: bool, sent: seq<Command>)

  /** The channel's invariant, for buffers of `max` bytes: the response
      fits, the request fits, the next request byte lies inside the request,
      and the write-end control code is pending only while a request is. */
  predicate Inv(k: Kcs, max: nat)
  {
    0 < max && |k.inmsg| == max && |k.outmsg| == max &&
    Bounded(k.inpos, k.inlen, k.outlen, k.lastByteNotReady, max)
  }

  /** The part of the invariant about the positions and lengths. */
  predicate Bounded(inpos: nat, inlen: nat, outlen: nat, lastByteNotReady: bool, max: nat)
  {
    outlen <= max && inlen <= max &&
    (if inlen == 0 then inpos == 0 else inpos < inlen) &&
    (lastByteNotReady ==> inlen > 0)
  }

  /** Idle state: a pending output byte is a dummy that completes the
      response, which goes to the IPMI core when there is one; a pending
      request starts with WRITE_START. */
  function IdleEvent(k: Kcs, r: seq<bv32>, ch: nat, ie: bool, host: bool, msgId: bv8): (o: Outcome)
    requires Fits(r) && ch < NUM_CHANNELS && k.outlen <= |k.outmsg|
    ensures |o.regs| == |r|
  {
    var obf := Has(r[StrOf(ch)], ST_OBF);
    var r1 := if obf then HostRead(r, ch) else r;
    var flush := obf && k.outlen > 0;
    var k1 := if flush then k.(outlen := 0) else k;
    var sent := if flush && host then [Command(k.outmsg[..k.outlen], msgId)] else [];
    if k1.inlen > 0 then
      Outcome(k1.(lastByteNotReady := true), HostWrite(r1, ch, KCS_CMD_WRITE_START, true), ie, sent)
    else
      Outcome(k1, r1, false, sent)
  }

  /** Read state: a pending output byte is read and kept while the response
      has room, and the host asks for the next byte. */
  function ReadEvent(k: Kcs, r: seq<bv32>, ch: nat, ie: bool, max: nat): (o: Outcome)
    requires Fits(r) && ch < NUM_CHANNELS && Inv(k, max)
    ensures |o.regs| == |r|
  {
    if Has(r[StrOf(ch)], ST_OBF) then
      var v := Low8(r[OdrOf(ch)]);
      var k1 := if k.outlen < max then k.(outmsg := k.outmsg[k.outlen := v], outlen := k.outlen + 1) else k;
      Outcome(k1, HostWrite(HostRead(r, ch), ch, KCS_CMD_READ, false), ie, [])
    else
      Outcome(k, r, false, [])
  }

  /** Write state: while the BMC has not taken the last byte nothing
      happens; otherwise the next request byte goes out, preceded by
      WRITE_END before the final one. */
  function WriteEvent(k: Kcs, r: seq<bv32>, ch: nat, ie: bool): (o: Outcome)
    requires Fits(r) && ch < NUM_CHANNELS && k.inpos < |k.inmsg|
    ensures |o.regs| == |r|
  {
    if Has(r[StrOf(ch)], ST_IBF) then
      Outcome(k, r, false, [])
    else
      var r1 := r[StrOf(ch) := Without(r[StrOf(ch)], ST_OBF)];
      if k.lastByteNotReady && k.inpos == k.inlen - 1 then
        Outcome(k.(lastByteNotReady := false), HostWrite(r1, ch, KCS_CMD_WRITE_END, true), ie, [])
      else
        var r2 := HostWrite(r1, ch, k.inmsg[k.inpos], false);
        if k.lastByteNotReady then Outcome(k.(inpos := k.inpos + 1), r2, ie, [])
        else Outcome(k.(inpos := 0, inlen := 0), r2, ie, [])
  }

  /** Error state: the transfer is aborted, the status register cleared and
      the write-end control code forgotten. */
  function ErrorEvent(k: Kcs, r: seq<bv32>, ch: nat): (o: Outcome)
    requires Fits(r) && ch < NUM_CHANNELS
    ensures |o.regs| == |r|
  {
    var r1 := if Has(r[StrOf(ch)], ST_OBF) then HostRead(r, ch) else r;
    Outcome(k.(outlen := 0, inlen := 0, inpos := 0, lastByteNotReady := false), r1[StrOf(ch) := 0], false, [])
  }

  /** `aspeed_kcs_handle_event`: one step of the host side, chosen by the
      state field of the channel's status register. `ie` is whether the
      channel's IBF interrupt is enabled, `host` whether an IPMI core is
      attached. */
  function Event(k: Kcs, r: seq<bv32>, ch: nat, ie: bool, host: bool, msgId: bv8, max: nat): (o: Outcome)
    requires Fits(r) && ch < NUM_CHANNELS && Inv(k, max)
    ensures |o.regs| == |r|
  {
    match StateOf(r[StrOf(ch)])
    case IdleState => IdleEvent(k, r, ch, ie, host, msgId)
    case ReadState => ReadEvent(k, r, ch, ie, max)
    case WriteState => WriteEvent(k, r, ch, ie)
    case ErrorState => ErrorEvent(k, r, ch)
  }

  /** Every event keeps the channel's invariant; in particular the
      response never outgrows its buffer. */
  lemma EventKeepsInv(k: Kcs, r: seq<bv32>, ch: nat, ie: bool, host: bool, msgId: bv8, max: nat)
    requires Fits(r) && ch < NUM_CHANNELS && Inv(k, max)
    ensures Inv(Event(k, r, ch, ie, host, msgId, max).kcs, max)
    ensures |Event(k, r, ch, ie, host, msgId, max).regs| == |r|
  {
  }

  /** An event changes only the channel's own three registers. */
  lemma EventTouchesOnlyChannel(k: Kcs, r: seq<bv32>, ch: nat, ie: bool, host: bool, msgId: bv8, max: nat, j: nat)
    requires Fits(r) && ch < NUM_CHANNELS && Inv(k, max)
    requires j < |r| && !Serves(j, ch)
    ensures Event(k, r, ch, ie, host, msgId, max).regs[j] == r[j]
  {
    match StateOf(r[StrOf(ch)])
    case IdleState => IdleKeeps(k, r, ch, ie, host, msgId, j);
    case ReadState => ReadKeeps(k, r, ch, ie, max, j);
    case WriteState => WriteKeeps(k, r, ch, ie, j);
    case ErrorState => ErrorKeeps(k, r, ch, j);
  }

  lemma IdleKeeps(k: Kcs, r: seq<bv32>, ch: nat, ie: bool, host: bool, msgId: bv8, j: nat)
    requires Fits(r) && ch < NUM_CHANNELS && k.outlen <= |k.outmsg| && j < |r| && !Serves(j, ch)
    ensures IdleEvent(k, r, ch, ie, host, msgId).regs[j] == r[j]
  {
  }

  lemma ReadKeeps(k: Kcs, r: seq<bv32>, ch: nat, ie: bool, max: nat, j: nat)
    requires Fits(r) && ch < NUM_CHANNELS && Inv(k, max) && j < |r| && !Serves(j, ch)
    ensures ReadEvent(k, r, ch, ie, max).regs[j] == r[j]
  {
  }

  lemma WriteKeeps(k: Kcs, r: seq<bv32>, ch: nat, ie: bool, j: nat)
    requires Fits(r) && ch < NUM_CHANNELS && k.inpos < |k.inmsg| && j < |r| && !Serves(j, ch)
    ensures WriteEvent(k, r, ch, ie).regs[j] == r[j]
  {
    var r1 := r[StrOf(ch) := Without(r[StrOf(ch)], ST_OBF)];
    HostWriteKeeps(r1, ch, j, KCS_CMD_WRITE_END, true);
    HostWriteKeeps(r1, ch, j, k.inmsg[k.inpos], false);
  }

  lemma HostWriteKeeps(r: seq<bv32>, ch: nat, j: nat, value: bv8, isCmd: bool)
    requires Fits(r) && ch < NUM_CHANNELS && j < |r| && !Serves(j, ch)
    ensures HostWrite(r, ch, value, isCmd)[j] == r[j]
  {
  }

  lemma ErrorKeeps(k: Kcs, r: seq<bv32>, ch: nat, j: nat)
    requires Fits(r) && ch < NUM_CHANNELS && j < |r| && !Serves(j, ch)
    ensures ErrorEvent(k, r, ch).regs[j] == r[j]
  {
  }

  /** In the read state every byte the BMC offers is acknowledged, and kept
      exactly when the response has room for it. */
  lemma ReadStateAppends(k: Kcs, r: seq<bv32>, ch: nat, ie: bool, host: bool, msgId: bv8, max: nat)
    requires Fits(r) && ch < NUM_CHANNELS && Inv(k, max)
    requires StateOf(r[StrOf(ch)]) == ReadState && Has(r[StrOf(ch)], ST_OBF)
    ensures var o := Event(k, r, ch, ie, host, msgId, max);
      o.regs[IdrOf(ch)] == KCS_CMD_READ as bv32 &&
      !Has(o.regs[StrOf(ch)], ST_OBF) && !Has(o.regs[StrOf(ch)], ST_CMD) && Has(o.regs[StrOf(ch)], ST_IBF) &&
      if k.outlen < max then
        o.kcs.outlen == k.outlen + 1 && o.kcs.outmsg == k.outmsg[k.outlen := Low8(r[OdrOf(ch)])]
      else
        o.kcs == k
  {
  }

  /** Write state: while the BMC has not taken the last byte, nothing
      happens. */
  lemma WriteStateWaits(k: Kcs, r: seq<bv32>, ch: nat, ie: bool, host: bool, msgId: bv8, max: nat)
    requires Fits(r) && ch < NUM_CHANNELS && Inv(k, max)
    requires StateOf(r[StrOf(ch)]) == WriteState && Has(r[StrOf(ch)], ST_IBF)
    ensures Event(k, r, ch, ie, host, msgId, max) == Outcome(k, r, false, [])
  {
    assert Event(k, r, ch, ie, host, msgId, max) == WriteEvent(k, r, ch, ie);
  }

  /** Write state, once the BMC has taken the last byte: the next byte is
      WRITE_END, as a command, exactly when the write-end code is pending
      and one request byte is left; otherwise it is that request byte, as
      data. A request sent without a pending write-end code is finished. */
  lemma WriteStateSends(k: Kcs, r: seq<bv32>, ch: nat, ie: bool, host: bool, msgId: bv8, max: nat)
    requires Fits(r) && ch < NUM_CHANNELS && Inv(k, max)
    requires StateOf(r[StrOf(ch)]) == WriteState && !Has(r[StrOf(ch)], ST_IBF)
    ensures var o := Event(k, r, ch, ie, host, msgId, max);
      (Has(o.regs[StrOf(ch)], ST_CMD) <==> k.lastByteNotReady && k.inpos == k.inlen - 1) &&
      (Has(o.regs[StrOf(ch)], ST_CMD) ==> o.regs[IdrOf(ch)] == KCS_CMD_WRITE_END as bv32) &&
      (!Has(o.regs[StrOf(ch)], ST_CMD) ==> o.regs[IdrOf(ch)] == k.inmsg[k.inpos] as bv32) &&
      (!k.lastByteNotReady ==> o.kcs.inlen == 0 && o.kcs.inpos == 0)
  {
    assert Event(k, r, ch, ie, host, msgId, max) == WriteEvent(k, r, ch, ie);
    var r1 := r[StrOf(ch) := Without(r[StrOf(ch)], ST_OBF)];
    if k.lastByteNotReady && k.inpos == k.inlen - 1 {
      HostWriteRules(r1, ch, KCS_CMD_WRITE_END, true);
    } else {
      HostWriteRules(r1, ch, k.inmsg[k.inpos], false);
    }
  }


  /** The error state aborts both directions and clears the status
      register. */
  lemma ErrorStateAborts(k: Kcs, r: seq<bv32>, ch: nat, ie: bool, host: bool, msgId: bv8, max: nat)
    requires Fits(r) && ch < NUM_CHANNELS && Inv(k, max)
    requires StateOf(r[StrOf(ch)]) == ErrorState
    ensures var o := Event(k, r, ch, ie, host, msgId, max);
      o.kcs.outlen == 0 && o.kcs.inlen == 0 && o.kcs.inpos == 0 && !o.kcs.lastByteNotReady &&
      o.regs[StrOf(ch)] == 0 && !o.raised && o.sent == []
  {
  }

  /** In the idle state a dummy byte after a response hands the response to
      the IPMI core, and a pending request is announced with WRITE_START. */
  lemma IdleStateRules(k: Kcs, r: seq<bv32>, ch: nat, ie: bool, host: bool, msgId: bv8, max: nat)
    requires Fits(r) && ch < NUM_CHANNELS && Inv(k, max)
    requires StateOf(r[StrOf(ch)]) == IdleState
    ensures var o := Event(k, r, ch, ie, host, msgId, max);
      (o.sent != [] <==> host && Has(r[StrOf(ch)], ST_OBF) && k.outlen > 0) &&
      (o.sent != [] ==> o.sent == [Command(k.outmsg[..k.outlen], msgId)]) &&
      (Has(r[StrOf(ch)], ST_OBF) ==> o.kcs.outlen == 0) &&
      (k.inlen > 0 ==> o.kcs.lastByteNotReady && o.regs[IdrOf(ch)] == KCS_CMD_WRITE_START as bv32
                       && Has(o.regs[StrOf(ch)], ST_CMD) && o.raised == ie)
  {
    assert Event(k, r, ch, ie, host, msgId, max) == IdleEvent(k, r, ch, ie, host, msgId);
    var r1 := if Has(r[StrOf(ch)], ST_OBF) then HostRead(r, ch) else r;
    HostWriteRules(r1, ch, KCS_CMD_WRITE_START, true);
  }

  /** `aspeed_kcs_handle_req`: a request is taken only when none is pending
      and it is not empty; it is cut to the buffer size. */
  function Accept(k: Kcs, req: seq<bv8>, max: nat): (k': Kcs)
    requires Inv(k, max)
  {
    if k.inlen > 0 || |req| == 0 then k
    else
      var n := if |req| > max then max else |req|;
      k.(inmsg := req[..n] + k.inmsg[n..], inpos := 0, inlen := n)
  }

  /** Taking a request keeps the invariant, drops the request when another
      is pending or it is empty, and otherwise queues its first
      `MAX_IPMI_MSG_SIZE` bytes. */
  lemma AcceptRules(k: Kcs, req: seq<bv8>, max: nat)
    requires Inv(k, max)
    ensures Inv(Accept(k, req, max), max)
    ensures k.inlen > 0 || |req| == 0 ==> Accept(k, req, max) == k
    ensures k.inlen == 0 && |req| > 0 ==>
      var k' := Accept(k, req, max);
      k'.inpos == 0 && k'.inlen == (if |req| > max then max else |req|) &&
      k'.inmsg[..k'.inlen] == req[..k'.inlen] && !k'.lastByteNotReady
  {
    if k.inlen == 0 && |req| > 0 {
      var k' := Accept(k, req, max);
      assert k'.inmsg[..k'.inlen] == req[..k'.inlen];
    }
  }

  // ---------------------------------------------------------------------
  // Two defects of the source, as written and corrected
  // ---------------------------------------------------------------------

  /** A BMC write of `data` to a status register AS WRITTEN: the raw store
      of `data` comes first, so the "old" read-only bits the mask then takes
      from the register are those of `data` itself. */
  function StrWriteAsWritten(data: bv32): bv32
  {
    var stored := data;
    var d := if data & ST_READ_ONLY != 0 then data & !ST_READ_ONLY else data;
    (stored & ST_READ_ONLY) | d
  }

  /** As written, the mask has no effect: the register ends up holding
      exactly what the BMC wrote, read-only bits included. */
  lemma StrWriteIgnoresMask(data: bv32)
    ensures StrWriteAsWritten(data) == data
  {
  }

  /** A status register with OBF clear, written with OBF set, reads back with
      OBF set although OBF is read-only. */
  lemma StrWriteSetsReadOnlyBit()
    ensures StrWriteAsWritten(ST_OBF) & ST_OBF != 0
    ensures StrWrite(0, ST_OBF) & ST_OBF == 0
  {
  }

  /** A BMC write of `data` to a status register holding `prior`: the
      read-only bits OBF, IBF and CMD keep their values, every other bit is
      taken from `data`. */
  function StrWrite(prior: bv32, data: bv32): (v: bv32)
    ensures v & ST_READ_ONLY == prior & ST_READ_ONLY
    ensures v & !ST_READ_ONLY == data & !ST_READ_ONLY
  {
    (prior & ST_READ_ONLY) | (data & !ST_READ_ONLY)
  }

  /** The error state AS WRITTEN: the abort clears the lengths and positions
      but not the pending write-end control code. */
  function ErrorEventAsWritten(k: Kcs, r: seq<bv32>, ch: nat): Outcome
    requires Fits(r) && ch < NUM_CHANNELS
  {
    var r1 := if Has(r[StrOf(ch)], ST_OBF) then HostRead(r, ch) else r;
    Outcome(k.(outlen := 0, inlen := 0, inpos := 0), r1[StrOf(ch) := 0], false, [])
  }

  /** The channel's part of a write-state event whose IBF is clear. */
  function WriteStep(k: Kcs): Kcs
    requires k.inpos < |k.inmsg|
  {
    if k.lastByteNotReady && k.inpos == k.inlen - 1 then k.(lastByteNotReady := false)
    else if k.lastByteNotReady then k.(inpos := k.inpos + 1)
    else k.(inpos := 0, inlen := 0)
  }

  lemma WriteStepIsWriteEvent(k: Kcs, r: seq<bv32>, ch: nat, ie: bool)
    requires Fits(r) && ch < NUM_CHANNELS && k.inpos < |k.inmsg|
    requires !Has(r[StrOf(ch)], ST_IBF)
    ensures WriteEvent(k, r, ch, ie).kcs == WriteStep(k)
  {
  }

  /** `n` write-state events after an abort, each sending one more byte of a
      request that is no longer there. */
  function AfterAbort(k: Kcs, n: nat): Kcs
    requires k.lastByteNotReady && k.inlen == 0 && k.inpos + n <= |k.inmsg|
    decreases n
  {
    if n == 0 then k
    else
      var k1 := WriteStep(k);
      assert k1 == k.(inpos := k.inpos + 1);
      AfterAbort(k1, n - 1)
  }

  lemma {:induction false} AfterAbortAdvances(k: Kcs, n: nat)
    requires k.lastByteNotReady && k.inlen == 0 && k.inpos + n <= |k.inmsg|
    ensures AfterAbort(k, n).inpos == k.inpos + n && AfterAbort(k, n).inmsg == k.inmsg
    decreases n
  {
    if n > 0 {
      AfterAbortAdvances(WriteStep(k), n - 1);
    }
  }

  /** As written, an abort during a request leaves the channel outside its
      invariant, and `MAX_IPMI_MSG_SIZE` write-state events later the next
      byte to send lies past the end of the request buffer. */
  lemma AbortThenWriteOverruns(k: Kcs, r: seq<bv32>, ch: nat, max: nat)
    requires Fits(r) && ch < NUM_CHANNELS && Inv(k, max) && k.lastByteNotReady
    ensures var a := ErrorEventAsWritten(k, r, ch).kcs;
      !Inv(a, max) && AfterAbort(a, max).inpos == |AfterAbort(a, max).inmsg|
  {
    var a := ErrorEventAsWritten(k, r, ch).kcs;
    AfterAbortAdvances(a, max);
  }

  // ---------------------------------------------------------------------
  // Register names
  // ---------------------------------------------------------------------

  /** A named channel register, as the device's properties expose it. */
  datatype RegisterData = RegisterData(name: string, reg: nat, chan: nat)

  function Registers(): seq<RegisterData>
  {
    [
    RegisterData("idr1", IDR1, 0), RegisterData("odr1", ODR1, 0), RegisterData("str1", STR1, 0),
    RegisterData("idr2", IDR2, 1), RegisterData("odr2", ODR2, 1), RegisterData("str2", STR2, 1),
    RegisterData("idr3", IDR3, 2), RegisterData("odr3", ODR3, 2), RegisterData("str3", STR3, 2),
    RegisterData("idr4", IDR4, 3), RegisterData("odr4", ODR4, 3), RegisterData("str4", STR4, 3)]
  }

  /** The channel that owns register `reg`, if any. */
  function ChannelServing(reg: nat): (c: Option<nat>)
    ensures c.Some? ==> c.value < NUM_CHANNELS && Serves(reg, c.value)
    ensures c.None? <==> forall ch | 0 <= ch < NUM_CHANNELS :: !Serves(reg, ch)
  {
    if Serves(reg, 0) then Some(0)
    else if Serves(reg, 1) then Some(1)
    else if Serves(reg, 2) then Some(2)
    else if Serves(reg, 3) then Some(3)
    else None
  }

  /** A register belongs to one channel at most. */
  lemma ServesOne(reg: nat, a: nat, b: nat)
    requires a < NUM_CHANNELS && b < NUM_CHANNELS && Serves(reg, a) && Serves(reg, b)
    ensures a == b
  {
  }

  /** Every channel register has an entry in the table. */
  lemma RegistersMatchChannels(reg: nat)
    ensures ChannelServing(reg).Some? ==> exists i | 0 <= i < |Registers()| :: Registers()[i].reg == reg
  {
    if ChannelServing(reg).Some? {
      var c := ChannelServing(reg).value;
      var i := 3 * c + (if reg == IdrOf(c) then 0 else if reg == OdrOf(c) then 1 else 2);
      assert Registers()[i].reg == reg;
    }
  }

  /** `strncmp(name, p, |p|) == 0`. */
  predicate HasPrefix(name: string, p: string)
  {
    |p| == 0 || (|name| > 0 && name[0] == p[0] && HasPrefix(name[1..], p[1..]))
  }

  /** `aspeed_kcs_get_channel_by_register`: the channel whose table entry
      names register `reg`. */
  method ChannelOfRegister(reg: nat) returns (c: Option<nat>)
    ensures c == ChannelServing(reg)
  {
    var i := 0;
    while i < |Registers()|
      invariant i <= |Registers()|
      invariant forall j | 0 <= j < i :: Registers()[j].reg != reg
    {
      if Registers()[i].reg == reg {
        EntryKinds(Registers()[i]);
        ServesOne(reg, Registers()[i].chan, ChannelServing(reg).value);
        return Some(Registers()[i].chan);
      }
      i := i + 1;
    }
    RegistersMatchChannels(reg);
    return None;
  }

  /** `lines` with line `ch` raised when `on`. */
  function Raise(lines: seq<bool>, ch: nat, on: bool): seq<bool>
    requires ch < |lines|
  {
    if on then lines[ch := true] else lines
  }

  // ---------------------------------------------------------------------
  // The devices
  // ---------------------------------------------------------------------

  /** One KCS channel: the host side's buffers and positions, and the
      responses handed to the IPMI core. */
  class Channel {
    const id: nat
    const maxMsg: nat
    /** Whether an IPMI core is attached. */
    const host: bool
    const inmsg: array<bv8>
    const outmsg: array<bv8>
    var inpos: nat
    var inlen: nat
    var outlen: nat
    var lastByteNotReady: bool
    var lastMsgId: bv8
    /** The `handle_command` calls made so far. */
    var sent: seq<Command>

    ghost predicate Valid()
      reads this
    {
      id < NUM_CHANNELS && 0 < maxMsg && inmsg.Length == maxMsg && outmsg.Length == maxMsg &&
      inmsg != outmsg && Bounded(inpos, inlen, outlen, lastByteNotReady, maxMsg)
    }

    /** The channel's buffers are not the controller's register file or
        interrupt lines. */
    predicate Apart(lpc: Lpc)
    {
      {inmsg as object, outmsg as object} !! {lpc.regs as object, lpc.kcsIrq as object}
    }

    function Snapshot(): Kcs
      reads this, inmsg, outmsg
    {
      Kcs(inmsg[..], inpos, inlen, outmsg[..], outlen, lastByteNotReady)
    }

    constructor (id: nat, maxMsg: nat, host: bool)
      requires id < NUM_CHANNELS && 0 < maxMsg
      ensures Valid() && this.id == id && this.maxMsg == maxMsg && this.host == host
      ensures fresh(inmsg) && fresh(outmsg) && sent == []
      ensures Snapshot() == Kcs(seq(maxMsg, _ => 0), 0, 0, seq(maxMsg, _ => 0), 0, false)
    {
      this.id := id;
      this.maxMsg := maxMsg;
      this.host := host;
      inmsg := new bv8[maxMsg](_ => 0);
      outmsg := new bv8[maxMsg](_ => 0);
      inpos, inlen, outlen := 0, 0, 0;
      lastByteNotReady := false;
      lastMsgId := 0;
      sent := [];
    }

    /** `aspeed_kcs_host_read_byte`. */
    method HostReadByte(lpc: Lpc) returns (v: bv8)
      requires id < NUM_CHANNELS && lpc.regs.Length > STR4
      modifies lpc.regs
      ensures v == Low8(old(lpc.regs[OdrOf(id)]))
      ensures lpc.regs[..] == HostRead(old(lpc.regs[..]), id)
    {
      v := Low8(lpc.regs[OdrOf(id)]);
      lpc.regs[StrOf(id)] := Without(lpc.regs[StrOf(id)], ST_OBF);
    }

    /** `aspeed_kcs_host_write_byte`. */
    method HostWriteByte(lpc: Lpc, value: bv8, isCmd: bool)
      requires id < NUM_CHANNELS && lpc.regs.Length > STR4 && lpc.kcsIrq.Length == NUM_CHANNELS
      modifies lpc.regs, lpc.kcsIrq
      ensures lpc.regs[..] == HostWrite(old(lpc.regs[..]), id, value, isCmd)
      ensures lpc.kcsIrq[..] == Raise(old(lpc.kcsIrq[..]), id, old(IbfIrqEnabled(lpc.regs[..], id)))
    {
      var irqEnabled := IbfIrqEnabled(lpc.regs[..], id);
      var status := With(lpc.regs[StrOf(id)], ST_IBF);
      if isCmd {
        status := With(status, ST_CMD);
      } else {
        status := Without(status, ST_CMD);
      }
      lpc.regs[IdrOf(id)] := value as bv32;
      lpc.regs[StrOf(id)] := status;
      if irqEnabled {
        lpc.kcsIrq[id] := true;
      }
    }

    /** `aspeed_kcs_handle_event`. */
    method HandleEvent(lpc: Lpc)
      requires Valid() && Apart(lpc) && lpc.regs.Length > STR4 && lpc.kcsIrq.Length == NUM_CHANNELS
      modifies this, outmsg, lpc.regs, lpc.kcsIrq
      ensures Valid() && lastMsgId == old(lastMsgId)
      ensures var o := Event(old(Snapshot()), old(lpc.regs[..]), id, old(IbfIrqEnabled(lpc.regs[..], id)), host, lastMsgId, maxMsg);
        Snapshot() == o.kcs && lpc.regs[..] == o.regs &&
        lpc.kcsIrq[..] == Raise(old(lpc.kcsIrq[..]), id, o.raised) && sent == old(sent) + o.sent
    {
      match StateOf(lpc.regs[StrOf(id)])
      case IdleState => OnIdle(lpc);
      case ReadState => OnRead(lpc);
      case WriteState => OnWrite(lpc);
      case ErrorState => OnError(lpc);
    }

    /** The idle state's first step: a byte the BMC left in ODR is read, and
        a finished response goes to the host (when there is one) and is
        dropped. */
    method FlushOutput(lpc: Lpc)
      requires Valid() && Apart(lpc) && lpc.regs.Length > STR4 && lpc.kcsIrq.Length == NUM_CHANNELS
      modifies this, lpc.regs
      ensures Valid() && lastMsgId == old(lastMsgId) && Apart(lpc)
      ensures var obf := Has(old(lpc.regs[StrOf(id)]), ST_OBF);
        lpc.regs[..] == (if obf then HostRead(old(lpc.regs[..]), id) else old(lpc.regs[..])) &&
        Snapshot() == (if obf && old(outlen) > 0 then old(Snapshot()).(outlen := 0) else old(Snapshot())) &&
        sent == old(sent) + (if obf && old(outlen) > 0 && host then [Command(old(outmsg[..outlen]), lastMsgId)] else []) &&
        (IbfIrqEnabled(lpc.regs[..], id) <==> old(IbfIrqEnabled(lpc.regs[..], id)))
    {
      ghost var r := lpc.regs[..];
      if Has(lpc.regs[StrOf(id)], ST_OBF) {
        var _ := HostReadByte(lpc);
        EnablesIgnorePorts(r, id, id, StrOf(id), lpc.regs[StrOf(id)]);
        if outlen > 0 {
          if host {
            sent := sent + [Command(outmsg[..outlen], lastMsgId)];
          }
          outlen := 0;
        }
      }
    }

    method OnIdle(lpc: Lpc)
      requires Valid() && Apart(lpc) && lpc.regs.Length > STR4 && lpc.kcsIrq.Length == NUM_CHANNELS
      modifies this, lpc.regs, lpc.kcsIrq
      ensures Valid() && lastMsgId == old(lastMsgId)
      ensures var o := IdleEvent(old(Snapshot()), old(lpc.regs[..]), id, old(IbfIrqEnabled(lpc.regs[..], id)), host, lastMsgId);
        Snapshot() == o.kcs && lpc.regs[..] == o.regs &&
        lpc.kcsIrq[..] == Raise(old(lpc.kcsIrq[..]), id, o.raised) && sent == old(sent) + o.sent
    {
      FlushOutput(lpc);
      if inlen > 0 {
        HostWriteByte(lpc, KCS_CMD_WRITE_START, true);
        lastByteNotReady := true;
      }
    }

    method OnRead(lpc: Lpc)
      requires Valid() && Apart(lpc) && lpc.regs.Length > STR4 && lpc.kcsIrq.Length == NUM_CHANNELS
      modifies this, outmsg, lpc.regs, lpc.kcsIrq
      ensures Valid() && lastMsgId == old(lastMsgId)
      ensures var o := ReadEvent(old(Snapshot()), old(lpc.regs[..]), id, old(IbfIrqEnabled(lpc.regs[..], id)), maxMsg);
        Snapshot() == o.kcs && lpc.regs[..] == o.regs &&
        lpc.kcsIrq[..] == Raise(old(lpc.kcsIrq[..]), id, o.raised) && sent == old(sent) + o.sent
    {
      ghost var r := lpc.regs[..];
      if Has(lpc.regs[StrOf(id)], ST_OBF) {
        var v := HostReadByte(lpc);
        EnablesIgnorePorts(r, id, id, StrOf(id), lpc.regs[StrOf(id)]);
        if outlen < maxMsg {
          outmsg[outlen] := v;
          outlen := outlen + 1;
        }
        HostWriteByte(lpc, KCS_CMD_READ, false);
      }
    }

    method OnWrite(lpc: Lpc)
      requires Valid() && Apart(lpc) && lpc.regs.Length > STR4 && lpc.kcsIrq.Length == NUM_CHANNELS
      modifies this, lpc.regs, lpc.kcsIrq
      ensures Valid() && lastMsgId == old(lastMsgId)
      ensures var o := WriteEvent(old(Snapshot()), old(lpc.regs[..]), id, old(IbfIrqEnabled(lpc.regs[..], id)));
        Snapshot() == o.kcs && lpc.regs[..] == o.regs &&
        lpc.kcsIrq[..] == Raise(old(lpc.kcsIrq[..]), id, o.raised) && sent == old(sent) + o.sent
    {
      ghost var r := lpc.regs[..];
      if Has(lpc.regs[StrOf(id)], ST_IBF) {
        return;
      }
      lpc.regs[StrOf(id)] := Without(lpc.regs[StrOf(id)], ST_OBF);
      EnablesIgnorePorts(r, id, id, StrOf(id), lpc.regs[StrOf(id)]);
      if lastByteNotReady && inpos == inlen - 1 {
        HostWriteByte(lpc, KCS_CMD_WRITE_END, true);
        lastByteNotReady := false;
      } else {
        HostWriteByte(lpc, inmsg[inpos], false);
        inpos := inpos + 1;
        if !lastByteNotReady {
          inlen := 0;
          inpos := 0;
        }
      }
    }

    method OnError(lpc: Lpc)
      requires Valid() && Apart(lpc) && lpc.regs.Length > STR4 && lpc.kcsIrq.Length == NUM_CHANNELS
      modifies this, lpc.regs
      ensures Valid() && lastMsgId == old(lastMsgId)
      ensures var o := ErrorEvent(old(Snapshot()), old(lpc.regs[..]), id);
        Snapshot() == o.kcs && lpc.regs[..] == o.regs && !o.raised && sent == old(sent) + o.sent
    {
      if Has(lpc.regs[StrOf(id)], ST_OBF) {
        var _ := HostReadByte(lpc);
      }
      outlen := 0;
      inlen := 0;
      inpos := 0;
      lastByteNotReady := false;
      lpc.regs[StrOf(id)] := 0;
    }

    /** `aspeed_kcs_handle_req`: a request from the IPMI core. */
    method HandleReq(lpc: Lpc, msgId: bv8, req: seq<bv8>)
      requires Valid() && Apart(lpc) && lpc.regs.Length > STR4 && lpc.kcsIrq.Length == NUM_CHANNELS
      modifies this, inmsg, outmsg, lpc.regs, lpc.kcsIrq
      ensures Valid()
      ensures old(inlen) > 0 || |req| == 0 ==>
        Snapshot() == old(Snapshot()) && lpc.regs[..] == old(lpc.regs[..]) &&
        lpc.kcsIrq[..] == old(lpc.kcsIrq[..]) && sent == old(sent) && lastMsgId == old(lastMsgId)
      ensures old(inlen) == 0 && |req| > 0 ==>
        var o := Event(Accept(old(Snapshot()), req, maxMsg), old(lpc.regs[..]), id, old(IbfIrqEnabled(lpc.regs[..], id)), host, msgId, maxMsg);
        lastMsgId == msgId && Snapshot() == o.kcs && lpc.regs[..] == o.regs &&
        lpc.kcsIrq[..] == Raise(old(lpc.kcsIrq[..]), id, o.raised) && sent == old(sent) + o.sent
    {
      if inlen > 0 {
        return;
      }
      if |req| == 0 {
        return;
      }
      TakeRequest(msgId, req);
      HandleEvent(lpc);
    }

    /** The intake half of `aspeed_kcs_handle_req`: the request, cut to
        the buffer, becomes the pending one. */
    method TakeRequest(msgId: bv8, req: seq<bv8>)
      requires Valid() && inlen == 0 && |req| > 0
      modifies this, inmsg
      ensures Valid() && Snapshot() == Accept(old(Snapshot()), req, maxMsg)
      ensures lastMsgId == msgId && sent == old(sent)
    {
      var n := |req|;
      if n > maxMsg {
        n := maxMsg;
      }
      forall i | 0 <= i < n {
        inmsg[i] := req[i];
      }
      assert inmsg[..] == req[..n] + old(inmsg[..])[n..];
      inpos := 0;
      inlen := n;
      lastMsgId := msgId;
    }
  }

  /** Whether `reg` is the input data, output data or status register of
      its channel. */
  predicate IsIdr(reg: nat)
  {
    ChannelServing(reg).Some? && reg == IdrOf(ChannelServing(reg).value)
  }

  predicate IsOdr(reg: nat)
  {
    ChannelServing(reg).Some? && reg == OdrOf(ChannelServing(reg).value)
  }

  predicate IsStr(reg: nat)
  {
    ChannelServing(reg).Some? && reg == StrOf(ChannelServing(reg).value)
  }

  /** Which registers are a channel's input data, output data and status
      registers. */
  lemma RegisterKinds(reg: nat)
    ensures IsIdr(reg) <==> reg == IDR1 || reg == IDR2 || reg == IDR3 || reg == IDR4
    ensures IsOdr(reg) <==> reg == ODR1 || reg == ODR2 || reg == ODR3 || reg == ODR4
    ensures IsStr(reg) <==> reg == STR1 || reg == STR2 || reg == STR3 || reg == STR4
  {
  }

  /** `lines` with line `ch` lowered when `on`. */
  function Lower(lines: seq<bool>, ch: nat, on: bool): seq<bool>
    requires ch < |lines|
  {
    if on then lines[ch := false] else lines
  }

  /** The channel whose register `reg` is, for a register that has one. */
  function ChannelOf(reg: nat): (ch: nat)
    requires ChannelServing(reg).Some?
    ensures ch < NUM_CHANNELS
  {
    ChannelServing(reg).value
  }

  /** Each channel owns its own three registers. */
  lemma OwnRegisters(ch: nat)
    requires ch < NUM_CHANNELS
    ensures IsIdr(IdrOf(ch)) && ChannelOf(IdrOf(ch)) == ch
    ensures IsOdr(OdrOf(ch)) && ChannelOf(OdrOf(ch)) == ch
    ensures IsStr(StrOf(ch)) && ChannelOf(StrOf(ch)) == ch
  {
  }

  // ---------------------------------------------------------------------
  // BMC side of the register file
  // ---------------------------------------------------------------------

  /** What a BMC read of register `reg` does before the channel's event
      runs: reading an input data register takes the byte, so IBF clears. */
  function BmcRead(r: seq<bv32>, reg: nat): (r': seq<bv32>)
    requires Fits(r)
    ensures |r'| == |r|
  {
    if IsIdr(reg) then
      r[StrOf(ChannelOf(reg)) := Without(r[StrOf(ChannelOf(reg))], ST_IBF)]
    else
      r
  }

  /** What a BMC write of `data` to register `reg` does before any event:
      the value is stored; an output data register also sets OBF; a status
      register keeps its read-only bits (the corrected `StrWrite`). */
  function BmcWrite(r: seq<bv32>, reg: nat, data: bv32): (r': seq<bv32>)
    requires Fits(r) && reg < |r|
    ensures |r'| == |r|
  {
    if IsOdr(reg) then
      r[reg := data][StrOf(ChannelOf(reg)) := With(r[StrOf(ChannelOf(reg))], ST_OBF)]
    else if IsStr(reg) then
      r[reg := StrWrite(r[reg], data)]
    else
      r[reg := data]
  }

  /** A byte the host writes is what the BMC finds in the input data
      register; the BMC's read of it clears IBF and changes nothing else. */
  lemma HostToBmc(r: seq<bv32>, ch: nat, value: bv8, isCmd: bool)
    requires Fits(r) && ch < NUM_CHANNELS
    ensures var w := HostWrite(r, ch, value, isCmd);
      Low8(w[IdrOf(ch)]) == value && Has(w[StrOf(ch)], ST_IBF) &&
      BmcRead(w, IdrOf(ch)) == w[StrOf(ch) := Without(w[StrOf(ch)], ST_IBF)] &&
      !Has(BmcRead(w, IdrOf(ch))[StrOf(ch)], ST_IBF)
  {
    OwnRegisters(ch);
    HostWriteRules(r, ch, value, isCmd);
  }

  /** A value the BMC writes to the output data register is what the host
      reads: the write sets OBF and the host's read clears it again. */
  lemma BmcToHost(r: seq<bv32>, ch: nat, data: bv32)
    requires Fits(r) && ch < NUM_CHANNELS
    ensures var w := BmcWrite(r, OdrOf(ch), data);
      w[OdrOf(ch)] == data && Has(w[StrOf(ch)], ST_OBF) &&
      HostRead(w, ch)[OdrOf(ch)] == data && !Has(HostRead(w, ch)[StrOf(ch)], ST_OBF)
  {
    OwnRegisters(ch);
  }

  /** A BMC write changes the register written and, for an output data
      register, its channel's status register; nothing else. A status
      register keeps its read-only bits and takes the others from `data`. */
  lemma BmcWriteRules(r: seq<bv32>, reg: nat, data: bv32, j: nat)
    requires Fits(r) && reg < |r| && j < |r|
    ensures IsStr(reg) ==>
      BmcWrite(r, reg, data)[reg] & ST_READ_ONLY == r[reg] & ST_READ_ONLY &&
      BmcWrite(r, reg, data)[reg] & !ST_READ_ONLY == data & !ST_READ_ONLY
    ensures !IsStr(reg) ==> BmcWrite(r, reg, data)[reg] == data
    ensures j != reg && !(IsOdr(reg) && j == StrOf(ChannelOf(reg))) ==> BmcWrite(r, reg, data)[j] == r[j]
  {
  }

  // ---------------------------------------------------------------------
  // Register properties
  // ---------------------------------------------------------------------

  /** The first entry of `table` called `name`. */
  function NamedIn(table: seq<RegisterData>, name: string): (d: Option<RegisterData>)
    ensures d.Some? ==> d.value in table && d.value.name == name
    ensures d.None? ==> forall i | 0 <= i < |table| :: table[i].name != name
  {
    if |table| == 0 then None
    else if table[0].name == name then Some(table[0])
    else NamedIn(table[1..], name)
  }

  /** The register property called `name`, if there is one. */
  function Named(name: string): (d: Option<RegisterData>)
    ensures d.Some? ==> Entry(d.value) && d.value.name == name
  {
    var d := NamedIn(Registers(), name);
    if d.Some? then EntryKinds(d.value); d else d
  }

  /** Every property name is in the table, and no other name is. */
  lemma NamedFinds(name: string)
    ensures Named(name).Some? <==> exists i | 0 <= i < |Registers()| :: Registers()[i].name == name
  {
  }

  /** What the table promises of an entry: its channel exists, and the
      first three letters of its name say which of the channel's registers
      it is. */
  predicate Entry(d: RegisterData)
  {
    d.chan < NUM_CHANNELS && Serves(d.reg, d.chan) &&
    (HasPrefix(d.name, "idr") <==> d.reg == IdrOf(d.chan)) &&
    (HasPrefix(d.name, "odr") <==> d.reg == OdrOf(d.chan)) &&
    (HasPrefix(d.name, "str") <==> d.reg == StrOf(d.chan))
  }

  /** Every entry of the table keeps that promise. */
  lemma EntryKinds(d: RegisterData)
    requires d in Registers()
    ensures Entry(d)
  {
    var i :| 0 <= i < |Registers()| && Registers()[i] == d;
    if i < 6 {
      FirstEntries(i);
    } else {
      LastEntries(i);
    }
  }

  lemma FirstEntries(i: nat)
    requires i < 6
    ensures Entry(Registers()[i])
  {
    EntryByLetters(Registers()[i]);
  }

  lemma LastEntries(i: nat)
    requires 6 <= i < |Registers()|
    ensures Entry(Registers()[i])
  {
    EntryByLetters(Registers()[i]);
  }

  /** An entry whose name's first three letters match the register it
      names keeps the table's promise. */
  lemma EntryByLetters(d: RegisterData)
    requires 3 <= |d.name| && d.chan < NUM_CHANNELS
    requires || (d.name[0] == 'i' && d.name[1] == 'd' && d.name[2] == 'r' && d.reg == IdrOf(d.chan))
             || (d.name[0] == 'o' && d.name[1] == 'd' && d.name[2] == 'r' && d.reg == OdrOf(d.chan))
             || (d.name[0] == 's' && d.name[1] == 't' && d.name[2] == 'r' && d.reg == StrOf(d.chan))
    ensures Entry(d)
  {
    PrefixLetters(d.name, "idr");
    PrefixLetters(d.name, "odr");
    PrefixLetters(d.name, "str");
  }

  /** A name has a prefix exactly when it agrees with it letter by letter. */
  lemma {:induction false} PrefixLetters(name: string, p: string)
    requires |p| <= |name|
    ensures HasPrefix(name, p) <==> forall i | 0 <= i < |p| :: name[i] == p[i]
  {
    if |p| > 0 {
      PrefixLetters(name[1..], p[1..]);
      assert forall i | 1 <= i < |p| :: name[1..][i - 1] == name[i] && p[1..][i - 1] == p[i];
    }
  }

  /** `aspeed_kcs_get_register_data_by_name`: the table entry called
      `name`. */
  method FindByName(name: string) returns (d: Option<RegisterData>)
    ensures d == Named(name)
  {
    var i := 0;
    while i < |Registers()|
      invariant i <= |Registers()|
      invariant Named(name) == NamedIn(Registers()[i..], name)
    {
      if Registers()[i].name == name {
        return Some(Registers()[i]);
      }
      i := i + 1;
    }
    return None;
  }

  /** A reading of the property for entry `d`: reading an output data
      register this way takes the byte, as the host would, clearing OBF. */
  function PropertyGet(r: seq<bv32>, d: RegisterData): (r': seq<bv32>)
    requires Fits(r) && Entry(d)
    ensures |r'| == |r|
  {
    if HasPrefix(d.name, "odr") then HostRead(r, d.chan) else r
  }

  /** A setting of the property for entry `d` to `val`: a data register
      takes the value, a status register ignores it, and an input data
      register also sets IBF, as a host write would. */
  function PropertySet(r: seq<bv32>, d: RegisterData, val: bv32): (r': seq<bv32>)
    requires Fits(r) && Entry(d)
    ensures |r'| == |r|
  {
    var r1 := if !HasPrefix(d.name, "str") then r[d.reg := val] else r;
    if HasPrefix(d.name, "idr") then r1[StrOf(d.chan) := With(r1[StrOf(d.chan)], ST_IBF)] else r1
  }

  /** A value set through a data register's property reads back through
      the property; setting a status register's property changes nothing. */
  lemma PropertyRoundTrip(r: seq<bv32>, d: RegisterData, val: bv32)
    requires Fits(r) && Entry(d)
    ensures !HasPrefix(d.name, "str") ==> PropertyGet(PropertySet(r, d, val), d)[d.reg] == val
    ensures HasPrefix(d.name, "str") ==> PropertySet(r, d, val) == r
  {
  }

  /** Setting an input data register's property looks to the BMC like a
      host write: the register holds the value and IBF is set; nothing
      else changes. */
  lemma PropertySetIsHostWrite(r: seq<bv32>, d: RegisterData, val: bv32, j: nat)
    requires Fits(r) && Entry(d) && HasPrefix(d.name, "idr") && j < |r|
    ensures d.chan < NUM_CHANNELS && d.reg == IdrOf(d.chan)
    ensures PropertySet(r, d, val)[d.reg] == val && Has(PropertySet(r, d, val)[StrOf(d.chan)], ST_IBF)
    ensures j != d.reg && j != StrOf(d.chan) ==> PropertySet(r, d, val)[j] == r[j]
  {
  }

  /** The register file after a reset: all zero but HICR7, which takes the
      board's configured value. */
  function ResetRegs(n: nat, hicr7: bv32): (r: seq<bv32>)
    ensures |r| == n
  {
    seq(n, i => if i == HICR7 then hicr7 else 0)
  }

  /** After a reset every channel is disabled and idle, with no byte
      waiting in either direction. */
  lemma ResetQuiesces(n: nat, hicr7: bv32, ch: nat)
    requires n > STR4 && ch < NUM_CHANNELS
    ensures !ChannelEnabled(ResetRegs(n, hicr7), ch) && !IbfIrqEnabled(ResetRegs(n, hicr7), ch)
    ensures StateOf(ResetRegs(n, hicr7)[StrOf(ch)]) == IdleState
    ensures !Has(ResetRegs(n, hicr7)[StrOf(ch)], ST_OBF) && !Has(ResetRegs(n, hicr7)[StrOf(ch)], ST_IBF)
  {
  }

  /** `BIT(line)`: the bit of input line `line` in the pending word. */
  function Bit(line: bv5): bv32
  {
    (1 as bv32) << line
  }

  /** The interrupt-pending word with input line `line` at `level`. */
  function SetLine(pending: bv32, line: bv5, level: bool): bv32
  {
    if level then pending | Bit(line) else pending & !Bit(line)
  }

  /** Whether input line `line` is recorded as high. */
  predicate LineHigh(pending: bv32, line: bv5)
  {
    pending & Bit(line) != 0
  }

  /** Each line has a bit of its own. */
  lemma BitsApart(a: bv5, b: bv5)
    ensures Bit(a) != 0
    ensures a != b ==> Bit(a) & Bit(b) == 0
  {
  }

  /** Setting a line records its level. */
  lemma SetLineRecords(pending: bv32, line: bv5, level: bool)
    ensures LineHigh(SetLine(pending, line, level), line) == level
  {
    var m := Bit(line);
    BitsApart(line, line);
    SetKeepsMask(pending, m);
    ClearDropsMask(pending, m);
  }

  /** Setting a line leaves every other line's level as it was. */
  lemma SetLineKeepsOthers(pending: bv32, line: bv5, level: bool, other: bv5)
    requires other != line
    ensures LineHigh(SetLine(pending, line, level), other) == LineHigh(pending, other)
  {
    var m, o := Bit(line), Bit(other);
    BitsApart(line, other);
    SetKeepsOthers(pending, m, o);
    ClearKeepsOthers(pending, m, o);
    assert SetLine(pending, line, level) & o == pending & o;
  }

  lemma SetKeepsMask(p: bv32, m: bv32)
    requires m != 0
    ensures (p | m) & m != 0
  {
  }

  lemma ClearDropsMask(p: bv32, m: bv32)
    ensures (p & !m) & m == 0
  {
  }

  lemma SetKeepsOthers(p: bv32, m: bv32, o: bv32)
    requires m & o == 0
    ensures (p | m) & o == p & o
  {
  }

  lemma ClearKeepsOthers(p: bv32, m: bv32, o: bv32)
    requires m & o == 0
    ensures (p & !m) & o == p & o
  {
  }

  /** The four channels of a freshly realized controller. */
  method NewChannels(maxMsg: nat, hosts: seq<bool>) returns (cs: seq<Channel>)
    requires 0 < maxMsg && |hosts| == NUM_CHANNELS
    ensures |cs| == NUM_CHANNELS
    ensures forall i | 0 <= i < NUM_CHANNELS ::
      cs[i].id == i && cs[i].Valid() && cs[i].host == hosts[i] && cs[i].maxMsg == maxMsg
  {
    cs := [];
    while |cs| < NUM_CHANNELS
      invariant |cs| <= NUM_CHANNELS
      invariant forall i | 0 <= i < |cs| ::
        cs[i].id == i && cs[i].Valid() && cs[i].host == hosts[i] && cs[i].maxMsg == maxMsg
    {
      var c := new Channel(|cs|, maxMsg, hosts[|cs|]);
      cs := cs + [c];
    }
  }

  /** The LPC controller: its register file, its output interrupt and the
      pending word of its subdevice inputs, and its four KCS channels. */
  class Lpc {
    /** The reset value of HICR7, a board property. */
    const hicr7: bv32
    const regs: array<bv32>
    /** The KCS subdevice interrupt lines the channels drive. */
    const kcsIrq: array<bool>
    var pending: bv32
    var irq: bool
    const channels: seq<Channel>

    ghost predicate Valid()
      reads this, channels
    {
      regs.Length > STR4 && kcsIrq.Length == NUM_CHANNELS && |channels| == NUM_CHANNELS &&
      forall i | 0 <= i < NUM_CHANNELS :: channels[i].id == i && channels[i].Valid() && channels[i].Apart(this)
    }

    constructor (nrRegs: nat, hicr7: bv32, maxMsg: nat, hosts: seq<bool>)
      requires nrRegs > STR4 && 0 < maxMsg && |hosts| == NUM_CHANNELS
      ensures Valid() && fresh(regs) && fresh(kcsIrq) && this.hicr7 == hicr7
      ensures regs[..] == seq(nrRegs, _ => 0) && kcsIrq[..] == seq(NUM_CHANNELS, _ => false)
      ensures pending == 0 && !irq
      ensures forall i | 0 <= i < NUM_CHANNELS :: channels[i].host == hosts[i] && channels[i].maxMsg == maxMsg
    {
      var cs := NewChannels(maxMsg, hosts);
      channels := cs;
      this.hicr7 := hicr7;
      regs := new bv32[nrRegs](_ => 0);
      kcsIrq := new bool[NUM_CHANNELS](_ => false);
      pending := 0;
      irq := false;
    }

    /** `aspeed_lpc_set_irq`: a subdevice drives input line `line`. */
    method SetIrq(line: bv5, level: bool)
      modifies this
      ensures pending == SetLine(old(pending), line, level) && irq == (pending != 0)
    {
      if level {
        pending := pending | Bit(line);
      } else {
        pending := pending & !Bit(line);
      }
      irq := pending != 0;
    }

    /** The response buffers of the channels, which their events fill. */
    function Buffers(): set<array<bv8>>
    {
      set i | 0 <= i < |channels| :: channels[i].outmsg
    }

    /** `aspeed_lpc_read` at byte offset `offset`: the register's value;
        reading an input data register takes the byte, lowers the
        channel's interrupt if a byte was waiting, and runs the channel's
        event. */
    method Read(offset: nat) returns (res: bv32)
      requires Valid()
      modifies regs, kcsIrq, channels, Buffers()
      ensures Valid()
      ensures ToReg(offset) >= regs.Length ==> res == 0 && regs[..] == old(regs[..]) && kcsIrq[..] == old(kcsIrq[..])
      ensures ToReg(offset) < regs.Length ==> res == old(regs[ToReg(offset)])
      ensures ToReg(offset) < regs.Length && !IsIdr(ToReg(offset)) ==>
        regs[..] == old(regs[..]) && kcsIrq[..] == old(kcsIrq[..])
      ensures ToReg(offset) < regs.Length && IsIdr(ToReg(offset)) ==>
        var ch := ChannelOf(ToReg(offset));
        var c := channels[ch];
        var r := BmcRead(old(regs[..]), ToReg(offset));
        var o := Event(old(c.Snapshot()), r, ch, IbfIrqEnabled(r, ch), c.host, old(c.lastMsgId), c.maxMsg);
        c.Snapshot() == o.kcs && regs[..] == o.regs && c.sent == old(c.sent) + o.sent &&
        kcsIrq[..] == Raise(Lower(old(kcsIrq[..]), ch, Has(old(regs[StrOf(ch)]), ST_IBF)), ch, o.raised)
    {
      var reg := ToReg(offset);
      if reg >= regs.Length {
        return 0;
      }
      res := regs[reg];
      RegisterKinds(reg);
      if reg == IDR1 || reg == IDR2 || reg == IDR3 || reg == IDR4 {
        var found := ChannelOfRegister(reg);
        TakeInput(found.value);
      }
    }

    /** The input data register case of `aspeed_lpc_read` for channel
        `ch`. */
    method TakeInput(ch: nat)
      requires Valid() && ch < NUM_CHANNELS
      modifies regs, kcsIrq, channels[ch], channels[ch].outmsg
      ensures Valid()
      ensures var c := channels[ch];
        var r := BmcRead(old(regs[..]), IdrOf(ch));
        var o := Event(old(c.Snapshot()), r, ch, IbfIrqEnabled(r, ch), c.host, old(c.lastMsgId), c.maxMsg);
        c.Snapshot() == o.kcs && regs[..] == o.regs && c.sent == old(c.sent) + o.sent &&
        kcsIrq[..] == Raise(Lower(old(kcsIrq[..]), ch, Has(old(regs[StrOf(ch)]), ST_IBF)), ch, o.raised)
    {
      OwnRegisters(ch);
      var c := channels[ch];
      ghost var k := c.Snapshot();
      ghost var r := BmcRead(regs[..], IdrOf(ch));
      ghost var lines := Lower(kcsIrq[..], ch, Has(regs[StrOf(ch)], ST_IBF));
      if Has(regs[StrOf(ch)], ST_IBF) {
        kcsIrq[ch] := false;
      }
      regs[StrOf(ch)] := Without(regs[StrOf(ch)], ST_IBF);
      assert regs[..] == r && kcsIrq[..] == lines && c.Snapshot() == k;
      c.HandleEvent(this);
    }

    /** The output data register case of `aspeed_lpc_write` for channel
        `ch`, after the value is stored: OBF is set and the channel's event
        runs. */
    method GiveOutput(ch: nat)
      requires Valid() && ch < NUM_CHANNELS
      modifies regs, kcsIrq, channels[ch], channels[ch].outmsg
      ensures Valid()
      ensures var c := channels[ch];
        var r := old(regs[..])[StrOf(ch) := With(old(regs[StrOf(ch)]), ST_OBF)];
        var o := Event(old(c.Snapshot()), r, ch, IbfIrqEnabled(r, ch), c.host, old(c.lastMsgId), c.maxMsg);
        c.Snapshot() == o.kcs && regs[..] == o.regs && c.sent == old(c.sent) + o.sent &&
        kcsIrq[..] == Raise(old(kcsIrq[..]), ch, o.raised)
    {
      var c := channels[ch];
      ghost var k := c.Snapshot();
      regs[StrOf(ch)] := With(regs[StrOf(ch)], ST_OBF);
      assert c.Snapshot() == k;
      c.HandleEvent(this);
    }

    /** `aspeed_lpc_write` of `data` at byte offset `offset`, with the
        status register's read-only bits kept (`StrWrite`); writing an
        output data register sets OBF and runs the channel's event. */
    method Write(offset: nat, data: bv32)
      requires Valid()
      modifies regs, kcsIrq, channels, Buffers()
      ensures Valid()
      ensures ToReg(offset) >= regs.Length ==> regs[..] == old(regs[..]) && kcsIrq[..] == old(kcsIrq[..])
      ensures ToReg(offset) < regs.Length && !IsOdr(ToReg(offset)) ==>
        regs[..] == BmcWrite(old(regs[..]), ToReg(offset), data) && kcsIrq[..] == old(kcsIrq[..])
      ensures ToReg(offset) < regs.Length && IsOdr(ToReg(offset)) ==>
        var ch := ChannelOf(ToReg(offset));
        var c := channels[ch];
        var r := BmcWrite(old(regs[..]), ToReg(offset), data);
        var o := Event(old(c.Snapshot()), r, ch, IbfIrqEnabled(r, ch), c.host, old(c.lastMsgId), c.maxMsg);
        c.Snapshot() == o.kcs && regs[..] == o.regs && c.sent == old(c.sent) + o.sent &&
        kcsIrq[..] == Raise(old(kcsIrq[..]), ch, o.raised)
    {
      var reg := ToReg(offset);
      if reg >= regs.Length {
        return;
      }
      RegisterKinds(reg);
      var prior := regs[reg];
      regs[reg] := data;
      if reg == ODR1 || reg == ODR2 || reg == ODR3 || reg == ODR4 {
        var found := ChannelOfRegister(reg);
        GiveOutput(found.value);
      } else if reg == STR1 || reg == STR2 || reg == STR3 || reg == STR4 {
        regs[reg] := StrWrite(prior, data);
      }
    }

    /** `aspeed_kcs_get_register_property`: the value of the register
        property `name`, none for an unknown name; reading an output data
        register's property takes the byte. */
    method GetProperty(name: string) returns (val: Option<bv32>)
      requires Valid()
      modifies regs
      ensures Named(name).None? ==> val.None? && regs[..] == old(regs[..])
      ensures Named(name).Some? ==>
        regs[..] == PropertyGet(old(regs[..]), Named(name).value) && val == Some(regs[Named(name).value.reg])
    {
      var d := FindByName(name);
      if d.None? {
        return None;
      }
      if HasPrefix(name, "odr") {
        regs[StrOf(d.value.chan)] := Without(regs[StrOf(d.value.chan)], ST_OBF);
      }
      val := Some(regs[d.value.reg]);
    }

    /** `aspeed_kcs_set_register_property`: setting the register property
        `name` to `val`; an unknown name changes nothing, a status register
        ignores the value, and an input data register also sets IBF and
        raises the channel's interrupt when its IBF interrupt is enabled. */
    method SetProperty(name: string, val: bv32)
      requires Valid()
      modifies regs, kcsIrq
      ensures Named(name).None? ==> regs[..] == old(regs[..]) && kcsIrq[..] == old(kcsIrq[..])
      ensures Named(name).Some? ==>
        var d := Named(name).value;
        regs[..] == PropertySet(old(regs[..]), d, val) &&
        kcsIrq[..] == Raise(old(kcsIrq[..]), d.chan, HasPrefix(d.name, "idr") && IbfIrqEnabled(regs[..], d.chan))
    {
      var d := FindByName(name);
      if d.None? {
        return;
      }
      var ch := d.value.chan;
      if !HasPrefix(name, "str") {
        regs[d.value.reg] := val;
      }
      if HasPrefix(name, "idr") {
        regs[StrOf(ch)] := With(regs[StrOf(ch)], ST_IBF);
        if IbfIrqEnabled(regs[..], ch) {
          kcsIrq[ch] := true;
        }
      }
    }

    /** `aspeed_lpc_reset`. */
    method Reset()
      requires Valid()
      modifies this, regs
      ensures Valid() && regs[..] == ResetRegs(regs.Length, hicr7) && pending == 0 && irq == old(irq)
    {
      pending := 0;
      forall i | 0 <= i < regs.Length {
        regs[i] := 0;
      }
      regs[HICR7] := hicr7;
    }
  }
}
