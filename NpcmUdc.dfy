/**
 * The Nuvoton NPCM USB 2.0 device controller: a file of thirteen 32-bit
 * registers (in the order of `NPCMUDCRegisters`) behind a memory-mapped
 * window, a run/attach state machine driven by the guest and by a usbredir
 * host, and one interrupt line.
 *
 * Guest memory is a map from byte addresses to the 32-bit words the device
 * reads and writes there, held as numbers (queue heads, transfer descriptors, setup words);
 * the data bytes of a received packet are logged as payloads, and every call
 * into the usbredir host is logged as a `HostCall`. The TX endpoints whose
 * buffers the host reports as completely sent form the parameter
 * `delivered`.
 */
module NpcmUdc {

  import opened Wrappers
  import opened Words

  // ---------------------------------------------------------------------
  // Registers, offsets and bits
  // ---------------------------------------------------------------------

  // Indices into the register file.
  const COMMAND: nat := 0
  const STATUS: nat := 1
  const INTERRUPT_ENABLE: nat := 2
  const LIST_ADDRESS: nat := 3
  const PORT_STATUS: nat := 4
  const MODE: nat := 5
  const SETUP_STATUS: nat := 6
  const PRIME: nat := 7
  const ENDPOINT_STATUS: nat := 8
  const COMPLETE: nat := 9
  const EP0_CONTROL: nat := 10
  const EP1_CONTROL: nat := 11
  const EP2_CONTROL: nat := 12
  const NUM_REGS: nat := 13

  type Regs = r: seq<bv32> | |r| == NUM_REGS witness [0, 0, 0, 0, 0, 0, 0, 0, 0, 0, 0, 0, 0]

  // Offsets in the memory-mapped window.
  const A_DCCPARAMS: int := 0x124
  const A_USBCMD: int := 0x140
  const A_USBSTS: int := 0x144
  const A_USBINTR: int := 0x148
  const A_ENDPOINTLISTADDR: int := 0x158
  const A_PORTSC1: int := 0x184
  const A_USBMODE: int := 0x1A8
  const A_ENDPTSETUPSTAT: int := 0x1AC
  const A_ENDPTPRIME: int := 0x1B0
  const A_ENDPTFLUSH: int := 0x1B4
  const A_ENDPTSTAT: int := 0x1B8
  const A_ENDPTCOMPLETE: int := 0x1BC
  const A_ENDPTCTRL0: int := 0x1C0
  const A_ENDPTCTRL1: int := 0x1C4
  const A_ENDPTCTRL2: int := 0x1C8

  // Initial values.
  const DCCPARAMS_INIT_VALUE: bv32 := 0x83
  const USBCMD_INIT_VALUE: bv32 := 0x8_0002
  const PORTSC1_INIT_VALUE: bv32 := 0x900_0204
  const USBMODE_INIT_VALUE: bv32 := 0x1_5002
  const ENDPTCTRL0_INIT_VALUE: bv32 := 0x80_0080

  // Register fields.
  const USBCMD_RUN: bv32 := 0x1
  const USBCMD_RESET: bv32 := 0x2
  const USBSTS_USB_INTERRUPT: bv32 := 0x1
  const USBSTS_PORT_CHANGE_DETECT: bv32 := 0x4
  const USBSTS_SYSTEM_ERROR: bv32 := 0x10
  const USBSTS_DCSUSPEND: bv32 := 0x100
  const USBSTS_NAK_INTERRUPT: bv32 := 0x1_0000
  const PORTSC1_CURRENT_CONNECT_STATUS: bv32 := 0x1
  /** Connect status, suspend, port reset, high speed, line status, port
      speed and serial transceiver select. */
  const PORTSC1_READ_ONLY: bv32 := 0x1 | 0x80 | 0x100 | 0x200 | 0xC00 | 0xC00_0000 | 0x2000_0000
  /** RX_ENABLE and TX_ENABLE. */
  const ENDPTCTRL0_READ_ONLY: bv32 := 0x80 | 0x80_0000
  const ENDPT_RX_BUFFER: bv32 := 0x7F
  const ENDPT_TX_BUFFER: bv32 := 0x7F_0000
  /** `sizeof(QueueHead)`. */
  const QUEUE_HEAD_SIZE: int := 64
  /** Each endpoint has an RX and a TX queue head, in that order. */
  const QUEUE_HEAD_PAIR_SIZE: int := 2 * QUEUE_HEAD_SIZE

  // ---------------------------------------------------------------------
  // Guest memory
  // ---------------------------------------------------------------------

  /** The number whose binary digits are the low `n` bits of `p`. */
  function Bits(p: bv32, n: nat): nat
  {
    if n == 0 then 0 else (if p & 1 == 1 then 1 else 0) + 2 * Bits(p >> 1, n - 1)
  }

  /** A register value as a guest address. */
  function Addr(p: bv32): nat
  {
    Bits(p, 32)
  }

  /** The word of guest memory at `a` (zero where nothing is mapped). */
  function Load(mem: map<int, Word>, a: int): Word
  {
    if a in mem then mem[a] else 0
  }

  /** The info word of a transfer descriptor the device has finished with:
      interrupt-on-complete, zero bytes left, no status bits. */
  const TD_INFO_INTERRUPT_ON_COMPLETE: Word := 0x8000

  /** The byte count field of a transfer descriptor's info word (bits 16 to
      30, mask 0x7FFF0000). */
  function TotalBytes(info: Word): nat
  {
    info / 0x1_0000 % 0x8000
  }

  // ---------------------------------------------------------------------
  // Register rules shared by the write handlers
  // ---------------------------------------------------------------------

  /** A write of `value` over `prior` to a register with read-only bits
      `ro`. */
  function KeepReadOnly(prior: bv32, value: bv32, ro: bv32): bv32
  {
    Without(value, ro) | (prior & ro)
  }

  /** The read-only bits keep their old value and every other bit takes the
      written one. */
  lemma ReadOnlyBitsKept(prior: bv32, value: bv32, ro: bv32)
    ensures KeepReadOnly(prior, value, ro) & ro == prior & ro
    ensures KeepReadOnly(prior, value, ro) & !ro == value & !ro
  {
  }

  /** The bits a USBSTS write can neither set nor clear. */
  const STATUS_KEPT: bv32 := USBSTS_SYSTEM_ERROR | USBSTS_NAK_INTERRUPT
  /** The write-1-to-clear bits of USBSTS. */
  const STATUS_W1C: bv32 := !(USBSTS_SYSTEM_ERROR | USBSTS_NAK_INTERRUPT | USBSTS_DCSUSPEND)

  /** USBSTS after the guest writes `value` over `status`. */
  function StatusWrite(status: bv32, value: bv32): bv32
  {
    var v := Without(Without(value, USBSTS_SYSTEM_ERROR), USBSTS_NAK_INTERRUPT);
    var s := Without(status, v);
    if Has(v, USBSTS_DCSUSPEND) then With(s, USBSTS_DCSUSPEND) else Without(s, USBSTS_DCSUSPEND)
  }

  /** SYSTEM_ERROR and NAK ignore the write, DCSUSPEND takes the written bit,
      and every other written 1 clears its bit. */
  lemma StatusWriteBits(status: bv32, value: bv32)
    ensures StatusWrite(status, value) & USBSTS_DCSUSPEND == value & USBSTS_DCSUSPEND
    ensures StatusWrite(status, value) & STATUS_KEPT == status & STATUS_KEPT
    ensures StatusWrite(status, value) & STATUS_W1C == status & !value & STATUS_W1C
  {
  }

  /** The level driven on the interrupt line. */
  predicate IrqLevel(running: bool, enable: bv32, status: bv32)
  {
    running && Has(enable, status)
  }

  // ---------------------------------------------------------------------
  // Device state
  // ---------------------------------------------------------------------

  /** A call into the usbredir host. */
  datatype HostCall =
    | AttachComplete
      /** `size` bytes at guest address `buffer` answer a control transfer
          (`0, 0` for the empty answer). */
    | ControlTransferComplete(buffer: Word, size: nat)
      /** `size` bytes at `buffer` go to the host on endpoint `ep`. */
    | DataInComplete(ep: nat, buffer: Word, size: nat)
      /** Endpoint `ep` is ready for the next packet from the host. */
    | DataOutComplete(ep: nat)

  /** Bytes stored into guest memory at `address`. */
  datatype Payload = Payload(address: Word, data: seq<bv8>)

  datatype Udc = Udc(
    regs: Regs,
    running: bool,
    attached: bool,
    irq: bool,
    nextRxTd: Word,
    mem: map<int, Word>,
    payloads: seq<Payload>,
    calls: seq<HostCall>)

  /** The level the line should have in state `s`. */
  predicate Level(s: Udc)
  {
    IrqLevel(s.running, s.regs[INTERRUPT_ENABLE], s.regs[STATUS])
  }

  /** The line agrees with the state. */
  predicate IrqConsistent(s: Udc)
  {
    s.irq == Level(s)
  }

  /** `npcm_udc_update_irq`. */
  function IrqUpdated(s: Udc): (t: Udc)
    ensures IrqConsistent(t)
  {
    s.(irq := Level(s))
  }

  /** Index of the register behind each offset of the window. DCCPARAMS and
      ENDPTFLUSH have no storage. */
  function IndexOf(offset: int): (i: Option<nat>)
    ensures i.Some? ==> i.value < NUM_REGS && OffsetOf(i.value) == offset
  {
    if offset == A_USBCMD then Some(COMMAND)
    else if offset == A_USBSTS then Some(STATUS)
    else if offset == A_USBINTR then Some(INTERRUPT_ENABLE)
    else if offset == A_ENDPOINTLISTADDR then Some(LIST_ADDRESS)
    else if offset == A_PORTSC1 then Some(PORT_STATUS)
    else if offset == A_USBMODE then Some(MODE)
    else if offset == A_ENDPTSETUPSTAT then Some(SETUP_STATUS)
    else if offset == A_ENDPTPRIME then Some(PRIME)
    else if offset == A_ENDPTSTAT then Some(ENDPOINT_STATUS)
    else if offset == A_ENDPTCOMPLETE then Some(COMPLETE)
    else if offset == A_ENDPTCTRL0 then Some(EP0_CONTROL)
    else if offset == A_ENDPTCTRL1 then Some(EP1_CONTROL)
    else if offset == A_ENDPTCTRL2 then Some(EP2_CONTROL)
    else None
  }

  /** Offset of register `i`. */
  function OffsetOf(i: nat): int
    requires i < NUM_REGS
  {
    [A_USBCMD, A_USBSTS, A_USBINTR, A_ENDPOINTLISTADDR, A_PORTSC1, A_USBMODE, A_ENDPTSETUPSTAT,
     A_ENDPTPRIME, A_ENDPTSTAT, A_ENDPTCOMPLETE, A_ENDPTCTRL0, A_ENDPTCTRL1, A_ENDPTCTRL2][i]
  }

  /** Every register has its own offset. */
  lemma OffsetsIndexRegisters(i: nat)
    requires i < NUM_REGS
    ensures IndexOf(OffsetOf(i)) == Some(i)
  {
  }

  // ---------------------------------------------------------------------
  // Reset and the guest-visible handlers
  // ---------------------------------------------------------------------

  /** The register file after `npcm_udc_reset`. */
  function ResetRegisters(): Regs
  {
    [USBCMD_INIT_VALUE & !USBCMD_RESET, 0, 0, 0, PORTSC1_INIT_VALUE, USBMODE_INIT_VALUE,
     0, 0, 0, 0, ENDPTCTRL0_INIT_VALUE, 0, 0]
  }

  /** `npcm_udc_reset`, with the interrupt line brought in line with the
      stopped device (see `AfterResetAsWritten`). */
  function AfterReset(s: Udc): Udc
  {
    IrqUpdated(s.(regs := ResetRegisters(), running := false))
  }

  /** `npcm_udc_reset` as written: the line keeps whatever level it had. */
  function AfterResetAsWritten(s: Udc): Udc
  {
    s.(regs := ResetRegisters(), running := false)
  }

  /** Sets the connect status and the port change bit. */
  function Connect(r: Regs): Regs
  {
    r[PORT_STATUS := With(r[PORT_STATUS], PORTSC1_CURRENT_CONNECT_STATUS)]
     [STATUS := With(r[STATUS], USBSTS_PORT_CHANGE_DETECT)]
  }

  /** The run/stop step of a USBCMD write, once the command is stored. */
  function RunStop(s: Udc): Udc
  {
    var run := Has(s.regs[COMMAND], USBCMD_RUN);
    if s.running == run then s
    else
      var t := s.(running := run);
      IrqUpdated(if run && t.attached then t.(regs := Connect(t.regs)) else t)
  }

  /** `npcm_udc_write_usbcmd`. */
  function AfterUsbCmd(s: Udc, value: bv32): Udc
  {
    var t := s.(regs := s.regs[COMMAND := value]);
    RunStop(if Has(value, USBCMD_RESET) then AfterReset(t) else t)
  }

  /** `npcm_udc_write_usbcmd` as written, with the reset that leaves the
      line alone. */
  function AfterUsbCmdAsWritten(s: Udc, value: bv32): Udc
  {
    var t := s.(regs := s.regs[COMMAND := value]);
    RunStop(if Has(value, USBCMD_RESET) then AfterResetAsWritten(t) else t)
  }

  /** `npcm_udc_write_usbsts`: the status rule, then a port change
      acknowledged while running and attached completes the attachment. */
  function AfterUsbSts(s: Udc, value: bv32): Udc
  {
    IrqUpdated(Acknowledged(StatusStored(s, value), value))
  }

  /** A running, attached device whose port-change bit the guest clears
      tells the host the attach is complete. */
  function Acknowledged(s: Udc, value: bv32): Udc
  {
    if s.running && s.attached && Has(value, USBSTS_PORT_CHANGE_DETECT)
    then s.(calls := s.calls + [AttachComplete])
    else s
  }

  /** USBSTS takes the status rule of a write of `value`. */
  function StatusStored(s: Udc, value: bv32): Udc
  {
    s.(regs := s.regs[STATUS := StatusWrite(s.regs[STATUS], value)])
  }

  // ---------------------------------------------------------------------
  // Endpoint priming
  // ---------------------------------------------------------------------

  /** The RX endpoints of an ENDPTPRIME value: its 7-bit field at bit 0. */
  function RxEndpoints(value: bv32): nat
  {
    Bits(value, 7)
  }

  /** The TX endpoints of an ENDPTPRIME value: its 7-bit field at bit 16. */
  function TxEndpoints(value: bv32): nat
  {
    Bits(value >> 16, 7)
  }

  /** The positions, counted from `ep`, of the set bits of `x`, lowest
      first: the endpoints the bitmap loops visit. */
  function Ones(x: nat, ep: nat): seq<nat>
    decreases x
  {
    if x == 0 then []
    else (if x % 2 == 1 then [ep] else []) + Ones(x / 2, ep + 1)
  }

  /** `npcm_udc_send_data` for TX endpoint `ep`, whose queue head is at
      `qh`: the host receives the first buffer of the descriptor the queue
      head points at; a complete send clears the descriptor's status. */
  function AfterSend(s: Udc, ep: nat, qh: int, delivered: set<nat>): Udc
  {
    var td: int := Load(s.mem, qh + 8);
    var t := s.(calls := s.calls + [SendCall(s.mem, ep, qh)]);
    if ep in delivered then t.(mem := t.mem[Wrap(td + 4) := TD_INFO_INTERRUPT_ON_COMPLETE]) else t
  }

  /** The call that hands the host the buffer of the descriptor the TX queue
      head at `qh` points at: a control transfer answer on endpoint 0, IN
      data on any other. */
  function SendCall(mem: map<int, Word>, ep: nat, qh: int): HostCall
  {
    var td: int := Load(mem, qh + 8);
    var size := TotalBytes(Load(mem, td + 4));
    var buffer := Load(mem, td + 8);
    if ep == 0 then ControlTransferComplete(buffer, size) else DataInComplete(ep, buffer, size)
  }

  /** The TX loop of `npcm_udc_write_endptprime` from endpoint `ep` with the
      bitmap shifted down to `tx`; the TX queue heads start at `base`. */
  function TxPass(s: Udc, tx: nat, ep: nat, base: int, delivered: set<nat>): Udc
    decreases tx
  {
    if tx == 0 then s
    else
      var t := if tx % 2 == 1 then AfterSend(s, ep, base + ep * QUEUE_HEAD_PAIR_SIZE, delivered) else s;
      TxPass(t, tx / 2, ep + 1, base, delivered)
  }

  /** The call the RX loop makes for endpoint `ep`, whose bit is the low bit
      of `rx`. */
  function ReadyCall(rx: nat, ep: nat): seq<HostCall>
  {
    if rx % 2 == 1 then [DataOutComplete(ep)] else []
  }

  /** The RX loop of `npcm_udc_write_endptprime`. */
  function RxCalls(rx: nat, ep: nat): seq<HostCall>
    decreases rx
  {
    if rx == 0 then [] else ReadyCall(rx, ep) + RxCalls(rx / 2, ep + 1)
  }

  /** One turn of the RX loop. */
  lemma RxCallsStep(out: seq<HostCall>, rx: nat, ep: nat)
    requires rx != 0
    ensures out + RxCalls(rx, ep) == (out + ReadyCall(rx, ep)) + RxCalls(rx / 2, ep + 1)
  {
    assert RxCalls(rx, ep) == ReadyCall(rx, ep) + RxCalls(rx / 2, ep + 1);
  }

  /** The TX queue head of endpoint 0 follows its RX one (a `uint32_t`
      sum). */
  function TxBase(list: bv32): Word
  {
    Wrap(Addr(list) + QUEUE_HEAD_SIZE)
  }

  /** The primed RX buffers show in ENDPTSTAT and the primed TX buffers in
      ENDPTCOMPLETE. */
  function PrimeMarked(s: Udc, value: bv32): Udc
  {
    s.(regs := s.regs[ENDPOINT_STATUS := With(s.regs[ENDPOINT_STATUS], value & ENDPT_RX_BUFFER)]
                     [COMPLETE := With(s.regs[COMPLETE], value & ENDPT_TX_BUFFER)])
  }

  /** The USB interrupt status bit is raised. */
  function Interrupted(s: Udc): Udc
  {
    s.(regs := s.regs[STATUS := With(s.regs[STATUS], USBSTS_USB_INTERRUPT)])
  }

  /** `npcm_udc_write_endptprime`. */
  function AfterPrime(s: Udc, value: bv32, delivered: set<nat>): Udc
  {
    if !s.running || !s.attached then s
    else
      var t := TxPass(PrimeMarked(s, value), TxEndpoints(value), 0, TxBase(s.regs[LIST_ADDRESS]), delivered);
      IrqUpdated(Interrupted(t.(calls := t.calls + RxCalls(RxEndpoints(value), 0))))
  }

  // ---------------------------------------------------------------------
  // Read and write dispatch
  // ---------------------------------------------------------------------

  /** `npcm_udc_read`. */
  function ReadValue(s: Udc, offset: int): bv32
  {
    if offset == A_DCCPARAMS then DCCPARAMS_INIT_VALUE
    else if offset == A_ENDPTFLUSH then 0
    else match IndexOf(offset)
      case Some(i) => s.regs[i]
      case None => 0
  }

  /** `npcm_udc_write`. */
  function AfterWrite(s: Udc, offset: int, value: bv32, delivered: set<nat>): Udc
  {
    var r := s.regs;
    if offset == A_USBCMD then AfterUsbCmd(s, value)
    else if offset == A_USBSTS then AfterUsbSts(s, value)
    else if offset == A_USBINTR then IrqUpdated(s.(regs := r[INTERRUPT_ENABLE := value]))
    else if offset == A_ENDPOINTLISTADDR then s.(regs := r[LIST_ADDRESS := value])
    else if offset == A_PORTSC1 then s.(regs := r[PORT_STATUS := KeepReadOnly(r[PORT_STATUS], value, PORTSC1_READ_ONLY)])
    else if offset == A_USBMODE then s.(regs := r[MODE := value])
    else if offset == A_ENDPTSETUPSTAT then s.(regs := r[SETUP_STATUS := Without(r[SETUP_STATUS], value)])
    else if offset == A_ENDPTPRIME then AfterPrime(s, value, delivered)
    else if offset == A_ENDPTFLUSH then s.(regs := r[ENDPOINT_STATUS := Without(r[ENDPOINT_STATUS], value)])
    else if offset == A_ENDPTCOMPLETE then s.(regs := r[COMPLETE := Without(r[COMPLETE], value)])
    else if offset == A_ENDPTCTRL0 then s.(regs := r[EP0_CONTROL := KeepReadOnly(r[EP0_CONTROL], value, ENDPTCTRL0_READ_ONLY)])
    else if offset == A_ENDPTCTRL1 then s.(regs := r[EP1_CONTROL := value])
    else if offset == A_ENDPTCTRL2 then s.(regs := r[EP2_CONTROL := value])
    else s  // DCCPARAMS, ENDPTSTAT and unsupported offsets
  }

  // ---------------------------------------------------------------------
  // usbredir host callbacks
  // ---------------------------------------------------------------------

  /** `npcm_udc_usbredir_attach`. */
  function AfterAttach(s: Udc): Udc
  {
    var t := s.(attached := true);
    IrqUpdated(if s.running then t.(regs := Connect(t.regs)) else t)
  }

  /** `npcm_udc_usbredir_detach`. */
  function AfterDetach(s: Udc): Udc
  {
    var t := s.(attached := false);
    IrqUpdated(if s.running then
      t.(regs := t.regs[PORT_STATUS := PORTSC1_INIT_VALUE][STATUS := With(t.regs[STATUS], USBSTS_PORT_CHANGE_DETECT)])
    else t)
  }

  /** `npcm_udc_usbredir_reset`: ignored while attached. */
  function AfterRedirReset(s: Udc): Udc
  {
    if s.attached then s else AfterReset(s)
  }

  /** First setup word: bmRequestType, bRequest and wValue. */
  function Setup1(requestType: bv8, request: bv8, value: bv16): Word
  {
    requestType as int + request as int * 0x100 + value as int * 0x1_0000
  }

  /** Second setup word: wIndex and wLength. */
  function Setup2(index: bv16, length: bv16): Word
  {
    index as int + length as int * 0x1_0000
  }

  /** The four bytes of `w` in memory order, lowest first. */
  function LittleEndian(w: Word): seq<int>
  {
    [w % 0x100, w / 0x100 % 0x100, w / 0x1_0000 % 0x100, w / 0x100_0000]
  }

  /** The eight-byte setup packet of section 9.3 of the USB 2.0
      specification: bmRequestType, bRequest, then wValue, wIndex and
      wLength, each low byte first. */
  function SetupPacket(requestType: bv8, request: bv8, value: bv16, index: bv16, length: bv16): seq<int>
  {
    [requestType as int, request as int, value as int % 0x100, value as int / 0x100,
     index as int % 0x100, index as int / 0x100, length as int % 0x100, length as int / 0x100]
  }

  /** The endpoint number of a USB endpoint address. */
  function EndpointNumber(address: bv8): nat
  {
    Bits((address & 0x0F) as bv32, 4)
  }

  /** `npcm_udc_usbredir_control_transfer`: a control transfer on a
      non-zero endpoint is answered empty at once; the setup words go into
      the queue head of endpoint 0 and endpoint 0's setup status is set. */
  function AfterControlTransfer(s: Udc, endpoint: bv8, requestType: bv8, request: bv8,
                                value: bv16, index: bv16, length: bv16): Udc
  {
    var t := if EndpointNumber(endpoint) != 0 then s.(calls := s.calls + [ControlTransferComplete(0, 0)]) else s;
    IrqUpdated(Interrupted(SetupStored(t, requestType, request, value, index, length)))
  }

  /** `npcm_udc_control_transfer` up to the status bit: the two setup words
      go into the setup field of the queue head of endpoint 0 (offsets 40 and
      44, `uint32_t` sums) and endpoint 0's setup status is set. */
  function SetupStored(s: Udc, requestType: bv8, request: bv8, value: bv16, index: bv16, length: bv16): Udc
  {
    var qh: int := Addr(s.regs[LIST_ADDRESS]);
    s.(mem := s.mem[Wrap(qh + 40) := Setup1(requestType, request, value)]
                   [Wrap(qh + 44) := Setup2(index, length)],
       regs := s.regs[SETUP_STATUS := With(s.regs[SETUP_STATUS], 1)])
  }

  /** The info word a receive descriptor with info `info` gets back once
      `n` bytes have landed: the upper half of `info` reduced by `n` in
      32-bit arithmetic and shifted back into place (so only its low 16 bits
      survive), with interrupt-on-complete. */
  function RxInfo(info: Word, n: nat): Word
  {
    (info / 0x1_0000 - n) % 0x1_0000 * 0x1_0000 + TD_INFO_INTERRUPT_ON_COMPLETE
  }

  /** The bit in ENDPTCOMPLETE of the endpoint with USB address
      `endpoint` (`1 << ep_num`). */
  function CompleteBit(endpoint: bv8): bv32
  {
    (1 as bv32) << (endpoint & 0x0F)
  }

  /** The descriptor a packet for endpoint `ep` lands in: the one saved from
      the previous packet, or the first one of the endpoint's RX queue head. */
  function CurrentRxTd(s: Udc, ep: nat): Word
  {
    if s.nextRxTd != 0 then s.nextRxTd
    else Load(s.mem, Addr(s.regs[LIST_ADDRESS]) + ep * QUEUE_HEAD_PAIR_SIZE + 8)
  }

  /** The registers after a packet for `endpoint` has landed: its
      completion bit and the interrupt are raised and the RX buffers are no
      longer primed. */
  function DataOutRegs(r: Regs, endpoint: bv8): Regs
  {
    r[COMPLETE := With(r[COMPLETE], CompleteBit(endpoint))]
     [ENDPOINT_STATUS := Without(r[ENDPOINT_STATUS], ENDPT_RX_BUFFER)]
     [STATUS := With(r[STATUS], USBSTS_USB_INTERRUPT)]
  }

  /** The packet `data` for `endpoint` lands in the buffer of the current
      descriptor, whose info word takes the remaining byte count; a valid
      next pointer is kept for the next packet. */
  function Landed(s: Udc, endpoint: bv8, data: seq<bv8>): Udc
  {
    var td: int := CurrentRxTd(s, EndpointNumber(endpoint));
    var next := Load(s.mem, td);
    s.(mem := s.mem[Wrap(td + 4) := RxInfo(Load(s.mem, td + 4), |data|)],
       payloads := s.payloads + [Payload(Load(s.mem, td + 8), data)],
       nextRxTd := if next % 2 == 0 then next else 0)
  }

  /** `npcm_udc_usbredir_write_data`. */
  function AfterDataOut(s: Udc, endpoint: bv8, data: seq<bv8>): Udc
  {
    var t := Landed(s, endpoint, data);
    IrqUpdated(t.(regs := DataOutRegs(t.regs, endpoint)))
  }

  // ---------------------------------------------------------------------
  // The device
  // ---------------------------------------------------------------------

  class Controller {
    const regs: array<bv32>
    var running: bool
    var attached: bool
    /** The level last driven on the interrupt line. */
    var irq: bool
    var nextRxTd: Word
    var mem: map<int, Word>
    var payloads: seq<Payload>
    var calls: seq<HostCall>

    predicate Valid()
      reads this
    {
      regs.Length == NUM_REGS
    }

    function Snapshot(): Udc
      requires Valid()
      reads this, regs
    {
      Udc(regs[..], running, attached, irq, nextRxTd, mem, payloads, calls)
    }

    /** A device fresh from reset, detached, over guest memory `mem`. */
    constructor(mem: map<int, Word>)
      ensures Valid() && fresh(regs)
      ensures Snapshot() == Udc(ResetRegisters(), false, false, false, 0, mem, [], [])
    {
      regs := new bv32[NUM_REGS];
      attached := false;
      nextRxTd := 0;
      this.mem := mem;
      payloads := [];
      calls := [];
      new;
      Reset();
    }

    /** `npcm_udc_update_irq`. */
    method UpdateIrq()
      requires Valid()
      modifies this
      ensures Valid() && Snapshot() == IrqUpdated(old(Snapshot()))
    {
      irq := running && Has(regs[INTERRUPT_ENABLE], regs[STATUS]);
    }

    /** The clearing loop of `npcm_udc_reset`. */
    method ClearRegisters()
      modifies regs
      ensures forall j :: 0 <= j < regs.Length ==> regs[j] == 0
    {
      for i := 0 to regs.Length
        invariant forall j :: 0 <= j < i ==> regs[j] == 0
      {
        regs[i] := 0;
      }
    }

    /** `npcm_udc_reset`, followed by an update of the interrupt line. */
    method Reset()
      requires Valid()
      modifies this, regs
      ensures Valid() && Snapshot() == AfterReset(old(Snapshot()))
    {
      running := false;
      ClearRegisters();
      regs[STATUS] := 0;
      regs[INTERRUPT_ENABLE] := 0;
      regs[LIST_ADDRESS] := 0;
      regs[PORT_STATUS] := PORTSC1_INIT_VALUE;
      regs[MODE] := USBMODE_INIT_VALUE;
      regs[EP0_CONTROL] := ENDPTCTRL0_INIT_VALUE;
      regs[EP1_CONTROL] := 0;
      regs[EP2_CONTROL] := 0;
      regs[COMMAND] := USBCMD_INIT_VALUE & !USBCMD_RESET;
      assert regs[..] == ResetRegisters();
      UpdateIrq();
    }

    /** `npcm_udc_write_usbcmd`. */
    method WriteUsbCmd(value: bv32)
      requires Valid()
      modifies this, regs
      ensures Valid() && Snapshot() == AfterUsbCmd(old(Snapshot()), value)
    {
      regs[COMMAND] := value;
      if Has(regs[COMMAND], USBCMD_RESET) {
        Reset();
      }
      var run := Has(regs[COMMAND], USBCMD_RUN);
      if running != run {
        running := run;
        if running && attached {
          regs[PORT_STATUS] := With(regs[PORT_STATUS], PORTSC1_CURRENT_CONNECT_STATUS);
          regs[STATUS] := With(regs[STATUS], USBSTS_PORT_CHANGE_DETECT);
        }
        UpdateIrq();
      }
    }

    /** `npcm_udc_write_usbsts`. */
    method WriteUsbSts(value: bv32)
      requires Valid()
      modifies this, regs
      ensures Valid() && Snapshot() == AfterUsbSts(old(Snapshot()), value)
    {
      StoreStatus(value);
      Acknowledge(value);
      UpdateIrq();
    }

    /** The attach acknowledgement of `npcm_udc_write_usbsts`. */
    method Acknowledge(value: bv32)
      requires Valid()
      modifies this
      ensures Valid() && Snapshot() == Acknowledged(old(Snapshot()), value)
    {
      if running && attached && Has(value, USBSTS_PORT_CHANGE_DETECT) {
        calls := calls + [AttachComplete];
      }
    }

    /** The register store of `npcm_udc_write_usbsts`. */
    method StoreStatus(value: bv32)
      requires Valid()
      modifies regs
      ensures Valid() && Snapshot() == StatusStored(old(Snapshot()), value)
    {
      regs[STATUS] := StatusWrite(regs[STATUS], value);
    }

    /** `npcm_udc_write_portsc1`. */
    method WritePortsc1(value: bv32)
      requires Valid()
      modifies regs
      ensures regs[..] == old(regs[..])[PORT_STATUS := KeepReadOnly(old(regs[PORT_STATUS]), value, PORTSC1_READ_ONLY)]
    {
      regs[PORT_STATUS] := KeepReadOnly(regs[PORT_STATUS], value, PORTSC1_READ_ONLY);
    }

    /** `npcm_udc_write_endptctrl0`. */
    method WriteEndptCtrl0(value: bv32)
      requires Valid()
      modifies regs
      ensures regs[..] == old(regs[..])[EP0_CONTROL := KeepReadOnly(old(regs[EP0_CONTROL]), value, ENDPTCTRL0_READ_ONLY)]
    {
      regs[EP0_CONTROL] := KeepReadOnly(regs[EP0_CONTROL], value, ENDPTCTRL0_READ_ONLY);
    }

    /** `npcm_udc_send_data` for the TX queue head at `qh`. */
    method SendData(ep: nat, qh: int, delivered: set<nat>)
      requires Valid()
      modifies this
      ensures Valid() && Snapshot() == AfterSend(old(Snapshot()), ep, qh, delivered)
    {
      var td: int := Load(mem, qh + 8);
      var size := TotalBytes(Load(mem, td + 4));
      var buffer := Load(mem, td + 8);
      if ep == 0 {
        calls := calls + [ControlTransferComplete(buffer, size)];
      } else {
        calls := calls + [DataInComplete(ep, buffer, size)];
      }
      if ep in delivered {
        mem := mem[Wrap(td + 4) := TD_INFO_INTERRUPT_ON_COMPLETE];
      }
    }

    /** The TX loop of `npcm_udc_write_endptprime`: one send for each set
        bit of the TX bitmap `primed`, lowest first. */
    method SendPrimed(primed: nat, base: int, delivered: set<nat>)
      requires Valid()
      modifies this
      ensures Valid() && Snapshot() == TxPass(old(Snapshot()), primed, 0, base, delivered)
    {
      ghost var s0 := Snapshot();
      var tx := primed;
      var ep := 0;
      while tx != 0
        invariant Valid()
        invariant TxPass(Snapshot(), tx, ep, base, delivered) == TxPass(s0, primed, 0, base, delivered)
        decreases tx
      {
        if tx % 2 == 1 {
          SendData(ep, base + ep * QUEUE_HEAD_PAIR_SIZE, delivered);
        }
        ep := ep + 1;
        tx := tx / 2;
      }
    }

    /** The RX loop of `npcm_udc_write_endptprime`: the calls telling the
        host that each endpoint of the RX bitmap `primed` is ready again. */
    static method ReadyCalls(primed: nat) returns (out: seq<HostCall>)
      ensures out == RxCalls(primed, 0)
    {
      var rx := primed;
      var ep := 0;
      out := [];
      while rx != 0
        invariant out + RxCalls(rx, ep) == RxCalls(primed, 0)
        decreases rx
      {
        RxCallsStep(out, rx, ep);
        out := out + ReadyCall(rx, ep);
        ep := ep + 1;
        rx := rx / 2;
      }
    }

    /** `npcm_udc_write_endptprime`. */
    method WriteEndptPrime(value: bv32, delivered: set<nat>)
      requires Valid()
      modifies this, regs
      ensures Valid() && Snapshot() == AfterPrime(old(Snapshot()), value, delivered)
    {
      if !running || !attached {
        return;
      }
      var base := TxBase(regs[LIST_ADDRESS]);
      MarkPrimed(value);
      SendPrimed(TxEndpoints(value), base, delivered);
      var out := ReadyCalls(RxEndpoints(value));
      calls := calls + out;
      RaiseInterrupt();
      UpdateIrq();
    }

    /** The register stores that open `npcm_udc_write_endptprime`. */
    method MarkPrimed(value: bv32)
      requires Valid()
      modifies regs
      ensures Valid() && Snapshot() == PrimeMarked(old(Snapshot()), value)
    {
      ghost var s := Snapshot();
      var epStatus := With(regs[ENDPOINT_STATUS], value & ENDPT_RX_BUFFER);
      var complete := With(regs[COMPLETE], value & ENDPT_TX_BUFFER);
      regs[ENDPOINT_STATUS] := epStatus;
      regs[COMPLETE] := complete;
      assert regs[..] == s.regs[ENDPOINT_STATUS := epStatus][COMPLETE := complete];
    }

    /** Raises the USB interrupt status bit. */
    method RaiseInterrupt()
      requires Valid()
      modifies regs
      ensures Valid() && Snapshot() == Interrupted(old(Snapshot()))
    {
      regs[STATUS] := With(regs[STATUS], USBSTS_USB_INTERRUPT);
    }

    /** `npcm_udc_read`: changes nothing. */
    method Read(offset: int) returns (value: bv32)
      requires Valid()
      ensures value == ReadValue(Snapshot(), offset)
    {
      if offset == A_DCCPARAMS {
        value := DCCPARAMS_INIT_VALUE;
      } else if offset == A_ENDPTFLUSH {
        value := 0;
      } else {
        var i := IndexOf(offset);
        value := if i.Some? then regs[i.value] else 0;
      }
    }

    /** `npcm_udc_write`. */
    method Write(offset: int, value: bv32, delivered: set<nat>)
      requires Valid()
      modifies this, regs
      ensures Valid() && Snapshot() == AfterWrite(old(Snapshot()), offset, value, delivered)
    {
      if offset == A_USBCMD {
        WriteUsbCmd(value);
      } else if offset == A_USBSTS {
        WriteUsbSts(value);
      } else if offset == A_USBINTR {
        regs[INTERRUPT_ENABLE] := value;
        UpdateIrq();
      } else if offset == A_ENDPOINTLISTADDR {
        regs[LIST_ADDRESS] := value;
      } else if offset == A_PORTSC1 {
        WritePortsc1(value);
      } else if offset == A_USBMODE {
        regs[MODE] := value;
      } else if offset == A_ENDPTSETUPSTAT {
        regs[SETUP_STATUS] := Without(regs[SETUP_STATUS], value);
      } else if offset == A_ENDPTPRIME {
        WriteEndptPrime(value, delivered);
      } else if offset == A_ENDPTFLUSH {
        regs[ENDPOINT_STATUS] := Without(regs[ENDPOINT_STATUS], value);
      } else if offset == A_ENDPTCOMPLETE {
        regs[COMPLETE] := Without(regs[COMPLETE], value);
      } else if offset == A_ENDPTCTRL0 {
        WriteEndptCtrl0(value);
      } else if offset == A_ENDPTCTRL1 {
        regs[EP1_CONTROL] := value;
      } else if offset == A_ENDPTCTRL2 {
        regs[EP2_CONTROL] := value;
      }
    }

    /** `npcm_udc_usbredir_attach`: answers with the control endpoint. */
    method Attach() returns (ep: bv8)
      requires Valid()
      modifies this, regs
      ensures Valid() && Snapshot() == AfterAttach(old(Snapshot())) && ep == 0
    {
      attached := true;
      if running {
        regs[PORT_STATUS] := With(regs[PORT_STATUS], PORTSC1_CURRENT_CONNECT_STATUS);
        regs[STATUS] := With(regs[STATUS], USBSTS_PORT_CHANGE_DETECT);
      }
      UpdateIrq();
      ep := 0;
    }

    /** `npcm_udc_usbredir_detach`. */
    method Detach()
      requires Valid()
      modifies this, regs
      ensures Valid() && Snapshot() == AfterDetach(old(Snapshot()))
    {
      attached := false;
      if running {
        regs[PORT_STATUS] := PORTSC1_INIT_VALUE;
        regs[STATUS] := With(regs[STATUS], USBSTS_PORT_CHANGE_DETECT);
      }
      UpdateIrq();
    }

    /** `npcm_udc_usbredir_reset`. */
    method RedirReset()
      requires Valid()
      modifies this, regs
      ensures Valid() && Snapshot() == AfterRedirReset(old(Snapshot()))
    {
      if attached {
        return;
      }
      Reset();
    }

    /** `npcm_udc_usbredir_control_transfer`. */
    method ControlTransfer(endpoint: bv8, requestType: bv8, request: bv8, value: bv16, index: bv16, length: bv16)
      requires Valid()
      modifies this, regs
      ensures Valid() && Snapshot() == AfterControlTransfer(old(Snapshot()), endpoint, requestType, request, value, index, length)
    {
      if EndpointNumber(endpoint) != 0 {
        calls := calls + [ControlTransferComplete(0, 0)];
      }
      StoreSetup(requestType, request, value, index, length);
      UpdateIrq();
    }

    /** `npcm_udc_control_transfer`. */
    method StoreSetup(requestType: bv8, request: bv8, value: bv16, index: bv16, length: bv16)
      requires Valid()
      modifies this, regs
      ensures Valid() && Snapshot() == Interrupted(SetupStored(old(Snapshot()), requestType, request, value, index, length))
    {
      var qh: int := Addr(regs[LIST_ADDRESS]);
      mem := mem[Wrap(qh + 40) := Setup1(requestType, request, value)][Wrap(qh + 44) := Setup2(index, length)];
      regs[SETUP_STATUS] := With(regs[SETUP_STATUS], 1);
      RaiseInterrupt();
    }

    /** The guest-memory part of `npcm_udc_usbredir_write_data`. */
    method Land(endpoint: bv8, data: seq<bv8>)
      requires Valid()
      modifies this
      ensures Valid() && Snapshot() == Landed(old(Snapshot()), endpoint, data)
    {
      var ep := EndpointNumber(endpoint);
      var td: int := if nextRxTd != 0 then nextRxTd
                else Load(mem, Addr(regs[LIST_ADDRESS]) + ep * QUEUE_HEAD_PAIR_SIZE + 8);
      var next := Load(mem, td);
      var info := Load(mem, td + 4);
      var buffer := Load(mem, td + 8);
      mem := mem[Wrap(td + 4) := RxInfo(info, |data|)];
      payloads := payloads + [Payload(buffer, data)];
      nextRxTd := if next % 2 == 0 then next else 0;
    }

    /** `npcm_udc_usbredir_write_data`. */
    method WriteData(endpoint: bv8, data: seq<bv8>)
      requires Valid()
      modifies this, regs
      ensures Valid() && Snapshot() == AfterDataOut(old(Snapshot()), endpoint, data)
    {
      Land(endpoint, data);
      ghost var t := Snapshot();
      regs[COMPLETE] := With(regs[COMPLETE], CompleteBit(endpoint));
      regs[ENDPOINT_STATUS] := Without(regs[ENDPOINT_STATUS], ENDPT_RX_BUFFER);
      regs[STATUS] := With(regs[STATUS], USBSTS_USB_INTERRUPT);
      assert regs[..] == DataOutRegs(t.regs, endpoint);
      assert Snapshot() == t.(regs := DataOutRegs(t.regs, endpoint));
      UpdateIrq();
    }
  }

  // ---------------------------------------------------------------------
  // Properties: endpoint bitmaps
  // ---------------------------------------------------------------------

  /** Bit `e` of the register `p`, found by shifting it down `e` times. */
  predicate BitSet(p: bv32, e: nat)
  {
    if e == 0 then p & 1 == 1 else BitSet(p >> 1, e - 1)
  }

  /** Bit `e` of the number `Bits` builds is bit `e` of the register, for
      `e` below `n`, and clear above. */
  lemma {:induction false} BitsDigits(p: bv32, n: nat, e: nat)
    ensures Digit(Bits(p, n), e) <==> e < n && BitSet(p, e)
  {
    if n == 0 {
      NoDigitOfZero(e);
    } else {
      DigitStep(p & 1 == 1, Bits(p >> 1, n - 1), e);
      if e != 0 {
        BitsDigits(p >> 1, n - 1, e - 1);
      }
    }
  }

  /** The digits of a number built from a low bit and the rest: bit 0 is
      the low bit, bit `e + 1` is bit `e` of the rest. */
  lemma DigitStep(low: bool, rest: nat, e: nat)
    ensures Digit((if low then 1 else 0) + 2 * rest, e) <==> (if e == 0 then low else Digit(rest, e - 1))
  {
    var x := (if low then 1 else 0) + 2 * rest;
    assert x % 2 == (if low then 1 else 0);
    assert x / 2 == rest;
  }

  /** The bit of endpoint `e` in a 7-bit endpoint field. */
  function EndpointMask(e: nat): bv32
    requires e < 7
  {
    [0x1, 0x2, 0x4, 0x8, 0x10, 0x20, 0x40][e]
  }

  /** Shifting finds the bit the mask selects. */
  lemma {:induction false} EndpointBitSet(p: bv32, e: nat)
    requires e < 7
    ensures BitSet(p, e) <==> Has(p, EndpointMask(e))
  {
    if e == 0 {
      assert BitSet(p, 0) == (p & 1 == 1);
    } else {
      var q := p >> 1;
      assert BitSet(p, e) == BitSet(q, e - 1);
      if e == 1 {
        assert BitSet(q, 0) == (q & 1 == 1);
      } else {
        EndpointBitSet(q, e - 1);
        assert Has(q, EndpointMask(e - 1)) == Has(p, EndpointMask(e));
      }
    }
  }

  /** The bitmap loops visit endpoint `e` exactly when its bit is set. */
  lemma {:induction false} OnesAreDigits(x: nat, ep: nat, e: nat)
    ensures e in Ones(x, ep) <==> ep <= e && Digit(x, e - ep)
    decreases x
  {
    if x == 0 {
      if ep <= e {
        NoDigitOfZero(e - ep);
      }
    } else {
      OnesAreDigits(x / 2, ep + 1, e);
      assert Ones(x, ep) == (if x % 2 == 1 then [ep] else []) + Ones(x / 2, ep + 1);
      if ep < e {
        assert Digit(x, e - ep) == Digit(x / 2, e - (ep + 1));
      }
    }
  }

  /** They visit the endpoints in increasing order. */
  lemma {:induction false} OnesIncrease(x: nat, ep: nat)
    ensures forall i, j :: 0 <= i < j < |Ones(x, ep)| ==> Ones(x, ep)[i] < Ones(x, ep)[j]
    decreases x
  {
    if x != 0 {
      OnesIncrease(x / 2, ep + 1);
      var rest := Ones(x / 2, ep + 1);
      forall k | 0 <= k < |rest|
        ensures ep < rest[k]
      {
        OnesAreDigits(x / 2, ep + 1, rest[k]);
      }
    }
  }

  /** The RX loop reports each endpoint it visits ready, in order. */
  lemma {:induction false} RxCallsReportOnes(rx: nat, ep: nat)
    ensures |RxCalls(rx, ep)| == |Ones(rx, ep)|
    ensures forall i :: 0 <= i < |Ones(rx, ep)| ==> RxCalls(rx, ep)[i] == DataOutComplete(Ones(rx, ep)[i])
    decreases rx
  {
    if rx != 0 {
      RxCallsReportOnes(rx / 2, ep + 1);
    }
  }

  /** An ENDPTPRIME write reports ready exactly the RX endpoints whose bits
      (0 to 6) it sets. */
  lemma PrimedRxReported(value: bv32, e: nat)
    ensures DataOutComplete(e) in RxCalls(RxEndpoints(value), 0) <==> e < 7 && Has(value, EndpointMask(e))
  {
    if e < 7 {
      EndpointBitSet(value, e);
    }
    var calls := RxCalls(RxEndpoints(value), 0);
    var ones := Ones(RxEndpoints(value), 0);
    RxCallsReportOnes(RxEndpoints(value), 0);
    OnesAreDigits(RxEndpoints(value), 0, e);
    BitsDigits(value, 7, e);
    if DataOutComplete(e) in calls {
      var i :| 0 <= i < |calls| && calls[i] == DataOutComplete(e);
      assert ones[i] == e;
    }
    if e in ones {
      var i :| 0 <= i < |ones| && ones[i] == e;
      assert calls[i] == DataOutComplete(e);
    }
  }

  /** The TX loop of an ENDPTPRIME write visits exactly the TX endpoints
      whose bits (16 to 22) it sets. */
  lemma PrimedTxVisited(value: bv32, e: nat)
    ensures e in Ones(TxEndpoints(value), 0) <==> e < 7 && Has(value, EndpointMask(e) << 16)
  {
    if e < 7 {
      EndpointBitSet(value >> 16, e);
      assert Has(value >> 16, EndpointMask(e)) == Has(value, EndpointMask(e) << 16);
    }
    OnesAreDigits(TxEndpoints(value), 0, e);
    BitsDigits(value >> 16, 7, e);
  }

  // ---------------------------------------------------------------------
  // Properties: sending
  // ---------------------------------------------------------------------

  /** `c` hands the host the buffer of TX endpoint `ep`. */
  predicate SentOn(c: HostCall, ep: nat)
  {
    if ep == 0 then c.ControlTransferComplete? else c.DataInComplete? && c.ep == ep
  }

  /** One send changes nothing but guest memory and the call log, to which
      it adds its call. */
  lemma SendStep(s: Udc, ep: nat, qh: int, delivered: set<nat>)
    ensures var t := AfterSend(s, ep, qh, delivered);
      t == s.(calls := s.calls + [SendCall(s.mem, ep, qh)], mem := t.mem) &&
      (ep !in delivered ==> t.mem == s.mem)
  {
  }

  /** The TX loop changes nothing but guest memory and the call log. */
  lemma {:induction false} TxPassKeeps(s: Udc, tx: nat, ep: nat, base: int, delivered: set<nat>)
    ensures TxPass(s, tx, ep, base, delivered) ==
            s.(calls := TxPass(s, tx, ep, base, delivered).calls, mem := TxPass(s, tx, ep, base, delivered).mem)
    decreases tx
  {
    if tx != 0 {
      var u := if tx % 2 == 1 then AfterSend(s, ep, base + ep * QUEUE_HEAD_PAIR_SIZE, delivered) else s;
      if tx % 2 == 1 {
        SendStep(s, ep, base + ep * QUEUE_HEAD_PAIR_SIZE, delivered);
      }
      TxPassKeeps(u, tx / 2, ep + 1, base, delivered);
    }
  }

  /** Each call of `cs` sends on the endpoint at the same place in `eps`. */
  predicate SentOnEach(cs: seq<HostCall>, eps: seq<nat>)
  {
    |cs| == |eps| && forall i :: 0 <= i < |cs| ==> SentOn(cs[i], eps[i])
  }

  /** The TX loop adds one send for each endpoint it visits, in order. */
  lemma {:induction false} TxPassSends(s: Udc, tx: nat, ep: nat, base: int, delivered: set<nat>)
    ensures var calls := TxPass(s, tx, ep, base, delivered).calls;
      |s.calls| <= |calls| && calls[..|s.calls|] == s.calls && SentOnEach(calls[|s.calls|..], Ones(tx, ep))
    decreases tx
  {
    if tx == 0 {
      assert s.calls[|s.calls|..] == [];
    } else {
      var u := if tx % 2 == 1 then AfterSend(s, ep, base + ep * QUEUE_HEAD_PAIR_SIZE, delivered) else s;
      TxPassSends(u, tx / 2, ep + 1, base, delivered);
      var calls := TxPass(u, tx / 2, ep + 1, base, delivered).calls;
      var rest := Ones(tx / 2, ep + 1);
      if tx % 2 == 1 {
        var c := SendCall(s.mem, ep, base + ep * QUEUE_HEAD_PAIR_SIZE);
        SendStep(s, ep, base + ep * QUEUE_HEAD_PAIR_SIZE, delivered);
        assert u.calls == s.calls + [c];
        SentOnCons(s.calls, c, calls, ep, rest);
      } else {
        assert Ones(tx, ep) == rest;
      }
    }
  }

  /** The inductive step of `TxPassSends` for a visited endpoint. */
  lemma SentOnCons(before: seq<HostCall>, c: HostCall, calls: seq<HostCall>, ep: nat, rest: seq<nat>)
    requires SentOn(c, ep)
    requires |before + [c]| <= |calls| && calls[..|before + [c]|] == before + [c]
    requires SentOnEach(calls[|before + [c]|..], rest)
    ensures |before| <= |calls| && calls[..|before|] == before && SentOnEach(calls[|before|..], [ep] + rest)
  {
    assert calls[..|before|] == (before + [c])[..|before|];
    assert calls[|before|..] == [c] + calls[|before + [c]|..];
  }

  /** The buffers each endpoint in `eps` would hand the host, read from
      `mem`, with the TX queue heads starting at `base`. */
  function SendCalls(mem: map<int, Word>, eps: seq<nat>, base: int): seq<HostCall>
  {
    if eps == [] then []
    else [SendCall(mem, eps[0], base + eps[0] * QUEUE_HEAD_PAIR_SIZE)] + SendCalls(mem, eps[1..], base)
  }

  /** When the host takes no buffer whole, the TX loop leaves memory alone
      and hands the host, in order, the buffer of each endpoint it visits. */
  lemma {:induction false} TxPassUndelivered(s: Udc, tx: nat, ep: nat, base: int)
    ensures TxPass(s, tx, ep, base, {}) == s.(calls := s.calls + SendCalls(s.mem, Ones(tx, ep), base))
    decreases tx
  {
    if tx == 0 {
      assert s.calls + [] == s.calls;
    } else {
      var u := if tx % 2 == 1 then AfterSend(s, ep, base + ep * QUEUE_HEAD_PAIR_SIZE, {}) else s;
      TxPassUndelivered(u, tx / 2, ep + 1, base);
      var rest := Ones(tx / 2, ep + 1);
      if tx % 2 == 1 {
        SendStep(s, ep, base + ep * QUEUE_HEAD_PAIR_SIZE, {});
        SendCallsStep(s.calls, s.mem, ep, rest, base);
      } else {
        assert Ones(tx, ep) == rest;
      }
    }
  }

  /** The inductive step of `TxPassUndelivered` for a visited endpoint. */
  lemma SendCallsStep(before: seq<HostCall>, mem: map<int, Word>, ep: nat, rest: seq<nat>, base: int)
    ensures before + SendCalls(mem, [ep] + rest, base) ==
            (before + [SendCall(mem, ep, base + ep * QUEUE_HEAD_PAIR_SIZE)]) + SendCalls(mem, rest, base)
  {
    assert ([ep] + rest)[1..] == rest;
  }

  /** ENDPTPRIME does nothing unless the device runs and is attached.
      Otherwise the primed RX buffers show in ENDPTSTAT and the primed TX
      buffers in ENDPTCOMPLETE, every primed TX endpoint is sent in order,
      then every primed RX endpoint is reported ready, and the USB interrupt
      is raised; no other register changes. */
  lemma PrimeRule(s: Udc, value: bv32, delivered: set<nat>)
    ensures !(s.running && s.attached) ==> AfterPrime(s, value, delivered) == s
    ensures s.running && s.attached ==>
      var t := AfterPrime(s, value, delivered);
      var sent := |t.calls| - |RxCalls(RxEndpoints(value), 0)|;
      t.regs[ENDPOINT_STATUS] == s.regs[ENDPOINT_STATUS] | (value & ENDPT_RX_BUFFER) &&
      t.regs[COMPLETE] == s.regs[COMPLETE] | (value & ENDPT_TX_BUFFER) &&
      Has(t.regs[STATUS], USBSTS_USB_INTERRUPT) &&
      (forall j :: 0 <= j < NUM_REGS && j != ENDPOINT_STATUS && j != COMPLETE && j != STATUS ==> t.regs[j] == s.regs[j]) &&
      |s.calls| <= sent && t.calls[..|s.calls|] == s.calls &&
      SentOnEach(t.calls[|s.calls|..sent], Ones(TxEndpoints(value), 0)) &&
      t.calls[sent..] == RxCalls(RxEndpoints(value), 0) &&
      t.running == s.running && t.attached == s.attached && t.nextRxTd == s.nextRxTd &&
      t.payloads == s.payloads && IrqConsistent(t)
  {
    if s.running && s.attached {
      var m := PrimeMarked(s, value);
      var base := TxBase(s.regs[LIST_ADDRESS]);
      TxPassKeeps(m, TxEndpoints(value), 0, base, delivered);
      TxPassSends(m, TxEndpoints(value), 0, base, delivered);
      var u := TxPass(m, TxEndpoints(value), 0, base, delivered);
      var rx := RxCalls(RxEndpoints(value), 0);
      var t := AfterPrime(s, value, delivered);
      assert t.calls == u.calls + rx;
      assert t.calls[..|u.calls|] == u.calls;
      assert t.calls[|s.calls|..|u.calls|] == u.calls[|s.calls|..];
    }
  }

  // ---------------------------------------------------------------------
  // Properties: register access
  // ---------------------------------------------------------------------

  /** After a reset every register reads its initial value, the device is
      stopped, its line is low, and the attachment, guest memory and host
      log are as before. */
  lemma ResetValues(s: Udc)
    ensures var t := AfterReset(s);
      ReadValue(t, A_DCCPARAMS) == 0x83 && ReadValue(t, A_USBCMD) == 0x8_0000 &&
      ReadValue(t, A_PORTSC1) == 0x900_0204 && ReadValue(t, A_USBMODE) == 0x1_5002 &&
      ReadValue(t, A_ENDPTCTRL0) == 0x80_0080 &&
      (forall o :: o != A_DCCPARAMS && o != A_USBCMD && o != A_PORTSC1 && o != A_USBMODE && o != A_ENDPTCTRL0 ==>
         ReadValue(t, o) == 0) &&
      !t.running && !t.irq && t.attached == s.attached && t.mem == s.mem && t.calls == s.calls
  {
  }

  /** Register `i` reads at its offset. */
  lemma ReadsRegister(s: Udc, i: nat)
    requires i < NUM_REGS
    ensures ReadValue(s, OffsetOf(i)) == s.regs[i]
  {
    OffsetsIndexRegisters(i);
  }

  /** A change to register `i` alone shows at its offset alone. */
  lemma ReadsElsewhereKept(s: Udc, t: Udc, i: nat)
    requires i < NUM_REGS
    requires forall j :: 0 <= j < NUM_REGS && j != i ==> t.regs[j] == s.regs[j]
    ensures forall o :: o != OffsetOf(i) ==> ReadValue(t, o) == ReadValue(s, o)
  {
    forall o | o != OffsetOf(i)
      ensures ReadValue(t, o) == ReadValue(s, o)
    {
      match IndexOf(o)
      case Some(k) =>
        assert k != i;
      case None =>
    }
  }

  /** The plain registers read back what was written; only a USBINTR write
      moves the line, to the level the new state calls for; nothing else
      changes. */
  lemma WritePlain(s: Udc, offset: int, value: bv32, delivered: set<nat>)
    requires offset in {A_USBINTR, A_ENDPOINTLISTADDR, A_USBMODE, A_ENDPTCTRL1, A_ENDPTCTRL2}
    ensures var t := AfterWrite(s, offset, value, delivered);
      ReadValue(t, offset) == value &&
      (forall o :: o != offset ==> ReadValue(t, o) == ReadValue(s, o)) &&
      (offset == A_USBINTR ==> t.irq == Level(t)) &&
      t == s.(regs := t.regs, irq := t.irq) && (offset != A_USBINTR ==> t.irq == s.irq)
  {
  }

  /** ENDPTSETUPSTAT and ENDPTCOMPLETE clear the bits written as 1, and a
      write to ENDPTFLUSH clears those bits of ENDPTSTAT; no other register
      and nothing else changes. */
  lemma WriteClears(s: Udc, offset: int, value: bv32, delivered: set<nat>)
    requires offset in {A_ENDPTSETUPSTAT, A_ENDPTFLUSH, A_ENDPTCOMPLETE}
    ensures var i := if offset == A_ENDPTFLUSH then ENDPOINT_STATUS else IndexOf(offset).value;
      var t := AfterWrite(s, offset, value, delivered);
      i < NUM_REGS && t.regs[i] == s.regs[i] & !value &&
      (forall j :: 0 <= j < NUM_REGS && j != i ==> t.regs[j] == s.regs[j]) &&
      t == s.(regs := t.regs)
  {
  }

  /** PORTSC1 and ENDPTCTRL0 keep their read-only bits and take every other
      bit from the write; nothing else changes. */
  lemma WriteMasked(s: Udc, offset: int, value: bv32, delivered: set<nat>)
    requires offset in {A_PORTSC1, A_ENDPTCTRL0}
    ensures var ro := if offset == A_PORTSC1 then PORTSC1_READ_ONLY else ENDPTCTRL0_READ_ONLY;
      var t := AfterWrite(s, offset, value, delivered);
      ReadValue(t, offset) & ro == ReadValue(s, offset) & ro &&
      ReadValue(t, offset) & !ro == value & !ro &&
      (forall o :: o != offset ==> ReadValue(t, o) == ReadValue(s, o)) &&
      t == s.(regs := t.regs)
  {
    var ro := if offset == A_PORTSC1 then PORTSC1_READ_ONLY else ENDPTCTRL0_READ_ONLY;
    ReadOnlyBitsKept(ReadValue(s, offset), value, ro);
  }

  /** A USBSTS write: SYSTEM_ERROR and NAK ignore it, DCSUSPEND takes the
      written bit and every other written 1 clears its bit; no other register
      changes. */
  lemma WriteStatus(s: Udc, value: bv32, delivered: set<nat>)
    ensures AfterWrite(s, A_USBSTS, value, delivered).regs[STATUS] & USBSTS_DCSUSPEND == value & USBSTS_DCSUSPEND
    ensures AfterWrite(s, A_USBSTS, value, delivered).regs[STATUS] & STATUS_KEPT == s.regs[STATUS] & STATUS_KEPT
    ensures AfterWrite(s, A_USBSTS, value, delivered).regs[STATUS] & STATUS_W1C == s.regs[STATUS] & !value & STATUS_W1C
    ensures forall j :: 0 <= j < NUM_REGS && j != STATUS ==> AfterWrite(s, A_USBSTS, value, delivered).regs[j] == s.regs[j]
  {
    StatusWriteStores(s, value, delivered);
    StatusWriteBits(s.regs[STATUS], value);
  }

  lemma StatusWriteStores(s: Udc, value: bv32, delivered: set<nat>)
    ensures AfterWrite(s, A_USBSTS, value, delivered).regs == s.regs[STATUS := StatusWrite(s.regs[STATUS], value)]
  {
  }

  /** A port change acknowledged through USBSTS while the device runs and is
      attached completes the attachment with the host; the line follows the
      new state. */
  lemma WriteStatusAcknowledges(s: Udc, value: bv32, delivered: set<nat>)
    ensures var t := AfterWrite(s, A_USBSTS, value, delivered);
      t.calls == s.calls + (if s.running && s.attached && Has(value, USBSTS_PORT_CHANGE_DETECT) then [AttachComplete] else []) &&
      t.running == s.running && t.attached == s.attached && t.mem == s.mem && IrqConsistent(t)
  {
  }

  /** DCCPARAMS, ENDPTSTAT and the offsets with no register ignore
      writes. */
  lemma WriteIgnored(s: Udc, offset: int, value: bv32, delivered: set<nat>)
    requires offset == A_DCCPARAMS || offset == A_ENDPTSTAT || (IndexOf(offset) == None && offset != A_ENDPTFLUSH)
    ensures AfterWrite(s, offset, value, delivered) == s
  {
  }

  /** The register access test: from the reset values, writing all ones
      reads back 0x100 from USBSTS, 0xDBFFF27E from PORTSC1 and 0xFFFFFFFF
      from ENDPTCTRL0, and a write to DCCPARAMS leaves it reading 0x83. */
  lemma RegisterAccessValues(s: Udc, delivered: set<nat>)
    requires s.regs == ResetRegisters()
    ensures ReadValue(AfterWrite(s, A_DCCPARAMS, !DCCPARAMS_INIT_VALUE, delivered), A_DCCPARAMS) == 0x83
    ensures ReadValue(AfterWrite(s, A_USBSTS, 0xFFFF_FFFF, delivered), A_USBSTS) == 0x100
    ensures ReadValue(AfterWrite(s, A_PORTSC1, 0xFFFF_FFFF, delivered), A_PORTSC1) == 0xDBFF_F27E
    ensures ReadValue(AfterWrite(s, A_ENDPTCTRL0, 0xFFFF_FFFF, delivered), A_ENDPTCTRL0) == 0xFFFF_FFFF
  {
  }

  // ---------------------------------------------------------------------
  // Properties: run/stop, reset and the interrupt line
  // ---------------------------------------------------------------------

  /** A USBCMD write with RESET resets the device, which leaves it stopped
      with its line low; otherwise USBCMD reads back the write and the device
      runs exactly when RUN is written. Starting an attached device reports
      the connection. */
  lemma UsbCmdRule(s: Udc, value: bv32)
    ensures var t := AfterUsbCmd(s, value);
      t.running == (Has(value, USBCMD_RUN) && !Has(value, USBCMD_RESET)) &&
      (Has(value, USBCMD_RESET) ==> t.regs == ResetRegisters() && !t.irq) &&
      (!Has(value, USBCMD_RESET) ==> ReadValue(t, A_USBCMD) == value) &&
      (!s.running && t.running && s.attached ==>
         Has(t.regs[PORT_STATUS], PORTSC1_CURRENT_CONNECT_STATUS) && Has(t.regs[STATUS], USBSTS_PORT_CHANGE_DETECT)) &&
      (IrqConsistent(s) ==> IrqConsistent(t))
  {
  }

  /** The state `ResetLeavesLineHigh` starts from: running, with the USB
      interrupt pending and enabled, so the line is high. */
  function PendingInterrupt(): Udc
  {
    Udc(ResetRegisters()[STATUS := USBSTS_USB_INTERRUPT][INTERRUPT_ENABLE := USBSTS_USB_INTERRUPT],
        true, false, true, 0, map[], [], [])
  }

  /** As written, a USBCMD reset of a running device with a pending interrupt
      stops the device but leaves its line high, although a stopped device
      drives the line low everywhere else. */
  lemma ResetLeavesLineHigh()
    ensures IrqConsistent(PendingInterrupt())
    ensures var t := AfterUsbCmdAsWritten(PendingInterrupt(), USBCMD_RESET);
      !t.running && t.irq && !IrqConsistent(t)
  {
  }

  /** Every guest write leaves the line agreeing with the state. */
  lemma WriteKeepsLine(s: Udc, offset: int, value: bv32, delivered: set<nat>)
    requires IrqConsistent(s)
    ensures IrqConsistent(AfterWrite(s, offset, value, delivered))
  {
    var t := AfterWrite(s, offset, value, delivered);
    if offset == A_USBCMD {
      UsbCmdRule(s, value);
    } else if offset == A_USBSTS {
      WriteStatusAcknowledges(s, value, delivered);
    } else if offset == A_ENDPTPRIME {
      PrimeRule(s, value, delivered);
    } else if offset in {A_USBINTR, A_ENDPOINTLISTADDR, A_USBMODE, A_ENDPTCTRL1, A_ENDPTCTRL2} {
      WritePlain(s, offset, value, delivered);
      if offset != A_USBINTR {
        LineFromReads(s, t);
      }
    } else if offset in {A_ENDPTSETUPSTAT, A_ENDPTFLUSH, A_ENDPTCOMPLETE} {
      WriteClears(s, offset, value, delivered);
    } else if offset in {A_PORTSC1, A_ENDPTCTRL0} {
      WriteMasked(s, offset, value, delivered);
      LineFromReads(s, t);
    } else {
      assert offset == A_DCCPARAMS || offset == A_ENDPTSTAT || (IndexOf(offset) == None && offset != A_ENDPTFLUSH);
      WriteIgnored(s, offset, value, delivered);
    }
  }

  /** A state whose running flag, line, USBSTS and USBINTR are those of a
      consistent state is consistent. */
  lemma LineFromReads(s: Udc, t: Udc)
    requires IrqConsistent(s) && t.running == s.running && t.irq == s.irq
    requires ReadValue(t, A_USBSTS) == ReadValue(s, A_USBSTS) && ReadValue(t, A_USBINTR) == ReadValue(s, A_USBINTR)
    ensures IrqConsistent(t)
  {
    assert ReadValue(t, A_USBSTS) == t.regs[STATUS] && ReadValue(s, A_USBSTS) == s.regs[STATUS];
    assert ReadValue(t, A_USBINTR) == t.regs[INTERRUPT_ENABLE] && ReadValue(s, A_USBINTR) == s.regs[INTERRUPT_ENABLE];
  }

  // ---------------------------------------------------------------------
  // Properties: the usbredir host
  // ---------------------------------------------------------------------

  /** Attaching a running device shows the connection in PORTSC1 and a
      port change in USBSTS; a stopped one keeps its registers. */
  lemma AttachRule(s: Udc)
    ensures var t := AfterAttach(s);
      t.attached && t.running == s.running && IrqConsistent(t) && t.calls == s.calls &&
      (s.running ==> Has(ReadValue(t, A_PORTSC1), PORTSC1_CURRENT_CONNECT_STATUS) &&
                     Has(ReadValue(t, A_USBSTS), USBSTS_PORT_CHANGE_DETECT)) &&
      (!s.running ==> t.regs == s.regs)
  {
  }

  /** Attaching a running device and then acknowledging the port change
      completes the attachment with the host exactly once and clears the
      port change. */
  lemma AttachHandshake(s: Udc, value: bv32)
    requires s.running && Has(value, USBSTS_PORT_CHANGE_DETECT)
    ensures var t := AfterUsbSts(AfterAttach(s), value);
      t.calls == s.calls + [AttachComplete] && !Has(t.regs[STATUS], USBSTS_PORT_CHANGE_DETECT)
  {
    var a := AfterAttach(s);
    StatusWriteBits(a.regs[STATUS], value);
  }

  /** Detaching a running device puts PORTSC1 back to its initial value and
      reports a port change; a detached device ignores ENDPTPRIME. */
  lemma DetachRule(s: Udc, value: bv32, delivered: set<nat>)
    ensures var t := AfterDetach(s);
      !t.attached && t.running == s.running && IrqConsistent(t) && t.calls == s.calls &&
      (s.running ==> ReadValue(t, A_PORTSC1) == PORTSC1_INIT_VALUE &&
                     Has(ReadValue(t, A_USBSTS), USBSTS_PORT_CHANGE_DETECT)) &&
      (!s.running ==> t.regs == s.regs) &&
      AfterPrime(t, value, delivered) == t
  {
  }

  /** A host reset of an attached device is ignored; a detached device is
      reset. Either way the line keeps agreeing with the state. */
  lemma RedirResetRule(s: Udc)
    ensures s.attached ==> AfterRedirReset(s) == s
    ensures !s.attached ==> var t := AfterRedirReset(s);
      t.regs == ResetRegisters() && !t.running && !t.irq
    ensures IrqConsistent(s) ==> IrqConsistent(AfterRedirReset(s))
  {
  }

  /** The two setup words, stored low byte first, are the eight bytes of the
      USB setup packet. */
  lemma SetupWordsArePacket(requestType: bv8, request: bv8, value: bv16, index: bv16, length: bv16)
    ensures LittleEndian(Setup1(requestType, request, value)) + LittleEndian(Setup2(index, length)) ==
            SetupPacket(requestType, request, value, index, length)
  {
    WordBytes(requestType as int, request as int, value as int);
    HalfWordBytes(index as int, length as int);
  }

  /** The bytes of a word built from a byte `a`, a byte `b` and a half-word
      `c`, lowest first. */
  lemma WordBytes(a: int, b: int, c: int)
    requires 0 <= a < 0x100 && 0 <= b < 0x100 && 0 <= c < 0x1_0000
    ensures var w := a + b * 0x100 + c * 0x1_0000;
      0 <= w < WORD_RANGE && LittleEndian(w) == [a, b, c % 0x100, c / 0x100]
  {
    var w := a + b * 0x100 + c * 0x1_0000;
    assert w / 0x100 == b + c * 0x100;
    assert w / 0x1_0000 == c;
    assert w / 0x100_0000 == c / 0x100;
  }

  /** The bytes of a word built from two half-words, lowest first. */
  lemma HalfWordBytes(c: int, d: int)
    requires 0 <= c < 0x1_0000 && 0 <= d < 0x1_0000
    ensures var w := c + d * 0x1_0000;
      0 <= w < WORD_RANGE && LittleEndian(w) == [c % 0x100, c / 0x100, d % 0x100, d / 0x100]
  {
    var w := c + d * 0x1_0000;
    assert w / 0x100 == c / 0x100 + d * 0x100;
    assert w / 0x1_0000 == d;
    assert w / 0x100_0000 == d / 0x100;
  }

  /** A control transfer stores its setup words at offsets 40 and 44 of the
      queue head of endpoint 0 and leaves the rest of memory alone, sets
      endpoint 0's setup status and the USB interrupt, and answers a
      transfer on another endpoint empty at once. */
  lemma ControlTransferRule(s: Udc, endpoint: bv8, requestType: bv8, request: bv8,
                            value: bv16, index: bv16, length: bv16)
    ensures var t := AfterControlTransfer(s, endpoint, requestType, request, value, index, length);
      var qh := Addr(s.regs[LIST_ADDRESS]);
      Load(t.mem, Wrap(qh + 40)) == Setup1(requestType, request, value) &&
      Load(t.mem, Wrap(qh + 44)) == Setup2(index, length) &&
      (forall a :: a != Wrap(qh + 40) && a != Wrap(qh + 44) ==> Load(t.mem, a) == Load(s.mem, a)) &&
      t.regs[SETUP_STATUS] & 1 == 1 && Has(t.regs[STATUS], USBSTS_USB_INTERRUPT) &&
      t.calls == s.calls + (if EndpointNumber(endpoint) != 0 then [ControlTransferComplete(0, 0)] else []) &&
      IrqConsistent(t)
  {
    var qh := Addr(s.regs[LIST_ADDRESS]);
    assert Wrap(qh + 40) != Wrap(qh + 44);
  }

  /** The byte count of a receive descriptor drops by exactly the number of
      bytes that landed, and interrupt-on-complete is set. */
  lemma RxInfoCountsDown(info: Word, n: nat)
    requires info < 0x8000_0000 && n <= TotalBytes(info)
    ensures TotalBytes(RxInfo(info, n)) == TotalBytes(info) - n
    ensures RxInfo(info, n) % 0x1_0000 == TD_INFO_INTERRUPT_ON_COMPLETE
  {
  }

  /** A packet lands in the buffer of the current descriptor, whose info
      word takes the remaining count and no other word of memory changes;
      the endpoint's completion bit and the USB interrupt are raised and no
      RX buffer stays primed. */
  lemma DataOutRule(s: Udc, endpoint: bv8, data: seq<bv8>)
    ensures var t := AfterDataOut(s, endpoint, data);
      var td := CurrentRxTd(s, EndpointNumber(endpoint));
      t.payloads == s.payloads + [Payload(Load(s.mem, td + 8), data)] &&
      Load(t.mem, Wrap(td + 4)) == RxInfo(Load(s.mem, td + 4), |data|) &&
      (forall a :: a != Wrap(td + 4) ==> Load(t.mem, a) == Load(s.mem, a)) &&
      Has(t.regs[COMPLETE], CompleteBit(endpoint)) && t.regs[ENDPOINT_STATUS] & ENDPT_RX_BUFFER == 0 &&
      Has(t.regs[STATUS], USBSTS_USB_INTERRUPT) && t.calls == s.calls && IrqConsistent(t)
  {
  }

  /** Packets follow the descriptor chain: the next packet, on whichever
      endpoint, lands in the descriptor the current one links to, unless the
      link is null or marked terminal (bit 0); then it lands in the first
      descriptor of its own endpoint's RX queue head. */
  lemma RxChainFollowed(s: Udc, endpoint: bv8, data: seq<bv8>, ep: nat)
    ensures var next := Load(s.mem, CurrentRxTd(s, EndpointNumber(endpoint)));
      var t := AfterDataOut(s, endpoint, data);
      (next != 0 && next % 2 == 0 ==> CurrentRxTd(t, ep) == next) &&
      (next == 0 || next % 2 == 1 ==>
         CurrentRxTd(t, ep) == Load(t.mem, Addr(s.regs[LIST_ADDRESS]) + ep * QUEUE_HEAD_PAIR_SIZE + 8))
  {
  }
}
