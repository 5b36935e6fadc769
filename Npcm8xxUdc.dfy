/**
 * The Nuvoton NPCM8xx USB 2.0 device controller: fourteen 32-bit registers
 * (in the order of `NPCM8xxUDCRegisters`) behind the same memory-mapped
 * window as the NPCM7xx controller, a run/attach state machine and one
 * interrupt line. The usbredir host only ever attaches; ENDPTPRIME and
 * ENDPTFLUSH are plain storage.
 *
 * The USBSTS and read-only-mask rules are those of `NpcmUdc`, shared from
 * there.
 */
module Npcm8xxUdc {

  import opened Wrappers
  import opened Words
  import U = NpcmUdc

  // ---------------------------------------------------------------------
  // Registers
  // ---------------------------------------------------------------------

  // Indices into the register file.
  const COMMAND: nat := 0
  const STATUS: nat := 1
  const INTERRUPT_ENABLE: nat := 2
  const LIST_ADDRESS: nat := 3
  const PORT_STATUS: nat := 4
  const MODE: nat := 5
  const SETUP_STATUS: nat := 6
  const PRIME: nat := 7
  const FLUSH: nat := 8
  const ENDPOINT_STATUS: nat := 9
  const COMPLETE: nat := 10
  const EP0_CONTROL: nat := 11
  const EP1_CONTROL: nat := 12
  const EP2_CONTROL: nat := 13
  const NUM_REGS: nat := 14

  type Regs = r: seq<bv32> | |r| == NUM_REGS witness [0, 0, 0, 0, 0, 0, 0, 0, 0, 0, 0, 0, 0, 0]

  /** PORTSC1 after reset: only the force-full-speed-connect bit. */
  const PORTSC1_INIT_VALUE: bv32 := 0x100_0000

  // ---------------------------------------------------------------------
  // Device state
  // ---------------------------------------------------------------------

  datatype Udc = Udc(regs: Regs, running: bool, attached: bool, irq: bool)

  /** The level the line should have in state `s`. */
  predicate Level(s: Udc)
  {
    U.IrqLevel(s.running, s.regs[INTERRUPT_ENABLE], s.regs[STATUS])
  }

  /** The line agrees with the state. */
  predicate IrqConsistent(s: Udc)
  {
    s.irq == Level(s)
  }

  /** `npcm8xx_udc_update_irq`. */
  function IrqUpdated(s: Udc): (t: Udc)
    ensures IrqConsistent(t)
  {
    s.(irq := Level(s))
  }

  /** Index of the register behind each offset of the window; DCCPARAMS has
      no storage. */
  function IndexOf(offset: int): (i: Option<nat>)
    ensures i.Some? ==> i.value < NUM_REGS && OffsetOf(i.value) == offset
  {
    if offset == U.A_USBCMD then Some(COMMAND)
    else if offset == U.A_USBSTS then Some(STATUS)
    else if offset == U.A_USBINTR then Some(INTERRUPT_ENABLE)
    else if offset == U.A_ENDPOINTLISTADDR then Some(LIST_ADDRESS)
    else if offset == U.A_PORTSC1 then Some(PORT_STATUS)
    else if offset == U.A_USBMODE then Some(MODE)
    else if offset == U.A_ENDPTSETUPSTAT then Some(SETUP_STATUS)
    else if offset == U.A_ENDPTPRIME then Some(PRIME)
    else if offset == U.A_ENDPTFLUSH then Some(FLUSH)
    else if offset == U.A_ENDPTSTAT then Some(ENDPOINT_STATUS)
    else if offset == U.A_ENDPTCOMPLETE then Some(COMPLETE)
    else if offset == U.A_ENDPTCTRL0 then Some(EP0_CONTROL)
    else if offset == U.A_ENDPTCTRL1 then Some(EP1_CONTROL)
    else if offset == U.A_ENDPTCTRL2 then Some(EP2_CONTROL)
    else None
  }

  /** Offset of register `i`. */
  function OffsetOf(i: nat): int
    requires i < NUM_REGS
  {
    [U.A_USBCMD, U.A_USBSTS, U.A_USBINTR, U.A_ENDPOINTLISTADDR, U.A_PORTSC1, U.A_USBMODE,
     U.A_ENDPTSETUPSTAT, U.A_ENDPTPRIME, U.A_ENDPTFLUSH, U.A_ENDPTSTAT, U.A_ENDPTCOMPLETE,
     U.A_ENDPTCTRL0, U.A_ENDPTCTRL1, U.A_ENDPTCTRL2][i]
  }

  // ---------------------------------------------------------------------
  // Reset and the guest-visible handlers
  // ---------------------------------------------------------------------

  /** The register file after `npcm8xx_udc_reset` over `r`: setup status,
      prime, flush, endpoint status and complete keep their values. */
  function ResetRegisters(r: Regs): Regs
  {
    r[STATUS := 0][INTERRUPT_ENABLE := 0][LIST_ADDRESS := 0][PORT_STATUS := PORTSC1_INIT_VALUE]
     [MODE := U.USBMODE_INIT_VALUE][EP0_CONTROL := U.ENDPTCTRL0_INIT_VALUE][EP1_CONTROL := 0]
     [EP2_CONTROL := 0][COMMAND := U.USBCMD_INIT_VALUE & !U.USBCMD_RESET]
  }

  /** `npcm8xx_udc_reset`, with the line brought in line with the stopped
      device (see `AfterResetAsWritten`). */
  function AfterReset(s: Udc): Udc
  {
    IrqUpdated(s.(regs := ResetRegisters(s.regs), running := false))
  }

  /** `npcm8xx_udc_reset` as written: the line keeps whatever level it
      had. */
  function AfterResetAsWritten(s: Udc): Udc
  {
    s.(regs := ResetRegisters(s.regs), running := false)
  }

  /** Sets the connect status and the port change bit. */
  function Connect(r: Regs): Regs
  {
    r[PORT_STATUS := With(r[PORT_STATUS], U.PORTSC1_CURRENT_CONNECT_STATUS)]
     [STATUS := With(r[STATUS], U.USBSTS_PORT_CHANGE_DETECT)]
  }

  /** The run/stop step of a USBCMD write, once the command is stored. */
  function RunStop(s: Udc): Udc
  {
    var run := Has(s.regs[COMMAND], U.USBCMD_RUN);
    if s.running == run then s
    else
      var t := s.(running := run);
      IrqUpdated(if run && t.attached then t.(regs := Connect(t.regs)) else t)
  }

  /** `npcm8xx_udc_write_usbcmd`. */
  function AfterUsbCmd(s: Udc, value: bv32): Udc
  {
    var t := s.(regs := s.regs[COMMAND := value]);
    RunStop(if Has(value, U.USBCMD_RESET) then AfterReset(t) else t)
  }

  /** `npcm8xx_udc_write_usbcmd` as written, with the reset that leaves the
      line alone. */
  function AfterUsbCmdAsWritten(s: Udc, value: bv32): Udc
  {
    var t := s.(regs := s.regs[COMMAND := value]);
    RunStop(if Has(value, U.USBCMD_RESET) then AfterResetAsWritten(t) else t)
  }

  /** `npcm8xx_udc_write_usbsts`. */
  function AfterUsbSts(s: Udc, value: bv32): Udc
  {
    IrqUpdated(s.(regs := s.regs[STATUS := U.StatusWrite(s.regs[STATUS], value)]))
  }

  /** `npcm8xx_udc_read`. */
  function ReadValue(s: Udc, offset: int): bv32
  {
    if offset == U.A_DCCPARAMS then U.DCCPARAMS_INIT_VALUE
    else match IndexOf(offset)
      case Some(i) => s.regs[i]
      case None => 0
  }

  /** `npcm8xx_udc_write`. */
  function AfterWrite(s: Udc, offset: int, value: bv32): Udc
  {
    var r := s.regs;
    if offset == U.A_USBCMD then AfterUsbCmd(s, value)
    else if offset == U.A_USBSTS then AfterUsbSts(s, value)
    else if offset == U.A_USBINTR then IrqUpdated(s.(regs := r[INTERRUPT_ENABLE := value]))
    else if offset == U.A_ENDPOINTLISTADDR then s.(regs := r[LIST_ADDRESS := value])
    else if offset == U.A_PORTSC1 then
      s.(regs := r[PORT_STATUS := U.KeepReadOnly(r[PORT_STATUS], value, U.PORTSC1_READ_ONLY)])
    else if offset == U.A_USBMODE then s.(regs := r[MODE := value])
    else if offset == U.A_ENDPTSETUPSTAT then s.(regs := r[SETUP_STATUS := Without(r[SETUP_STATUS], value)])
    else if offset == U.A_ENDPTPRIME then s.(regs := r[PRIME := value])
    else if offset == U.A_ENDPTFLUSH then s.(regs := r[FLUSH := value])
    else if offset == U.A_ENDPTCOMPLETE then s.(regs := r[COMPLETE := Without(r[COMPLETE], value)])
    else if offset == U.A_ENDPTCTRL0 then
      s.(regs := r[EP0_CONTROL := U.KeepReadOnly(r[EP0_CONTROL], value, U.ENDPTCTRL0_READ_ONLY)])
    else if offset == U.A_ENDPTCTRL1 then s.(regs := r[EP1_CONTROL := value])
    else if offset == U.A_ENDPTCTRL2 then s.(regs := r[EP2_CONTROL := value])
    else s  // DCCPARAMS, ENDPTSTAT and unsupported offsets
  }

  /** `npcm8xx_udc_usbredir_attach`. */
  function AfterAttach(s: Udc): Udc
  {
    var t := s.(attached := true);
    IrqUpdated(if s.running then t.(regs := Connect(t.regs)) else t)
  }

  // ---------------------------------------------------------------------
  // The device
  // ---------------------------------------------------------------------

  class Controller {
    const regs: array<bv32>
    var running: bool
    var attached: bool
    /** The level last driven on the interrupt line. */
    var irq: bool

    predicate Valid()
      reads this
    {
      regs.Length == NUM_REGS
    }

    function Snapshot(): Udc
      requires Valid()
      reads this, regs
    {
      Udc(regs[..], running, attached, irq)
    }

    /** A zeroed device after its first reset, detached. */
    constructor()
      ensures Valid() && fresh(regs)
      ensures Snapshot() == Udc(ResetRegisters(seq(NUM_REGS, _ => 0)), false, false, false)
    {
      regs := new bv32[NUM_REGS](_ => 0);
      attached := false;
      irq := false;
      new;
      Reset();
    }

    /** `npcm8xx_udc_update_irq`. */
    method UpdateIrq()
      requires Valid()
      modifies this
      ensures Valid() && Snapshot() == IrqUpdated(old(Snapshot()))
    {
      irq := running && Has(regs[INTERRUPT_ENABLE], regs[STATUS]);
    }

    /** `npcm8xx_udc_reset`, followed by an update of the line. */
    method Reset()
      requires Valid()
      modifies this, regs
      ensures Valid() && Snapshot() == AfterReset(old(Snapshot()))
    {
      running := false;
      regs[STATUS] := 0;
      regs[INTERRUPT_ENABLE] := 0;
      regs[LIST_ADDRESS] := 0;
      regs[PORT_STATUS] := PORTSC1_INIT_VALUE;
      regs[MODE] := U.USBMODE_INIT_VALUE;
      regs[EP0_CONTROL] := U.ENDPTCTRL0_INIT_VALUE;
      regs[EP1_CONTROL] := 0;
      regs[EP2_CONTROL] := 0;
      regs[COMMAND] := U.USBCMD_INIT_VALUE & !U.USBCMD_RESET;
      UpdateIrq();
    }

    /** `npcm8xx_udc_write_usbcmd`. */
    method WriteUsbCmd(value: bv32)
      requires Valid()
      modifies this, regs
      ensures Valid() && Snapshot() == AfterUsbCmd(old(Snapshot()), value)
    {
      regs[COMMAND] := value;
      if Has(regs[COMMAND], U.USBCMD_RESET) {
        Reset();
      }
      var run := Has(regs[COMMAND], U.USBCMD_RUN);
      if running != run {
        running := run;
        if running && attached {
          regs[PORT_STATUS] := With(regs[PORT_STATUS], U.PORTSC1_CURRENT_CONNECT_STATUS);
          regs[STATUS] := With(regs[STATUS], U.USBSTS_PORT_CHANGE_DETECT);
        }
        UpdateIrq();
      }
    }

    /** `npcm8xx_udc_write_usbsts`. */
    method WriteUsbSts(value: bv32)
      requires Valid()
      modifies this, regs
      ensures Valid() && Snapshot() == AfterUsbSts(old(Snapshot()), value)
    {
      regs[STATUS] := U.StatusWrite(regs[STATUS], value);
      UpdateIrq();
    }

    /** `npcm8xx_udc_read`: changes nothing. */
    method Read(offset: int) returns (value: bv32)
      requires Valid()
      ensures value == ReadValue(Snapshot(), offset)
    {
      if offset == U.A_DCCPARAMS {
        value := U.DCCPARAMS_INIT_VALUE;
      } else {
        var i := IndexOf(offset);
        value := if i.Some? then regs[i.value] else 0;
      }
    }

    /** `npcm8xx_udc_write`. */
    method Write(offset: int, value: bv32)
      requires Valid()
      modifies this, regs
      ensures Valid() && Snapshot() == AfterWrite(old(Snapshot()), offset, value)
    {
      if offset == U.A_USBCMD {
        WriteUsbCmd(value);
      } else if offset == U.A_USBSTS {
        WriteUsbSts(value);
      } else if offset == U.A_USBINTR {
        regs[INTERRUPT_ENABLE] := value;
        UpdateIrq();
      } else if offset == U.A_ENDPOINTLISTADDR {
        regs[LIST_ADDRESS] := value;
      } else if offset == U.A_PORTSC1 {
        regs[PORT_STATUS] := U.KeepReadOnly(regs[PORT_STATUS], value, U.PORTSC1_READ_ONLY);
      } else if offset == U.A_USBMODE {
        regs[MODE] := value;
      } else if offset == U.A_ENDPTSETUPSTAT {
        regs[SETUP_STATUS] := Without(regs[SETUP_STATUS], value);
      } else if offset == U.A_ENDPTPRIME {
        regs[PRIME] := value;
      } else if offset == U.A_ENDPTFLUSH {
        regs[FLUSH] := value;
      } else if offset == U.A_ENDPTCOMPLETE {
        regs[COMPLETE] := Without(regs[COMPLETE], value);
      } else if offset == U.A_ENDPTCTRL0 {
        regs[EP0_CONTROL] := U.KeepReadOnly(regs[EP0_CONTROL], value, U.ENDPTCTRL0_READ_ONLY);
      } else if offset == U.A_ENDPTCTRL1 {
        regs[EP1_CONTROL] := value;
      } else if offset == U.A_ENDPTCTRL2 {
        regs[EP2_CONTROL] := value;
      }
    }

    /** `npcm8xx_udc_usbredir_attach`. */
    method Attach()
      requires Valid()
      modifies this, regs
      ensures Valid() && Snapshot() == AfterAttach(old(Snapshot()))
    {
      attached := true;
      if running {
        regs[PORT_STATUS] := With(regs[PORT_STATUS], U.PORTSC1_CURRENT_CONNECT_STATUS);
        regs[STATUS] := With(regs[STATUS], U.USBSTS_PORT_CHANGE_DETECT);
      }
      UpdateIrq();
    }
  }

  // ---------------------------------------------------------------------
  // Properties: register access
  // ---------------------------------------------------------------------

  /** A reset stops the device and lowers its line, and sets command,
      status, interrupt enable, list address, PORTSC1, mode and the three
      endpoint controls to their initial values. */
  lemma ResetValues(s: Udc)
    ensures var t := AfterReset(s);
      ReadValue(t, U.A_USBCMD) == 0x8_0000 && ReadValue(t, U.A_USBSTS) == 0 &&
      ReadValue(t, U.A_USBINTR) == 0 && ReadValue(t, U.A_ENDPOINTLISTADDR) == 0 &&
      ReadValue(t, U.A_PORTSC1) == 0x100_0000 && ReadValue(t, U.A_USBMODE) == 0x1_5002 &&
      ReadValue(t, U.A_ENDPTCTRL0) == 0x80_0080 && ReadValue(t, U.A_ENDPTCTRL1) == 0 &&
      ReadValue(t, U.A_ENDPTCTRL2) == 0 &&
      !t.running && !t.irq && t.attached == s.attached
  {
  }

  /** Setup status, prime, flush, endpoint status and complete keep their
      values through a reset. */
  lemma ResetKeeps(s: Udc)
    ensures forall o :: o in {U.A_ENDPTSETUPSTAT, U.A_ENDPTPRIME, U.A_ENDPTFLUSH, U.A_ENDPTSTAT, U.A_ENDPTCOMPLETE} ==>
      ReadValue(AfterReset(s), o) == ReadValue(s, o)
  {
  }

  /** ENDPTPRIME and ENDPTFLUSH, like the other plain registers, read back
      the last value written; only a USBINTR write moves the line, to the
      level the new state calls for; nothing else changes. */
  lemma WritePlain(s: Udc, offset: int, value: bv32)
    requires offset in {U.A_USBINTR, U.A_ENDPOINTLISTADDR, U.A_USBMODE, U.A_ENDPTPRIME, U.A_ENDPTFLUSH,
                        U.A_ENDPTCTRL1, U.A_ENDPTCTRL2}
    ensures var t := AfterWrite(s, offset, value);
      ReadValue(t, offset) == value &&
      (forall o :: o != offset ==> ReadValue(t, o) == ReadValue(s, o)) &&
      (offset == U.A_USBINTR ==> t.irq == Level(t)) &&
      t == s.(regs := t.regs, irq := t.irq) && (offset != U.A_USBINTR ==> t.irq == s.irq)
  {
  }

  /** ENDPTSETUPSTAT and ENDPTCOMPLETE clear the bits written as 1; no
      other register and nothing else changes. */
  lemma WriteClears(s: Udc, offset: int, value: bv32)
    requires offset in {U.A_ENDPTSETUPSTAT, U.A_ENDPTCOMPLETE}
    ensures var i := if offset == U.A_ENDPTSETUPSTAT then SETUP_STATUS else COMPLETE;
      var t := AfterWrite(s, offset, value);
      t.regs[i] == s.regs[i] & !value &&
      (forall j :: 0 <= j < NUM_REGS && j != i ==> t.regs[j] == s.regs[j]) &&
      t == s.(regs := t.regs)
  {
  }

  /** PORTSC1 and ENDPTCTRL0 keep their read-only bits and take every other
      bit from the write; nothing else changes. */
  lemma WriteMasked(s: Udc, offset: int, value: bv32)
    requires offset in {U.A_PORTSC1, U.A_ENDPTCTRL0}
    ensures var i := if offset == U.A_PORTSC1 then PORT_STATUS else EP0_CONTROL;
      var ro := if offset == U.A_PORTSC1 then U.PORTSC1_READ_ONLY else U.ENDPTCTRL0_READ_ONLY;
      var t := AfterWrite(s, offset, value);
      t.regs[i] & ro == s.regs[i] & ro &&
      t.regs[i] & !ro == value & !ro &&
      (forall j :: 0 <= j < NUM_REGS && j != i ==> t.regs[j] == s.regs[j]) &&
      t == s.(regs := t.regs)
  {
    var i := if offset == U.A_PORTSC1 then PORT_STATUS else EP0_CONTROL;
    var ro := if offset == U.A_PORTSC1 then U.PORTSC1_READ_ONLY else U.ENDPTCTRL0_READ_ONLY;
    U.ReadOnlyBitsKept(s.regs[i], value, ro);
  }

  /** A USBSTS write: SYSTEM_ERROR and NAK ignore it, DCSUSPEND takes the
      written bit and every other written 1 clears its bit; no other register
      changes. */
  lemma WriteStatus(s: Udc, value: bv32)
    ensures AfterWrite(s, U.A_USBSTS, value).regs[STATUS] & U.USBSTS_DCSUSPEND == value & U.USBSTS_DCSUSPEND
    ensures AfterWrite(s, U.A_USBSTS, value).regs[STATUS] & U.STATUS_KEPT == s.regs[STATUS] & U.STATUS_KEPT
    ensures AfterWrite(s, U.A_USBSTS, value).regs[STATUS] & U.STATUS_W1C == s.regs[STATUS] & !value & U.STATUS_W1C
    ensures forall j :: 0 <= j < NUM_REGS && j != STATUS ==> AfterWrite(s, U.A_USBSTS, value).regs[j] == s.regs[j]
  {
    StatusWriteStores(s, value);
    U.StatusWriteBits(s.regs[STATUS], value);
  }

  lemma StatusWriteStores(s: Udc, value: bv32)
    ensures AfterWrite(s, U.A_USBSTS, value).regs == s.regs[STATUS := U.StatusWrite(s.regs[STATUS], value)]
  {
  }

  /** A USBSTS write changes only the registers and the line, which follows
      the new state. */
  lemma WriteStatusLine(s: Udc, value: bv32)
    ensures var t := AfterWrite(s, U.A_USBSTS, value);
      t == s.(regs := t.regs, irq := t.irq) && IrqConsistent(t)
  {
  }

  /** DCCPARAMS reads its constant and, like ENDPTSTAT and the offsets with
      no register, ignores writes; offsets with no register read 0. */
  lemma FixedRegisters(s: Udc, offset: int, value: bv32)
    ensures ReadValue(s, U.A_DCCPARAMS) == 0x83
    ensures IndexOf(offset) == None ==> ReadValue(s, offset) == (if offset == U.A_DCCPARAMS then 0x83 else 0)
    ensures offset == U.A_DCCPARAMS || offset == U.A_ENDPTSTAT || IndexOf(offset) == None ==>
      AfterWrite(s, offset, value) == s
  {
  }

  /** The register access test, from a zeroed device after reset: writing
      all ones reads back 0x100 from USBSTS and 0xFFFFFFFF from ENDPTCTRL0,
      and a write to DCCPARAMS leaves it reading 0x83. PORTSC1 reads
      0xD3FFF07E, because the reset value 0x1000000 has none of the
      read-only bits set. */
  lemma RegisterAccessValues(s: Udc)
    requires s.regs == ResetRegisters(seq(NUM_REGS, _ => 0))
    ensures ReadValue(AfterWrite(s, U.A_DCCPARAMS, !U.DCCPARAMS_INIT_VALUE), U.A_DCCPARAMS) == 0x83
    ensures ReadValue(AfterWrite(s, U.A_USBSTS, 0xFFFF_FFFF), U.A_USBSTS) == 0x100
    ensures ReadValue(AfterWrite(s, U.A_PORTSC1, 0xFFFF_FFFF), U.A_PORTSC1) == 0xD3FF_F07E
    ensures ReadValue(AfterWrite(s, U.A_ENDPTCTRL0, 0xFFFF_FFFF), U.A_ENDPTCTRL0) == 0xFFFF_FFFF
  {
  }

  // ---------------------------------------------------------------------
  // Properties: run/stop, reset, attach and the interrupt line
  // ---------------------------------------------------------------------

  /** A USBCMD write with RESET resets the device, which leaves it stopped
      with its line low; otherwise USBCMD reads back the write and the device
      runs exactly when RUN is written. Starting an attached device reports
      the connection. */
  lemma UsbCmdRule(s: Udc, value: bv32)
    ensures var t := AfterUsbCmd(s, value);
      t.running == (Has(value, U.USBCMD_RUN) && !Has(value, U.USBCMD_RESET)) &&
      (Has(value, U.USBCMD_RESET) ==> t.regs == ResetRegisters(s.regs) && !t.irq) &&
      (!Has(value, U.USBCMD_RESET) ==> ReadValue(t, U.A_USBCMD) == value) &&
      (!s.running && t.running && s.attached ==>
         Has(t.regs[PORT_STATUS], U.PORTSC1_CURRENT_CONNECT_STATUS) && Has(t.regs[STATUS], U.USBSTS_PORT_CHANGE_DETECT)) &&
      (IrqConsistent(s) ==> IrqConsistent(t))
  {
  }

  /** The state `ResetLeavesLineHigh` starts from: running, with the USB
      interrupt pending and enabled, so the line is high. */
  function PendingInterrupt(): Udc
  {
    var r := ResetRegisters(seq(NUM_REGS, _ => 0));
    Udc(r[STATUS := U.USBSTS_USB_INTERRUPT][INTERRUPT_ENABLE := U.USBSTS_USB_INTERRUPT], true, false, true)
  }

  /** As written, a USBCMD reset of a running device with a pending interrupt
      stops the device but leaves its line high, although a stopped device
      drives the line low everywhere else. */
  lemma ResetLeavesLineHigh()
    ensures IrqConsistent(PendingInterrupt())
    ensures var t := AfterUsbCmdAsWritten(PendingInterrupt(), U.USBCMD_RESET);
      !t.running && t.irq && !IrqConsistent(t)
  {
  }

  /** Every guest write leaves the line agreeing with the state. */
  lemma WriteKeepsLine(s: Udc, offset: int, value: bv32)
    requires IrqConsistent(s)
    ensures IrqConsistent(AfterWrite(s, offset, value))
  {
    if offset == U.A_USBCMD {
      UsbCmdRule(s, value);
    } else if offset == U.A_USBSTS {
      WriteStatusLine(s, value);
    } else if offset in {U.A_ENDPTSETUPSTAT, U.A_ENDPTCOMPLETE} {
      WriteClears(s, offset, value);
    } else if offset in {U.A_PORTSC1, U.A_ENDPTCTRL0} {
      WriteMasked(s, offset, value);
    }
  }

  /** Attaching a running device shows the connection in PORTSC1 and a
      port change in USBSTS; a stopped one keeps its registers; the line
      follows the new state. */
  lemma AttachRule(s: Udc)
    ensures var t := AfterAttach(s);
      t.attached && t.running == s.running && IrqConsistent(t) &&
      (s.running ==> Has(ReadValue(t, U.A_PORTSC1), U.PORTSC1_CURRENT_CONNECT_STATUS) &&
                     Has(ReadValue(t, U.A_USBSTS), U.USBSTS_PORT_CHANGE_DETECT)) &&
      (!s.running ==> t.regs == s.regs)
  {
  }

  /** Attaching while stopped and then starting reports the connection
      once the device runs. */
  lemma AttachThenRun(s: Udc, value: bv32)
    requires !s.running && Has(value, U.USBCMD_RUN) && !Has(value, U.USBCMD_RESET)
    ensures var t := AfterUsbCmd(AfterAttach(s), value);
      t.running && t.attached && IrqConsistent(t) &&
      Has(ReadValue(t, U.A_PORTSC1), U.PORTSC1_CURRENT_CONNECT_STATUS) &&
      Has(ReadValue(t, U.A_USBSTS), U.USBSTS_PORT_CHANGE_DETECT)
  {
  }
}
