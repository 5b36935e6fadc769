// The host-system compatibility rule: a null AVD, the two environment
// switches, then the CPU core count, then the physical memory, each compared
// with a hard minimum (an error) and an ideal minimum (a warning). The first
// rule that fails decides the result. The operating-system queries are the
// fields of `Host`.

module SystemCheck {
  import opened Wrappers
  import opened CompatibilityCheck

  /** What the system reports; an unset environment variable reads as "". */
  datatype Host = Host(skipChecks: string, abortChecks: string, cores: int, physicalMemory: nat)

  const MIN_CORES := 2
  const IDEAL_CORES := 4
  const MIN_RAM_MB := 2048
  const IDEAL_RAM_MB := 4096
  const MIB := 1024 * 1024

  /** Which rule decided, with the numbers its description reports. */
  datatype Verdict =
    | NoAvd
    | ChecksSkipped
    | ChecksAborted
    | TooFewCores(required: int, available: int)
    | FewCores(ideal: int, current: int)
    | UnknownMemory
    | TooLittleRam(availableMb: nat, requiredMb: nat)
    | LittleRam(suggestedMb: nat, availableMb: nat)
    | Met

  function StatusOf(v: Verdict): Status
  {
    match v
    case NoAvd | ChecksAborted | TooFewCores(_, _) | TooLittleRam(_, _) => Error
    case ChecksSkipped | FewCores(_, _) | UnknownMemory | LittleRam(_, _) => Warning
    case Met => Ok
  }

  function RamMb(host: Host): nat
  {
    host.physicalMemory / MIB
  }

  /** The core-count error's arguments as the source passes them: the two counts swapped. */
  function CoreShortageAsWritten(cores: int): Verdict
  {
    TooFewCores(cores, MIN_CORES)
  }

  /** The core-count error's arguments in the order the message reads them. */
  function CoreShortage(cores: int): (v: Verdict)
    ensures v.TooFewCores? && (cores < MIN_CORES ==> v.required > v.available)
  {
    TooFewCores(MIN_CORES, cores)
  }

  function HasSufficientSystem(avd: Option<Avd>, host: Host): (v: Verdict)
    ensures avd.None? ==> v == NoAvd
    ensures avd.Some? && host.skipChecks == "1" ==> v == ChecksSkipped
    ensures StatusOf(v) == Error <==>
              avd.None? ||
              (host.skipChecks != "1" &&
               (host.abortChecks == "1" || host.cores < MIN_CORES ||
                (host.cores >= IDEAL_CORES && host.physicalMemory != 0 && RamMb(host) < MIN_RAM_MB)))
    ensures StatusOf(v) == Ok <==>
              avd.Some? && host.skipChecks != "1" && host.abortChecks != "1" &&
              host.cores >= IDEAL_CORES && host.physicalMemory != 0 && RamMb(host) >= IDEAL_RAM_MB
    ensures (v.TooLittleRam? || v.LittleRam? || v.UnknownMemory?) ==> host.cores >= IDEAL_CORES
  {
    if avd.None? then NoAvd
    else if host.skipChecks == "1" then ChecksSkipped
    else if host.abortChecks == "1" then ChecksAborted
    else if host.cores < MIN_CORES then CoreShortage(host.cores)
    else if host.cores < IDEAL_CORES then FewCores(IDEAL_CORES, host.cores)
    else if host.physicalMemory == 0 then UnknownMemory
    else if RamMb(host) < MIN_RAM_MB then TooLittleRam(RamMb(host), MIN_RAM_MB)
    else if RamMb(host) < IDEAL_RAM_MB then LittleRam(IDEAL_RAM_MB, RamMb(host))
    else Met
  }

  /** Ranks the statuses: Ok below Warning below Error. */
  function Severity(s: Status): nat
  {
    match s
    case Ok => 0
    case Warning => 1
    case Error => 2
  }

  /** With the same cores, more (known) memory never fares worse. */
  lemma MoreMemoryIsNoWorse(avd: Option<Avd>, host: Host, more: nat)
    requires 0 < host.physicalMemory <= more
    ensures Severity(StatusOf(HasSufficientSystem(avd, host.(physicalMemory := more))))
            <= Severity(StatusOf(HasSufficientSystem(avd, host)))
  {
  }

  /** With at least the minimum memory, more cores never fare worse. */
  lemma MoreCoresAreNoWorse(avd: Option<Avd>, host: Host, more: int)
    requires host.cores <= more && RamMb(host) >= MIN_RAM_MB
    ensures Severity(StatusOf(HasSufficientSystem(avd, host.(cores := more))))
            <= Severity(StatusOf(HasSufficientSystem(avd, host)))
  {
  }

  /** The core rule comes first: three cores hide a RAM error that four cores reveal. */
  lemma CoreWarningHidesRam(avd: Avd)
    ensures HasSufficientSystem(Some(avd), Host("", "", 3, MIB)) == FewCores(IDEAL_CORES, 3)
    ensures HasSufficientSystem(Some(avd), Host("", "", 4, MIB)) == TooLittleRam(1, MIN_RAM_MB)
  {
  }

  /** Unknown memory is only a warning, while a known single byte is an error. */
  lemma UnknownMemoryIsMilder(avd: Avd)
    ensures HasSufficientSystem(Some(avd), Host("", "", IDEAL_CORES, 0)) == UnknownMemory
    ensures HasSufficientSystem(Some(avd), Host("", "", IDEAL_CORES, 1)) == TooLittleRam(0, MIN_RAM_MB)
  {
  }

  /** As written, the core-count error claims the AVD needs fewer cores than are available. */
  lemma CoreMessageAsWritten()
    ensures var v := CoreShortageAsWritten(1);
            v.required == 1 && v.available == 2 && v.required < v.available
  {
  }
}
