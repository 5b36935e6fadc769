// The hardware-GPU compatibility rule: a null AVD, the skip switch, the XR
// platform restrictions, then (only on Windows with GuestAngle enabled) the
// Vulkan vendor and API version and the device memory. The host platform, the
// GuestAngle feature and the Vulkan query are inputs.

module HwGpuCheck {
  import opened Wrappers
  import opened CompatibilityCheck

  datatype Platform = Windows | Linux | MacIntel | MacArm

  /** What the Vulkan query reports; `vendor` is `None` when detection failed. */
  datatype Vulkan = Vulkan(vendor: Option<string>, major: int, minor: int, patch: int, memoryBytes: nat)

  const MIB := 1024 * 1024
  const XR_MIN_GPU_MIB := 2048
  const XR_SUGGESTED_GPU_MIB := 4096

  /** Which rule decided, with the numbers its description reports. */
  datatype Verdict =
    | NoAvd
    | ChecksSkipped
    | XrOnMacIntel
    | XrOnLinux
    | NotRequired
    | NoVulkan
    | UnsupportedDriver(vendor: string, major: int, minor: int, patch: int)
    | TooLittleMemory(available: nat, required: nat)
    | LittleMemory(available: nat, suggested: nat)
    | Met

  function StatusOf(v: Verdict): Status
  {
    match v
    case NoAvd | XrOnMacIntel | NoVulkan | UnsupportedDriver(_, _, _, _) | TooLittleMemory(_, _) => Error
    case ChecksSkipped | XrOnLinux | LittleMemory(_, _) => Warning
    case NotRequired | Met => Ok
  }

  /** The first bytes of the vendor name are `name` (strncmp over the name's length). */
  predicate VendorIs(vendor: string, name: string)
  {
    |vendor| >= |name| && vendor[..|name|] == name
  }

  /** The driver rule: AMD below Vulkan 1.3, Intel below 1.3.240, and any Intel GPU for XR. */
  predicate Unsupported(vendor: string, major: int, minor: int, patch: int, xr: bool)
  {
    if VendorIs(vendor, "AMD") then major == 1 && minor < 3
    else if VendorIs(vendor, "Intel") then
      (major == 1 && ((minor == 3 && patch < 240) || minor < 3)) || xr
    else false
  }

  function MinGpuMib(xr: bool): nat { if xr then XR_MIN_GPU_MIB else 0 }

  function SuggestedGpuMib(xr: bool): nat { if xr then XR_SUGGESTED_GPU_MIB else 0 }

  /** The memory warning's "suggested level" as the source passes it: the minimum. */
  function MemoryWarningAsWritten(available: nat, xr: bool): Verdict
  {
    LittleMemory(available, MinGpuMib(xr))
  }

  /** The memory warning as its message reads: the suggested level, above what is available. */
  function MemoryWarning(available: nat, xr: bool): (v: Verdict)
    ensures v.LittleMemory? && (available < SuggestedGpuMib(xr) ==> v.available < v.suggested)
  {
    LittleMemory(available, SuggestedGpuMib(xr))
  }

  /** The GPU is queried: an AVD, no skip switch, Windows with GuestAngle enabled. */
  predicate Queried(avd: Option<Avd>, skipChecks: string, platform: Platform, guestAngle: bool)
  {
    avd.Some? && skipChecks != "1" && platform == Windows && guestAngle
  }

  /** The query found a vendor whose driver the rule accepts. */
  predicate DriverAccepted(avd: Avd, vk: Vulkan)
  {
    vk.vendor.Some? && !Unsupported(vk.vendor.value, vk.major, vk.minor, vk.patch, avd.xr)
  }

  function HasSufficientHwGpu(avd: Option<Avd>, skipChecks: string, platform: Platform,
                              guestAngle: bool, vk: Vulkan): (v: Verdict)
    ensures avd.None? ==> v == NoAvd
    ensures avd.Some? && skipChecks == "1" ==> v == ChecksSkipped
    ensures avd.Some? && skipChecks != "1" && avd.value.xr ==>
              (platform == MacIntel ==> v == XrOnMacIntel) && (platform == Linux ==> v == XrOnLinux)
    ensures v.NoVulkan? <==> Queried(avd, skipChecks, platform, guestAngle) && vk.vendor.None?
    ensures v.UnsupportedDriver? <==>
              Queried(avd, skipChecks, platform, guestAngle) &&
              vk.vendor.Some? && Unsupported(vk.vendor.value, vk.major, vk.minor, vk.patch, avd.value.xr)
    ensures v.TooLittleMemory? <==>
              Queried(avd, skipChecks, platform, guestAngle) && DriverAccepted(avd.value, vk) &&
              avd.value.xr && vk.memoryBytes / MIB < XR_MIN_GPU_MIB
    ensures v.LittleMemory? <==>
              Queried(avd, skipChecks, platform, guestAngle) && DriverAccepted(avd.value, vk) &&
              avd.value.xr && XR_MIN_GPU_MIB <= vk.memoryBytes / MIB < XR_SUGGESTED_GPU_MIB
    ensures v.Met? <==>
              Queried(avd, skipChecks, platform, guestAngle) && DriverAccepted(avd.value, vk) &&
              (avd.value.xr ==> vk.memoryBytes / MIB >= XR_SUGGESTED_GPU_MIB)
    ensures (v.TooLittleMemory? || v.LittleMemory?) ==> v.available == vk.memoryBytes / MIB
  {
    if avd.None? then NoAvd
    else if skipChecks == "1" then ChecksSkipped
    else if avd.value.xr && platform == MacIntel then XrOnMacIntel
    else if avd.value.xr && platform == Linux then XrOnLinux
    else if platform != Windows || !guestAngle then NotRequired
    else if vk.vendor.None? then NoVulkan
    else if Unsupported(vk.vendor.value, vk.major, vk.minor, vk.patch, avd.value.xr) then
      UnsupportedDriver(vk.vendor.value, vk.major, vk.minor, vk.patch)
    else
      var available := vk.memoryBytes / MIB;
      if available < MinGpuMib(avd.value.xr) then TooLittleMemory(available, MinGpuMib(avd.value.xr))
      else if available < SuggestedGpuMib(avd.value.xr) then MemoryWarning(available, avd.value.xr)
      else Met
  }

  /** The XR platform rules decide before the GPU is queried: the query's answer does not matter. */
  lemma XrDecidesBeforeQuery(avd: Avd, skipChecks: string, platform: Platform,
                             angle1: bool, vk1: Vulkan, angle2: bool, vk2: Vulkan)
    requires avd.xr && (platform == MacIntel || platform == Linux)
    ensures HasSufficientHwGpu(Some(avd), skipChecks, platform, angle1, vk1)
            == HasSufficientHwGpu(Some(avd), skipChecks, platform, angle2, vk2)
  {
  }

  /** Off Windows, or without GuestAngle, a present and unskipped AVD passes unless an XR rule fired. */
  lemma OnlyWindowsAngleChecked(avd: Avd, skipChecks: string, platform: Platform, guestAngle: bool, vk: Vulkan)
    requires skipChecks != "1" && (platform != Windows || !guestAngle)
    ensures var v := HasSufficientHwGpu(Some(avd), skipChecks, platform, guestAngle, vk);
            StatusOf(v) == Ok <==> !(avd.xr && (platform == MacIntel || platform == Linux))
  {
  }

  /** Intel drivers: 1.3.239 is refused and 1.3.240 accepted, but never for an XR AVD. */
  lemma IntelVersionBoundary()
    ensures Unsupported("Intel(R) Arc", 1, 3, 239, false)
    ensures !Unsupported("Intel(R) Arc", 1, 3, 240, false)
    ensures Unsupported("Intel(R) Arc", 1, 4, 0, true)
    ensures !Unsupported("AMD Radeon", 1, 3, 0, false) && Unsupported("AMD Radeon", 1, 2, 999, false)
  {
    assert "Intel(R) Arc"[0] != "AMD"[0];
    assert "Intel(R) Arc"[..3] != "AMD";
    assert "Intel(R) Arc"[..5] == "Intel";
    assert "AMD Radeon"[..3] == "AMD";
  }

  /** As written, the warning calls a level "suggested" that the available memory already reaches. */
  lemma MemoryWarningAsWrittenClaim()
    ensures var v := MemoryWarningAsWritten(3000, true);
            v.suggested == XR_MIN_GPU_MIB && v.available >= v.suggested
  {
  }
}
