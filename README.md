# A verified model of the emulator's checksum engine, device models, compatibility checks and boot properties

This project models, in Dafny, thirteen core pieces of the Android emulator's QEMU tree and proves properties of each. One module per source file:

- `Checksum` (`net/checksum.c`) covers the Internet checksum engine:
  - the one's-complement sum of RFC 1071 with its byte-position weights, and the fold that finishes it;
  - the TCP/UDP pseudo-header sum (RFC 768, section 3.1 of RFC 793, section 8.1 of RFC 8200);
  - the scatter-gather sum over an I/O vector;
  - `net_checksum_calculate`, which finds the MAC and IP headers of an Ethernet frame (IEEE 802.1Q tags included) and patches the IPv4 header checksum and the TCP or UDP checksum in place.
- `Max31732` and `Max6581` (`hw/sensor/max31732.c`, `hw/sensor/max6581.c`) are SMBus temperature sensors. Each has:
  - an 8-bit register file;
  - temperatures set from the management interface in millidegrees;
  - a status update that compares every enabled channel with its thresholds;
  - the receive and write paths of the bus.
- `AspeedLpc` (`hw/misc/aspeed_lpc.c`) is the ASPEED LPC controller's KCS channels. It has:
  - the BMC-side register file;
  - the host side of the KCS transfer state machine (section 9 of the IPMI v2.0 specification);
  - the request hand-off from the IPMI core;
  - the interrupt lines.
- `NpcmUdc` and `Npcm8xxUdc` (`hw/usb/npcm-udc.c`, `hw/usb/npcm8xx-udc.c`) are the Nuvoton USB 2.0 device controllers. They have:
  - register dispatch with read-only masks and write-1-to-clear registers;
  - the run/attach state machine and the interrupt rule;
  - for the NPCM7xx controller, endpoint priming, control transfers and data delivery over a usbredir host.
- `Npcm8xxGdma` (`hw/dma/npcm8xx-gdma.c`) is one channel of the NPCM8xx general-purpose DMA controller. It has:
  - the registers and their read-only table;
  - the CTL write that starts a transfer;
  - the memory-to-memory copy loop with fixed, increasing or decreasing addresses modulo 2^32.
- `NpcmEspi` (`hw/ssi/npcm_espi.c`) is the NPCM eSPI slave interface. It has:
  - its registers and reset;
  - the `vwire_state` and `vwire_valid` properties, which pack one nibble of each of sixteen virtual-wire registers into a 64-bit value.
- `CompatibilityCheck`, `SystemCheck` and `HwGpuCheck` (`android/emu/check/src/android/`) are the AVD compatibility manager and two of its checks:
  - the manager registers checks, caches their results and builds the user-facing issue string;
  - `SystemCheck` holds the CPU-core and RAM thresholds;
  - `HwGpuCheck` holds the XR platform rules, the Vulkan vendor and version gate, and the GPU-memory thresholds.
- `UserspaceBootProperties` (`android/android-emu/android/userspace-boot-properties.cpp`) assembles the guest's boot properties:
  - the qemu flag and hardware name;
  - the logcat rewrite;
  - `key=value` splitting;
  - the foldable device-state XML and its validation;
  - the final pass that keeps each key's last value in ascending key order.
- `AlignedBuf` (`android/android-emu/android/base/AlignedBuf.h`) is the aligned, resizable buffer:
  - the allocation-size formula and prefix-keeping resize;
  - prefix comparison;
  - copy and move construction and assignment, with the allocator's live blocks made explicit so that leaks and frees can be stated.

`Bytes`, `Words` and `Wrappers` hold shared helpers: C conversions to 8-bit registers, named 32-bit mask operations, and an option type.

Code that changes state in place is modelled as classes:
- register files are arrays;
- methods carry `modifies` clauses and are proved against specification functions on the old state.

Pure code is modelled as functions. Each operation has a partner:
- an inverse (get after set, split and rejoin);
- an invariant it keeps (read-only bits, sorted unique keys);
- or an independent reference (the status rules recomputed from the original registers, the transfer's final addresses in closed form).

Where the code and its evident intent differ, the model keeps both: a member that follows the code as written, with a lemma exhibiting the difference, and a corrected member that the rest of the model uses. "## Findings" lists each pair.

## Model

| member | source | states |
|---|---|---|
| `Checksum.WordSumIsBigEndian` | net/checksum.c:24-42 | the byte-lane sum from an even stream position is the RFC 1071 sum of big-endian 16-bit words, an odd tail byte padded with zero |
| `Checksum.WordSumAppend` | net/checksum.c:24-42 | summing a stream in two parts gives the same total, the second part starting at the position after the first |
| `Checksum.WordSumParity` | net/checksum.c:27 | only the parity of the stream position decides which lane a byte lands in |
| `Checksum.WordSumBound` | net/checksum.c:24-42 | `h` byte pairs add at most 0xFFFF times `h` |
| `Checksum.AddContCombine` | net/checksum.c:34-41 | the two 32-bit lane sums, the high lane shifted by 8, combine to the word sum modulo 2^32 for either parity of the sequence number |
| `Checksum.AddCont` | net/checksum.c:24-42 | the loop returns the word sum of the buffer at the given sequence position, modulo 2^32 |
| `Checksum.OnesComplement` | net/checksum.c:44-49 | the folded complement fits in 16 bits |
| `Checksum.Finish` | net/checksum.c:44-49 | the fold loop ends below 2^16 and the result added to the input is a multiple of 0xFFFF (ones'-complement cancellation) |
| `Checksum.ComplementCancels` | net/checksum.c:44-49 | complementing a sum with its own complement added gives zero |
| `Checksum.ComplementZero` | net/checksum.c:44-49 | the complement is zero exactly when the sum is a non-zero multiple of 0xFFFF |
| `Checksum.TcpUdp` | net/checksum.c:51-61 | the TCP/UDP checksum is a 16-bit value |
| `Checksum.ChecksumTcpUdp` | net/checksum.c:51-61 | the computation over payload, addresses, protocol and length equals the pseudo-header checksum `TcpUdp` |
| `Checksum.PseudoSumNoWrap` | net/checksum.c:51-61 | for a payload below 64 KiB the 32-bit accumulator never wraps |
| `Checksum.PseudoSumIsIpv4PseudoHeader` | net/checksum.c:51-61 | the sum equals the word sum of the RFC 768 / RFC 793 IPv4 pseudo-header followed by the segment |
| `Checksum.PseudoSumIsIpv6PseudoHeader` | net/checksum.c:51-61 | the sum equals the word sum of the IPv6 pseudo-header of section 8.1 of RFC 8200 followed by the segment |
| `Checksum.StoreAddsValue` | net/checksum.c:190-196 | a value stored in network order over a zero field at an even offset adds exactly that value to the sum |
| `Checksum.TcpUdpVerifies` | net/checksum.c:188-196 | with its checksum field zeroed, filled with the computed checksum, the segment then checks to zero |
| `Checksum.FlattenSlice` | net/checksum.c:230-253 | a range inside one buffer of an I/O vector is that buffer's bytes, shifted by the buffers before it |
| `Checksum.IovConsume` | net/checksum.c:240-250 | one chunk consumed keeps the running sum equal to the sum of the bytes read so far, at the right stream parity |
| `Checksum.IovDone` | net/checksum.c:230-253 | when the loop stops, the result is the sum over the requested range cut at the end of the vector |
| `Checksum.AddIovChunk` | net/checksum.c:240-250 | one pass over buffer `i` keeps the loop's progress predicate |
| `Checksum.AddIov` | net/checksum.c:230-253 | the result is the 32-bit word sum of the requested byte range of the flattened vector, starting at the given stream offset |
| `Checksum.MacHeaderLen` | net/checksum.c:122-140 | the MAC header is 14 bytes without a VLAN tag, 18 with one and 22 with a double tag, according to the ethertype |
| `Checksum.Ipv4HeaderStep` | net/checksum.c:69-78 | the header step changes at most the two bytes of the IPv4 header checksum |
| `Checksum.Ipv4PayloadLen` | net/checksum.c:87-91 | the IPv4 payload length is the total length less 20, as a 16-bit value |
| `Checksum.Ipv6PayloadLen` | net/checksum.c:94-97 | the IPv6 payload length is the header's 16-bit field |
| `Checksum.StoreBe16` | net/checksum.c:196 | the store writes the value in network byte order at `k` |
| `Checksum.ChecksumIpv4Header` | net/checksum.c:69-84 | the frame becomes the header with its checksum zeroed, summed and stored (corrected byte order) |
| `Checksum.ChecksumL4` | net/checksum.c:175-223 | the frame becomes the reference transport patch `L4Patched` |
| `Checksum.ChecksumIpv4Frame` | net/checksum.c:154-161 | the IPv4 branch gives the reference `Ipv4Frame` |
| `Checksum.ChecksumIpv6Frame` | net/checksum.c:162-168 | the IPv6 branch gives the reference `Ipv6Frame` |
| `Checksum.Calculate` | net/checksum.c:99-228 | the frame after the call is the reference `CalculatedFrame` of the frame before it; where the headers do not fit, the frame is left unchanged (a correction; see Findings) |
| `Checksum.L4OffsetFits` | net/checksum.c:175-223 | when the transport step applies, the checksum field lies inside the segment and the frame at an even offset |
| `Checksum.L4PatchedFields` | net/checksum.c:175-223 | the transport step writes nothing when it does not apply and otherwise only the two checksum bytes |
| `Checksum.L4PatchedVerifies` | net/checksum.c:175-223 | after the transport step the segment checks to zero against its pseudo-header, and bytes before the segment keep their values |
| `Checksum.Ipv4FrameFields` | net/checksum.c:154-161 | the IPv4 branch writes only the header checksum and the transport checksum fields |
| `Checksum.Ipv6FrameFields` | net/checksum.c:162-168 | the IPv6 branch writes only the transport checksum field |
| `Checksum.CalculateTouchesOnlyChecksums` | net/checksum.c:99-228 | every byte outside the checksum fields, addresses and payload included, keeps its value |
| `Checksum.CalculatedIpv4` | net/checksum.c:144-161 | a frame with version 4 and room for the header takes the IPv4 branch |
| `Checksum.CalculatedIpv6` | net/checksum.c:144-168 | a frame with version 6 and room for the header takes the IPv6 branch |
| `Checksum.Ipv4PseudoChecks` | net/checksum.c:51-61 | a zero checksum over an IPv4 pseudo-header and segment means the RFC 1071 check passes |
| `Checksum.Ipv6PseudoChecks` | net/checksum.c:51-61 | the same for the IPv6 pseudo-header |
| `Checksum.Ipv4SegmentVerifies` | net/checksum.c:175-223 | after the transport step a TCP or UDP segment after an IPv4 header verifies against its pseudo-header |
| `Checksum.Ipv6SegmentVerifies` | net/checksum.c:175-223 | the same after an IPv6 header |
| `Checksum.Ipv4FrameTransportVerifies` | net/checksum.c:154-161 | in the IPv4 branch the transport checksum verifies after the header step |
| `Checksum.CalculateIpv4TransportVerifies` | net/checksum.c:99-228 | after the whole calculation the transport checksum of an IPv4 frame verifies |
| `Checksum.CalculateIpv6TransportVerifies` | net/checksum.c:99-228 | after the whole calculation the transport checksum of an IPv6 frame verifies |
| `Checksum.CalculateIpv4HeaderVerifies` | net/checksum.c:74-77 | with CSUM_IP and a 20-byte header, the header checksum verifies after the whole calculation |
| `Checksum.Ipv4HeaderVerifies` | net/checksum.c:69-84 | the patched IPv4 header sums to a complement of zero (RFC 791 check) |
| `Checksum.HeaderStoreSum` | net/checksum.c:73-77 | storing a value in the zeroed checksum field adds exactly that value to the header sum |
| `Checksum.L4PatchedBefore` | net/checksum.c:175-223 | the transport step leaves every byte before the transport header alone |
| `Checksum.AsWrittenSegmentOverrun` | net/checksum.c:185-196 | as written, a frame whose total-length field exceeds the frame passes the transport size check with its segment running past the frame |
| `Checksum.CorrectedSkipsOverrun` | net/checksum.c:185-187 | with the length checked against the frame, that frame gets at most its header checksum |
| `Checksum.PutLe16` | net/checksum.c:75-77 | a host-order store on a little-endian host is a network-order store of the swapped value |
| `Checksum.HostOrderStoreFails` | net/checksum.c:75-77 | as written, a checksum whose two bytes differ is stored swapped and the header then fails its check |
| `Checksum.SwapBreaksSum` | net/checksum.c:75-77 | swapping the bytes of a checksum with distinct bytes breaks the ones'-complement cancellation |
| `Checksum.RuntFramePassesAsWritten` | net/checksum.c:142-147 | as written, a frame shorter than its own MAC header passes the IP header test, because the negative remainder converts to a huge `size_t`; the model leaves such a frame unchanged |
| `Checksum.RuntVlanFrameAsWritten` | net/checksum.c:120-147 | a 16-byte frame tagged ETH_P_VLAN has an 18-byte MAC header and passes the test as written |
| `Checksum.ShortHeadersUnchanged` | net/checksum.c:142-168 | the model's length checks: a frame is unchanged when the 20-byte IP header, a 40-byte IPv6 header or, under CSUM_IP, the IHL-sized IPv4 header does not fit |
| `Max31732.Unpack` | hw/sensor/max31732.c:38-50 | the temperature decoded from two registers is one the registers can hold |
| `Max31732.UnpackPack` | hw/sensor/max31732.c:38-75 | packing a storable temperature into its two registers and reading them back gives it unchanged |
| `Max31732.Clamp` | hw/sensor/max31732.c:65-71 | the clamped value lies in -63875..127875, equals the input inside the range and keeps its sign |
| `Max31732.Encode` | hw/sensor/max31732.c:60-75 | the stored whole degrees are the truncated quotient of the clamped value, the sign flag says the value is negative, the fraction fits four bits |
| `Max31732.GetSetRoundTrip` | hw/sensor/max31732.c:38-75 | a value in range whose sub-degree part is a multiple of 1/8 degree reads back exactly after a set and a get |
| `Max31732.EncodeAboveRange` | hw/sensor/max31732.c:62-67 | above 127.875 degrees the whole part saturates but the fraction still comes from the value given |
| `Max31732.EncodeBelowRange` | hw/sensor/max31732.c:62-70 | below -63.875 degrees the whole part saturates at -63 while the fraction still comes from the value given |
| `Max31732.EncodedReadingBounds` | hw/sensor/max31732.c:60-75 | every stored reading lies within a sixteenth of a degree of the range |
| `Max31732.ChannelStep` | hw/sensor/max31732.c:98-150 | one channel pass keeps the register file's size |
| `Max31732.StepValues` | hw/sensor/max31732.c:98-150 | a pass over an enabled channel sets its bit in each status register whose comparison holds, updates the highest temperature under the local/remote rule, and writes nothing else |
| `Max31732.StepProgress` | hw/sensor/max31732.c:124-151 | a pass over the next channel extends the reference status bits and highest value by that channel |
| `Max31732.ScanProgress` | hw/sensor/max31732.c:84-152 | after `n` passes from the cleared file, each status register holds the reference mask of the first `n` channels and the highest-temperature register the reference value |
| `Max31732.StatusMaskBit` | hw/sensor/max31732.c:98-151 | a channel's bit in the reference mask is set exactly when it was examined and its condition holds |
| `Max31732.UpdatedStatusBit` | hw/sensor/max31732.c:84-152 | after the update, channel `ch`'s bit of a status register is set exactly when the channel is enabled and its threshold comparison holds |
| `Max31732.UpdatedHighest` | hw/sensor/max31732.c:116-119 | the highest-temperature register holds the value the reference rule picks over all five channels |
| `Max31732.AllOrNoneFire` | hw/sensor/max31732.c:98-151 | when every examined channel fires the mask is all ones, when none does it is zero |
| `Max31732.UpdatedAllOrNone` | hw/sensor/max31732.c:84-152 | a status register reads 0x1F when every channel's condition holds and 0 when none does |
| `Max31732.UpdateTouchesOnlyStatus` | hw/sensor/max31732.c:84-152 | the update writes only the three status registers and the highest-temperature register |
| `Max31732.Device.constructor` | hw/sensor/max31732.c:228-266 | a new device holds the reset register file and command 0 |
| `Max31732.Device.GetTemperature` | hw/sensor/max31732.c:38-50 | returns the reading of the two registers at `a` |
| `Max31732.Device.SetTemperature` | hw/sensor/max31732.c:60-75 | the register file becomes the reference store of the encoded value |
| `Max31732.Device.UpdateStatus` | hw/sensor/max31732.c:84-152 | the register file becomes the reference `Updated` of the file before it |
| `Max31732.Device.LocalStep` | hw/sensor/max31732.c:97-121 | the local channel's block performs the reference pass over channel 0 |
| `Max31732.Device.RemoteStep` | hw/sensor/max31732.c:124-151 | one iteration performs the reference pass over remote diode `i + 1` |
| `Max31732.Device.StoreStatus` | hw/sensor/max31732.c:106-119 | the computed bits and highest value are stored as the reference pass says |
| `Max31732.Device.Receive` | hw/sensor/max31732.c:154-172 | a receive returns the selected register inside the readable range and 0xFF outside it |
| `Max31732.Device.Write` | hw/sensor/max31732.c:174-206 | the first byte becomes the command and the data byte is stored only into a writable register |
| `Max31732.Device.QmpGetTemp` | hw/sensor/max31732.c:209-214 | the management getter returns the reading at the input's address |
| `Max31732.Device.QmpSetTemp` | hw/sensor/max31732.c:216-226 | the management setter stores the value then recomputes the statuses |
| `Max31732.Device.Clear` | hw/sensor/max31732.c:232 | every register becomes zero |
| `Max31732.Device.ExitReset` | hw/sensor/max31732.c:228-266 | the register file becomes the reset layout |
| `Max31732.Device.ResetTemperatureRegisters` | hw/sensor/max31732.c:234-239 | the identification and temperature registers take their reset values, the others keep theirs |
| `Max31732.Device.ResetConfigurationRegisters` | hw/sensor/max31732.c:240-244 | the enable and configuration registers take their reset values, the others keep theirs |
| `Max31732.Device.ResetThresholdRegisters` | hw/sensor/max31732.c:245-265 | the threshold registers take their reset values, the others keep theirs |
| `Max31732.WriteThenReceive` | hw/sensor/max31732.c:154-206 | a byte written and received back reads as written in a writable register, the old value in a read-only one and 0xFF outside the readable range |
| `Max31732.WriteTouchesOnlyCommand` | hw/sensor/max31732.c:193-203 | a write changes at most the register its first byte selects |
| `Max31732.QmpAddrUntouched` | hw/sensor/max31732.c:216-226 | the five management inputs lie inside the file and are never written by the update |
| `Max31732.UpdateKeepsReading` | hw/sensor/max31732.c:84-152 | the update leaves a temperature in registers it does not write |
| `Max31732.StoredReadsBack` | hw/sensor/max31732.c:38-75 | a stored temperature reads back as its encoding |
| `Max31732.QmpSetThenGet` | hw/sensor/max31732.c:209-226 | setting an input then getting it gives the encoded reading, and a value in range on a 1/8-degree step reads back exactly |
| `Bytes.SignedByte` | hw/sensor/max31732.c:103-104 | the `int8_t` cast of a limit byte lies in -128..127 and is congruent to the byte modulo 256 |
| `Bytes.Trunc8` | hw/sensor/max31732.c:118 | storing a millidegree reading into the 8-bit highest-temperature register keeps its value modulo 256 |
| `Max6581.Clamp` | hw/sensor/max6581.c:68-76 | the stored byte is at most 254 degrees, equals the input up to 254 and is 254 above it |
| `Max6581.Fraction` | hw/sensor/max6581.c:201-203 | the extended register holds the millidegree remainder in 1/256-degree steps (times 32 over 125), capped like a temperature from 997 up |
| `Max6581.QmpReading` | hw/sensor/max6581.c:175-188 | the management reading is below 256000 millidegrees |
| `Max6581.SaturatedWholeIsCapped` | hw/sensor/max6581.c:200 | the corrected whole degrees are the quotient capped at 254, so a hotter input never reads as a cooler one |
| `Max6581.NarrowingWrapsAround` | hw/sensor/max6581.c:200 | as written, an input from 256000 to 509999 millidegrees is narrowed to a byte before the clamp and reads back below 254 degrees, where saturating first reads at least 254 |
| `Max6581.FractionReadBack` | hw/sensor/max6581.c:183-186 | the extended register reads back at most 7 millidegrees low, exactly on 1/8-degree steps |
| `Max6581.QmpReadBack` | hw/sensor/max6581.c:175-203 | a set then get of the management value gives it back to within 8 millidegrees below 255000, exactly on 1/8-degree steps, and between 254000 and 255000 above |
| `Max6581.StatusBit` | hw/sensor/max6581.c:37-41 | each status's bit for a channel is a bit of the byte |
| `Max6581.StatusBitInvolution` | hw/sensor/max6581.c:101-168 | the channel-to-bit assignment (local and remote 7 exchanged in the OVERT register) is its own inverse, so each bit reports exactly one channel |
| `Max6581.StepGet` | hw/sensor/max6581.c:108-122 | a pass over a channel sets that channel's bit of each status whose condition holds and changes no other bit |
| `Max6581.StoreKeeps` | hw/sensor/max6581.c:85-169 | storing the status registers leaves every other register alone |
| `Max6581.StoreGet` | hw/sensor/max6581.c:85-169 | each status register reads back what was stored in it |
| `Max6581.StoreTwice` | hw/sensor/max6581.c:85-169 | a second store of the status registers replaces the first |
| `Max6581.StoreStart` | hw/sensor/max6581.c:97-98 | the pass starts with OVERT and diode fault cleared and the two ALERT registers as they were |
| `Max6581.ChannelAgrees` | hw/sensor/max6581.c:92-95 | a pass reads only temperature, limit and mask registers, which no pass writes, so the conditions seen mid-update are those of the original file |
| `Max6581.ScanStatus` | hw/sensor/max6581.c:85-169 | the passes over the first `n` channels leave each status register equal to its reference mask over those channels |
| `Max6581.ScanStatusStep` | hw/sensor/max6581.c:101-168 | one more pass extends the reference mask by one channel |
| `Max6581.StatusMaskBit` | hw/sensor/max6581.c:85-169 | a bit of the reference mask is set exactly when it was set at the start or the channel it reports has been examined and fires |
| `Max6581.UpdatedStatusBit` | hw/sensor/max6581.c:85-169 | after the update a status bit is set exactly when its channel's condition holds, or, for the two ALERT registers, when it was already set |
| `Max6581.AlertBitsStick` | hw/sensor/max6581.c:82 | an update never clears an ALERT bit |
| `Max6581.LocalDiodeBitClear` | hw/sensor/max6581.c:125-144 | the local diode's diode-fault bit is never set |
| `Max6581.UpdatedAllOrNone` | hw/sensor/max6581.c:85-169 | a status register reads 0xFF when every channel fires and keeps its starting value when none does |
| `Max6581.UpdateTouchesOnlyStatus` | hw/sensor/max6581.c:85-169 | the update changes only the four status registers |
| `Max6581.Device.constructor` | hw/sensor/max6581.c:276-324 | a new device holds the reset register file and command 0 |
| `Max6581.Device.SetTemperature` | hw/sensor/max6581.c:68-76 | the register at `a` takes the clamped value and nothing else changes |
| `Max6581.Device.UpdateStatus` | hw/sensor/max6581.c:85-169 | the register file becomes the reference `Updated` of the file before it |
| `Max6581.Device.Examine` | hw/sensor/max6581.c:101-168 | a pass over channel `ch` stores the reference step of the statuses |
| `Max6581.Device.Conditions` | hw/sensor/max6581.c:110-122 | the four tests return the reference conditions: above the ALERT limit, above the OVERT limit less 4, the fault reading 255, below the shared low limit, each only while unmasked |
| `Max6581.Device.StoreStatus` | hw/sensor/max6581.c:110-122 | the bits found are stored as the reference step says |
| `Max6581.Device.Receive` | hw/sensor/max6581.c:207-237 | a receive first updates the statuses, returns the selected register or 0xFF outside the supported ones, and clears an ALERT status register it returns |
| `Max6581.Device.Write` | hw/sensor/max6581.c:239-274 | the first byte becomes the command, the data byte is stored only into a writable register, then the statuses are updated |
| `Max6581.Device.QmpGetTemp` | hw/sensor/max6581.c:175-188 | the getter returns whole degrees times 1000 plus the extended register times 125 over 32 |
| `Max6581.Device.QmpSetTemp` | hw/sensor/max6581.c:190-205 | the setter stores the (corrected, saturated) whole degrees and the fraction, then updates the statuses |
| `Max6581.Device.Clear` | hw/sensor/max6581.c:280 | every register becomes zero |
| `Max6581.Device.ExitReset` | hw/sensor/max6581.c:276-324 | the register file becomes the reset layout |
| `Max6581.Device.ResetTemperatureRegisters` | hw/sensor/max6581.c:282-290 | the temperature and identification registers take their reset values, the others keep theirs |
| `Max6581.Device.ResetAlertLimitRegisters` | hw/sensor/max6581.c:291-306 | the ALERT-high limits take their reset values, the others keep theirs |
| `Max6581.Device.ResetOvertLimitRegisters` | hw/sensor/max6581.c:307-323 | the OVERT limits and the ALERT-low disable register take their reset values, the others keep theirs |
| `Max6581.WriteThenReceive` | hw/sensor/max6581.c:207-274 | a byte written to a writable register that the update does not write reads back when the register is readable |
| `Max6581.WriteTouchesOnlyCommand` | hw/sensor/max6581.c:239-274 | a write changes at most the register it selects and the status registers |
| `Max6581.SecondAlertRead` | hw/sensor/max6581.c:215-219 | after an ALERT status read clears the register, a second read reports exactly the channels whose condition still holds |
| `Max6581.QmpSetThenGet` | hw/sensor/max6581.c:175-205 | the status update after a management set does not change the temperature just stored |
| `Max6581.QmpSetNoDiodeFault` | hw/sensor/max6581.c:190-205 | a management value never stores 255 degrees, so the channel reading it never reports a diode fault |
| `AspeedLpc.EnableRules` | hw/misc/aspeed_lpc.c:202-231 | an IBF interrupt counts only for an enabled channel, channel 3 needs both LPC3E and KCSENBL, and cleared enable registers enable no channel |
| `AspeedLpc.EnablesIgnorePorts` | hw/misc/aspeed_lpc.c:202-231 | the enables depend only on HICR0, HICR2, HICR4 and HICRB, not on any channel's data or status registers |
| `AspeedLpc.HostReadRules` | hw/misc/aspeed_lpc.c:234-249 | a host read clears OBF of the channel's status register and changes nothing else |
| `AspeedLpc.HostWriteRules` | hw/misc/aspeed_lpc.c:251-277 | a host write puts the byte in the input data register, sets IBF, sets CMD exactly for a control code, keeps OBF and changes nothing else |
| `AspeedLpc.EventKeepsInv` | hw/misc/aspeed_lpc.c:279-362 | every event keeps the channel invariant: the request position lies inside the request, the response never outgrows its buffer, the write-end code is pending only with a request |
| `AspeedLpc.EventTouchesOnlyChannel` | hw/misc/aspeed_lpc.c:279-362 | an event changes only its own channel's three registers |
| `AspeedLpc.ReadStateAppends` | hw/misc/aspeed_lpc.c:311-320 | in the read state each offered byte is acknowledged with READ and appended to the response exactly when the response has room |
| `AspeedLpc.WriteStateWaits` | hw/misc/aspeed_lpc.c:323-330 | in the write state, while the BMC has not taken the last byte, nothing happens |
| `AspeedLpc.WriteStateSends` | hw/misc/aspeed_lpc.c:331-345 | otherwise the next byte is WRITE_END as a command exactly when the write-end code is pending and one request byte is left, else the next request byte as data; a request sent without the pending code is finished |
| `AspeedLpc.ErrorStateAborts` | hw/misc/aspeed_lpc.c:347-357 | the (corrected) error state aborts both directions, forgets the write-end code and clears the status register |
| `AspeedLpc.IdleStateRules` | hw/misc/aspeed_lpc.c:289-309 | in the idle state a dummy byte after a response hands the response to the IPMI core when one is attached, and a pending request is announced with WRITE_START |
| `AspeedLpc.AcceptRules` | hw/misc/aspeed_lpc.c:371-386 | a request is taken only when none is pending and it is not empty, truncated to the buffer size, keeping the invariant |
| `AspeedLpc.StrWriteIgnoresMask` | hw/misc/aspeed_lpc.c:555-587 | as written, the store before the mask makes the status register hold exactly what the BMC wrote, read-only bits included |
| `AspeedLpc.StrWriteSetsReadOnlyBit` | hw/misc/aspeed_lpc.c:575-587 | as written, writing OBF into a status register with OBF clear sets it; the corrected write keeps it clear |
| `AspeedLpc.StrWrite` | hw/misc/aspeed_lpc.c:575-587 | the corrected status write keeps OBF, IBF and CMD as they were and takes every other bit from the data |
| `AspeedLpc.AfterAbortAdvances` | hw/misc/aspeed_lpc.c:334-344 | each write-state event after an abort moves the request position one further |
| `AspeedLpc.AbortThenWriteOverruns` | hw/misc/aspeed_lpc.c:347-357 | as written, an abort during a request leaves the write-end code pending with no request, outside the invariant, and later write events index past the request buffer |
| `AspeedLpc.ChannelServing` | hw/misc/aspeed_lpc.c:406-419 | the owning channel of a register is one serving it, and none exactly when no channel serves it |
| `AspeedLpc.ServesOne` | hw/misc/aspeed_lpc.c:80-108 | a register belongs to at most one channel |
| `AspeedLpc.RegistersMatchChannels` | hw/misc/aspeed_lpc.c:116-178 | every channel register has an entry in the property table |
| `AspeedLpc.ChannelOfRegister` | hw/misc/aspeed_lpc.c:406-419 | the table search returns the channel that serves the register, or none |
| `AspeedLpc.RegisterKinds` | hw/misc/aspeed_lpc.c:508-573 | the input data, output data and status registers are exactly IDR1-4, ODR1-4 and STR1-4 |
| `AspeedLpc.OwnRegisters` | hw/misc/aspeed_lpc.c:80-108 | each channel owns its own input data, output data and status register |
| `AspeedLpc.HostToBmc` | hw/misc/aspeed_lpc.c:251-277 | a byte the host writes is what the BMC reads from the input data register, and the BMC's read clears IBF |
| `AspeedLpc.BmcToHost` | hw/misc/aspeed_lpc.c:555-569 | a value the BMC writes to the output data register is what the host reads; the write sets OBF and the host read clears it |
| `AspeedLpc.BmcWriteRules` | hw/misc/aspeed_lpc.c:536-594 | a BMC write changes only the register written and, for an output data register, its channel's status register; a status register keeps its read-only bits |
| `AspeedLpc.NamedIn` | hw/misc/aspeed_lpc.c:391-404 | the lookup returns an entry of the table with that name, or none when no entry has it |
| `AspeedLpc.Named` | hw/misc/aspeed_lpc.c:391-404 | a named property is a well-formed table entry with that name |
| `AspeedLpc.NamedFinds` | hw/misc/aspeed_lpc.c:391-404 | a property name is found exactly when it is in the table |
| `AspeedLpc.EntryKinds` | hw/misc/aspeed_lpc.c:116-178 | every table entry names one of its channel's registers by a name starting with idr, odr or str accordingly |
| `AspeedLpc.PrefixLetters` | hw/misc/aspeed_lpc.c:436 | a name has a prefix exactly when it agrees with it letter by letter |
| `AspeedLpc.FindByName` | hw/misc/aspeed_lpc.c:391-404 | the loop over the table returns the entry the reference lookup names |
| `AspeedLpc.PropertyRoundTrip` | hw/misc/aspeed_lpc.c:421-477 | a value set through a data register's property reads back through it; setting a status register's property changes nothing |
| `AspeedLpc.PropertySetIsHostWrite` | hw/misc/aspeed_lpc.c:464-476 | setting an input data register's property looks like a host write: the value is stored, IBF set, nothing else changed |
| `AspeedLpc.ResetQuiesces` | hw/misc/aspeed_lpc.c:606-615 | after reset no channel is enabled or interrupting, every channel is idle and no byte waits in either direction |
| `AspeedLpc.BitsApart` | hw/misc/aspeed_lpc.c:479-490 | each input line has a distinct non-zero bit in the pending word |
| `AspeedLpc.SetLineRecords` | hw/misc/aspeed_lpc.c:483-487 | setting a line records its level |
| `AspeedLpc.SetLineKeepsOthers` | hw/misc/aspeed_lpc.c:483-487 | setting a line leaves every other line's level as it was |
| `AspeedLpc.Channel.constructor` | hw/misc/aspeed_lpc.c:672-679 | a new channel has empty buffers of the message size, nothing pending and nothing sent |
| `AspeedLpc.Channel.HostReadByte` | hw/misc/aspeed_lpc.c:234-249 | returns the low byte of the output data register and clears OBF |
| `AspeedLpc.Channel.HostWriteByte` | hw/misc/aspeed_lpc.c:251-277 | the registers become the reference host write and the channel's line rises when its IBF interrupt was enabled |
| `AspeedLpc.Channel.HandleEvent` | hw/misc/aspeed_lpc.c:279-362 | the channel, registers, line and sent commands become the reference `Event` outcome |
| `AspeedLpc.Channel.FlushOutput` | hw/misc/aspeed_lpc.c:290-303 | a dummy byte hands a non-empty response to the IPMI core when attached and empties it |
| `AspeedLpc.Channel.OnIdle` | hw/misc/aspeed_lpc.c:289-309 | the idle case gives the reference `IdleEvent` outcome |
| `AspeedLpc.Channel.OnRead` | hw/misc/aspeed_lpc.c:311-320 | the read case gives the reference `ReadEvent` outcome |
| `AspeedLpc.Channel.OnWrite` | hw/misc/aspeed_lpc.c:322-345 | the write case gives the reference `WriteEvent` outcome |
| `AspeedLpc.Channel.OnError` | hw/misc/aspeed_lpc.c:347-357 | the error case gives the (corrected) reference `ErrorEvent` outcome |
| `AspeedLpc.Channel.HandleReq` | hw/misc/aspeed_lpc.c:365-389 | a request arriving while one is pending or empty is dropped; otherwise it is taken and the channel's event runs |
| `AspeedLpc.Channel.TakeRequest` | hw/misc/aspeed_lpc.c:382-386 | the channel becomes the reference `Accept` of the request and records its message id |
| `AspeedLpc.NewChannels` | hw/misc/aspeed_lpc.c:675-679 | the controller gets four valid channels numbered 0 to 3 with the given hosts and message size |
| `AspeedLpc.Lpc.constructor` | hw/misc/aspeed_lpc.c:617-680 | a new controller has zeroed registers, lowered lines and nothing pending |
| `AspeedLpc.Lpc.SetIrq` | hw/misc/aspeed_lpc.c:479-490 | the pending word records the line's level and the output line is high exactly when some line is pending |
| `AspeedLpc.Lpc.Read` | hw/misc/aspeed_lpc.c:494-534 | an out-of-range read returns 0 and changes nothing; otherwise it returns the register as it was, and reading an input data register lowers the line if a byte waited, clears IBF and runs the channel's event |
| `AspeedLpc.Lpc.TakeInput` | hw/misc/aspeed_lpc.c:513-527 | the input data register case gives the BMC read followed by the reference event |
| `AspeedLpc.Lpc.GiveOutput` | hw/misc/aspeed_lpc.c:562-568 | the output data register case sets OBF and gives the reference event |
| `AspeedLpc.Lpc.Write` | hw/misc/aspeed_lpc.c:536-594 | an out-of-range write changes nothing; other registers take the (corrected) BMC write, and an output data register also runs the channel's event |
| `AspeedLpc.Lpc.GetProperty` | hw/misc/aspeed_lpc.c:421-443 | an unknown name gives nothing; a known one gives the register, reading an output data register's property clearing OBF |
| `AspeedLpc.Lpc.SetProperty` | hw/misc/aspeed_lpc.c:445-477 | an unknown name changes nothing; a known one stores the value unless it names a status register, and an input data register also sets IBF and raises the line when its IBF interrupt is enabled |
| `AspeedLpc.Lpc.Reset` | hw/misc/aspeed_lpc.c:606-615 | the registers become zero except HICR7, which takes the board's value, and nothing is pending |
| `NpcmUdc.ReadOnlyBitsKept` | hw/usb/npcm-udc.c:264-277 | a masked write keeps the read-only bits of the old value and takes every other bit from the written value |
| `NpcmUdc.StatusWriteBits` | hw/usb/npcm-udc.c:235-249 | a USBSTS write sets DCSUSPEND to the written bit, keeps SYSTEM_ERROR and NAK, and clears each other status bit written as 1 |
| `NpcmUdc.IrqUpdated` | hw/usb/npcm-udc.c:199-207 | after the update the line is high exactly when the device runs and an enabled status bit is pending |
| `NpcmUdc.IndexOf` | hw/usb/npcm-udc.c:396-448 | an offset with storage maps to the register at that offset |
| `NpcmUdc.OffsetsIndexRegisters` | hw/usb/npcm-udc.c:396-448 | every register is found again at its own offset |
| `NpcmUdc.RxCallsStep` | hw/usb/npcm-udc.c:361-373 | one turn of the RX loop appends the call for the lowest bit and goes on with the bitmap shifted down |
| `NpcmUdc.BitsDigits` | hw/usb/npcm-udc.c:347-349 | the binary digits of the low `n` bits of a register are its set bits below `n` |
| `NpcmUdc.EndpointBitSet` | hw/usb/npcm-udc.c:347-350 | shifting down to bit `e` finds the bit the endpoint mask selects |
| `NpcmUdc.OnesAreDigits` | hw/usb/npcm-udc.c:348-352 | the bitmap loops visit endpoint `e` exactly when its bit is set |
| `NpcmUdc.OnesIncrease` | hw/usb/npcm-udc.c:348-349 | the bitmap loops visit endpoints in increasing order |
| `NpcmUdc.RxCallsReportOnes` | hw/usb/npcm-udc.c:361-373 | the RX loop makes one data-out-complete call per visited endpoint, in order |
| `NpcmUdc.PrimedRxReported` | hw/usb/npcm-udc.c:361-373 | endpoint `e` is reported ready exactly when `e` is below 7 and its RX bit is written to ENDPTPRIME |
| `NpcmUdc.PrimedTxVisited` | hw/usb/npcm-udc.c:347-358 | endpoint `e` is sent exactly when `e` is below 7 and its TX bit (bit 16 + `e`) is written |
| `NpcmUdc.SendStep` | hw/usb/npcm-udc.c:279-312 | sending on one endpoint adds exactly one host call, on that endpoint's buffer |
| `NpcmUdc.TxPassKeeps` | hw/usb/npcm-udc.c:347-358 | the TX loop changes nothing but guest memory and the host call log |
| `NpcmUdc.TxPassSends` | hw/usb/npcm-udc.c:347-358 | the TX loop adds one send per visited endpoint, in order, after the calls already made |
| `NpcmUdc.TxPassUndelivered` | hw/usb/npcm-udc.c:279-358 | when no send is delivered, guest memory is unchanged and the host receives, in order, the buffer each visited endpoint's descriptor names |
| `NpcmUdc.SendCallsStep` | hw/usb/npcm-udc.c:348-358 | the sends of a visited endpoint followed by the rest are its send then the rest's |
| `NpcmUdc.PrimeRule` | hw/usb/npcm-udc.c:314-377 | ENDPTPRIME does nothing unless running and attached; otherwise primed RX bits go to ENDPTSTAT and TX bits to ENDPTCOMPLETE, TX endpoints are sent in order, then RX endpoints reported ready, the USB interrupt raised, no other register changes and the line is consistent |
| `NpcmUdc.ResetValues` | hw/usb/npcm-udc.c:159-180 | after a reset each register reads its initial value (USBCMD with RESET cleared), the device is stopped and its line low, attachment, memory and host log unchanged |
| `NpcmUdc.ReadsRegister` | hw/usb/npcm-udc.c:390-452 | each register reads back at its offset |
| `NpcmUdc.ReadsElsewhereKept` | hw/usb/npcm-udc.c:390-452 | a change to one register is visible at its offset only |
| `NpcmUdc.WritePlain` | hw/usb/npcm-udc.c:474-486 | USBINTR, ENDPOINTLISTADDR, USBMODE and ENDPTCTRL1/2 take the written value and nothing else changes except the line after USBINTR |
| `NpcmUdc.WriteClears` | hw/usb/npcm-udc.c:487-509 | ENDPTSETUPSTAT, ENDPTFLUSH (on ENDPTSTAT) and ENDPTCOMPLETE clear the written 1 bits and nothing else changes |
| `NpcmUdc.WriteMasked` | hw/usb/npcm-udc.c:264-277 | PORTSC1 and ENDPTCTRL0 keep their read-only bits and take the rest from the write |
| `NpcmUdc.WriteStatus` | hw/usb/npcm-udc.c:235-262 | a USBSTS write stores the status rule and leaves every other register unchanged |
| `NpcmUdc.StatusWriteStores` | hw/usb/npcm-udc.c:235-249 | the register file after a USBSTS write is the old one with USBSTS replaced by the status rule |
| `NpcmUdc.WriteStatusAcknowledges` | hw/usb/npcm-udc.c:251-261 | writing PORT_CHANGE_DETECT while running and attached completes the attachment once; otherwise no host call |
| `NpcmUdc.WriteIgnored` | hw/usb/npcm-udc.c:461-467 | writes to DCCPARAMS, ENDPTSTAT and unknown offsets change nothing |
| `NpcmUdc.RegisterAccessValues` | tests/qtest/npcm_udc-test.c:428-447 | from the reset values, all-ones writes read back 0x100 from USBSTS, 0xDBFFF27E from PORTSC1, all ones from ENDPTCTRL0, and DCCPARAMS stays 0x83 |
| `NpcmUdc.UsbCmdRule` | hw/usb/npcm-udc.c:209-233 | a USBCMD write runs the device exactly when RUN is written without RESET; RESET restores the reset registers; starting an attached device reports the connection; the line stays consistent |
| `NpcmUdc.ResetLeavesLineHigh` | hw/usb/npcm-udc.c:159-180 | as written, a USBCMD reset of a running device with a pending interrupt stops it but leaves its line high |
| `NpcmUdc.WriteKeepsLine` | hw/usb/npcm-udc.c:454-527 | every guest write keeps the line consistent with the running flag and the enabled pending status (with the reset corrected) |
| `NpcmUdc.LineFromReads` | hw/usb/npcm-udc.c:199-207 | a state with the same running flag, line, USBSTS and USBINTR as a consistent state is consistent |
| `NpcmUdc.AttachRule` | hw/usb/npcm-udc.c:539-553 | attaching a running device sets the connect status and the port change; a stopped one keeps its registers |
| `NpcmUdc.AttachHandshake` | hw/usb/npcm-udc.c:251-259 | attaching then acknowledging the port change completes the attachment exactly once and clears the port change bit |
| `NpcmUdc.DetachRule` | hw/usb/npcm-udc.c:555-568 | detaching a running device restores PORTSC1's initial value and reports a port change; a detached device ignores ENDPTPRIME |
| `NpcmUdc.RedirResetRule` | hw/usb/npcm-udc.c:570-584 | a host reset is ignored while attached, otherwise the device is reset |
| `NpcmUdc.SetupWordsArePacket` | hw/usb/npcm-udc.c:189-193 | the two setup words, stored low byte first, are the eight bytes of the USB setup packet |
| `NpcmUdc.ControlTransferRule` | hw/usb/npcm-udc.c:182-197 | a control transfer writes the setup words at offsets 40 and 44 of endpoint 0's queue head and nothing else, sets the setup status and USB interrupt, and answers a transfer on another endpoint empty |
| `NpcmUdc.RxInfoCountsDown` | hw/usb/npcm-udc.c:627-629 | the descriptor's byte count drops by the bytes that landed, with interrupt-on-complete set |
| `NpcmUdc.DataOutRule` | hw/usb/npcm-udc.c:602-645 | a packet lands in the current descriptor's buffer, its info word takes the remaining count, no other memory word changes, the endpoint's complete bit and the interrupt are raised and no RX buffer stays primed |
| `NpcmUdc.RxChainFollowed` | hw/usb/npcm-udc.c:619-639 | the next packet lands in the linked descriptor unless the link is null or terminal, then in the first one of its endpoint's queue head |
| `NpcmUdc.Controller.constructor` | hw/usb/npcm-udc.c:159-180 | a new controller holds the reset registers, stopped and detached |
| `NpcmUdc.Controller.UpdateIrq` | hw/usb/npcm-udc.c:199-207 | the state becomes `IrqUpdated` of the old state |
| `NpcmUdc.Controller.ClearRegisters` | hw/usb/npcm-udc.c:165-167 | every register is zero |
| `NpcmUdc.Controller.Reset` | hw/usb/npcm-udc.c:159-180 | the state becomes `AfterReset` of the old state (the reset followed by a line update; see Findings) |
| `NpcmUdc.Controller.WriteUsbCmd` | hw/usb/npcm-udc.c:209-233 | the state becomes `AfterUsbCmd` of the old state |
| `NpcmUdc.Controller.WriteUsbSts` | hw/usb/npcm-udc.c:235-262 | the state becomes `AfterUsbSts` of the old state |
| `NpcmUdc.Controller.Acknowledge` | hw/usb/npcm-udc.c:255-259 | the host log gains the attach completion exactly when running, attached and PORT_CHANGE_DETECT is written |
| `NpcmUdc.Controller.StoreStatus` | hw/usb/npcm-udc.c:239-249 | USBSTS takes the status rule of the write |
| `NpcmUdc.Controller.WritePortsc1` | hw/usb/npcm-udc.c:264-277 | PORTSC1 keeps its read-only bits and takes the rest from the write; no other register changes |
| `NpcmUdc.Controller.WriteEndptCtrl0` | hw/usb/npcm-udc.c:379-388 | ENDPTCTRL0 keeps its enable bits and takes the rest from the write; no other register changes |
| `NpcmUdc.Controller.SendData` | hw/usb/npcm-udc.c:279-312 | the state becomes `AfterSend`: one host call with the descriptor's buffer, the descriptor cleared only when the send is delivered |
| `NpcmUdc.Controller.SendPrimed` | hw/usb/npcm-udc.c:346-358 | the state becomes the TX pass `TxPass` over the primed bitmap |
| `NpcmUdc.Controller.ReadyCalls` | hw/usb/npcm-udc.c:360-373 | the calls returned are the RX loop's `RxCalls` over the primed bitmap |
| `NpcmUdc.Controller.WriteEndptPrime` | hw/usb/npcm-udc.c:314-377 | the state becomes `AfterPrime` of the old state |
| `NpcmUdc.Controller.MarkPrimed` | hw/usb/npcm-udc.c:343-344 | the primed RX bits are ORed into ENDPTSTAT and the TX bits into ENDPTCOMPLETE |
| `NpcmUdc.Controller.RaiseInterrupt` | hw/usb/npcm-udc.c:375 | the USB interrupt status bit is set |
| `NpcmUdc.Controller.Read` | hw/usb/npcm-udc.c:390-452 | the value read is `ReadValue` of the state, which does not change |
| `NpcmUdc.Controller.Write` | hw/usb/npcm-udc.c:454-527 | the state becomes `AfterWrite` of the old state |
| `NpcmUdc.Controller.Attach` | hw/usb/npcm-udc.c:539-553 | the state becomes `AfterAttach` and the answer is the control endpoint 0 |
| `NpcmUdc.Controller.Detach` | hw/usb/npcm-udc.c:555-568 | the state becomes `AfterDetach` of the old state |
| `NpcmUdc.Controller.RedirReset` | hw/usb/npcm-udc.c:570-584 | the state becomes `AfterRedirReset` of the old state |
| `NpcmUdc.Controller.ControlTransfer` | hw/usb/npcm-udc.c:586-600 | the state becomes `AfterControlTransfer` of the old state |
| `NpcmUdc.Controller.StoreSetup` | hw/usb/npcm-udc.c:182-197 | the setup words are stored and the setup status and the USB interrupt raised |
| `NpcmUdc.Controller.Land` | hw/usb/npcm-udc.c:612-639 | the state becomes `Landed`: the packet in the descriptor's buffer, the count updated, the next descriptor remembered |
| `NpcmUdc.Controller.WriteData` | hw/usb/npcm-udc.c:602-645 | the state becomes `AfterDataOut` of the old state |
| `Npcm8xxUdc.IrqUpdated` | hw/usb/npcm8xx-udc.c:171-179 | after the update the line is high exactly when the device runs and an enabled status bit is pending |
| `Npcm8xxUdc.IndexOf` | hw/usb/npcm8xx-udc.c:257-306 | an offset with storage maps to the register at that offset |
| `Npcm8xxUdc.ResetValues` | hw/usb/npcm8xx-udc.c:154-169 | a reset stops the device, lowers its line and sets command (RESET cleared), status, interrupt enable, list address, PORTSC1 (0x1000000), mode and the three endpoint controls to their initial values |
| `Npcm8xxUdc.ResetKeeps` | hw/usb/npcm8xx-udc.c:154-169 | setup status, prime, flush, endpoint status and complete keep their values through a reset |
| `Npcm8xxUdc.WritePlain` | hw/usb/npcm8xx-udc.c:330-375 | USBINTR, ENDPOINTLISTADDR, USBMODE, ENDPTPRIME, ENDPTFLUSH and ENDPTCTRL1/2 read back the last write; only a USBINTR write moves the line |
| `Npcm8xxUdc.WriteClears` | hw/usb/npcm8xx-udc.c:348-366 | ENDPTSETUPSTAT and ENDPTCOMPLETE clear the bits written as 1 and nothing else changes |
| `Npcm8xxUdc.WriteMasked` | hw/usb/npcm8xx-udc.c:226-250 | PORTSC1 and ENDPTCTRL0 keep their read-only bits and take every other bit from the write |
| `Npcm8xxUdc.WriteStatus` | hw/usb/npcm8xx-udc.c:207-224 | a USBSTS write sets DCSUSPEND to the written bit, keeps SYSTEM_ERROR and NAK, clears each other written 1, and no other register changes |
| `Npcm8xxUdc.StatusWriteStores` | hw/usb/npcm8xx-udc.c:207-221 | the register file after a USBSTS write is the old one with USBSTS replaced by the status rule |
| `Npcm8xxUdc.WriteStatusLine` | hw/usb/npcm8xx-udc.c:207-224 | a USBSTS write changes only the registers and the line, which follows the new state |
| `Npcm8xxUdc.FixedRegisters` | hw/usb/npcm8xx-udc.c:252-384 | DCCPARAMS reads 0x83; offsets with no register read 0; DCCPARAMS, ENDPTSTAT and unknown offsets ignore writes |
| `Npcm8xxUdc.RegisterAccessValues` | tests/qtest/npcm8xx_udc-test.c:38-60 | from a zeroed device after reset, all-ones writes read back 0x100 from USBSTS and all ones from ENDPTCTRL0, DCCPARAMS stays 0x83, and PORTSC1 reads 0xD3FFF07E (the test expects 0xDBFFF27E) |
| `Npcm8xxUdc.UsbCmdRule` | hw/usb/npcm8xx-udc.c:181-205 | a USBCMD write runs the device exactly when RUN is written without RESET; RESET restores the reset registers; starting an attached device reports the connection; the line stays consistent |
| `Npcm8xxUdc.ResetLeavesLineHigh` | hw/usb/npcm8xx-udc.c:181-205 | as written, a USBCMD reset of a running device with a pending interrupt stops it but leaves its line high |
| `Npcm8xxUdc.WriteKeepsLine` | hw/usb/npcm8xx-udc.c:315-384 | every guest write keeps the line consistent with the running flag and the enabled pending status (with the reset corrected) |
| `Npcm8xxUdc.AttachRule` | hw/usb/npcm8xx-udc.c:396-409 | attaching a running device sets the connect status and the port change; a stopped one keeps its registers; the line follows the new state |
| `Npcm8xxUdc.AttachThenRun` | hw/usb/npcm8xx-udc.c:396-409 | attaching while stopped and then starting reports the connection once the device runs |
| `Npcm8xxUdc.Controller.constructor` | hw/usb/npcm8xx-udc.c:154-169 | a new controller is zeroed registers after a reset, stopped and detached |
| `Npcm8xxUdc.Controller.UpdateIrq` | hw/usb/npcm8xx-udc.c:171-179 | the state becomes `IrqUpdated` of the old state |
| `Npcm8xxUdc.Controller.Reset` | hw/usb/npcm8xx-udc.c:154-169 | the state becomes `AfterReset` of the old state (the reset followed by a line update; see Findings) |
| `Npcm8xxUdc.Controller.WriteUsbCmd` | hw/usb/npcm8xx-udc.c:181-205 | the state becomes `AfterUsbCmd` of the old state |
| `Npcm8xxUdc.Controller.WriteUsbSts` | hw/usb/npcm8xx-udc.c:207-224 | the state becomes `AfterUsbSts` of the old state |
| `Npcm8xxUdc.Controller.Read` | hw/usb/npcm8xx-udc.c:252-313 | the value read is `ReadValue` of the state, which does not change |
| `Npcm8xxUdc.Controller.Write` | hw/usb/npcm8xx-udc.c:315-384 | the state becomes `AfterWrite` of the old state |
| `Npcm8xxUdc.Controller.Attach` | hw/usb/npcm8xx-udc.c:396-409 | the state becomes `AfterAttach` of the old state |
| `Npcm8xxGdma.Fetch` | hw/dma/npcm8xx-gdma.c:100-102 | a read of `size` bytes yields exactly the mapped bytes at the source address, in order |
| `Npcm8xxGdma.GdmaChannel.constructor` | hw/dma/npcm8xx-gdma.c:72-78 | a new channel has all seven registers at 0 and its line low, over the given guest memory |
| `Npcm8xxGdma.GdmaChannel.EnterReset` | hw/dma/npcm8xx-gdma.c:72-78 | the channel state becomes the reset state: every register 0 and the memory unchanged |
| `Npcm8xxGdma.GdmaChannel.UpdateIrq` | hw/dma/npcm8xx-gdma.c:65-70 | the line becomes SIEN or TC of CTL and nothing else changes |
| `Npcm8xxGdma.GdmaChannel.Read` | hw/dma/npcm8xx-gdma.c:56-63 | the value is the register at offset / 4 and nothing changes |
| `Npcm8xxGdma.GdmaChannel.Write` | hw/dma/npcm8xx-gdma.c:158-174 | the channel becomes the state `AfterWrite` describes: the value with the read-only mask of the register cleared, CTL through the CTL rule |
| `Npcm8xxGdma.GdmaChannel.CtlWrite` | hw/dma/npcm8xx-gdma.c:145-156 | CTL stores the value with SOFTREQ cleared and a transfer runs exactly when GDMAEN or SOFTREQ was written |
| `Npcm8xxGdma.GdmaChannel.DoDma` | hw/dma/npcm8xx-gdma.c:80-143 | the channel becomes the state `AfterDma` describes: memory after the transfer, and on success CSRC, CDST, CTCNT and the line updated |
| `Npcm8xxGdma.GdmaChannel.Move` | hw/dma/npcm8xx-gdma.c:96-135 | the loop yields the memory, final addresses and success flag of the unit-by-unit transfer, stopping at the first failed access, and leaves the line alone |
| `Npcm8xxGdma.WriteStores` | hw/dma/npcm8xx-gdma.c:158-174 | SRCB, DSTB and TCNT take the written value, CSRC, CDST and CTCNT (all read-only) become 0, nothing else changes |
| `Npcm8xxGdma.CtlWriteBits` | hw/dma/npcm8xx-gdma.c:49-54 | the CTL write keeps exactly the bits 0xE7FD, and a transfer starts exactly when GDMAEN or SOFTREQ is written as 1 |
| `Npcm8xxGdma.CtlWriteRule` | hw/dma/npcm8xx-gdma.c:145-174 | a CTL write stores value & 0xE7FD and runs the transfer exactly when GDMAEN or SOFTREQ is set, otherwise only CTL changes |
| `Npcm8xxGdma.FailureSticks` | hw/dma/npcm8xx-gdma.c:103-118 | after the first failed access, further units change nothing |
| `Npcm8xxGdma.TransferMoves` | hw/dma/npcm8xx-gdma.c:120-134 | after n units each address is moved by n units (fixed, decreasing or increasing) modulo 2^32 |
| `Npcm8xxGdma.AdvanceMoved` | hw/dma/npcm8xx-gdma.c:120-134 | one more increment or decrement moves an address by one more unit |
| `Npcm8xxGdma.WrapStep` | hw/dma/npcm8xx-gdma.c:123-132 | wrapping the uint32_t address after each step equals wrapping once |
| `Npcm8xxGdma.PutKeepsKeys` | hw/dma/npcm8xx-gdma.c:110-111 | a write never maps or unmaps a byte |
| `Npcm8xxGdma.PutStores` | hw/dma/npcm8xx-gdma.c:110-111 | the written bytes land at their addresses and every other byte keeps its value |
| `Npcm8xxGdma.TransferKeepsKeys` | hw/dma/npcm8xx-gdma.c:96-135 | a transfer never maps or unmaps memory |
| `Npcm8xxGdma.MappedByKeys` | hw/dma/npcm8xx-gdma.c:100-111 | whether an access succeeds depends only on which addresses are mapped |
| `Npcm8xxGdma.TransferSucceeds` | hw/dma/npcm8xx-gdma.c:96-135 | the transfer succeeds exactly when every unit's source and destination bytes are mapped |
| `Npcm8xxGdma.DmaCompletes` | hw/dma/npcm8xx-gdma.c:80-143 | a complete transfer sets CSRC and CDST to the moved addresses, CTCNT to the count, and the line to SIEN or TC |
| `Npcm8xxGdma.DmaFails` | hw/dma/npcm8xx-gdma.c:100-118 | a failed transfer returns early: every register and the line keep their values |
| `Npcm8xxGdma.DmaKeepsKeys` | hw/dma/npcm8xx-gdma.c:80-143 | a channel transfer never maps or unmaps memory |
| `Npcm8xxGdma.CountAndSize` | hw/dma/npcm8xx-gdma.c:82-94 | the count is TCNT, or TCNT / 4 in burst mode, and the unit is 1 << TWS bytes |
| `Npcm8xxGdma.CleanControl` | hw/dma/npcm8xx-gdma.c:49-54 | with the read-only bits of CTL clear the unit is 1 or 4 bytes, which fits the 4-byte buffer, and the line is SIEN |
| `Npcm8xxGdma.UnitCopies` | hw/dma/npcm8xx-gdma.c:97-118 | one successful unit copies each source byte to the matching destination byte |
| `Npcm8xxGdma.DmaKeepsCtl` | hw/dma/npcm8xx-gdma.c:137-142 | a transfer never changes CTL |
| `Npcm8xxGdma.WriteKeepsCtlClean` | hw/dma/npcm8xx-gdma.c:45-54 | reset and every write keep the read-only bits of CTL clear |
| `NpcmEspi.Fields` | hw/ssi/npcm_espi.c:127-138 | a property reads one field from each of the sixteen master-to-slave registers |
| `NpcmEspi.Nibbles` | hw/ssi/npcm_espi.c:152-177 | a 64-bit value splits into sixteen nibbles, lowest first |
| `NpcmEspi.Espi.constructor` | hw/ssi/npcm_espi.c:102-108 | a new device has every register 0 except ESPIID and ESPICFG at their reset values |
| `NpcmEspi.Espi.EnterReset` | hw/ssi/npcm_espi.c:102-108 | the registers become the reset rule applied to the old ones: ESPIID and ESPICFG set, nothing else changed |
| `NpcmEspi.Espi.Read` | hw/ssi/npcm_espi.c:60-68 | the value is the register at offset / 4 (0 past the register file) and nothing changes |
| `NpcmEspi.Espi.Write` | hw/ssi/npcm_espi.c:70-100 | the registers become the write rule applied to the old ones: ESPISTS and ESPIERR writes clear ESPIERR bits, others store, past the file nothing |
| `NpcmEspi.Espi.GetWire` | hw/ssi/npcm_espi.c:121-141 | the loop returns the packed property, field k in nibble k (corrected; see Findings) |
| `NpcmEspi.Espi.SetWire` | hw/ssi/npcm_espi.c:143-179 | the loop leaves the registers as the set rule says: nibble k of the value deposited in register k, VALID also setting INDEX_EN |
| `NpcmEspi.ResetRule` | hw/ssi/npcm_espi.c:102-108 | after reset ESPIID reads 0x801, ESPICFG reads 0x3000010 and every later register keeps its value |
| `NpcmEspi.WriteClearsErrors` | hw/ssi/npcm_espi.c:77-88 | a write to ESPISTS or ESPIERR clears exactly the written bits of ESPIERR and changes no other register, not even ESPISTS |
| `NpcmEspi.WriteStores` | hw/ssi/npcm_espi.c:82-98 | every other write inside the register file reads back as written and changes no other register |
| `NpcmEspi.WindowOverrun` | hw/ssi/npcm_espi.c:186-187 | as written, the aligned access at 0x600 is inside the 4 KiB window but indexes one past the register file |
| `NpcmEspi.OutsideIgnored` | hw/ssi/npcm_espi.c:94-98 | as corrected, accesses past the register file read 0 and writes there change nothing |
| `NpcmEspi.DepositState` | hw/ssi/npcm_espi.c:174-176 | a state deposit sets the STATE field to the nibble and keeps every other bit |
| `NpcmEspi.DepositValid` | hw/ssi/npcm_espi.c:154-158 | a valid deposit sets the VALID field to the nibble and keeps every bit outside VALID and INDEX_EN |
| `NpcmEspi.DepositValidIndex` | hw/ssi/npcm_espi.c:156-158 | after a valid deposit INDEX_EN is set exactly when it was set or the nibble is nonzero |
| `NpcmEspi.SetOneMore` | hw/ssi/npcm_espi.c:152-159 | one more loop step deposits the next nibble into the next register |
| `NpcmEspi.SetKeeps` | hw/ssi/npcm_espi.c:152-177 | a set changes only the sixteen master-to-slave registers, each by a deposit of its own nibble |
| `NpcmEspi.FieldAfterSet` | hw/ssi/npcm_espi.c:152-177 | after a set, field k of the property is nibble k of the value |
| `NpcmEspi.DropStep` | hw/ssi/npcm_espi.c:153-173 | shifting out one more nibble is one more 4-bit shift |
| `NpcmEspi.DropAdd` | hw/ssi/npcm_espi.c:153-173 | shifting out a + b nibbles is shifting out a and then b |
| `NpcmEspi.DropFour` | hw/ssi/npcm_espi.c:153-173 | shifting out four nibbles is a 16-bit shift |
| `NpcmEspi.ShiftFour` | hw/ssi/npcm_espi.c:153-173 | four nibble shifts compose to a 16-bit shift |
| `NpcmEspi.DropAll` | hw/ssi/npcm_espi.c:152-153 | after sixteen nibbles a 64-bit value is exhausted |
| `NpcmEspi.Rejoin` | hw/ssi/npcm_espi.c:128-131 | a value is its high part shifted back up with its low nibble added |
| `NpcmEspi.FieldsAfterSet` | hw/ssi/npcm_espi.c:143-179 | after a set, the sixteen fields are exactly the nibbles of the value |
| `NpcmEspi.GatherStep` | hw/ssi/npcm_espi.c:127-131 | packing the nibbles of v from k up gives v with k nibbles shifted out |
| `NpcmEspi.GatherNibbles` | hw/ssi/npcm_espi.c:127-131 | packing the nibbles of v from k up gives v with k nibbles shifted out, by induction |
| `NpcmEspi.SetThenGet` | hw/ssi/npcm_espi.c:121-179 | as corrected, reading a property back after setting it returns exactly the value set |
| `NpcmEspi.PushShifted` | hw/ssi/npcm_espi.c:128-131 | one as-written step (add, then shift) on a shifted accumulator is the corrected step shifted |
| `NpcmEspi.AsWrittenShifted` | hw/ssi/npcm_espi.c:127-138 | the as-written getter returns the corrected packing shifted one nibble up, modulo 2^64 |
| `NpcmEspi.SetThenGetShifted` | hw/ssi/npcm_espi.c:121-179 | as written, reading a property after setting v returns v shifted one nibble up, its top nibble lost |
| `NpcmEspi.SetThenGetAsWritten` | hw/ssi/npcm_espi.c:121-179 | as written, setting 1 reads back 0x10 and setting a value in nibble 15 alone reads back 0 |
| `CompatibilityCheck.Names` | android/emu/check/src/android/compatibility_check.cpp:112-118 | the names list has one entry per registered check, in registration order |
| `CompatibilityCheck.Outcomes` | android/emu/check/src/android/compatibility_check.cpp:50-55 | the results list has one result per registered check, in order, each that check's result for the AVD |
| `CompatibilityCheck.Matching` | android/emu/check/src/android/compatibility_check.cpp:91-101 | the matching descriptions are never more than the results |
| `CompatibilityCheck.Manager.constructor` | android/emu/check/include/android/emulation/compatibility_check.h:180-183 | a new manager has no checks, no cached results and has not run |
| `CompatibilityCheck.Manager.Copy` | android/emu/check/src/android/compatibility_check.cpp:71 | a copy has the same checks, flag and cached results as the original |
| `CompatibilityCheck.Manager.RegisterCheck` | android/emu/check/src/android/compatibility_check.cpp:36-41 | the check is appended, under its name, after every earlier one; nothing else changes |
| `CompatibilityCheck.Manager.RegisteredChecks` | android/emu/check/src/android/compatibility_check.cpp:112-118 | the names of the registered checks, one per check, in registration order |
| `CompatibilityCheck.Manager.Invalidate` | android/emu/check/include/android/emulation/compatibility_check.h:156 | the cache is marked stale; checks and results are kept |
| `CompatibilityCheck.Manager.Check` | android/emu/check/src/android/compatibility_check.cpp:43-58 | with a valid cache the cached results are returned and no check runs; otherwise every check runs once, in order, and its results become the cache |
| `CompatibilityCheck.Manager.EnsureAvdCompatibility` | android/emu/check/src/android/compatibility_check.cpp:70-83 | as written: the report (fatal exactly on an error, else a warning when the warning string is non-empty) is computed on a copy, so the manager's own cache is not filled |
| `CompatibilityCheck.EnsureAvdCompatibilityCached` | android/emu/check/src/android/compatibility_check.cpp:70-83 | corrected: the checks run on the manager itself, whose cache then holds the results the report is built from |
| `CompatibilityCheck.CheckAfterEnsureAsWritten` | android/emu/check/src/android/compatibility_check.cpp:70-72 | as written, a check call after ensureAvdCompatibility runs the registered check a second time |
| `CompatibilityCheck.CheckAfterEnsureCached` | android/emu/check/src/android/compatibility_check.cpp:70-72 | corrected, a check call after ensureAvdCompatibility is answered from the cache |
| `CompatibilityCheck.Manager.HasCompatibilityErrors` | android/emu/check/src/android/compatibility_check.cpp:60-68 | true exactly when some result has Error status |
| `CompatibilityCheck.Manager.ConstructIssueString` | android/emu/check/src/android/compatibility_check.cpp:85-110 | the loop builds the issue string: the first two matching descriptions, ", and more" past two, and a final period unless empty |
| `CompatibilityCheck.MatchingNone` | android/emu/check/src/android/compatibility_check.cpp:91-101 | no description matches exactly when no result has the status |
| `CompatibilityCheck.ListedEmpty` | android/emu/check/src/android/compatibility_check.cpp:93-98 | the message is empty exactly when the first two matching descriptions are empty |
| `CompatibilityCheck.IssueStringEmpty` | android/emu/check/src/android/compatibility_check.cpp:103-109 | the issue string is empty exactly when the first two matching descriptions are empty |
| `CompatibilityCheck.NoIssueNoMessage` | android/emu/check/src/android/compatibility_check.cpp:103-109 | a status no result has gives the empty string |
| `CompatibilityCheck.IssueStringShape` | android/emu/check/src/android/compatibility_check.cpp:85-110 | with non-empty descriptions the string is "d1.", "d1, d2." or "d1, d2, and more." by the number of matches |
| `CompatibilityCheck.ReportRule` | android/emu/check/src/android/compatibility_check.cpp:75-82 | the report is fatal exactly when some result is an error, a warning is non-empty and only without errors, and quiet otherwise |
| `CompatibilityCheck.WarningsReported` | android/emu/check/src/android/compatibility_check.cpp:79-82 | with no error, a warning result with a description always produces a warning report |
| `CompatibilityCheck.MatchingDescriptions` | android/emu/check/src/android/compatibility_check.cpp:91-101 | every matching description comes from a result with that status |
| `CompatibilityCheck.TwoErrors` | android/emu/check/test/compatibility_check_unittest.cpp:253-263 | two errors give "bar, foo." |
| `CompatibilityCheck.ThreeErrors` | android/emu/check/test/compatibility_check_unittest.cpp:278-292 | three errors give "bar, foo, and more." |
| `SystemCheck.CoreShortage` | android/emu/check/src/android/system_check.cpp:58-66 | corrected: the core error names the minimum as required and the host's count as available, so a shortage reads required above available (see Findings) |
| `SystemCheck.HasSufficientSystem` | android/emu/check/src/android/system_check.cpp:25-116 | a null AVD is an error, the skip variable a warning; the result is an error exactly for a null AVD, the abort variable, fewer than 2 cores, or (with 4 cores or more and known memory) under 2048 MB; it is Ok exactly with 4 cores or more and 4096 MB or more; memory is judged only with 4 cores or more |
| `SystemCheck.MoreMemoryIsNoWorse` | android/emu/check/src/android/system_check.cpp:78-115 | with the same cores, more known memory never gives a more severe status |
| `SystemCheck.MoreCoresAreNoWorse` | android/emu/check/src/android/system_check.cpp:54-115 | with at least 2048 MB, more cores never give a more severe status |
| `SystemCheck.CoreWarningHidesRam` | android/emu/check/src/android/system_check.cpp:67-99 | the core rule comes first: with 1 MB, three cores give the core warning and four cores the RAM error |
| `SystemCheck.UnknownMemoryIsMilder` | android/emu/check/src/android/system_check.cpp:80-99 | unknown memory (0 bytes) is a warning, while one known byte is an error |
| `SystemCheck.CoreMessageAsWritten` | android/emu/check/src/android/system_check.cpp:58-66 | as written, one core gives a message claiming 1 core required and 2 available |
| `HwGpuCheck.MemoryWarning` | android/emu/check/src/android/hw_gpu_check.cpp:170-179 | corrected: the warning reports the suggested level, which is above the available memory it warns about (see Findings) |
| `HwGpuCheck.HasSufficientHwGpu` | android/emu/check/src/android/hw_gpu_check.cpp:27-185 | a null AVD is an error and the skip variable a warning; XR on Mac Intel is an error and XR on Linux a warning before any query; the GPU is queried only on Windows with GuestAngle; no vendor is exactly NoVulkan, an unsupported driver exactly UnsupportedDriver, and with an accepted driver an XR AVD under 2048 MiB is the memory error, 2048 to 4095 MiB the memory warning, and otherwise the requirements are met |
| `HwGpuCheck.XrDecidesBeforeQuery` | android/emu/check/src/android/hw_gpu_check.cpp:49-75 | for an XR AVD on Mac Intel or Linux the verdict does not depend on GuestAngle or the Vulkan query |
| `HwGpuCheck.OnlyWindowsAngleChecked` | android/emu/check/src/android/hw_gpu_check.cpp:77-96 | off Windows or without GuestAngle, a present unskipped AVD passes exactly when no XR platform rule fired |
| `HwGpuCheck.IntelVersionBoundary` | android/emu/check/src/android/hw_gpu_check.cpp:117-134 | Intel 1.3.239 is refused and 1.3.240 accepted, any Intel GPU is refused for XR, and AMD is refused exactly below 1.3 |
| `HwGpuCheck.MemoryWarningAsWrittenClaim` | android/emu/check/src/android/hw_gpu_check.cpp:170-179 | as written, 3000 MiB on an XR AVD is warned against a "suggested level" of 2048 MiB, which it already exceeds |
| `UserspaceBootProperties.BelowIrreflexive` | android/android-emu/android/userspace-boot-properties.cpp:693 | no key sorts below itself in the map's string order |
| `UserspaceBootProperties.BelowTransitive` | android/android-emu/android/userspace-boot-properties.cpp:693 | the map's string order is transitive |
| `UserspaceBootProperties.BelowTotal` | android/android-emu/android/userspace-boot-properties.cpp:693 | any two different keys are ordered one way or the other |
| `UserspaceBootProperties.AssignKeys` | android/android-emu/android/userspace-boot-properties.cpp:703 | assigning a key adds exactly that key to the map's keys |
| `UserspaceBootProperties.AboveFirst` | android/android-emu/android/userspace-boot-properties.cpp:693-711 | a key below the first key of an ascending map lies below every key in it |
| `UserspaceBootProperties.SortedCons` | android/android-emu/android/userspace-boot-properties.cpp:693-711 | a map stays ascending when a key below all of its keys is put in front |
| `UserspaceBootProperties.AssignSorted` | android/android-emu/android/userspace-boot-properties.cpp:703 | assigning a key keeps the map in strictly ascending key order |
| `UserspaceBootProperties.AssignLookup` | android/android-emu/android/userspace-boot-properties.cpp:703 | after assigning k its value is the one assigned and every other key keeps its value |
| `UserspaceBootProperties.LookupSorted` | android/android-emu/android/userspace-boot-properties.cpp:708-711 | in an ascending map every entry is the value stored for its key |
| `UserspaceBootProperties.LastFound` | android/android-emu/android/userspace-boot-properties.cpp:694-704 | a key has a last pushed value exactly when some pair pushed it |
| `UserspaceBootProperties.LastIsLatest` | android/android-emu/android/userspace-boot-properties.cpp:697-703 | the value kept for a key is the one from its last push |
| `UserspaceBootProperties.Dedup` | android/android-emu/android/userspace-boot-properties.cpp:693-713 | the result is in strictly ascending key order, every entry holds its key's last pushed value, and every pushed key appears |
| `UserspaceBootProperties.Find` | android/android-emu/android/userspace-boot-properties.cpp:598-607 | the index found is the first position of the character, and none is found exactly when it does not occur |
| `UserspaceBootProperties.SplitRoundTrip` | android/android-emu/android/userspace-boot-properties.cpp:598-607 | the key has no '='; with an '=' key, '=' and value give back the option, without one the option is the key with an empty value |
| `UserspaceBootProperties.SplitAll` | android/android-emu/android/userspace-boot-properties.cpp:598-607 | one pair per option, in order, each the split of that option |
| `UserspaceBootProperties.CommasRule` | android/android-emu/android/userspace-boot-properties.cpp:527-542 | the rewritten option has the same length, no space or tab, and every other character in place |
| `UserspaceBootProperties.ReplaceBlanks` | android/android-emu/android/userspace-boot-properties.cpp:527-542 | the loop returns the option with every space and tab replaced by a comma |
| `UserspaceBootProperties.PostureBreaks` | android/android-emu/android/userspace-boot-properties.cpp:74-119 | one invalid posture makes the whole posture list invalid |
| `UserspaceBootProperties.PosturesStep` | android/android-emu/android/userspace-boot-properties.cpp:74-119 | a valid next posture extends the valid prefix by one |
| `UserspaceBootProperties.DeviceState` | android/android-emu/android/userspace-boot-properties.cpp:47-135 | the result is empty exactly when (with a hinge set up and not a Pixel Fold) the hinge configuration is invalid, or (otherwise) the device is not rollable |
| `UserspaceBootProperties.FoldPostureRewritten` | android/android-emu/android/userspace-boot-properties.cpp:77-84 | the fold posture's own token (other than 1) becomes "1" and every other token is kept |
| `UserspaceBootProperties.StatesStep` | android/android-emu/android/userspace-boot-properties.cpp:74-119 | appending the next posture's element extends the configuration text by one state |
| `UserspaceBootProperties.AppendSensors` | android/android-emu/android/userspace-boot-properties.cpp:100-116 | the sensor loop succeeds exactly when every range has 2 or 3 parts and then appends one sensor element per hinge |
| `UserspaceBootProperties.AppendState` | android/android-emu/android/userspace-boot-properties.cpp:76-118 | one posture succeeds exactly when it has a name and one well-formed range per hinge, and then appends its device-state element |
| `UserspaceBootProperties.AppendStates` | android/android-emu/android/userspace-boot-properties.cpp:72-119 | the posture loop succeeds exactly when every posture is valid, and then yields one element per posture after the opening tag |
| `UserspaceBootProperties.BuildHingeConfig` | android/android-emu/android/userspace-boot-properties.cpp:50-121 | the hinge configuration's XML when the hinge count, both lists and every posture are valid, and "" otherwise |
| `UserspaceBootProperties.DeviceStateString` | android/android-emu/android/userspace-boot-properties.cpp:47-135 | the method returns exactly the device-state configuration function's value |
| `UserspaceBootProperties.DeviceStateProps` | android/android-emu/android/userspace-boot-properties.cpp:662-670 | the device-state property is pushed exactly when the feature is on and the configuration is not empty |
| `UserspaceBootProperties.LastAppend` | android/android-emu/android/userspace-boot-properties.cpp:694-704 | a later push of a key hides every earlier one |
| `UserspaceBootProperties.FixedPairsKept` | android/android-emu/android/userspace-boot-properties.cpp:272-279 | the qemu flag and the hardware name are always present, as "1" and "ranchu" unless a later push overrides them |
| `UserspaceBootProperties.AppendedOverrides` | android/android-emu/android/userspace-boot-properties.cpp:672-704 | a user-appended option wins over every earlier property with its key, unless a trailing push has the key |
| `UserspaceBootProperties.LogcatHasNoBlank` | android/android-emu/android/userspace-boot-properties.cpp:525-548 | the logcat value handed to the guest never holds a space or a tab |
| `UserspaceBootProperties.SplitOptions` | android/android-emu/android/userspace-boot-properties.cpp:598-607 | the loop returns the split of each option, in order |
| `UserspaceBootProperties.LogcatParams` | android/android-emu/android/userspace-boot-properties.cpp:525-548 | the logcat property (only under the androidboot names) with the rewritten option or "*:V" |
| `UserspaceBootProperties.DeviceStateParams` | android/android-emu/android/userspace-boot-properties.cpp:662-670 | the device-state property exactly as the push rule describes, with the configuration getDeviceStateString builds |
| `UserspaceBootProperties.GetUserspaceBootProperties` | android/android-emu/android/userspace-boot-properties.cpp:137-714 | the properties are in strictly ascending key order, each holds its key's last pushed value, and every pushed key appears |
| `AlignedBuf.AllocationBounds` | android/android-emu/android/base/AlignedBuf.h:100-102 | the bytes requested are a multiple of the alignment and cover the elements plus one padding unit, by less than one alignment unit |
| `AlignedBuf.Capacity` | android/android-emu/android/base/AlignedBuf.h:98-106 | the allocation for n elements always holds more than n elements |
| `AlignedBuf.AllocationBound` | android/android-emu/android/base/AlignedBuf.h:100-106 | the allocation divided by the element size exceeds the element count, so the kept elements fit |
| `AlignedBuf.Allocator.constructor` | android/android-emu/android/base/AlignedBuf.h:115-139 | a new allocator has no live block |
| `AlignedBuf.Allocator.Allocate` | android/android-emu/android/base/AlignedBuf.h:115-130 | a fresh block of the requested length is added to the live blocks |
| `AlignedBuf.Allocator.Free` | android/android-emu/android/base/AlignedBuf.h:132-139 | the block is removed from the live blocks |
| `AlignedBuf.CopyElements` | android/android-emu/android/base/AlignedBuf.h:43-106 | the front of the destination holds the source elements, in order |
| `AlignedBuf.AlignedBuf.constructor` | android/android-emu/android/base/AlignedBuf.h:35-39 | a new buffer of n elements, null exactly when n is 0, whose block is the only new live block |
| `AlignedBuf.AlignedBuf.Copy` | android/android-emu/android/base/AlignedBuf.h:41-45 | a new buffer with the other's size and elements, in a fresh block |
| `AlignedBuf.AlignedBuf.Resize` | android/android-emu/android/base/AlignedBuf.h:69-113 | the size becomes n and the first min(n, old size) elements are kept; resizing to 0 leaves a null buffer; the old block is freed and only the new one added |
| `AlignedBuf.AlignedBuf.Size` | android/android-emu/android/base/AlignedBuf.h:84 | the size is the number of elements the buffer holds |
| `AlignedBuf.AlignedBuf.Get` | android/android-emu/android/base/AlignedBuf.h:88-90 | reading index i gives element i |
| `AlignedBuf.AlignedBuf.Set` | android/android-emu/android/base/AlignedBuf.h:88 | writing index i replaces element i and nothing else |
| `AlignedBuf.AlignedBuf.Equals` | android/android-emu/android/base/AlignedBuf.h:92-94 | two buffers compare equal exactly when they agree on their common prefix |
| `AlignedBuf.AlignedBuf.Move` | android/android-emu/android/base/AlignedBuf.h:55 | the new buffer takes the other's block and size, and the other is left empty |
| `AlignedBuf.AlignedBuf.MoveAssignAsWritten` | android/android-emu/android/base/AlignedBuf.h:57-65 | as written: this buffer takes the other's block and size, the other is left empty, and the block this buffer held is not freed |
| `AlignedBuf.AlignedBuf.MoveAssign` | android/android-emu/android/base/AlignedBuf.h:57-65 | corrected: as the move assignment, and the block this buffer held is freed; self-assignment changes nothing |
| `AlignedBuf.AlignedBuf.CopyAssign` | android/android-emu/android/base/AlignedBuf.h:47-53 | corrected: this buffer holds a fresh copy of the other's elements, and the block it held is freed |
| `AlignedBuf.AlignedBuf.CopyAssignAsWritten` | android/android-emu/android/base/AlignedBuf.h:47-53 | as written: this buffer holds a fresh copy of the other's elements, and the block it held stays allocated |
| `AlignedBuf.AlignedBuf.Release` | android/android-emu/android/base/AlignedBuf.h:67 | the destructor frees the block, if any |
| `AlignedBuf.SamePrefixSymmetric` | android/android-emu/android/base/AlignedBuf.h:92-94 | comparison is symmetric |
| `AlignedBuf.SamePrefixSameSize` | android/android-emu/android/base/AlignedBuf.h:92-94 | buffers of one size compare equal exactly when their elements are equal |
| `AlignedBuf.EmptyEqualsAll` | android/android-emu/android/base/AlignedBuf.h:92-94 | an empty buffer, a moved-out one included, compares equal to every buffer |
| `AlignedBuf.SamePrefixNotTransitive` | android/android-emu/android/base/AlignedBuf.h:92-94 | comparison is not transitive: [1] == [] == [2] but [1] != [2] |
| `AlignedBuf.ResizeKeepsEquality` | android/android-emu/android/base/AlignedBuf.h:92-113 | a resized buffer compares equal to its old contents |
| `AlignedBuf.MoveAssignLeaks` | android/android-emu/android/base/AlignedBuf.h:57-65 | as written, a move assignment leaves the target's old block live and unreferenced |
| `AlignedBuf.CopyAssignLeaks` | android/android-emu/android/base/AlignedBuf.h:47-65 | as written, a copy assignment leaks the target's old block the same way |
| `AlignedBuf.CopyAssignFrees` | android/android-emu/android/base/AlignedBuf.h:47-53 | corrected, a copy assignment frees the target's old block and keeps both buffers' blocks live |
| `AlignedBuf.MoveAssignFrees` | android/android-emu/android/base/AlignedBuf.h:57-65 | corrected, a move assignment frees the target's old block |

## Left out

- Checksum.CalculatedFrame: reads past the end of the frame are not modelled. Where the code would read past the end (a remainder of the frame shorter than the MAC header, an IPv6 header shorter than 40 bytes, an IPv4 header length past the frame, a double-tagged frame shorter than 18 bytes), the corrected function leaves the frame unchanged. `IpHeaderTestPassesAsWritten` and the lemmas in Findings show which inputs reach those reads as written.
- Checksum.Calculate: the in-place method follows `CalculatedFrame` and so shares its guards against reading past the end of the frame.
- Checksum: the transport header is assumed to follow a 20-byte IPv4 header, as the code places it, even when the header carries options.
- Checksum: the fragment test only logs, so it is not modelled.
- Checksum: `qemu_log_mask` diagnostics are not modelled, and the same holds in every device module.
- Checksum: `net_checksum_add` and `net_raw_checksum` are declared in a header that is not part of this model. They are modelled as the continued sum from position 0.
- Max31732.PackHigh: `MAX31732Temperature` is declared in a header that is not part of this model. The model assumes the first register holds the whole degrees in two's complement.
- Max31732.PackLow: for the same reason, the model assumes the second register holds the sixteenths in bits 7:4 and the sign flag in bit 0. Only the round trip through this assumed layout is proved.
- Max31732 and Max6581: register addresses and the channel count come from headers that are not part of this model. They are a layout value that keeps only the relations the code relies on.
- AspeedLpc: `MAX_IPMI_MSG_SIZE` and the register count are parameters. The IPMI core that sends requests and receives responses is left out, apart from the request hand-off.
- NpcmUdc: guest memory holds 32-bit words at byte addresses, not bytes. The usbredir host is a log of calls, and its set of fully delivered TX buffers is a parameter.
- Npcm8xxUdc.RegisterAccessValues: from the NPCM8xx reset value 0x1000000, the all-ones PORTSC1 write reads back 0xD3FFF07E, and the model follows the code. The qtest expects 0xDBFFF27E, which would need read-only bits 9 and 27 already set (as in the NPCM7xx initial value 0x9000204).
- Npcm8xxGdma: the controller's own window is not modelled. It reads 0 and logs writes (hw/dma/npcm8xx-gdma.c:213-225).
- Npcm8xxGdma: the interrupt line that all channels share is modelled per channel.
- NpcmEspi: 64-bit MMIO inputs are taken as their low 32 bits, which is what the 32-bit register store keeps.
- NpcmEspi: the trace points are not modelled.
- CompatibilityCheck: the logging in `check` is not modelled. A fatal report stands for `EXIT_WITH_FATAL_MESSAGE`, and process exit is not modelled. The `instance()` singleton is an ordinary object.
- SystemCheck.HasSufficientSystem: the result is a verdict that carries the values the description is formatted from, not the description string itself.
- SystemCheck.HasSufficientSystem: the host's environment, core count and memory are parameters.
- HwGpuCheck.HasSufficientHwGpu: the result is a verdict with the formatted values, not the description string. The metrics protocol buffer is not modelled.
- HwGpuCheck.HasSufficientHwGpu: the build platform and the GuestAngle feature are parameters. The Vulkan query result is a parameter too.
- UserspaceBootProperties.DeviceState: `splitTokens`, `std::stoi` and the posture-name table are functions passed in. `std::stoi`'s exceptions on non-numeric tokens are not modelled, and neither is the 16-byte name buffer.
- UserspaceBootProperties.GetUserspaceBootProperties: pushes derived from other subsystems are input segments in source order: GPU, camera, display, network, adb key, console and the rest.
- AlignedBuf.AllocationBytes: sizes are unbounded integers, so the `size_t` overflow of `newSize * sizeof(T)` is not modelled.
- AlignedBuf.AlignedBuf.Resize: for the same reason, an element count whose byte size wraps modulo 2^64 is not modelled.
- AlignedBuf.AlignedBuf.Equals: `memcmp` over the common prefix's bytes is modelled as element equality on that prefix.
- AlignedBuf: alignment of the returned address is not modelled, and an allocation failure (`abort`) is not modelled either.

## Findings

| source | as written | input that shows it | evidently intended | confidence | as-written member | corrected member |
|---|---|---|---|---|---|---|
| net/checksum.c:185-211 | the TCP/UDP payload length from the IP header is summed without a check against the frame | a short IPv4 TCP frame whose header gives a 1008-byte segment, which ends far past the frame | skip the transport checksum when the payload does not fit in the frame | not executed | `Checksum.AsWrittenSegmentOverrun` (`Checksum.L4AppliesAsWritten`) | `Checksum.CorrectedSkipsOverrun` (`Checksum.L4Applies`) |
| net/checksum.c:142-168 | `length -= mac_hdr_len` is signed, so a negative remainder passes the unsigned `< sizeof(struct ip_header)` test; the IPv6 header and the IPv4 header length are not checked against the frame | a 16-byte frame with ethertype 0x8100 (MAC header 18 bytes) | leave the frame unchanged when the headers do not fit | not executed | `Checksum.RuntFramePassesAsWritten`, `Checksum.RuntVlanFrameAsWritten` (`Checksum.IpHeaderTestPassesAsWritten`) | `Checksum.ShortHeadersUnchanged` (`Checksum.CalculatedFrame`) |
| net/checksum.c:75-77 | the IPv4 header checksum is stored in host byte order, while the TCP and UDP checksums in the same function are stored big-endian (lines 196, 220) | any IPv4 header on a little-endian host with `CSUM_IP` | store it in network byte order (RFC 791), so that the header sums to 0xFFFF | not executed | `Checksum.HostOrderStoreFails` (`Checksum.Ipv4HeaderPatchedHostOrder`) | `Checksum.Ipv4HeaderVerifies` (`Checksum.Ipv4HeaderPatched`) |
| hw/sensor/max6581.c:190-205 | the whole degrees are narrowed to `uint8_t` before `max6581_set_temperature` clamps them at 254 | 300000 millidegrees reads back as 44 degrees | saturate at 254, as the setter's comment ("between 0C and 254C") and its overflow clamp intend | not executed | `Max6581.NarrowingWrapsAround` (`Max6581.StoredQmpAsWritten`) | `Max6581.SaturatedWholeIsCapped` (`Max6581.StoredQmp`, `Max6581.Device.QmpSetTemp`) |
| hw/misc/aspeed_lpc.c:551-590 | the raw store at line 555 runs before the mask at line 587 reads the same register, so the read-only bits come from the data | a BMC write of 0x01 (OBF) to a status register whose OBF is clear | keep OBF, IBF and CMD as they were ("read-only bits ... ignored") | not executed | `AspeedLpc.StrWriteIgnoresMask`, `AspeedLpc.StrWriteSetsReadOnlyBit` (`AspeedLpc.StrWriteAsWritten`) | `AspeedLpc.StrWrite` (`AspeedLpc.BmcWrite`, `AspeedLpc.Lpc.Write`) |
| hw/misc/aspeed_lpc.c:347-357 | the forced abort clears the buffers but not `last_byte_not_ready` | an abort in the middle of a request, then `MAX_IPMI_MSG_SIZE` write-state events: the next byte to send lies past the request buffer | abort the whole transfer, flag included | not executed | `AspeedLpc.AbortThenWriteOverruns` (`AspeedLpc.ErrorEventAsWritten`) | `AspeedLpc.ErrorEvent` (`AspeedLpc.Channel.OnError`) |
| hw/usb/npcm-udc.c:159-233 | reset stops the device but never updates the interrupt line | a running device with an enabled pending interrupt, then a USBCMD write with RESET | the line follows the update_irq rule (lines 199-207), which is low once the device is stopped | not executed | `NpcmUdc.ResetLeavesLineHigh` (`NpcmUdc.AfterResetAsWritten`) | `NpcmUdc.WriteKeepsLine` (`NpcmUdc.AfterReset`, `NpcmUdc.Controller.Reset`) |
| hw/usb/npcm8xx-udc.c:154-205 | reset stops the device but never updates the interrupt line | a running device with an enabled pending interrupt, then a USBCMD write with RESET | the line follows the update_irq rule (lines 171-179) | not executed | `Npcm8xxUdc.ResetLeavesLineHigh` (`Npcm8xxUdc.AfterResetAsWritten`) | `Npcm8xxUdc.WriteKeepsLine` (`Npcm8xxUdc.AfterReset`, `Npcm8xxUdc.Controller.Reset`) |
| hw/ssi/npcm_espi.c:121-141 | the getter shifts after each OR, so field k lands in nibble k + 1 | setting 1 reads back 0x10, and setting 0xF000000000000000 reads back 0 | the inverse of the setters, which put nibble k into register k | not executed | `NpcmEspi.SetThenGetShifted`, `NpcmEspi.SetThenGetAsWritten` (`NpcmEspi.PackedAsWritten`) | `NpcmEspi.SetThenGet` (`NpcmEspi.Packed`, `NpcmEspi.Espi.GetWire`) |
| hw/ssi/npcm_espi.c:60-98 | the reads and writes index `regs[offset >> 2]`, and the 4 KiB window (line 187) reaches past the 0x180-word register file | an aligned access at offset 0x600 indexes `regs[0x180]` | offsets past the register file read 0 and ignore writes | not executed | `NpcmEspi.WindowOverrun` | `NpcmEspi.OutsideIgnored` (`NpcmEspi.ReadValue`, `NpcmEspi.AfterWrite`) |
| android/emu/check/src/android/compatibility_check.cpp:70-72 | `auto acm = instance()` copies the singleton, so the results are cached in the copy | ensureAvdCompatibility, then check | check answers from the cache filled by ensureAvdCompatibility | not executed | `CompatibilityCheck.CheckAfterEnsureAsWritten` (`CompatibilityCheck.Manager.EnsureAvdCompatibility`) | `CompatibilityCheck.CheckAfterEnsureCached` (`CompatibilityCheck.EnsureAvdCompatibilityCached`) |
| android/emu/check/src/android/system_check.cpp:58-66 | the format arguments are swapped: the host's count is printed as required and the minimum as available | one core: "requires 1 CPU cores ... Only 2 cores are available" | required 2, available 1, as the message's wording says | not executed | `SystemCheck.CoreMessageAsWritten` (`SystemCheck.CoreShortageAsWritten`) | `SystemCheck.CoreShortage` |
| android/emu/check/src/android/hw_gpu_check.cpp:170-179 | the warning passes `avdMinGpuMemMiB` where the message says "the suggested level" | an XR AVD with 3000 MiB is told it is below a suggested level of 2048 MiB | report `avdSuggestedGpuMemMiB`, defined on line 170 | not executed | `HwGpuCheck.MemoryWarningAsWrittenClaim` (`HwGpuCheck.MemoryWarningAsWritten`) | `HwGpuCheck.MemoryWarning` |
| android/android-emu/android/base/AlignedBuf.h:57-67 | the move assignment overwrites `mBuffer` without freeing the block it held | assigning a moved buffer to a buffer that holds a block | free the old block first, as the destructor on line 67 would | not executed | `AlignedBuf.MoveAssignLeaks` (`AlignedBuf.AlignedBuf.MoveAssignAsWritten`) | `AlignedBuf.MoveAssignFrees` (`AlignedBuf.AlignedBuf.MoveAssign`) |
| android/android-emu/android/base/AlignedBuf.h:47-65 | the copy assignment moves a copy in through that move assignment, so it leaks the same way | copy-assigning to a buffer that holds a block | free the old block | not executed | `AlignedBuf.CopyAssignLeaks` (`AlignedBuf.AlignedBuf.CopyAssignAsWritten`) | `AlignedBuf.CopyAssignFrees` (`AlignedBuf.AlignedBuf.CopyAssign`) |
