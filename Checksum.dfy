/**
 * The IP checksum engine: the one's-complement sum of RFC 1071 (sections 1
 * and 2), the TCP/UDP pseudo-header sum (RFC 768; section 3.1 of RFC 793;
 * section 8.1 of RFC 8200) and the patching of checksum fields inside an
 * Ethernet frame.
 *
 * Bytes are integers in [0, 256); the source's `uint32_t` accumulators are
 * written out as arithmetic modulo 2^32.
 */
module Checksum {

  type Byte = x: int | 0 <= x < 256

  const TWO16: int := 0x1_0000
  const TWO32: int := 0x1_0000_0000
  /** The one's-complement modulus: 2^16 is congruent to 1 modulo 0xFFFF. */
  const ONES: int := 0xFFFF

  // ---------------------------------------------------------------------
  // Specification of the sum
  // ---------------------------------------------------------------------

  /** The contribution of byte `b` at stream position `p`: even positions
      are the high byte of a big-endian 16-bit word. */
  function Weighted(b: Byte, p: int): nat
  {
    if p % 2 == 0 then 256 * b else b
  }

  /** The word sum of `s` when its first byte sits at stream position `p`. */
  function WordSum(s: seq<Byte>, p: int): nat
    decreases |s|
  {
    if s == [] then 0 else WordSum(s[..|s| - 1], p) + Weighted(s[|s| - 1], p + |s| - 1)
  }

  /** Sum of the bytes of `s` at even (`lane == 0`) or odd (`lane == 1`) index. */
  function LaneSum(s: seq<Byte>, lane: nat): nat
    decreases |s|
  {
    if s == [] then 0
    else LaneSum(s[..|s| - 1], lane) + (if (|s| - 1) % 2 == lane then s[|s| - 1] else 0)
  }

  /** RFC 1071 framing, read from the front: big-endian 16-bit words with the
      odd tail byte padded with a zero low byte. */
  function BigEndianWordSum(s: seq<Byte>): nat
    decreases |s|
  {
    if |s| == 0 then 0
    else if |s| == 1 then s[0] * 256
    else s[0] * 256 + s[1] + BigEndianWordSum(s[2..])
  }

  /** Bytes `s[i]`, `s[i + 1]` read as a big-endian 16-bit value. */
  function Be16(s: seq<Byte>, i: nat): nat
    requires i + 1 < |s|
  {
    s[i] as int * 256 + s[i + 1]
  }

  lemma PrefixStep(s: seq<Byte>, n: nat)
    requires n < |s|
    ensures s[..n + 1][..n] == s[..n]
  {
  }

  lemma {:induction false} LaneStep(s: seq<Byte>, n: nat, lane: nat)
    requires n < |s|
    ensures LaneSum(s[..n + 1], lane) == LaneSum(s[..n], lane) + (if n % 2 == lane then s[n] else 0)
  {
    PrefixStep(s, n);
  }

  /** The byte-parity weighting of `net_checksum_add_cont`: the even-index lane
      is shifted by 8 when the stream position is even, the odd-index lane when
      it is odd. */
  lemma {:induction false} WordSumLanes(s: seq<Byte>, p: int)
    ensures WordSum(s, p) ==
      if p % 2 == 0 then 256 * LaneSum(s, 0) + LaneSum(s, 1)
      else LaneSum(s, 0) + 256 * LaneSum(s, 1)
    decreases |s|
  {
    if s != [] {
      WordSumLanes(s[..|s| - 1], p);
    }
  }

  /** Splitting a stream: the second part starts at the position after the first. */
  lemma {:induction false} WordSumAppend(a: seq<Byte>, b: seq<Byte>, p: int)
    ensures WordSum(a + b, p) == WordSum(a, p) + WordSum(b, p + |a|)
    decreases |b|
  {
    if b == [] {
      assert a + b == a;
    } else {
      var b' := b[..|b| - 1];
      assert (a + b)[..|a + b| - 1] == a + b';
      WordSumAppend(a, b', p);
    }
  }

  /** Only the parity of the stream position matters. */
  lemma {:induction false} WordSumParity(s: seq<Byte>, p: int, q: int)
    requires p % 2 == q % 2
    ensures WordSum(s, p) == WordSum(s, q)
    decreases |s|
  {
    if s != [] {
      WordSumParity(s[..|s| - 1], p, q);
      assert Weighted(s[|s| - 1], p + |s| - 1) == Weighted(s[|s| - 1], q + |s| - 1);
    }
  }

  /** The weighted sum from an even position is the RFC 1071 big-endian word sum. */
  lemma {:induction false} WordSumIsBigEndian(s: seq<Byte>)
    ensures WordSum(s, 0) == BigEndianWordSum(s)
    decreases |s|
  {
    if |s| == 1 {
      assert s[..0] == [];
    } else if |s| >= 2 {
      var head, rest := s[..2], s[2..];
      assert s == head + rest;
      WordSumAppend(head, rest, 0);
      WordSumParity(rest, 2, 0);
      WordSumIsBigEndian(rest);
      WordSumPair(s[0], s[1]);
      assert head == [s[0], s[1]];
    }
  }

  lemma WordSumPair(a: Byte, b: Byte)
    ensures WordSum([a, b], 0) == a as int * 256 + b
  {
    assert WordSum([a], 0) == a as int * 256 by {
      assert [a][..0] == [];
    }
    assert [a, b][..1] == [a];
    assert WordSum([a, b], 0) == WordSum([a], 0) + b;
  }

  /** Each pair of bytes adds at most 0xFFFF, so `h` pairs add at most 0xFFFF * h. */
  lemma WordSumBound(s: seq<Byte>, p: int, h: nat)
    requires (|s| + 1) / 2 <= h
    ensures WordSum(s, p) <= ONES * h
  {
    WordSumLanes(s, p);
    LaneBound(s, 0);
    LaneBound(s, 1);
  }

  lemma {:induction false} LaneBound(s: seq<Byte>, lane: nat)
    requires lane < 2
    ensures LaneSum(s, lane) <= 255 * ((|s| + 1 - lane) / 2)
    decreases |s|
  {
    if s != [] {
      LaneBound(s[..|s| - 1], lane);
    }
  }

  // ---------------------------------------------------------------------
  // net_checksum_add_cont
  // ---------------------------------------------------------------------

  lemma ModAdd(a: int, b: int)
    ensures (a % TWO32 + b) % TWO32 == (a + b) % TWO32
  {
  }

  lemma ModShiftCombine(x: int, y: int)
    requires 0 <= x && 0 <= y
    ensures (x % TWO32 + (y % TWO32 * 256) % TWO32) % TWO32 == (x + 256 * y) % TWO32
  {
    var qy := y / TWO32;
    assert y == qy * TWO32 + y % TWO32;
    assert 256 * y == 256 * qy * TWO32 + y % TWO32 * 256;
    assert (y % TWO32 * 256) % TWO32 == (256 * y) % TWO32 by {
      ModMultiple(y % TWO32 * 256, 256 * qy);
    }
    ModAdd(x, (256 * y) % TWO32);
    ModAdd(256 * y, x);
  }

  lemma ModMultiple(x: int, k: int)
    ensures (x + k * TWO32) % TWO32 == x % TWO32
  {
  }

  /** Two more bytes from an even index add one byte to each lane. */
  lemma LanePair(s: seq<Byte>, i: nat)
    requires i + 1 < |s| && i % 2 == 0
    ensures LaneSum(s[..i + 2], 0) == LaneSum(s[..i], 0) + s[i]
    ensures LaneSum(s[..i + 2], 1) == LaneSum(s[..i], 1) + s[i + 1]
  {
    LaneStep(s, i, 0);
    LaneStep(s, i, 1);
    LaneStep(s, i + 1, 0);
    LaneStep(s, i + 1, 1);
  }

  /** The final combination of `net_checksum_add_cont`: the lane that holds
      the high bytes is shifted by 8, all in 32 bits. */
  lemma AddContCombine(buf: seq<Byte>, seqNo: int, sum1: nat, sum2: nat)
    requires sum1 == LaneSum(buf, 0) % TWO32 && sum2 == LaneSum(buf, 1) % TWO32
    ensures seqNo % 2 == 1 ==> (sum1 + (sum2 * 256) % TWO32) % TWO32 == WordSum(buf, seqNo) % TWO32
    ensures seqNo % 2 == 0 ==> (sum2 + (sum1 * 256) % TWO32) % TWO32 == WordSum(buf, seqNo) % TWO32
  {
    WordSumLanes(buf, seqNo);
    if seqNo % 2 == 1 {
      ModShiftCombine(LaneSum(buf, 0), LaneSum(buf, 1));
    } else {
      ModShiftCombine(LaneSum(buf, 1), LaneSum(buf, 0));
    }
  }

  /**
   * net_checksum_add_cont: the byte sum of `buf` with the even/odd lane
   * weighting chosen by the parity of `seqNo`, wrapped to 32 bits.
   */
  method AddCont(buf: seq<Byte>, seqNo: int) returns (sum: nat)
    ensures sum == WordSum(buf, seqNo) % TWO32
  {
    var sum1: nat, sum2: nat := 0, 0;
    var i: nat := 0;
    while i + 1 < |buf|
      invariant i <= |buf| && i % 2 == 0
      invariant sum1 == LaneSum(buf[..i], 0) % TWO32
      invariant sum2 == LaneSum(buf[..i], 1) % TWO32
    {
      LanePair(buf, i);
      ModAdd(LaneSum(buf[..i], 0), buf[i]);
      ModAdd(LaneSum(buf[..i], 1), buf[i + 1]);
      sum1 := (sum1 + buf[i]) % TWO32;
      sum2 := (sum2 + buf[i + 1]) % TWO32;
      i := i + 2;
    }
    if i < |buf| {
      LaneStep(buf, i, 0);
      LaneStep(buf, i, 1);
      ModAdd(LaneSum(buf[..i], 0), buf[i]);
      sum1 := (sum1 + buf[i]) % TWO32;
      i := i + 1;
    }
    assert buf[..i] == buf;
    AddContCombine(buf, seqNo, sum1, sum2);
    if seqNo % 2 == 1 {
      sum := (sum1 + (sum2 * 256) % TWO32) % TWO32;
    } else {
      sum := (sum2 + (sum1 * 256) % TWO32) % TWO32;
    }
  }

  // ---------------------------------------------------------------------
  // net_checksum_finish
  // ---------------------------------------------------------------------

  /** The 16-bit one's complement of the one's-complement sum of `x`: zero
      folds to 0xFFFF, and any other value to the member of [1, 0xFFFF]
      congruent to it modulo 0xFFFF. */
  function OnesComplement(x: nat): (r: nat)
    ensures r < TWO16
  {
    if x == 0 then ONES else (ONES - x % ONES) % ONES
  }

  lemma FoldStep(s: nat)
    ensures (s % TWO16 + s / TWO16) % ONES == s % ONES
  {
    var hi, lo := s / TWO16, s % TWO16;
    assert s == hi * ONES + (hi + lo);
  }

  /**
   * net_checksum_finish: fold the carries back in until the value fits in 16
   * bits, then complement it.
   */
  method Finish(sum0: nat) returns (r: nat)
    requires sum0 < TWO32
    ensures r < TWO16
    ensures r == OnesComplement(sum0)
    ensures (sum0 + r) % ONES == 0
  {
    var sum: nat := sum0;
    while sum >= TWO16
      invariant sum % ONES == sum0 % ONES
      invariant (sum == 0) == (sum0 == 0)
      decreases sum
    {
      FoldStep(sum);
      sum := sum % TWO16 + sum / TWO16;
    }
    r := ONES - sum;
    if sum0 != 0 {
      if sum == ONES {
        assert sum0 % ONES == 0;
      } else {
        SmallMod(sum);
      }
    }
  }

  lemma SmallMod(x: nat)
    requires x < ONES
    ensures x % ONES == x
  {
  }

  lemma MultipleOfOnes(k: nat)
    ensures (k * ONES) % ONES == 0
  {
  }

  /** Adding a sum's complement makes the one's-complement sum verify: the
      complement of the folded total is then zero. */
  lemma ComplementCancels(x: nat)
    ensures OnesComplement(x + OnesComplement(x)) == 0
  {
    var c := OnesComplement(x);
    if x != 0 && x % ONES != 0 {
      var q := x / ONES;
      assert c == ONES - x % ONES;
      assert x == q * ONES + x % ONES;
      assert x + c == (q + 1) * ONES;
      MultipleOfOnes(q + 1);
    }
  }

  // ---------------------------------------------------------------------
  // net_checksum_tcpudp
  // ---------------------------------------------------------------------

  /** The 32-bit accumulator of `net_checksum_tcpudp`: the payload sum, the
      address sum, the protocol and the length. */
  function PseudoSum(proto: nat, addrs: seq<Byte>, payload: seq<Byte>): nat
  {
    Accumulate(WordSum(payload, 0), WordSum(addrs, 0), proto, |payload|)
  }

  /** The additions of `net_checksum_tcpudp` in 32 bits: the two
      `net_checksum_add` results (each a `uint32_t`), then protocol plus
      length. */
  function Accumulate(payloadSum: nat, addrSum: nat, proto: nat, len: nat): nat
  {
    Add32(Add32(payloadSum % TWO32, addrSum % TWO32), proto + len)
  }

  /** `uint32_t` addition. */
  function Add32(x: nat, y: nat): nat
  {
    (x + y) % TWO32
  }

  /** net_checksum_tcpudp over `payload` (the segment, `length` bytes) and
      `addrs` (source then destination address). */
  function TcpUdp(proto: nat, addrs: seq<Byte>, payload: seq<Byte>): (r: nat)
    ensures r < TWO16
  {
    OnesComplement(PseudoSum(proto, addrs, payload))
  }

  /** net_checksum_tcpudp step by step: the payload sum, the address sum
      and protocol plus length added in a `uint32_t`, then folded. */
  method ChecksumTcpUdp(proto: Byte, addrs: seq<Byte>, payload: seq<Byte>) returns (csum: nat)
    ensures csum == TcpUdp(proto, addrs, payload)
  {
    var sum: nat := 0;
    var payloadSum := AddCont(payload, 0);
    sum := (sum + payloadSum) % TWO32;
    var addrSum := AddCont(addrs, 0);
    sum := (sum + addrSum) % TWO32;
    sum := (sum + (proto + |payload|)) % TWO32;
    assert sum == Accumulate(WordSum(payload, 0), WordSum(addrs, 0), proto, |payload|) by {
      SmallWord(payloadSum);
    }
    csum := Finish(sum);
  }

  /** The RFC 768 / RFC 793 IPv4 pseudo-header tail: zero, protocol, length. */
  function Ipv4PseudoTail(proto: Byte, len: nat): seq<Byte>
    requires len < TWO16
  {
    [0, proto, len / 256, len % 256]
  }

  /** The RFC 8200 (section 8.1) IPv6 pseudo-header tail: a 32-bit length,
      three zero bytes and the next-header value. */
  function Ipv6PseudoTail(proto: Byte, len: nat): seq<Byte>
    requires len < TWO16
  {
    [0, 0, len / 256, len % 256, 0, 0, 0, proto]
  }

  lemma Ipv4TailSum(proto: Byte, len: nat)
    requires len < TWO16
    ensures WordSum(Ipv4PseudoTail(proto, len), 0) == proto + len
  {
    var hi, lo: Byte := len / 256, len % 256;
    assert Ipv4PseudoTail(proto, len) == [0, proto] + [hi, lo];
    WordSumAppend([0, proto], [hi, lo], 0);
    WordSumParity([hi, lo], 2, 0);
    WordSumPair(0, proto);
    WordSumPair(hi, lo);
  }

  lemma Ipv6TailSum(proto: Byte, len: nat)
    requires len < TWO16
    ensures WordSum(Ipv6PseudoTail(proto, len), 0) == proto + len
  {
    var hi, lo: Byte := len / 256, len % 256;
    var w1, w2, w3, w4 := [0, 0], [hi, lo], [0, 0], [0, proto];
    assert Ipv6PseudoTail(proto, len) == w1 + w2 + w3 + w4;
    WordSumAppend(w1 + w2 + w3, w4, 0);
    WordSumAppend(w1 + w2, w3, 0);
    WordSumAppend(w1, w2, 0);
    WordSumParity(w2, 2, 0);
    WordSumParity(w3, 4, 0);
    WordSumParity(w4, 6, 0);
    WordSumPair(0, 0);
    WordSumPair(hi, lo);
    WordSumPair(0, proto);
  }

  /** With a segment shorter than 2^16 bytes and at most 255 address words the
      32-bit accumulator of `net_checksum_tcpudp` never wraps. */
  lemma PseudoSumNoWrap(proto: Byte, addrs: seq<Byte>, payload: seq<Byte>)
    requires |payload| < TWO16 && |addrs| <= 510
    ensures PseudoSum(proto, addrs, payload) == WordSum(payload, 0) + WordSum(addrs, 0) + proto + |payload|
    ensures PseudoSum(proto, addrs, payload) < TWO32 - TWO16
  {
    var a, b := WordSum(payload, 0), WordSum(addrs, 0);
    assert a <= ONES * 32768 by { WordSumBound(payload, 0, 32768); }
    assert b <= ONES * 255 by { WordSumBound(addrs, 0, 255); }
    NoWrapArith(a, b, proto, |payload|);
  }

  lemma NoWrapArith(a: nat, b: nat, p: nat, n: nat)
    requires a <= ONES * 32768 && b <= ONES * 255 && p < TWO16 && n < TWO16
    ensures Accumulate(a, b, p, n) == a + b + p + n
    ensures a + b + p + n < TWO32 - TWO16
  {
    SmallWord(a);
    SmallWord(b);
    SmallWord(a + b);
    SmallWord(a + b + p + n);
  }

  lemma SmallWord(x: nat)
    requires x < TWO32
    ensures x % TWO32 == x
  {
  }

  /** The sum `net_checksum_tcpudp` accumulates equals the RFC 1071 sum over
      the explicit IPv4 pseudo-header (RFC 768, section 3.1 of RFC 793)
      followed by the segment. */
  lemma PseudoSumIsIpv4PseudoHeader(proto: Byte, addrs: seq<Byte>, payload: seq<Byte>)
    requires |payload| < TWO16 && |addrs| == 8
    ensures PseudoSum(proto, addrs, payload) == WordSum(addrs + Ipv4PseudoTail(proto, |payload|) + payload, 0)
  {
    var tail := Ipv4PseudoTail(proto, |payload|);
    PseudoHeaderSplit(addrs, tail, payload);
    assert WordSum(tail, 0) == proto + |payload| by { Ipv4TailSum(proto, |payload|); }
    PseudoSumNoWrap(proto, addrs, payload);
  }

  /** The same for the IPv6 pseudo-header of section 8.1 of RFC 8200. */
  lemma PseudoSumIsIpv6PseudoHeader(proto: Byte, addrs: seq<Byte>, payload: seq<Byte>)
    requires |payload| < TWO16 && |addrs| == 32
    ensures PseudoSum(proto, addrs, payload) == WordSum(addrs + Ipv6PseudoTail(proto, |payload|) + payload, 0)
  {
    var tail := Ipv6PseudoTail(proto, |payload|);
    PseudoHeaderSplit(addrs, tail, payload);
    assert WordSum(tail, 0) == proto + |payload| by { Ipv6TailSum(proto, |payload|); }
    PseudoSumNoWrap(proto, addrs, payload);
  }

  /** A pseudo-header of whole words sums part by part. */
  lemma PseudoHeaderSplit(addrs: seq<Byte>, tail: seq<Byte>, payload: seq<Byte>)
    requires |addrs| % 2 == 0 && |tail| % 2 == 0
    ensures WordSum(addrs + tail + payload, 0) == WordSum(addrs, 0) + WordSum(tail, 0) + WordSum(payload, 0)
  {
    assert WordSum(addrs + tail + payload, 0) == WordSum(addrs + tail, 0) + WordSum(payload, |addrs + tail|) by {
      WordSumAppend(addrs + tail, payload, 0);
    }
    assert WordSum(addrs + tail, 0) == WordSum(addrs, 0) + WordSum(tail, |addrs|) by {
      WordSumAppend(addrs, tail, 0);
    }
    assert WordSum(tail, |addrs|) == WordSum(tail, 0) by { WordSumParity(tail, |addrs|, 0); }
    assert WordSum(payload, |addrs + tail|) == WordSum(payload, 0) by { WordSumParity(payload, |addrs + tail|, 0); }
  }

  /** Replaces the two bytes at `k`, `k + 1` with `v` in network byte order. */
  function PutBe16(s: seq<Byte>, k: nat, v: nat): (r: seq<Byte>)
    requires k + 1 < |s| && v < TWO16
    ensures |r| == |s| && Be16(r, k) == v
  {
    s[k := v / 256][k + 1 := v % 256]
  }

  /** Writing `v` over a zero field at an even offset adds exactly `v` to the sum. */
  lemma {:induction false} StoreAddsValue(s: seq<Byte>, k: nat, v: nat)
    requires k + 1 < |s| && k % 2 == 0 && v < TWO16
    requires s[k] == 0 && s[k + 1] == 0
    ensures WordSum(PutBe16(s, k, v), 0) == WordSum(s, 0) + v
  {
    var hi, lo: Byte := v / 256, v % 256;
    var t := PutBe16(s, k, v);
    var pre, post := s[..k], s[k + 2..];
    assert s == pre + [0, 0] + post;
    assert t == pre + [hi, lo] + post;
    assert WordSum([0, 0], 0) == 0 by { WordSumPair(0, 0); }
    assert WordSum([hi, lo], 0) == v by { WordSumPair(hi, lo); }
    PseudoHeaderSplit(pre, [0, 0], post);
    PseudoHeaderSplit(pre, [hi, lo], post);
  }

  /**
   * The receiver's check of RFC 1071 section 2: once the checksum computed
   * with a zeroed field is stored in that field (at an even offset of the
   * segment), recomputing the checksum over the same pseudo-header gives 0.
   */
  lemma TcpUdpVerifies(proto: Byte, addrs: seq<Byte>, payload: seq<Byte>, k: nat)
    requires |payload| < TWO16 && |addrs| <= 510
    requires k + 1 < |payload| && k % 2 == 0
    requires payload[k] == 0 && payload[k + 1] == 0
    ensures TcpUdp(proto, addrs, PutBe16(payload, k, TcpUdp(proto, addrs, payload))) == 0
  {
    var c := TcpUdp(proto, addrs, payload);
    var patched := PutBe16(payload, k, c);
    StoreAddsValue(payload, k, c);
    PseudoSumNoWrap(proto, addrs, payload);
    PseudoSumNoWrap(proto, addrs, patched);
    var s := PseudoSum(proto, addrs, payload);
    assert PseudoSum(proto, addrs, patched) == s + c;
    ComplementCancels(s);
  }

  // ---------------------------------------------------------------------
  // net_checksum_add_iov
  // ---------------------------------------------------------------------

  /** The bytes of an I/O vector, buffer after buffer. */
  function Flatten(iov: seq<seq<Byte>>): seq<Byte>
    decreases |iov|
  {
    if iov == [] then [] else Flatten(iov[..|iov| - 1]) + iov[|iov| - 1]
  }

  lemma {:induction false} FlattenAppend(x: seq<seq<Byte>>, y: seq<seq<Byte>>)
    ensures Flatten(x + y) == Flatten(x) + Flatten(y)
    decreases |y|
  {
    if y == [] {
      assert x + y == x;
    } else {
      var init := y[..|y| - 1];
      assert (x + y)[..|x + y| - 1] == x + init;
      assert Flatten(x + y) == Flatten(x + init) + y[|y| - 1];
      FlattenAppend(x, init);
      assert Flatten(y) == Flatten(init) + y[|y| - 1];
    }
  }

  /** Bytes `[a, b)` of the flattened vector that fall inside buffer `i` are
      that buffer's bytes, shifted by the length of the buffers before it. */
  lemma FlattenSlice(iov: seq<seq<Byte>>, i: nat, a: nat, b: nat)
    requires i < |iov|
    requires |Flatten(iov[..i])| <= a <= b <= |Flatten(iov[..i])| + |iov[i]|
    ensures |Flatten(iov[..i + 1])| == |Flatten(iov[..i])| + |iov[i]|
    ensures b <= |Flatten(iov)|
    ensures Flatten(iov)[a..b] == iov[i][a - |Flatten(iov[..i])|..b - |Flatten(iov[..i])|]
  {
    var pre, cur := Flatten(iov[..i]), Flatten(iov[..i + 1]);
    assert cur == pre + iov[i] by {
      assert iov[..i + 1][..i] == iov[..i];
    }
    assert Flatten(iov) == cur + Flatten(iov[i + 1..]) by {
      assert iov == iov[..i + 1] + iov[i + 1..];
      FlattenAppend(iov[..i + 1], iov[i + 1..]);
    }
    assert Flatten(iov)[a..b] == cur[a..b];
  }

  function Min(a: int, b: int): int { if a <= b then a else b }
  function Max(a: int, b: int): int { if a >= b then a else b }

  /** The 32-bit stream position keeps the parity of the true position. */
  lemma ParityStep(pos: nat, len: nat, p: int)
    requires pos % 2 == p % 2
    ensures ((pos + len) % TWO32) % 2 == (p + len) % 2
  {
    var q := (pos + len) / TWO32;
    assert pos + len == q * TWO32 + (pos + len) % TWO32;
    assert q * TWO32 == 2 * (q * 0x8000_0000);
  }

  /** One chunk of net_checksum_add_iov extends the running sum over the
      consumed range by the chunk's sum at the running stream position. */
  lemma AddIovStep(whole: seq<Byte>, start: nat, off: nat, len: nat, c0: nat, pos: nat, res: nat, part: nat)
    requires start <= off && off + len <= |whole|
    requires pos % 2 == (c0 + (off - start)) % 2
    requires res == WordSum(whole[start..off], c0) % TWO32
    requires part == WordSum(whole[off..off + len], pos) % TWO32
    ensures (res + part) % TWO32 == WordSum(whole[start..off + len], c0) % TWO32
  {
    var d, c := WordSum(whole[start..off], c0), WordSum(whole[off..off + len], pos);
    WordSumSplit(whole, start, off, off + len, c0);
    WordSumParity(whole[off..off + len], pos, c0 + (off - start));
    ModSum(d, c);
  }

  /** A slice of a stream sums as its two halves, the second starting at the
      position after the first. */
  lemma WordSumSplit(s: seq<Byte>, a: nat, b: nat, c: nat, p: int)
    requires a <= b <= c <= |s|
    ensures WordSum(s[a..c], p) == WordSum(s[a..b], p) + WordSum(s[b..c], p + (b - a))
  {
    assert s[a..c] == s[a..b] + s[b..c];
    WordSumAppend(s[a..b], s[b..c], p);
  }

  lemma ModSum(a: nat, b: nat)
    ensures (a % TWO32 + b % TWO32) % TWO32 == (a + b) % TWO32
  {
    ModAdd(a, b % TWO32);
    ModAdd(b, a);
  }

  /** The state of net_checksum_add_iov after its first `i` buffers: `off`
      and `left` are the advanced offset and remaining size, `pos` the
      32-bit stream position and `res` the sum over the bytes consumed. */
  ghost predicate IovProgress(iov: seq<seq<Byte>>, iovOff: nat, size: nat, c0: nat,
                              i: nat, iovecOff: nat, off: nat, left: nat, pos: nat, res: nat)
  {
    IovCursor(iov, i, iovecOff) &&
    pos < TWO32 && res < TWO32 &&
    left <= size && off == iovOff + (size - left) &&
    (left > 0 ==> off == Max(iovOff, iovecOff)) &&
    IovInside(iov, iovOff, off) &&
    pos % 2 == (c0 + (off - iovOff)) % 2 &&
    IovSummed(iov, iovOff, c0, off, res)
  }

  /** `iovecOff` is the offset of buffer `i` in the stream. */
  ghost predicate IovCursor(iov: seq<seq<Byte>>, i: nat, iovecOff: nat)
  {
    i <= |iov| && iovecOff == |Flatten(iov[..i])|
  }

  /** Once the offset has advanced, the range read so far lies in the vector. */
  ghost predicate IovInside(iov: seq<seq<Byte>>, iovOff: nat, off: nat)
  {
    off > iovOff ==> off <= |Flatten(iov)| && iovOff < |Flatten(iov)|
  }

  /** `res` is the 32-bit sum of the bytes from `iovOff` up to `off`. */
  ghost predicate IovSummed(iov: seq<seq<Byte>>, iovOff: nat, c0: nat, off: nat, res: nat)
  {
    var whole := Flatten(iov);
    iovOff <= off && res == WordSum(whole[Min(iovOff, |whole|)..Min(off, |whole|)], c0) % TWO32
  }

  /** While bytes are left, the offset never lies before the current buffer. */
  lemma IovAhead(iov: seq<seq<Byte>>, iovOff: nat, size: nat, c0: nat,
                 i: nat, iovecOff: nat, off: nat, left: nat, pos: nat, res: nat)
    requires IovProgress(iov, iovOff, size, c0, i, iovecOff, off, left, pos, res)
    requires left != 0
    ensures iovecOff <= off
  {
  }

  /** A buffer wholly before the current offset is skipped. */
  lemma IovSkip(iov: seq<seq<Byte>>, iovOff: nat, size: nat, c0: nat,
                i: nat, iovecOff: nat, off: nat, left: nat, pos: nat, res: nat)
    requires IovProgress(iov, iovOff, size, c0, i, iovecOff, off, left, pos, res)
    requires i < |iov| && left != 0 && iovecOff + |iov[i]| <= off
    ensures IovProgress(iov, iovOff, size, c0, i + 1, iovecOff + |iov[i]|, off, left, pos, res)
  {
    IovCursorStep(iov, i, iovecOff);
  }

  /** A buffer holding the current offset contributes the sum of its bytes
      from there, up to `left` of them. */
  lemma IovConsume(iov: seq<seq<Byte>>, iovOff: nat, size: nat, c0: nat,
                   i: nat, iovecOff: nat, off: nat, left: nat, pos: nat, res: nat,
                   len: nat, part: nat)
    requires |Flatten(iov)| < TWO32 && iovOff < TWO32
    requires IovProgress(iov, iovOff, size, c0, i, iovecOff, off, left, pos, res)
    requires i < |iov| && left != 0 && off < iovecOff + |iov[i]|
    requires len == Min(iovecOff + |iov[i]| - off, left)
    requires part == WordSum(iov[i][off - iovecOff..off - iovecOff + len], pos) % TWO32
    ensures IovProgress(iov, iovOff, size, c0, i + 1, iovecOff + |iov[i]|, off + len, left - len,
                        (pos + len) % TWO32, (res + part) % TWO32)
  {
    assert iovecOff == |Flatten(iov[..i])|;
    FlattenSlice(iov, i, off, off + len);
    IovCursorStep(iov, i, iovecOff);
    IovConsumeSummed(iov, iovOff, c0, off, len, pos, res, iov[i][off - iovecOff..off - iovecOff + len], part);
    ParityStep(pos, len, c0 + (off - iovOff));
  }

  /** The cursor moves past buffer `i`. */
  lemma IovCursorStep(iov: seq<seq<Byte>>, i: nat, iovecOff: nat)
    requires IovCursor(iov, i, iovecOff) && i < |iov|
    ensures IovCursor(iov, i + 1, iovecOff + |iov[i]|)
  {
    FlattenSlice(iov, i, iovecOff, iovecOff);
  }

  /** The sum part of IovConsume: `chunk`, the bytes of the stream from
      `off` on, extends the running sum. */
  lemma IovConsumeSummed(iov: seq<seq<Byte>>, iovOff: nat, c0: nat, off: nat, len: nat,
                         pos: nat, res: nat, chunk: seq<Byte>, part: nat)
    requires off + len <= |Flatten(iov)| && chunk == Flatten(iov)[off..off + len]
    requires pos % 2 == (c0 + (off - iovOff)) % 2
    requires IovSummed(iov, iovOff, c0, off, res)
    requires part == WordSum(chunk, pos) % TWO32
    ensures IovSummed(iov, iovOff, c0, off + len, (res + part) % TWO32)
  {
    var whole := Flatten(iov);
    assert res == WordSum(whole[iovOff..off], c0) % TWO32 by {
      assert Min(iovOff, |whole|) == iovOff && Min(off, |whole|) == off;
    }
    AddIovStep(whole, iovOff, off, len, c0, pos, res, part);
    assert Min(iovOff, |whole|) == iovOff && Min(off + len, |whole|) == off + len;
  }

  /** When the buffers or the size run out, the running sum covers the
      requested range, cut at the end of the vector. */
  lemma IovDone(iov: seq<seq<Byte>>, iovOff: nat, size: nat, c0: nat,
                i: nat, iovecOff: nat, off: nat, left: nat, pos: nat, res: nat)
    requires IovProgress(iov, iovOff, size, c0, i, iovecOff, off, left, pos, res)
    requires i == |iov| || left == 0
    ensures res == WordSum(Flatten(iov)[Min(iovOff, |Flatten(iov)|)..Min(iovOff + size, |Flatten(iov)|)], c0) % TWO32
  {
    if i == |iov| {
      assert iov[..i] == iov;
    }
  }

  /** One pass of the loop of net_checksum_add_iov over buffer `i`. */
  method AddIovChunk(iov: seq<seq<Byte>>, iovOff: nat, size: nat, c0: nat,
                     i: nat, iovecOff: nat, off: nat, left: nat, pos: nat, res: nat)
    returns (off': nat, left': nat, pos': nat, res': nat)
    requires |Flatten(iov)| < TWO32 && iovOff < TWO32
    requires IovProgress(iov, iovOff, size, c0, i, iovecOff, off, left, pos, res)
    requires i < |iov| && left != 0
    ensures IovProgress(iov, iovOff, size, c0, i + 1, iovecOff + |iov[i]|, off', left', pos', res')
  {
    var chunkLen := |iov[i]|;
    IovAhead(iov, iovOff, size, c0, i, iovecOff, off, left, pos, res);
    if off < iovecOff + chunkLen {
      var len := Min(iovecOff + chunkLen - off, left);
      var part := AddCont(iov[i][off - iovecOff..off - iovecOff + len], pos);
      IovConsume(iov, iovOff, size, c0, i, iovecOff, off, left, pos, res, len, part);
      off', left', pos', res' := off + len, left - len, (pos + len) % TWO32, (res + part) % TWO32;
    } else {
      IovSkip(iov, iovOff, size, c0, i, iovecOff, off, left, pos, res);
      off', left', pos', res' := off, left, pos, res;
    }
  }

  /**
   * net_checksum_add_iov: the sum of the `size` bytes starting at `iovOff` in
   * the concatenation of the buffers, as if they were one stream starting at
   * position `csumOffset`. Buffers wholly before `iovOff` are skipped, at
   * most `size` bytes are read, and a range running past the last buffer is
   * cut at its end.
   */
  method AddIov(iov: seq<seq<Byte>>, iovOff: nat, size: nat, csumOffset: nat) returns (res: nat)
    requires |Flatten(iov)| < TWO32
    requires iovOff < TWO32 && size < TWO32 && csumOffset < TWO32
    ensures res == WordSum(Flatten(iov)[Min(iovOff, |Flatten(iov)|)..Min(iovOff + size, |Flatten(iov)|)], csumOffset) % TWO32
  {
    var iovecOff: nat := 0;
    var i: nat := 0;
    var off: nat, left: nat, pos: nat := iovOff, size, csumOffset;
    res := 0;
    assert iov[..0] == [];
    while i < |iov| && left != 0
      invariant IovProgress(iov, iovOff, size, csumOffset, i, iovecOff, off, left, pos, res)
      decreases |iov| - i
    {
      off, left, pos, res := AddIovChunk(iov, iovOff, size, csumOffset, i, iovecOff, off, left, pos, res);
      iovecOff := iovecOff + |iov[i]|;
      i := i + 1;
    }
    IovDone(iov, iovOff, size, csumOffset, i, iovecOff, off, left, pos, res);
  }

  // ---------------------------------------------------------------------
  // net_checksum_calculate
  // ---------------------------------------------------------------------

  /** Header sizes and field offsets fixed by IEEE 802.3 (Ethernet), IEEE
      802.1Q (VLAN tag), RFC 791 (IPv4), RFC 8200 (IPv6), RFC 793 (TCP) and
      RFC 768 (UDP). */
  const ETH_HLEN: nat := 14
  const VLAN_HLEN: nat := 4
  const IP_HLEN: nat := 20
  const IP6_HLEN: nat := 40
  const TCP_HLEN: nat := 20
  const UDP_HLEN: nat := 8
  const ETH_P_VLAN: nat := 0x8100
  const ETH_P_DVLAN: nat := 0x88a8
  const IP_PROTO_TCP: nat := 6
  const IP_PROTO_UDP: nat := 17
  const IP_SUM_OFF: nat := 10
  const TCP_SUM_OFF: nat := 16
  const UDP_SUM_OFF: nat := 6

  /** Which checksums the caller asks for (CSUM_IP, CSUM_TCP, CSUM_UDP). */
  datatype CsumFlags = CsumFlags(ip: bool, tcp: bool, udp: bool)

  /**
   * Length of the MAC header: the Ethernet header, one VLAN tag for
   * ETH_P_VLAN or for ETH_P_DVLAN without an inner VLAN tag, two tags for
   * ETH_P_DVLAN followed by ETH_P_VLAN. The inner type is only read when the
   * frame holds it (see Findings).
   */
  function MacHeaderLen(f: seq<Byte>): (r: nat)
    requires |f| >= ETH_HLEN
    ensures r == ETH_HLEN <==> Be16(f, 12) != ETH_P_VLAN && Be16(f, 12) != ETH_P_DVLAN
    ensures r == ETH_HLEN + 2 * VLAN_HLEN <==>
      Be16(f, 12) == ETH_P_DVLAN && |f| >= 18 && Be16(f, 16) == ETH_P_VLAN
    ensures r == ETH_HLEN || r == ETH_HLEN + VLAN_HLEN || r == ETH_HLEN + 2 * VLAN_HLEN
  {
    var proto := Be16(f, 12);
    if proto == ETH_P_VLAN then ETH_HLEN + VLAN_HLEN
    else if proto == ETH_P_DVLAN then
      (if |f| >= 18 && Be16(f, 16) == ETH_P_VLAN then ETH_HLEN + 2 * VLAN_HLEN else ETH_HLEN + VLAN_HLEN)
    else ETH_HLEN
  }

  /** IP_HDR_GET_LEN: the IPv4 header length in bytes, from the IHL nibble. */
  function Ipv4HeaderLen(f: seq<Byte>, ip: nat): nat
    requires ip < |f|
  {
    (f[ip] % 16) * 4
  }

  /** The IPv4 header with its checksum field recomputed (net_checksum_ipv4
      with CSUM_IP), the field stored in network byte order. */
  function Ipv4HeaderPatched(f: seq<Byte>, ip: nat): (r: seq<Byte>)
    requires ip + IP_HLEN <= |f| && ip + Ipv4HeaderLen(f, ip) <= |f|
    ensures |r| == |f|
  {
    var z := PutBe16(f, ip + IP_SUM_OFF, 0);
    PutBe16(z, ip + IP_SUM_OFF, OnesComplement(HeaderSum(f, ip) % TWO32))
  }

  /** The RFC 1071 sum over the IPv4 header at `ip` with its checksum field
      set to zero. */
  function HeaderSum(f: seq<Byte>, ip: nat): nat
    requires ip + IP_HLEN <= |f| && ip + Ipv4HeaderLen(f, ip) <= |f|
  {
    WordSum(PutBe16(f, ip + IP_SUM_OFF, 0)[ip..ip + Ipv4HeaderLen(f, ip)], 0)
  }

  /** The checksum offset inside the TCP or UDP header for `proto`. */
  function TransportSumOffset(proto: Byte): nat
  {
    if proto == IP_PROTO_TCP then TCP_SUM_OFF else UDP_SUM_OFF
  }

  /** The transport patch applies: TCP or UDP asked for by `flags`, with a
      segment long enough for its header and inside the frame. */
  predicate L4Applies(flags: CsumFlags, nxt: nat, ipLen: nat, proto: Byte, frameLen: nat)
  {
    L4AppliesAsWritten(flags, ipLen, proto) && nxt + ipLen <= frameLen
  }

  /** The conditions net_checksum_calculate itself checks before the
      transport step: protocol, flag and a segment at least as long as the
      TCP or UDP header. The segment is never compared with the frame (see
      Findings). */
  predicate L4AppliesAsWritten(flags: CsumFlags, ipLen: nat, proto: Byte)
  {
    (proto == IP_PROTO_TCP && flags.tcp && ipLen >= TCP_HLEN) ||
    (proto == IP_PROTO_UDP && flags.udp && ipLen >= UDP_HLEN)
  }

  /** The transport-layer step of net_checksum_calculate, given the offset of
      the transport header `nxt`, the address range `[src, src + addrBytes)`,
      the payload length and the protocol number. */
  function L4Patched(f: seq<Byte>, flags: CsumFlags, nxt: nat, src: nat, addrBytes: nat, ipLen: nat, proto: Byte): (r: seq<Byte>)
    requires src + addrBytes <= nxt <= |f| && ipLen < TWO16
    ensures |r| == |f|
  {
    if L4Applies(flags, nxt, ipLen, proto, |f|) then
      TransportStore(f, nxt + TransportSumOffset(proto), src, addrBytes, nxt, ipLen, proto)
    else f
  }

  /** The checksum field at `field` set to zero, the net_checksum_tcpudp sum
      computed over the addresses and the segment, and stored big-endian in
      the same field. */
  function TransportStore(f: seq<Byte>, field: nat, src: nat, addrBytes: nat, nxt: nat, ipLen: nat, proto: Byte): (r: seq<Byte>)
    requires field + 1 < |f| && src + addrBytes <= |f| && nxt + ipLen <= |f|
    ensures |r| == |f|
  {
    var z := PutBe16(f, field, 0);
    PutBe16(z, field, TcpUdp(proto, z[src..src + addrBytes], z[nxt..nxt + ipLen]))
  }

  /** net_payload_length_ipv4: the total length minus the fixed header size,
      as a 16-bit value. */
  function Ipv4PayloadLen(f: seq<Byte>, ip: nat): (r: nat)
    requires ip + IP_HLEN <= |f|
    ensures r < TWO16
    ensures Be16(f, ip + 2) >= IP_HLEN ==> r + IP_HLEN == Be16(f, ip + 2)
  {
    (Be16(f, ip + 2) - IP_HLEN) % TWO16
  }

  /** net_payload_length_ipv6: the payload length field. */
  function Ipv6PayloadLen(f: seq<Byte>, ip: nat): (r: nat)
    requires ip + IP6_HLEN <= |f|
    ensures r < TWO16
  {
    Be16(f, ip + 4)
  }

  /** The IPv4 case of net_checksum_calculate, the IP header at `ip`. */
  function Ipv4Frame(f: seq<Byte>, flags: CsumFlags, ip: nat): (r: seq<Byte>)
    requires ip + IP_HLEN <= |f|
    ensures |r| == |f|
  {
    if flags.ip && ip + Ipv4HeaderLen(f, ip) > |f| then f
    else L4Patched(Ipv4HeaderStep(f, flags, ip), flags, ip + IP_HLEN, ip + 12, 8, Ipv4PayloadLen(f, ip), f[ip + 9])
  }

  /** net_checksum_ipv4: the header checksum when CSUM_IP asks for it; only
      the checksum field changes. */
  function Ipv4HeaderStep(f: seq<Byte>, flags: CsumFlags, ip: nat): (r: seq<Byte>)
    requires ip + IP_HLEN <= |f| && (flags.ip ==> ip + Ipv4HeaderLen(f, ip) <= |f|)
    ensures |r| == |f|
    ensures forall i :: 0 <= i < |f| && i != ip + IP_SUM_OFF && i != ip + IP_SUM_OFF + 1 ==> r[i] == f[i]
  {
    if flags.ip then Ipv4HeaderPatched(f, ip) else f
  }

  /** The IPv6 case of net_checksum_calculate, the IP header at `ip`. */
  function Ipv6Frame(f: seq<Byte>, flags: CsumFlags, ip: nat): (r: seq<Byte>)
    requires ip <= |f|
    ensures |r| == |f|
  {
    if |f| < ip + IP6_HLEN then f
    else L4Patched(f, flags, ip + IP6_HLEN, ip + 8, 32, Ipv6PayloadLen(f, ip), f[ip + 6])
  }

  /** The frame after net_checksum_calculate. */
  function CalculatedFrame(f: seq<Byte>, flags: CsumFlags): (r: seq<Byte>)
    ensures |r| == |f|
  {
    if |f| < ETH_HLEN then f
    else
      var ip := MacHeaderLen(f);
      if |f| - ip < IP_HLEN then f
      else if f[ip] / 16 == 4 then Ipv4Frame(f, flags, ip)
      else if f[ip] / 16 == 6 then Ipv6Frame(f, flags, ip)
      else f
  }

  /** Stores `v` at `k`, `k + 1` in network byte order. */
  method StoreBe16(data: array<Byte>, k: nat, v: nat)
    requires k + 1 < data.Length && v < TWO16
    modifies data
    ensures data[..] == PutBe16(old(data[..]), k, v)
  {
    data[k], data[k + 1] := v / 256, v % 256;
  }

  /** net_checksum_ipv4 under CSUM_IP: zero the header checksum, sum the
      header and store the complement. */
  method ChecksumIpv4Header(data: array<Byte>, ip: nat)
    requires ip + IP_HLEN <= data.Length && ip + Ipv4HeaderLen(data[..], ip) <= data.Length
    modifies data
    ensures data[..] == Ipv4HeaderPatched(old(data[..]), ip)
  {
    var hlen := (data[ip] % 16) * 4;
    StoreBe16(data, ip + IP_SUM_OFF, 0);
    var sum := AddCont(data[ip..ip + hlen], 0);
    var csum := Finish(sum);
    StoreBe16(data, ip + IP_SUM_OFF, csum);
  }

  /** The TCP and UDP cases of net_checksum_calculate. */
  method ChecksumL4(data: array<Byte>, flags: CsumFlags, nxt: nat, src: nat, addrBytes: nat, ipLen: nat, proto: Byte)
    requires src + addrBytes <= nxt <= data.Length && ipLen < TWO16
    modifies data
    ensures data[..] == L4Patched(old(data[..]), flags, nxt, src, addrBytes, ipLen, proto)
  {
    var sumOff: nat;
    if proto == IP_PROTO_TCP {
      if !flags.tcp || ipLen < TCP_HLEN || nxt + ipLen > data.Length { return; }
      sumOff := TCP_SUM_OFF;
    } else if proto == IP_PROTO_UDP {
      if !flags.udp || ipLen < UDP_HLEN || nxt + ipLen > data.Length { return; }
      sumOff := UDP_SUM_OFF;
    } else {
      return;
    }
    ghost var f := data[..];
    assert L4Applies(flags, nxt, ipLen, proto, |f|) && sumOff == TransportSumOffset(proto);
    StoreBe16(data, nxt + sumOff, 0);
    var csum := ChecksumTcpUdp(proto, data[src..src + addrBytes], data[nxt..nxt + ipLen]);
    StoreBe16(data, nxt + sumOff, csum);
    assert data[..] == TransportStore(f, nxt + sumOff, src, addrBytes, nxt, ipLen, proto);
  }

  /** The IPv4 case of net_checksum_calculate: the header checksum under
      CSUM_IP, then the transport checksum. */
  method ChecksumIpv4Frame(data: array<Byte>, flags: CsumFlags, ip: nat)
    requires ip + IP_HLEN <= data.Length
    modifies data
    ensures data[..] == Ipv4Frame(old(data[..]), flags, ip)
  {
    ghost var f := data[..];
    if flags.ip {
      if ip + (data[ip] % 16) * 4 > data.Length { return; }
      ChecksumIpv4Header(data, ip);
      assert data[ip + 2] == f[ip + 2] && data[ip + 3] == f[ip + 3] && data[ip + 9] == f[ip + 9];
    }
    var ipLen := ((data[ip + 2] as int * 256 + data[ip + 3]) - IP_HLEN) % TWO16;
    assert ipLen == Ipv4PayloadLen(f, ip);
    ChecksumL4(data, flags, ip + IP_HLEN, ip + 12, 8, ipLen, data[ip + 9]);
  }

  /** The IPv6 case of net_checksum_calculate: the transport checksum only. */
  method ChecksumIpv6Frame(data: array<Byte>, flags: CsumFlags, ip: nat)
    requires ip <= data.Length
    modifies data
    ensures data[..] == Ipv6Frame(old(data[..]), flags, ip)
  {
    if data.Length < ip + IP6_HLEN { return; }
    var ipLen := data[ip + 4] as int * 256 + data[ip + 5];
    ChecksumL4(data, flags, ip + IP6_HLEN, ip + 8, 32, ipLen, data[ip + 6]);
  }

  /**
   * net_checksum_calculate on a frame held in `data`: find the MAC header
   * length, then the IP version, then patch the checksums `flags` asks for.
   * Frames whose headers do not fit are left alone.
   */
  method Calculate(data: array<Byte>, flags: CsumFlags)
    modifies data
    ensures data[..] == CalculatedFrame(old(data[..]), flags)
  {
    if data.Length < ETH_HLEN { return; }
    var ip := MacHeaderLen(data[..]);
    if data.Length - ip < IP_HLEN { return; }
    var version := data[ip] / 16;
    if version == 4 {
      ChecksumIpv4Frame(data, flags, ip);
    } else if version == 6 {
      ChecksumIpv6Frame(data, flags, ip);
    }
  }

  // ---------------------------------------------------------------------
  // Properties of net_checksum_calculate
  // ---------------------------------------------------------------------

  /** A store into a slice's range is a store into the slice. */
  lemma PutBe16Slice(s: seq<Byte>, a: nat, b: nat, j: nat, v: nat)
    requires a + j + 1 < b <= |s| && v < TWO16
    ensures PutBe16(s, a + j, v)[a..b] == PutBe16(s[a..b], j, v)
  {
  }

  /** A store outside a slice's range leaves the slice alone. */
  lemma PutBe16Outside(s: seq<Byte>, a: nat, b: nat, k: nat, v: nat)
    requires a <= b <= |s| && k + 1 < |s| && v < TWO16
    requires k + 1 < a || b <= k
    ensures PutBe16(s, k, v)[a..b] == s[a..b]
  {
  }

  /** The checksum field lies inside the segment, at an even offset. */
  lemma L4OffsetFits(flags: CsumFlags, nxt: nat, ipLen: nat, proto: Byte, frameLen: nat)
    requires L4Applies(flags, nxt, ipLen, proto, frameLen)
    ensures TransportSumOffset(proto) + 1 < ipLen && TransportSumOffset(proto) % 2 == 0
    ensures nxt + TransportSumOffset(proto) + 1 < frameLen
  {
  }

  /** The transport step writes its checksum field and nothing else, and
      writes nothing at all when it does not apply. */
  lemma L4PatchedFields(f: seq<Byte>, flags: CsumFlags, nxt: nat, src: nat, addrBytes: nat, ipLen: nat, proto: Byte)
    requires src + addrBytes <= nxt <= |f| && ipLen < TWO16
    ensures !L4Applies(flags, nxt, ipLen, proto, |f|) ==> L4Patched(f, flags, nxt, src, addrBytes, ipLen, proto) == f
    ensures forall i :: 0 <= i < |f| && i != nxt + TransportSumOffset(proto) && i != nxt + TransportSumOffset(proto) + 1 ==>
      L4Patched(f, flags, nxt, src, addrBytes, ipLen, proto)[i] == f[i]
  {
  }

  /**
   * After the transport step the segment verifies: the checksum over the
   * same addresses and the patched segment is zero, which is the RFC 1071
   * sum over the pseudo-header and segment folding to all ones.
   */
  lemma L4PatchedVerifies(f: seq<Byte>, flags: CsumFlags, nxt: nat, src: nat, addrBytes: nat, ipLen: nat, proto: Byte,
                           addrEnd: nat, segEnd: nat, at: nat, r: seq<Byte>)
    requires src + addrBytes <= nxt <= |f| && ipLen < TWO16 && addrBytes <= 510
    requires addrEnd == src + addrBytes && segEnd == nxt + ipLen && at < nxt
    requires L4Applies(flags, nxt, ipLen, proto, |f|)
    requires r == L4Patched(f, flags, nxt, src, addrBytes, ipLen, proto)
    ensures TcpUdp(proto, r[src..addrEnd], r[nxt..segEnd]) == 0
    ensures r[at] == f[at]
  {
    var k := TransportSumOffset(proto);
    L4OffsetFits(flags, nxt, ipLen, proto, |f|);
    var z := PutBe16(f, nxt + k, 0);
    var addrs, seg := z[src..addrEnd], z[nxt..segEnd];
    var c := TcpUdp(proto, addrs, seg);
    assert r == PutBe16(z, nxt + k, c);
    assert r[src..addrEnd] == addrs by {
      PutBe16Outside(z, src, addrEnd, nxt + k, c);
    }
    assert r[nxt..segEnd] == PutBe16(seg, k, c) by {
      PutBe16Slice(z, nxt, segEnd, k, c);
    }
    assert TcpUdp(proto, addrs, PutBe16(seg, k, c)) == 0 by {
      assert seg[k] == 0 && seg[k + 1] == 0;
      TcpUdpVerifies(proto, addrs, seg, k);
    }
  }

  /** The receiver's check of RFC 1071: the one's complement of the sum
      over `s` is zero. */
  predicate SumChecks(s: seq<Byte>)
  {
    OnesComplement(WordSum(s, 0)) == 0
  }

  /** The `len`-byte segment after the fixed IPv4 header at `ip` checks
      against the pseudo-header built from that header's addresses and
      protocol (RFC 768, section 3.1 of RFC 793). */
  predicate Ipv4SegmentChecks(r: seq<Byte>, ip: nat, len: nat)
    requires ip + IP_HLEN + len <= |r| && len < TWO16
  {
    Ipv4PseudoVerifies(r[ip + 12..ip + IP_HLEN], r[ip + 9], r[ip + IP_HLEN..ip + IP_HLEN + len])
  }

  /** The same after an IPv6 header (section 8.1 of RFC 8200). */
  predicate Ipv6SegmentChecks(r: seq<Byte>, ip: nat, len: nat)
    requires ip + IP6_HLEN + len <= |r| && len < TWO16
  {
    Ipv6PseudoVerifies(r[ip + 8..ip + IP6_HLEN], r[ip + 6], r[ip + IP6_HLEN..ip + IP6_HLEN + len])
  }

  /** The RFC 1071 check over an IPv4 pseudo-header and a segment. */
  predicate Ipv4PseudoVerifies(addrs: seq<Byte>, proto: Byte, seg: seq<Byte>)
    requires |seg| < TWO16
  {
    SumChecks(addrs + Ipv4PseudoTail(proto, |seg|) + seg)
  }

  /** The RFC 1071 check over an IPv6 pseudo-header and a segment. */
  predicate Ipv6PseudoVerifies(addrs: seq<Byte>, proto: Byte, seg: seq<Byte>)
    requires |seg| < TWO16
  {
    SumChecks(addrs + Ipv6PseudoTail(proto, |seg|) + seg)
  }

  /** The sum plus its complement is a multiple of 0xFFFF. */
  lemma SumPlusComplement(x: nat)
    ensures (x + OnesComplement(x)) % ONES == 0
  {
    if x != 0 && x % ONES != 0 {
      var q := x / ONES;
      assert x + OnesComplement(x) == (q + 1) * ONES;
      MultipleOfOnes(q + 1);
    }
  }

  /** A zero checksum over a header means its sum is a nonzero multiple of
      0xFFFF, and conversely. */
  lemma ComplementZero(x: nat)
    ensures OnesComplement(x) == 0 <==> x != 0 && x % ONES == 0
  {
    if x != 0 && x % ONES != 0 {
      SmallMod(ONES - x % ONES);
    }
  }

  /** The IPv4 header with its recomputed checksum verifies (RFC 791, RFC 1071
      section 2): complementing its sum gives zero. */
  lemma Ipv4HeaderVerifies(f: seq<Byte>, ip: nat)
    requires ip + IP_HLEN <= |f| && ip + Ipv4HeaderLen(f, ip) <= |f| && Ipv4HeaderLen(f, ip) >= IP_HLEN
    ensures SumChecks(Ipv4HeaderPatched(f, ip)[ip..ip + Ipv4HeaderLen(f, ip)])
  {
    var w := HeaderSum(f, ip);
    var c := OnesComplement(w % TWO32);
    HeaderStoreSum(f, ip, c);
    SmallWord(w);
    ComplementCancels(w);
  }

  /** Storing `v` in the zeroed checksum field adds `v` to the header sum. */
  lemma HeaderStoreSum(f: seq<Byte>, ip: nat, v: nat)
    requires ip + IP_HLEN <= |f| && ip + Ipv4HeaderLen(f, ip) <= |f| && Ipv4HeaderLen(f, ip) >= IP_HLEN
    requires v < TWO16
    ensures HeaderSum(f, ip) < TWO32
    ensures WordSum(PutBe16(PutBe16(f, ip + IP_SUM_OFF, 0), ip + IP_SUM_OFF, v)[ip..ip + Ipv4HeaderLen(f, ip)], 0) ==
      HeaderSum(f, ip) + v
  {
    var hlen := Ipv4HeaderLen(f, ip);
    var z := PutBe16(f, ip + IP_SUM_OFF, 0);
    var hdr := z[ip..ip + hlen];
    WordSumBound(hdr, 0, 30);
    assert PutBe16(z, ip + IP_SUM_OFF, v)[ip..ip + hlen] == PutBe16(hdr, IP_SUM_OFF, v) by {
      PutBe16Slice(z, ip, ip + hlen, IP_SUM_OFF, v);
    }
    StoreAddsValue(hdr, IP_SUM_OFF, v);
  }

  /** The checksum fields of an IPv4 packet whose header starts at `ip`:
      the header checksum and the TCP and UDP checksum fields after the
      fixed header. */
  function Ipv4Fields(ip: nat): set<nat>
  {
    {ip + IP_SUM_OFF, ip + IP_SUM_OFF + 1,
     ip + IP_HLEN + TCP_SUM_OFF, ip + IP_HLEN + TCP_SUM_OFF + 1,
     ip + IP_HLEN + UDP_SUM_OFF, ip + IP_HLEN + UDP_SUM_OFF + 1}
  }

  /** The checksum fields of an IPv6 packet: TCP and UDP only. */
  function Ipv6Fields(ip: nat): set<nat>
  {
    {ip + IP6_HLEN + TCP_SUM_OFF, ip + IP6_HLEN + TCP_SUM_OFF + 1,
     ip + IP6_HLEN + UDP_SUM_OFF, ip + IP6_HLEN + UDP_SUM_OFF + 1}
  }

  /** The positions net_checksum_calculate may write in frame `f`. */
  function ChecksumFields(f: seq<Byte>): set<nat>
  {
    if |f| < ETH_HLEN then {}
    else
      var ip := MacHeaderLen(f);
      if |f| - ip < IP_HLEN then {}
      else if f[ip] / 16 == 4 then Ipv4Fields(ip)
      else if f[ip] / 16 == 6 then Ipv6Fields(ip)
      else {}
  }

  lemma Ipv4FrameFields(f: seq<Byte>, flags: CsumFlags, ip: nat, r: seq<Byte>)
    requires ip + IP_HLEN <= |f| && r == Ipv4Frame(f, flags, ip)
    ensures forall i :: 0 <= i < |f| && i !in Ipv4Fields(ip) ==> r[i] == f[i]
  {
    if !(flags.ip && ip + Ipv4HeaderLen(f, ip) > |f|) {
      var f1 := Ipv4HeaderStep(f, flags, ip);
      var k := TransportSumOffset(f[ip + 9]);
      assert ip + IP_HLEN + k in Ipv4Fields(ip) && ip + IP_HLEN + k + 1 in Ipv4Fields(ip);
      L4PatchedFields(f1, flags, ip + IP_HLEN, ip + 12, 8, Ipv4PayloadLen(f, ip), f[ip + 9]);
    }
  }

  lemma Ipv6FrameFields(f: seq<Byte>, flags: CsumFlags, ip: nat, r: seq<Byte>)
    requires ip <= |f| && r == Ipv6Frame(f, flags, ip)
    ensures forall i :: 0 <= i < |f| && i !in Ipv6Fields(ip) ==> r[i] == f[i]
  {
    if |f| >= ip + IP6_HLEN {
      var k := TransportSumOffset(f[ip + 6]);
      assert ip + IP6_HLEN + k in Ipv6Fields(ip) && ip + IP6_HLEN + k + 1 in Ipv6Fields(ip);
      L4PatchedFields(f, flags, ip + IP6_HLEN, ip + 8, 32, Ipv6PayloadLen(f, ip), f[ip + 6]);
    }
  }

  /** net_checksum_calculate changes checksum fields only: every other byte
      of the frame, addresses and payload included, keeps its value. */
  lemma CalculateTouchesOnlyChecksums(f: seq<Byte>, flags: CsumFlags, r: seq<Byte>)
    requires r == CalculatedFrame(f, flags)
    ensures forall i :: 0 <= i < |f| && i !in ChecksumFields(f) ==> r[i] == f[i]
  {
    if |f| >= ETH_HLEN {
      var ip := MacHeaderLen(f);
      if |f| - ip >= IP_HLEN {
        if f[ip] / 16 == 4 {
          Ipv4FrameFields(f, flags, ip, r);
        } else if f[ip] / 16 == 6 {
          Ipv6FrameFields(f, flags, ip, r);
        }
      }
    }
  }

  /** An IPv4 frame: the MAC header fits, 20 header bytes follow, the version is 4. */
  predicate IsIpv4Frame(f: seq<Byte>)
  {
    |f| >= ETH_HLEN && |f| - MacHeaderLen(f) >= IP_HLEN && f[MacHeaderLen(f)] / 16 == 4
  }

  /** An IPv6 frame: the MAC header and the 40-byte header fit, the version is 6. */
  predicate IsIpv6Frame(f: seq<Byte>)
  {
    |f| >= ETH_HLEN && |f| - MacHeaderLen(f) >= IP6_HLEN && f[MacHeaderLen(f)] / 16 == 6
  }

  lemma CalculatedIpv4(f: seq<Byte>, flags: CsumFlags)
    requires IsIpv4Frame(f)
    ensures CalculatedFrame(f, flags) == Ipv4Frame(f, flags, MacHeaderLen(f))
  {
  }

  lemma CalculatedIpv6(f: seq<Byte>, flags: CsumFlags)
    requires IsIpv6Frame(f)
    ensures CalculatedFrame(f, flags) == Ipv6Frame(f, flags, MacHeaderLen(f))
  {
  }

  /** A zero net_checksum_tcpudp result means the RFC 1071 check over the
      IPv4 pseudo-header and the segment passes. */
  lemma Ipv4PseudoChecks(proto: Byte, addrs: seq<Byte>, seg: seq<Byte>)
    requires |addrs| == 8 && |seg| < TWO16
    requires TcpUdp(proto, addrs, seg) == 0
    ensures Ipv4PseudoVerifies(addrs, proto, seg)
  {
    PseudoSumIsIpv4PseudoHeader(proto, addrs, seg);
  }

  /** The same for the IPv6 pseudo-header. */
  lemma Ipv6PseudoChecks(proto: Byte, addrs: seq<Byte>, seg: seq<Byte>)
    requires |addrs| == 32 && |seg| < TWO16
    requires TcpUdp(proto, addrs, seg) == 0
    ensures Ipv6PseudoVerifies(addrs, proto, seg)
  {
    PseudoSumIsIpv6PseudoHeader(proto, addrs, seg);
  }

  /** After the transport step over an IPv4 header at `ip`, the segment
      verifies against the RFC 768 / RFC 793 pseudo-header. */
  lemma Ipv4SegmentVerifies(f1: seq<Byte>, flags: CsumFlags, ip: nat, len: nat, proto: Byte, r: seq<Byte>)
    requires ip + IP_HLEN <= |f1| && len < TWO16 && f1[ip + 9] == proto
    requires L4Applies(flags, ip + IP_HLEN, len, proto, |f1|)
    requires r == L4Patched(f1, flags, ip + IP_HLEN, ip + 12, 8, len, proto)
    ensures Ipv4SegmentChecks(r, ip, len)
  {
    var addrs, seg := r[ip + 12..ip + IP_HLEN], r[ip + IP_HLEN..ip + IP_HLEN + len];
    L4PatchedVerifies(f1, flags, ip + IP_HLEN, ip + 12, 8, len, proto, ip + IP_HLEN, ip + IP_HLEN + len, ip + 9, r);
    Ipv4PseudoChecks(proto, addrs, seg);
  }

  /** After the transport step over an IPv6 header at `ip`, the segment
      verifies against the pseudo-header of section 8.1 of RFC 8200. */
  lemma Ipv6SegmentVerifies(f: seq<Byte>, flags: CsumFlags, ip: nat, len: nat, proto: Byte, r: seq<Byte>)
    requires ip + IP6_HLEN <= |f| && len < TWO16 && f[ip + 6] == proto
    requires L4Applies(flags, ip + IP6_HLEN, len, proto, |f|)
    requires r == L4Patched(f, flags, ip + IP6_HLEN, ip + 8, 32, len, proto)
    ensures Ipv6SegmentChecks(r, ip, len)
  {
    var addrs, seg := r[ip + 8..ip + IP6_HLEN], r[ip + IP6_HLEN..ip + IP6_HLEN + len];
    L4PatchedVerifies(f, flags, ip + IP6_HLEN, ip + 8, 32, len, proto, ip + IP6_HLEN, ip + IP6_HLEN + len, ip + 6, r);
    Ipv6PseudoChecks(proto, addrs, seg);
  }

  /** The transport checksum of the IPv4 case verifies, with or without the
      header checksum step before it. */
  lemma Ipv4FrameTransportVerifies(f: seq<Byte>, flags: CsumFlags, ip: nat, r: seq<Byte>)
    requires ip + IP_HLEN <= |f|
    requires !flags.ip || ip + Ipv4HeaderLen(f, ip) <= |f|
    requires L4Applies(flags, ip + IP_HLEN, Ipv4PayloadLen(f, ip), f[ip + 9], |f|)
    requires r == Ipv4Frame(f, flags, ip)
    ensures var len := Ipv4PayloadLen(f, ip);
      Ipv4SegmentChecks(r, ip, len)
  {
    var len, proto := Ipv4PayloadLen(f, ip), f[ip + 9];
    Ipv4SegmentVerifies(Ipv4HeaderStep(f, flags, ip), flags, ip, len, proto, r);
  }

  /**
   * In an IPv4 frame whose transport checksum net_checksum_calculate fills
   * in, the result `r` verifies against the RFC 768 / RFC 793
   * pseudo-header: source and destination address, zero, protocol and
   * segment length, then the segment.
   */
  lemma CalculateIpv4TransportVerifies(f: seq<Byte>, flags: CsumFlags, ip: nat, r: seq<Byte>)
    requires IsIpv4Frame(f) && ip == MacHeaderLen(f)
    requires !flags.ip || ip + Ipv4HeaderLen(f, ip) <= |f|
    requires L4Applies(flags, ip + IP_HLEN, Ipv4PayloadLen(f, ip), f[ip + 9], |f|)
    requires r == CalculatedFrame(f, flags)
    ensures var len := Ipv4PayloadLen(f, ip);
      Ipv4SegmentChecks(r, ip, len)
  {
    assert r == Ipv4Frame(f, flags, ip) by {
      CalculatedIpv4(f, flags);
    }
    Ipv4FrameTransportVerifies(f, flags, ip, r);
  }

  /** The same for an IPv6 frame and the pseudo-header of section 8.1 of RFC 8200. */
  lemma CalculateIpv6TransportVerifies(f: seq<Byte>, flags: CsumFlags, ip: nat, r: seq<Byte>)
    requires IsIpv6Frame(f) && ip == MacHeaderLen(f)
    requires L4Applies(flags, ip + IP6_HLEN, Ipv6PayloadLen(f, ip), f[ip + 6], |f|)
    requires r == CalculatedFrame(f, flags)
    ensures var len := Ipv6PayloadLen(f, ip);
      Ipv6SegmentChecks(r, ip, len)
  {
    var len, proto := Ipv6PayloadLen(f, ip), f[ip + 6];
    assert r == L4Patched(f, flags, ip + IP6_HLEN, ip + 8, 32, len, proto) by {
      CalculatedIpv6(f, flags);
    }
    Ipv6SegmentVerifies(f, flags, ip, len, proto, r);
  }

  /** With CSUM_IP and a 20-byte IPv4 header, the header of the resulting
      frame `r` verifies; the transport step writes after the header. */
  lemma CalculateIpv4HeaderVerifies(f: seq<Byte>, flags: CsumFlags, ip: nat, r: seq<Byte>)
    requires IsIpv4Frame(f) && ip == MacHeaderLen(f)
    requires flags.ip && Ipv4HeaderLen(f, ip) == IP_HLEN
    requires r == CalculatedFrame(f, flags)
    ensures SumChecks(r[ip..ip + IP_HLEN])
  {
    CalculatedIpv4(f, flags);
    var f1 := Ipv4HeaderStep(f, flags, ip);
    assert r[ip..ip + IP_HLEN] == f1[ip..ip + IP_HLEN] by {
      L4PatchedBefore(f1, flags, ip + IP_HLEN, ip + 12, 8, Ipv4PayloadLen(f, ip), f[ip + 9], ip, ip + IP_HLEN);
    }
    Ipv4HeaderVerifies(f, ip);
  }

  /** The transport step leaves every byte before the transport header alone. */
  lemma L4PatchedBefore(f: seq<Byte>, flags: CsumFlags, nxt: nat, src: nat, addrBytes: nat, ipLen: nat, proto: Byte, a: nat, b: nat)
    requires src + addrBytes <= nxt <= |f| && ipLen < TWO16
    requires a <= b <= nxt
    ensures L4Patched(f, flags, nxt, src, addrBytes, ipLen, proto)[a..b] == f[a..b]
  {
    if L4Applies(flags, nxt, ipLen, proto, |f|) {
      var k := TransportSumOffset(proto);
      var z := PutBe16(f, nxt + k, 0);
      PutBe16Outside(f, a, b, nxt + k, 0);
      PutBe16Outside(z, a, b, nxt + k, TcpUdp(proto, z[src..src + addrBytes], z[nxt..nxt + ipLen]));
    }
  }

  // ---------------------------------------------------------------------
  // Findings
  // ---------------------------------------------------------------------

  /** A 34-byte Ethernet frame holding only a 20-byte IPv4 header for TCP
      whose total length field says 0x0404 bytes. */
  function OverrunFrame(): (f: seq<Byte>)
    ensures |f| == ETH_HLEN + IP_HLEN
  {
    var macs: seq<Byte> := seq(12, _ => 0);
    macs + [0x08, 0x00, 0x45, 0x00, 0x04, 0x04, 0, 0, 0, 0, 0x40, 6, 0, 0, 10, 0, 0, 1, 10, 0, 0, 2]
  }

  /**
   * As written, net_checksum_calculate goes on to the TCP step for this
   * frame: the segment length 1008 taken from the header passes every check
   * the code makes, although the segment would end 1008 bytes past the end
   * of the frame and the checksum field lies outside it.
   */
  lemma AsWrittenSegmentOverrun()
    ensures var f := OverrunFrame();
      IsIpv4Frame(f) && MacHeaderLen(f) == ETH_HLEN &&
      Ipv4PayloadLen(f, ETH_HLEN) == 1008 &&
      L4AppliesAsWritten(CsumFlags(false, true, false), Ipv4PayloadLen(f, ETH_HLEN), f[ETH_HLEN + 9]) &&
      ETH_HLEN + IP_HLEN + Ipv4PayloadLen(f, ETH_HLEN) > |f| &&
      ETH_HLEN + IP_HLEN + TCP_SUM_OFF >= |f|
  {
    var f := OverrunFrame();
    assert Be16(f, 12) == 0x0800;
    assert Be16(f, ETH_HLEN + 2) == 0x0404;
  }

  /** With the frame-length check the transport step leaves the same frame
      alone: at most the header checksum changes. */
  lemma CorrectedSkipsOverrun(flags: CsumFlags)
    ensures CalculatedFrame(OverrunFrame(), flags) == Ipv4HeaderStep(OverrunFrame(), flags, ETH_HLEN)
  {
    var f := OverrunFrame();
    assert Be16(f, 12) == 0x0800;
    assert Be16(f, ETH_HLEN + 2) == 0x0404;
    assert Ipv4HeaderLen(f, ETH_HLEN) == IP_HLEN;
    assert !L4Applies(flags, ETH_HLEN + IP_HLEN, Ipv4PayloadLen(f, ETH_HLEN), f[ETH_HLEN + 9], |f|);
    L4PatchedFields(Ipv4HeaderStep(f, flags, ETH_HLEN), flags, ETH_HLEN + IP_HLEN, ETH_HLEN + 12, 8,
                    Ipv4PayloadLen(f, ETH_HLEN), f[ETH_HLEN + 9]);
  }

  /** The number of values of a 64-bit `size_t`. */
  const SIZE_T_RANGE: int := 0x1_0000_0000_0000_0000

  /** The IP header test that follows the MAC header AS WRITTEN: the length
      left after the MAC header is a signed `int`, compared with the `size_t`
      header size, so a negative remainder converts to a value near 2^64 and
      passes the test. */
  predicate IpHeaderTestPassesAsWritten(frameLen: nat, macLen: nat)
  {
    var remaining := frameLen - macLen;
    var converted := if remaining < 0 then remaining + SIZE_T_RANGE else remaining;
    !(converted < IP_HLEN)
  }

  /** A 16-byte frame tagged ETH_P_VLAN, two bytes short of its own MAC header. */
  function RuntVlanFrame(): (f: seq<Byte>)
    ensures |f| == 16
  {
    var macs: seq<Byte> := seq(12, _ => 0);
    macs + [0x81, 0x00, 0x00, 0x01]
  }

  /** As written, every frame shorter than its own MAC header passes the IP
      header test, so the version byte and the header after it are read past
      the end of the frame; the model leaves such a frame unchanged. */
  lemma RuntFramePassesAsWritten(f: seq<Byte>, flags: CsumFlags)
    requires ETH_HLEN <= |f| < MacHeaderLen(f)
    ensures IpHeaderTestPassesAsWritten(|f|, MacHeaderLen(f))
    ensures CalculatedFrame(f, flags) == f
  {
  }

  /** The 16-byte VLAN frame is such a frame: its MAC header is 18 bytes. */
  lemma RuntVlanFrameAsWritten(flags: CsumFlags)
    ensures var f := RuntVlanFrame();
      MacHeaderLen(f) == ETH_HLEN + VLAN_HLEN && IpHeaderTestPassesAsWritten(|f|, MacHeaderLen(f)) &&
      CalculatedFrame(f, flags) == f
  {
    var f := RuntVlanFrame();
    assert Be16(f, 12) == ETH_P_VLAN;
    RuntFramePassesAsWritten(f, flags);
  }

  /** The length checks the model adds: a frame is left unchanged when the
      IP header test fails, when an IPv6 header of 40 bytes does not fit, or
      when CSUM_IP asks for an IPv4 header whose IHL length does not fit. */
  lemma ShortHeadersUnchanged(f: seq<Byte>, flags: CsumFlags)
    requires |f| >= ETH_HLEN
    ensures |f| < MacHeaderLen(f) + IP_HLEN ==> CalculatedFrame(f, flags) == f
    ensures (|f| >= MacHeaderLen(f) + IP_HLEN && f[MacHeaderLen(f)] / 16 == 6 && |f| < MacHeaderLen(f) + IP6_HLEN)
              ==> CalculatedFrame(f, flags) == f
    ensures (|f| >= MacHeaderLen(f) + IP_HLEN && f[MacHeaderLen(f)] / 16 == 4 && flags.ip &&
             MacHeaderLen(f) + Ipv4HeaderLen(f, MacHeaderLen(f)) > |f|)
              ==> CalculatedFrame(f, flags) == f
  {
  }

  /** The two bytes of a 16-bit value exchanged. */
  function Swap16(v: nat): (r: nat)
    requires v < TWO16
    ensures r < TWO16
  {
    (v % 256) * 256 + v / 256
  }

  /** A host-order 16-bit store on a little-endian host: low byte first, the
      same as storing the byte-swapped value in network order. */
  function PutLe16(s: seq<Byte>, k: nat, v: nat): (r: seq<Byte>)
    requires k + 1 < |s| && v < TWO16
    ensures r == PutBe16(s, k, Swap16(v))
  {
    s[k := v % 256][k + 1 := v / 256]
  }

  /** net_checksum_ipv4 as written: the checksum is stored with a host-order
      store (little-endian host). */
  function Ipv4HeaderPatchedHostOrder(f: seq<Byte>, ip: nat): (r: seq<Byte>)
    requires ip + IP_HLEN <= |f| && ip + Ipv4HeaderLen(f, ip) <= |f|
    ensures |r| == |f|
  {
    var z := PutBe16(f, ip + IP_SUM_OFF, 0);
    PutLe16(z, ip + IP_SUM_OFF, OnesComplement(HeaderSum(f, ip) % TWO32))
  }

  /**
   * Whenever the two bytes of the correct header checksum differ, the
   * header written in host order on a little-endian host fails the
   * receiver's check.
   */
  lemma HostOrderStoreFails(f: seq<Byte>, ip: nat)
    requires ip + IP_HLEN <= |f| && ip + Ipv4HeaderLen(f, ip) <= |f| && Ipv4HeaderLen(f, ip) >= IP_HLEN
    requires Ipv4HeaderPatched(f, ip)[ip + IP_SUM_OFF] != Ipv4HeaderPatched(f, ip)[ip + IP_SUM_OFF + 1]
    ensures !SumChecks(Ipv4HeaderPatchedHostOrder(f, ip)[ip..ip + Ipv4HeaderLen(f, ip)])
  {
    var w := HeaderSum(f, ip);
    var c := OnesComplement(w % TWO32);
    assert c / 256 != c % 256 by {
      assert Ipv4HeaderPatched(f, ip) == PutBe16(PutBe16(f, ip + IP_SUM_OFF, 0), ip + IP_SUM_OFF, c);
    }
    var sc := Swap16(c);
    HeaderStoreSum(f, ip, sc);
    SmallWord(w);
    SumPlusComplement(w);
    SwapBreaksSum(w, c);
    ComplementZero(w + sc);
  }

  /** If `w + c` is a multiple of 0xFFFF and the bytes of `c` differ, `w`
      plus the swapped `c` is not: the two differ by 255 times a byte
      difference, and 0xFFFF is 255 * 257. */
  lemma SwapBreaksSum(w: nat, c: nat)
    requires c < TWO16 && c / 256 != c % 256 && (w + c) % ONES == 0
    ensures (w + Swap16(c)) % ONES != 0
  {
    var hi, lo := c / 256, c % 256;
    assert w + Swap16(c) == (w + c) + 255 * (lo - hi);
  }
}
