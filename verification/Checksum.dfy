/**
 * The Internet checksum of the network layer (RFC 1071), the UDP datagram builder (RFC 768)
 * and the IPv4 packet builder.
 */
module Checksum {
  import opened Arithmetic
  import opened Wrappers

  const U16: int := 0x1_0000
  const ONES: int := 0xFFFF

  type u16 = x: int | 0 <= x < U16

  // ------------------------------------------------------------- the one's complement sum

  function Word(hi: byte, lo: byte): (w: nat)
    ensures w <= ONES
  {
    hi * 256 + lo
  }

  // Sum of the big-endian 16-bit words; an odd tail is padded with a zero byte.
  function Sum(data: seq<byte>): (s: nat) {
    if |data| == 0 then 0
    else if |data| == 1 then Word(data[0], 0)
    else Word(data[0], data[1]) + Sum(data[2..])
  }

  // Add the carries back in until the sum fits 16 bits.
  function Fold(s: nat): (f: nat)
    ensures f <= ONES
    decreases s
  {
    if s < U16 then s else Fold(s % U16 + s / U16)
  }

  function Complement(f: nat): (c: nat)
    requires f <= ONES
  {
    ONES - f
  }

  /** Folding computes the residue modulo 0xFFFF, with 0xFFFF standing for a non-zero zero. */
  lemma {:induction false} FoldIsResidue(s: nat)
    ensures Fold(s) == if s == 0 then 0 else if s % ONES == 0 then ONES else s % ONES
    decreases s
  {
    if s >= U16 {
      var hi, lo := s / U16, s % U16;
      var t := lo + hi;
      assert s == t + hi * ONES;
      ModShift(t, hi, ONES);
      FoldIsResidue(t);
    }
  }

  lemma {:induction false} SumAppend(a: seq<byte>, b: seq<byte>)
    requires |a| % 2 == 0
    ensures Sum(a + b) == Sum(a) + Sum(b)
    decreases |a|
  {
    if a == [] {
      assert a + b == b;
    } else {
      assert (a + b)[2..] == a[2..] + b;
      SumAppend(a[2..], b);
    }
  }

  lemma {:induction false} SumBound(data: seq<byte>)
    ensures Sum(data) <= ONES * ((|data| + 1) / 2)
    decreases |data|
  {
    if |data| >= 2 {
      SumBound(data[2..]);
    }
  }

  function AllOnes(n: nat): seq<byte> {
    seq(n, i => 0xFF)
  }

  lemma {:induction false} SumAllOnes(n: nat)
    requires n % 2 == 0
    ensures Sum(AllOnes(n)) == ONES * (n / 2)
    decreases n
  {
    if n > 0 {
      assert AllOnes(n)[2..] == AllOnes(n - 2);
      SumAllOnes(n - 2);
    }
  }

  /** The 32-bit accumulator is safe for a length exactly up to 131074 bytes. */
  lemma AccumulatorSafeIff(n: nat)
    ensures (forall data: seq<byte> :: |data| == n ==> Sum(data) < U32) <==> n <= 131074
  {
    if n <= 131074 {
      forall data: seq<byte> | |data| == n ensures Sum(data) < U32 {
        SumBound(data);
        assert (n + 1) / 2 <= 65537;
      }
    } else {
      var m := n / 2 * 2;
      var tail: seq<byte> := if n % 2 == 1 then [0xFF] else [];
      SumAllOnes(m);
      SumAppend(AllOnes(m), tail);
      var data := AllOnes(m) + tail;
      assert |data| == n;
      if m == 131074 {
        assert Sum(tail) == 0xFF00;
      } else {
        assert m / 2 >= 65538;
      }
      assert Sum(data) >= U32;
    }
  }

  // The accumulation loop of both modules, a 32-bit accumulator wrapping.
  method Accumulate(sum0: nat, data: seq<byte>) returns (sum: nat)
    requires sum0 < U32
    ensures sum == (sum0 + Sum(data)) % U32
  {
    hide Word, Sum;
    assert Sum([]) == 0 by { SumZeros([]); }
    sum := sum0;
    var i := 0;
    while i + 1 < |data|
      invariant 0 <= i <= |data| && i % 2 == 0
      invariant sum == (sum0 + Sum(data[..i])) % U32
    {
      TakeTwo(data, i);
      sum := (sum + Word(data[i], data[i + 1])) % U32;
      i := i + 2;
    }
    if i < |data| {
      assert data == data[..i] + [data[i]];
      SumAppend(data[..i], [data[i]]);
      SumOne(data[i]);
      sum := (sum + Word(data[i], 0)) % U32;
    } else {
      assert data[..i] == data;
    }
  }

  lemma SumOne(b: byte)
    ensures Sum([b]) == Word(b, 0)
  {
  }

  lemma TakeTwo(data: seq<byte>, i: nat)
    requires i % 2 == 0 && i + 1 < |data|
    ensures Sum(data[..i + 2]) == Sum(data[..i]) + Word(data[i], data[i + 1])
  {
    var two := [data[i], data[i + 1]];
    assert data[..i + 2] == data[..i] + two;
    SumAppend(data[..i], two);
    assert two[2..] == [];
  }

  // The carry-folding loop.
  method FoldCarries(s: nat) returns (f: nat)
    ensures f == Fold(s)
  {
    f := s;
    while f / U16 != 0
      invariant Fold(f) == Fold(s)
      decreases f
    {
      f := f % U16 + f / U16;
    }
  }

  function ChecksumOf(data: seq<byte>): u16 {
    Complement(Fold(Sum(data)))
  }

  /** `checksum`: exact whenever the accumulator cannot overflow. */
  method ComputeChecksum(data: seq<byte>) returns (cs: u16)
    ensures cs == Complement(Fold(Sum(data) % U32))
    ensures |data| <= 131074 ==> cs == ChecksumOf(data)
  {
    hide Fold, Sum;
    var sum := Accumulate(0, data);
    var f := FoldCarries(sum);
    cs := Complement(f);
    AccumulatorSafeIff(|data|);
  }

  // A receiver accepts when the sum over everything, checksum included, is all ones.
  predicate Verifies(data: seq<byte>) {
    Fold(Sum(data)) == ONES
  }

  // ------------------------------------------------------------- headers

  // Two bytes, the more significant first.
  predicate Stores(b: seq<byte>, at: nat, x: nat) {
    at + 1 < |b| && b[at] as int * 256 + b[at + 1] as int == x
  }

  function Be16(x: u16): (b: seq<byte>)
    ensures |b| == 2 && Word(b[0], b[1]) == x && Stores(b, 0, x)
  {
    [x / 256, x % 256]
  }

  function UdpHeader(srcPort: u16, dstPort: u16, length: u16, checksum: u16): (h: seq<byte>)
    ensures |h| == 8
  {
    Be16(srcPort) + (Be16(dstPort) + (Be16(length) + Be16(checksum)))
  }

  function PseudoHeader(src: seq<byte>, dst: seq<byte>, length: u16): (h: seq<byte>)
    requires |src| == 4 && |dst| == 4
    ensures |h| == 12
  {
    src + dst + [0, 17] + Be16(length)
  }

  lemma SumBe16(x: u16)
    ensures Sum(Be16(x)) == x
  {
    assert Be16(x)[2..] == [];
  }

  lemma {:induction false} SumPrepend(a: seq<byte>, b: seq<byte>)
    requires |a| == 2
    ensures Sum(a + b) == Word(a[0], a[1]) + Sum(b)
  {
    assert (a + b)[2..] == b;
  }

  /** The checksum field enters the sum of the header as a plain addend. */
  lemma UdpHeaderSum(srcPort: u16, dstPort: u16, length: u16, checksum: u16)
    ensures Sum(UdpHeader(srcPort, dstPort, length, checksum)) == srcPort + dstPort + length + checksum
  {
    hide Sum, Be16;
    var c := Be16(checksum);
    var b := Be16(length) + c;
    SumPrepend(Be16(srcPort), Be16(dstPort) + b);
    SumPrepend(Be16(dstPort), b);
    SumPrepend(Be16(length), c);
    SumBe16(checksum);
  }

  lemma UdpHeaderField(srcPort: u16, dstPort: u16, length: u16, checksum: u16)
    ensures var h := UdpHeader(srcPort, dstPort, length, checksum); Word(h[6], h[7]) == checksum
  {
    hide Be16;
    var h := UdpHeader(srcPort, dstPort, length, checksum);
    assert h[6] == Be16(checksum)[0] && h[7] == Be16(checksum)[1];
  }

  /** The header of RFC 768: source port, destination port, length, checksum, each big-endian. */
  lemma UdpHeaderLayout(srcPort: u16, dstPort: u16, length: u16, checksum: u16)
    ensures
      var h := UdpHeader(srcPort, dstPort, length, checksum);
      && |h| == 8
      && Stores(h, 0, srcPort) && Stores(h, 2, dstPort) && Stores(h, 4, length) && Stores(h, 6, checksum)
  {
    hide Be16;
    var h := UdpHeader(srcPort, dstPort, length, checksum);
    assert h[0] == Be16(srcPort)[0] && h[1] == Be16(srcPort)[1];
    assert h[2] == Be16(dstPort)[0] && h[3] == Be16(dstPort)[1];
    assert h[4] == Be16(length)[0] && h[5] == Be16(length)[1];
    assert h[6] == Be16(checksum)[0] && h[7] == Be16(checksum)[1];
  }

  /** The pseudo-header of RFC 768: source, destination, zero, protocol 17, length. */
  lemma PseudoHeaderLayout(src: seq<byte>, dst: seq<byte>, length: u16)
    requires |src| == 4 && |dst| == 4
    ensures
      var h := PseudoHeader(src, dst, length);
      |h| == 12 && h[0..4] == src && h[4..8] == dst && h[8] == 0 && h[9] == 17 && Stores(h, 10, length)
  {
    hide Be16;
    var h := PseudoHeader(src, dst, length);
    assert h[10] == Be16(length)[0] && h[11] == Be16(length)[1];
  }

  // ------------------------------------------------------------- UDP

  function Total(payload: seq<byte>): nat {
    8 + |payload|
  }

  // What is summed while the checksum field is still zero.
  function Unsigned(src: seq<byte>, dst: seq<byte>, srcPort: u16, dstPort: u16, payload: seq<byte>): seq<byte>
    requires |src| == 4 && |dst| == 4 && Total(payload) <= ONES
  {
    PseudoHeader(src, dst, Total(payload)) + (UdpHeader(srcPort, dstPort, Total(payload), 0) + payload)
  }

  // The checksum of RFC 768: zero is sent as all ones.
  function UdpChecksum(src: seq<byte>, dst: seq<byte>, srcPort: u16, dstPort: u16, payload: seq<byte>): (cs: u16)
    requires |src| == 4 && |dst| == 4 && Total(payload) <= ONES
    ensures cs != 0
  {
    var cs := ChecksumOf(Unsigned(src, dst, srcPort, dstPort, payload));
    if cs == 0 then ONES else cs
  }

  function Datagram(src: seq<byte>, dst: seq<byte>, srcPort: u16, dstPort: u16, payload: seq<byte>): (d: seq<byte>)
    requires |src| == 4 && |dst| == 4 && Total(payload) <= ONES
    ensures |d| == Total(payload)
  {
    UdpHeader(srcPort, dstPort, Total(payload), UdpChecksum(src, dst, srcPort, dstPort, payload)) + payload
  }

  lemma {:induction false} ThreeParts(a: seq<byte>, b: seq<byte>, c: seq<byte>)
    requires |a| % 2 == 0 && |b| % 2 == 0
    ensures Sum(a + (b + c)) == Sum(a) + Sum(b) + Sum(c)
  {
    SumAppend(a, b + c);
    SumAppend(b, c);
  }

  /** Adding the complement of a folded sum, or all ones for zero, gives all ones. */
  lemma ComplementVerifies(s: nat, cs: nat)
    requires cs == if Fold(s) == ONES then ONES else ONES - Fold(s)
    ensures Fold(s + cs) == ONES
  {
    FoldIsResidue(s);
    FoldIsResidue(s + cs);
    assert (s + cs) % ONES == 0 by {
      var q := s / ONES;
      assert s == q * ONES + s % ONES;
      if Fold(s) == ONES {
        assert s + cs == (q + 1) * ONES;
      } else {
        assert s + cs == (q + 1) * ONES;
      }
      ModMultiple(q + 1, ONES);
    }
  }

  /** Every datagram, odd or even, verifies together with its pseudo-header. */
  lemma DatagramVerifies(src: seq<byte>, dst: seq<byte>, srcPort: u16, dstPort: u16, payload: seq<byte>)
    requires |src| == 4 && |dst| == 4 && Total(payload) <= ONES
    ensures Verifies(PseudoHeader(src, dst, Total(payload)) + Datagram(src, dst, srcPort, dstPort, payload))
  {
    hide Sum, Fold, UdpHeader, PseudoHeader;
    var pseudo := PseudoHeader(src, dst, Total(payload));
    var cs := UdpChecksum(src, dst, srcPort, dstPort, payload);
    var zero := UdpHeader(srcPort, dstPort, Total(payload), 0);
    var signed := UdpHeader(srcPort, dstPort, Total(payload), cs);
    ThreeParts(pseudo, zero, payload);
    ThreeParts(pseudo, signed, payload);
    UdpHeaderSum(srcPort, dstPort, Total(payload), 0);
    UdpHeaderSum(srcPort, dstPort, Total(payload), cs);
    var s := Sum(Unsigned(src, dst, srcPort, dstPort, payload));
    FoldIsResidue(s);
    ComplementVerifies(s, cs);
  }

  /** `udp_checksum`: three loops over three buffers, one accumulator that cannot overflow. */
  method ComputeUdpChecksum(src: seq<byte>, dst: seq<byte>, srcPort: u16, dstPort: u16, payload: seq<byte>)
    returns (cs: u16)
    requires |src| == 4 && |dst| == 4 && Total(payload) <= ONES
    ensures cs == UdpChecksum(src, dst, srcPort, dstPort, payload)
  {
    hide Sum, UdpHeader, PseudoHeader;
    var pseudo := PseudoHeader(src, dst, Total(payload));
    var hdr := UdpHeader(srcPort, dstPort, Total(payload), 0);
    ghost var all := Unsigned(src, dst, srcPort, dstPort, payload);
    ThreeParts(pseudo, hdr, payload);
    AccumulatorSafeIff(|all|);
    var sum := Accumulate(0, pseudo);
    sum := Accumulate(sum, hdr);
    sum := Accumulate(sum, payload);
    assert sum == Sum(all);
    var f := FoldCarries(sum);
    cs := Complement(f);
    if cs == 0 { cs := ONES; }
  }

  method BuildDatagram(src: seq<byte>, dstAddr: seq<byte>, srcPort: u16, dstPort: u16, payload: seq<byte>,
                       dst: array<byte>) returns (r: Option<nat>)
    requires |src| == 4 && |dstAddr| == 4
    modifies dst
    ensures r.None? <==> Total(payload) > ONES || dst.Length < Total(payload)
    ensures r.None? ==> dst[..] == old(dst[..])
    ensures r.Some? ==>
      && r.value == Total(payload)
      && dst[..r.value] == Datagram(src, dstAddr, srcPort, dstPort, payload)
      && dst[r.value..] == old(dst[r.value..])
      && Verifies(PseudoHeader(src, dstAddr, Total(payload)) + dst[..r.value])
      && Word(dst[6], dst[7]) != 0
    ensures r.Some? ==> Stores(dst[..], 0, srcPort) && Stores(dst[..], 2, dstPort)
    ensures r.Some? ==> Stores(dst[..], 4, 8 + |payload|)
    ensures r.Some? ==> 8 <= r.value <= dst.Length && dst[8..r.value] == payload
  {
    hide Sum, Fold, PseudoHeader, UdpHeader, Word;
    var total := Total(payload);
    if total > ONES {
      return None;
    }
    if dst.Length < total {
      return None;
    }
    var cs := ComputeUdpChecksum(src, dstAddr, srcPort, dstPort, payload);
    var header := UdpHeader(srcPort, dstPort, total, cs);
    forall i | 0 <= i < 8 {
      dst[i] := header[i];
    }
    forall i | 0 <= i < |payload| {
      dst[8 + i] := payload[i];
    }
    assert dst[..total] == header + payload;
    DatagramVerifies(src, dstAddr, srcPort, dstPort, payload);
    UdpHeaderField(srcPort, dstPort, total, cs);
    UdpHeaderLayout(srcPort, dstPort, total, cs);
    assert forall i :: 0 <= i < 8 ==> dst[..][i] == header[i];
    return Some(total);
  }

  // ------------------------------------------------------------- IPv4

  function IpHeader(
      total: u16, id: u16, ttl: byte, protocol: byte, src: seq<byte>, dst: seq<byte>, field: u16): (h: seq<byte>)
    requires |src| == 4 && |dst| == 4
    ensures |h| == 20
  {
    [0x45, 0] + (Be16(total) + (Be16(id) + (Be16(0) + ([ttl, protocol] + (Be16(field) + (src + dst))))))
  }

  // Where six pairs and what follows them stand.
  lemma Flattened(
      a: seq<byte>, b: seq<byte>, c: seq<byte>, d: seq<byte>, e: seq<byte>, f: seq<byte>, rest: seq<byte>)
    requires |a| == |b| == |c| == |d| == |e| == |f| == 2
    ensures
      var h := a + (b + (c + (d + (e + (f + rest)))));
      && h[0] == a[0] && h[1] == a[1] && h[2] == b[0] && h[3] == b[1] && h[4] == c[0] && h[5] == c[1]
      && h[6] == d[0] && h[7] == d[1] && h[8] == e[0] && h[9] == e[1] && h[10] == f[0] && h[11] == f[1]
      && h[12..] == rest
  {
  }

  /**
   * The header of RFC 791: version 4 and five words, no service type, total length, identification, no
   * flags or fragment offset, time to live, protocol, checksum, source, destination.
   */
  lemma IpHeaderLayout(
      total: u16, id: u16, ttl: byte, protocol: byte, src: seq<byte>, dst: seq<byte>, field: u16)
    requires |src| == 4 && |dst| == 4
    ensures
      var h := IpHeader(total, id, ttl, protocol, src, dst, field);
      && |h| == 20 && h[0] == 4 * 16 + 5 && h[1] == 0
      && Stores(h, 2, total) && Stores(h, 4, id) && Stores(h, 6, 0)
      && h[8] == ttl && h[9] == protocol && Stores(h, 10, field)
      && h[12..16] == src && h[16..20] == dst
  {
    hide Be16;
    var h := IpHeader(total, id, ttl, protocol, src, dst, field);
    Flattened([0x45, 0], Be16(total), Be16(id), Be16(0), [ttl, protocol], Be16(field), src + dst);
    assert h[12..16] == src && h[16..20] == dst;
  }

  // `to_be` on the little-endian target.
  function SwapBytes(x: u16): u16 {
    x % 256 * 256 + x / 256
  }

  lemma {:induction false} IpHeaderSum(
      total: u16, id: u16, ttl: byte, protocol: byte, src: seq<byte>, dst: seq<byte>, field: u16)
    requires |src| == 4 && |dst| == 4
    ensures Sum(IpHeader(total, id, ttl, protocol, src, dst, field))
         == 0x4500 + total + id + Word(ttl, protocol) + field + Sum(src + dst)
  {
    hide Sum, Be16;
    var e := src + dst;
    var d := Be16(field) + e;
    var c := [ttl, protocol] + d;
    var b := Be16(0) + c;
    var a := Be16(id) + b;
    SumPrepend(Be16(field), e);
    SumPrepend([ttl, protocol], d);
    SumPrepend(Be16(0), c);
    SumPrepend(Be16(id), b);
    SumPrepend(Be16(total), a);
    SumPrepend([0x45, 0], Be16(total) + a);
  }

  // The header checksum before it is stored.
  function IpChecksum(total: u16, id: u16, ttl: byte, protocol: byte, src: seq<byte>, dst: seq<byte>): u16
    requires |src| == 4 && |dst| == 4
  {
    ChecksumOf(IpHeader(total, id, ttl, protocol, src, dst, 0))
  }

  // What `build_packet` writes: the value converted to big endian, then written big endian again.
  function SentHeader(total: u16, id: u16, ttl: byte, protocol: byte, src: seq<byte>, dst: seq<byte>): (h: seq<byte>)
    requires |src| == 4 && |dst| == 4
    ensures |h| == 20
  {
    IpHeader(total, id, ttl, protocol, src, dst, SwapBytes(IpChecksum(total, id, ttl, protocol, src, dst)))
  }

  lemma SwapIsCongruentIff(cs: u16)
    ensures SwapBytes(cs) % ONES == cs % ONES <==> cs / 256 == cs % 256
  {
    var hi, lo := cs / 256, cs % 256;
    assert cs == hi * 256 + lo && SwapBytes(cs) == lo * 256 + hi;
  }

  /** With the field in the right order the header would always verify. */
  lemma UnswappedHeaderVerifies(total: u16, id: u16, ttl: byte, protocol: byte, src: seq<byte>, dst: seq<byte>)
    requires |src| == 4 && |dst| == 4
    ensures Verifies(IpHeader(total, id, ttl, protocol, src, dst, IpChecksum(total, id, ttl, protocol, src, dst)))
  {
    hide Sum, Fold, IpHeader;
    var s := Sum(IpHeader(total, id, ttl, protocol, src, dst, 0));
    var cs := IpChecksum(total, id, ttl, protocol, src, dst);
    IpHeaderSum(total, id, ttl, protocol, src, dst, cs);
    IpHeaderSum(total, id, ttl, protocol, src, dst, 0);
    FoldIsResidue(s);
    if Fold(s) < ONES { ComplementVerifies(s, cs); }
  }

  /** As sent, the header verifies exactly when the two checksum bytes are equal. */
  lemma SentHeaderVerifiesIff(total: u16, id: u16, ttl: byte, protocol: byte, src: seq<byte>, dst: seq<byte>)
    requires |src| == 4 && |dst| == 4
    ensures Verifies(SentHeader(total, id, ttl, protocol, src, dst))
       <==> var cs := IpChecksum(total, id, ttl, protocol, src, dst); cs / 256 == cs % 256
  {
    hide Sum, Fold, IpHeader, SwapBytes;
    var s := Sum(IpHeader(total, id, ttl, protocol, src, dst, 0));
    var cs := IpChecksum(total, id, ttl, protocol, src, dst);
    var swapped := SwapBytes(cs);
    IpHeaderSum(total, id, ttl, protocol, src, dst, cs);
    IpHeaderSum(total, id, ttl, protocol, src, dst, swapped);
    IpHeaderSum(total, id, ttl, protocol, src, dst, 0);
    UnswappedHeaderVerifies(total, id, ttl, protocol, src, dst);
    FoldIsResidue(s + cs);
    FoldIsResidue(s + swapped);
    SwapIsCongruentIff(cs);
    SameResidueIff(s, cs, swapped);
  }

  lemma SameResidueIff(s: nat, a: nat, b: nat)
    requires (s + a) % ONES == 0
    ensures (s + b) % ONES == 0 <==> b % ONES == a % ONES
  {
  }

  /**
   * A whole family that is rejected: the header words sum to 0x8525, so the checksum 0x7ADA goes
   * out as 0xDA7A. An empty packet with identification 0, time to live 64, protocol 17 and zero
   * addresses belongs to it.
   */
  lemma {:induction false} SentHeaderCanFail(
      total: u16, id: u16, ttl: byte, protocol: byte, src: seq<byte>, dst: seq<byte>)
    requires |src| == 4 && |dst| == 4
    requires 0x4500 + total + id + Word(ttl, protocol) + Sum(src + dst) == 0x8525
    ensures !Verifies(SentHeader(total, id, ttl, protocol, src, dst))
  {
    hide IpHeader, Sum;
    IpHeaderSum(total, id, ttl, protocol, src, dst, 0);
    assert IpChecksum(total, id, ttl, protocol, src, dst) == 0x7ADA;
    SentHeaderVerifiesIff(total, id, ttl, protocol, src, dst);
  }

  /** The empty packet just named is in the family. */
  lemma {:induction false} EmptyPacketInFamily(src: seq<byte>, dst: seq<byte>)
    requires |src| == 4 && |dst| == 4
    requires forall i :: 0 <= i < 4 ==> src[i] == 0 && dst[i] == 0
    ensures 0x4500 + 20 + 0 + Word(64, 17) + Sum(src + dst) == 0x8525
  {
    hide Sum;
    SumZeros(src + dst);
    assert Word(64, 17) == 0x4011;
  }

  lemma {:induction false} SumZeros(data: seq<byte>)
    requires forall i :: 0 <= i < |data| ==> data[i] == 0
    ensures Sum(data) == 0
    decreases |data|
  {
    if |data| >= 2 { SumZeros(data[2..]); }
  }

  method BuildPacket(src: seq<byte>, dstAddr: seq<byte>, protocol: byte, id: u16, ttl: byte, payload: seq<byte>,
                     dst: array<byte>) returns (r: Option<nat>)
    requires |src| == 4 && |dstAddr| == 4
    modifies dst
    ensures r.None? <==> dst.Length < 20 + |payload| || 20 + |payload| > ONES
    ensures r.None? ==> dst[..] == old(dst[..])
    ensures r.Some? ==>
      && r.value == 20 + |payload|
      && dst[..r.value] == SentHeader(20 + |payload|, id, ttl, protocol, src, dstAddr) + payload
      && dst[r.value..] == old(dst[r.value..])
    ensures r.Some? ==> 20 <= r.value <= dst.Length && dst[20..r.value] == payload
    ensures r.Some? ==> dst[0] == 0x45 && dst[1] == 0 && dst[8] == ttl && dst[9] == protocol
    ensures r.Some? ==> Stores(dst[..], 2, 20 + |payload|) && Stores(dst[..], 4, id) && Stores(dst[..], 6, 0)
    ensures r.Some? ==> dst[12..16] == src && dst[16..20] == dstAddr
    ensures r.Some? ==>
      dst[10] as int + 256 * dst[11] as int == IpChecksum(20 + |payload|, id, ttl, protocol, src, dstAddr)
  {
    hide Sum, Fold, IpHeader;
    var total := 20 + |payload|;
    if dst.Length < total || total > ONES {
      return None;
    }
    var cs := ComputeChecksum(IpHeader(total, id, ttl, protocol, src, dstAddr, 0));
    var header := IpHeader(total, id, ttl, protocol, src, dstAddr, SwapBytes(cs));
    forall i | 0 <= i < 20 {
      dst[i] := header[i];
    }
    forall i | 0 <= i < |payload| {
      dst[20 + i] := payload[i];
    }
    assert dst[..total] == header + payload;
    IpHeaderLayout(total, id, ttl, protocol, src, dstAddr, SwapBytes(cs));
    HeaderInFront(dst[..], header);
    SwappedIs(cs, header, 10);
    return Some(total);
  }

  lemma SwappedIs(cs: u16, h: seq<byte>, at: nat)
    requires Stores(h, at, SwapBytes(cs))
    ensures h[at] as int + 256 * h[at + 1] as int == cs
  {
  }

  lemma HeaderInFront(packet: seq<byte>, header: seq<byte>)
    requires |header| == 20 <= |packet| && packet[..20] == header
    ensures forall i :: 0 <= i < 20 ==> packet[i] == header[i]
    ensures packet[12..16] == header[12..16] && packet[16..20] == header[16..20]
  {
    assert forall i :: 0 <= i < 20 ==> packet[..20][i] == packet[i];
  }
}
