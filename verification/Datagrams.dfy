/**
  * IP packets in HTTP datagrams (RFC 9297, section 2.1) and in datagram capsules, with or without
  * the context ID of RFC 9484, section 6, and the header checksum of RFC 1071.
  */
module Datagrams {
  import opened Bytes
  import opened Varint

  const CONNECT_IP_CONTEXT_ID: nat := 0

  datatype Fault = BufferTooShort

  // ---------------------------------------------------------------- HTTP/3 datagrams

  function QuarterStreamId(streamId: nat): nat {
    streamId / 4
  }

  function EncodeIpDatagram(streamId: nat, packet: bytes): bytes
    requires streamId < 0x1_0000_0000_0000_0000
  {
    PutVarint(QuarterStreamId(streamId)) + (PutVarint(CONNECT_IP_CONTEXT_ID) + packet)
  }

  function DecodeIpDatagram(datagram: bytes, streamId: nat): Result<Option<bytes>, Fault> {
    match GetVarint(datagram)
    case None => Err(BufferTooShort)
    case Some((quarter, n)) =>
      if quarter != QuarterStreamId(streamId) then Ok(None)
      else match GetVarint(datagram[n..])
        case None => Err(BufferTooShort)
        case Some((context, m)) =>
          if context != CONNECT_IP_CONTEXT_ID then Ok(None) else Ok(Some(datagram[n + m..]))
  }

  /** A packet comes back out of its datagram on the stream it was sent for, and on no other. */
  lemma IpDatagramRoundTrip(streamId: nat, expected: nat, packet: bytes)
    requires streamId < 0x1_0000_0000_0000_0000
    ensures DecodeIpDatagram(EncodeIpDatagram(streamId, packet), expected)
         == Ok(if streamId / 4 == expected / 4 then Some(packet) else None)
  {
    var quarter := QuarterStreamId(streamId);
    var tail := PutVarint(CONNECT_IP_CONTEXT_ID) + packet;
    var s := EncodeIpDatagram(streamId, packet);
    VarintRoundTrip(quarter, tail);
    VarintRoundTrip(CONNECT_IP_CONTEXT_ID, packet);
    assert s[VarintLen(quarter)..] == tail;
    assert s[VarintLen(quarter) + 1..] == tail[1..] == packet;
  }

  // ---------------------------------------------------------------- the context of a capsule's packet

  predicate LooksLikeIpPacket(data: bytes) {
    data != [] && (data[0] / 16 == 4 || data[0] / 16 == 6) && |data| >= 20
  }

  function StripDatagramContext(payload: bytes): (r: Option<bytes>)
    ensures r.Some? ==> LooksLikeIpPacket(r.value) && |r.value| <= |payload|
                        && payload[|payload| - |r.value|..] == r.value
  {
    var context := GetVarint(payload);
    if context.Some? && context.value.0 == CONNECT_IP_CONTEXT_ID
       && LooksLikeIpPacket(payload[context.value.1..]) then Some(payload[context.value.1..])
    else if LooksLikeIpPacket(payload) then Some(payload)
    else None
  }

  /** A packet whose first two bytes pass for a context ID before another packet. */
  predicate HidesAnother(packet: bytes) {
    |packet| >= 2 && packet[0] == 0x40 && packet[1] == 0 && LooksLikeIpPacket(packet[2..])
  }

  lemma ContextOfPacket(packet: bytes)
    requires LooksLikeIpPacket(packet)
    ensures GetVarint(packet).Some? && GetVarint(packet).value.1 == 2
    ensures GetVarint(packet).value.0 == 0 <==> packet[0] == 0x40 && packet[1] == 0
  {
    var head := [packet[0] % 64] + packet[1..2];
    assert head == [packet[0] % 64, packet[1]];
    assert head[..1] == [packet[0] % 64] && head[..1][..0] == [];
    assert Number(head[..1]) == packet[0] % 64;
  }

  /** A bare packet is delivered as it is, exactly when it does not hide another behind a zero context. */
  lemma StripBare(packet: bytes)
    ensures StripDatagramContext(packet) == Some(packet)
       <==> LooksLikeIpPacket(packet) && !HidesAnother(packet)
  {
    if LooksLikeIpPacket(packet) {
      ContextOfPacket(packet);
    }
  }

  /** IPv6 packets and IPv4 packets with a header length never hide another. */
  lemma StripOrdinary(packet: bytes)
    requires LooksLikeIpPacket(packet) && (packet[0] / 16 == 6 || packet[0] % 16 != 0)
    ensures StripDatagramContext(packet) == Some(packet)
  {
    StripBare(packet);
  }

  /** A packet that hides another loses its first two bytes: the header length it lacks lets it. */
  lemma StripHidden()
    ensures var packet := [0x40, 0] + [0x45] + seq(19, _ => 0);
            LooksLikeIpPacket(packet) && StripDatagramContext(packet) == Some(packet[2..])
  {
    var packet: bytes := [0x40, 0] + [0x45] + seq(19, _ => 0);
    assert packet[2] == 0x45 && packet[2..][0] == 0x45;
    ContextOfPacket(packet);
  }

  /** Behind its context ID a packet is delivered bare, and what is no packet is not delivered. */
  lemma StripFramed(packet: bytes)
    ensures StripDatagramContext([0] + packet) == if LooksLikeIpPacket(packet) then Some(packet) else None
  {
    var s := [0] + packet;
    assert [s[0] % 64] + s[1..1] == [0] && [0][..0] == [];
    assert s[1..] == packet;
  }

  // ---------------------------------------------------------------- the header checksum

  /** The sum of the 16-bit words of `s`, the last byte of an odd one taken as the high byte of a word. */
  function WordSum(s: bytes): nat {
    if |s| == 0 then 0
    else if |s| == 1 then U16(s[0], 0)
    else U16(s[0], s[1]) + WordSum(s[2..])
  }

  /** The one's complement sum: `n` modulo 65535, with 65535 for a multiple of it that is not zero. */
  function OnesSum(n: nat): nat {
    if n == 0 then 0 else (n - 1) % 65535 + 1
  }

  function Checksum(s: bytes): nat {
    65535 - OnesSum(WordSum(s))
  }

  lemma ModPlusMultiple(a: nat, q: nat)
    ensures (a + 65535 * q) % 65535 == a % 65535
  {
  }

  /** Folding the high half into the low one keeps the one's complement sum. */
  lemma FoldKeeps(n: nat)
    ensures OnesSum(n % 65536 + n / 65536) == OnesSum(n)
  {
    var q, r := n / 65536, n % 65536;
    if n > 0 {
      assert n - 1 == (q + r - 1) + 65535 * q;
      ModPlusMultiple(q + r - 1, q);
    }
  }

  lemma WordSumStep(s: bytes, i: nat)
    requires i <= |s|
    ensures i + 1 < |s| ==> WordSum(s[i..]) == U16(s[i], s[i + 1]) + WordSum(s[i + 2..])
    ensures i + 1 == |s| ==> WordSum(s[i..]) == U16(s[i], 0)
    ensures i == |s| ==> WordSum(s[i..]) == 0
  {
    if i + 1 < |s| {
      assert s[i..][2..] == s[i + 2..];
    }
  }

  lemma {:induction false} WordSumBound(s: bytes)
    ensures 2 * WordSum(s) <= 65535 * (|s| + 1)
  {
    if |s| >= 2 {
      WordSumBound(s[2..]);
    }
  }

  const U32: nat := 0x1_0000_0000

  lemma WrapsOn(total: nat, word: nat)
    ensures (total % U32 + word) % U32 == (total + word) % U32
  {
    assert total == U32 * (total / U32) + total % U32;
  }

  /** The sum of the words of a header, which wraps at 32 bits. */
  method SumWords(header: bytes) returns (sum: nat)
    ensures sum == WordSum(header) % U32
  {
    hide WordSum, U16;
    sum := 0;
    var i: nat := 0;
    ghost var total: nat := 0;
    assert header[0..] == header;
    while i + 1 < |header|
      invariant i <= |header| && sum == total % U32
      invariant total + WordSum(header[i..]) == WordSum(header)
    {
      var word := U16(header[i], header[i + 1]);
      WordSumStep(header, i);
      WrapsOn(total, word);
      sum := (sum + word) % U32;
      total := total + word;
      i := i + 2;
    }
    WordSumStep(header, i);
    if i < |header| {
      WrapsOn(total, U16(header[i], 0));
      sum := (sum + U16(header[i], 0)) % U32;
    }
  }

  /** Folds a sum until it fits 16 bits. */
  method Fold(sum: nat) returns (folded: nat)
    ensures folded == OnesSum(sum)
  {
    folded := sum;
    while folded / 65536 != 0
      invariant OnesSum(folded) == OnesSum(sum)
      decreases folded
    {
      FoldKeeps(folded);
      folded := folded % 65536 + folded / 65536;
    }
    assert folded <= 65535 && OnesSum(folded) == folded;
  }

  /**
    * The checksum of any header: of the sum of its words, which wraps at 32 bits. Up to 131072 bytes
    * it does not wrap, and this is the checksum of the header.
    */
  method Ipv4HeaderChecksum(header: bytes) returns (sum16: nat)
    ensures sum16 == 65535 - OnesSum(WordSum(header) % U32)
    ensures |header| <= 131_072 ==> sum16 == Checksum(header)
  {
    hide WordSum;
    WordSumBound(header);
    var sum := SumWords(header);
    var folded := Fold(sum);
    sum16 := 65535 - folded;
  }

  lemma {:induction false} WordSumUpdate(s: bytes, i: nat, a: byte, b: byte)
    requires i % 2 == 0 && i + 1 < |s|
    ensures WordSum(s[i := a][i + 1 := b]) == WordSum(s[i := 0][i + 1 := 0]) + U16(a, b)
    decreases i
  {
    var x, y := s[i := a][i + 1 := b], s[i := 0][i + 1 := 0];
    if i == 0 {
      assert x[2..] == y[2..];
    } else {
      WordSumUpdate(s[2..], i - 2, a, b);
      assert x[2..] == s[2..][i - 2 := a][i - 1 := b];
      assert y[2..] == s[2..][i - 2 := 0][i - 1 := 0];
    }
  }

  /** A header whose checksum was computed over a zeroed field and filled in checks out to zero. */
  lemma FilledChecksOut(header: bytes)
    requires |header| >= 12
    ensures var c := Checksum(header[10 := 0][11 := 0]);
            c < 0x1_0000 && Checksum(header[10 := c / 256][11 := c % 256]) == 0
  {
    var zeroed := header[10 := 0][11 := 0];
    var n := WordSum(zeroed);
    var c := Checksum(zeroed);
    WordSumUpdate(header, 10, c / 256, c % 256);
    assert U16(c / 256, c % 256) == c;
    if n > 0 {
      var q := (n - 1) / 65535;
      assert n + c == 65535 + 65535 * q;
      ModPlusMultiple(65534, q);
    }
  }
}
