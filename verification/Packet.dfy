/**
  * How much TCP data a packet carries, behind its IPv4 header or its IPv6 header and extension
  * headers (RFC 8200, section 4).
  */
module Packet {
  import opened Bytes

  const TCP: byte := 6
  const MAX_HEADERS: nat := 8

  // ---------------------------------------------------------------- the walk

  /** How long the extension header `next` at `offset` is, if it is one to walk over. */
  function HeaderSize(packet: bytes, offset: nat, end: nat, next: byte): (size: Option<nat>)
    requires offset + 2 <= end <= |packet|
    ensures size.Some? ==> size.value > 0
  {
    if next == 0 || next == 43 || next == 60 then Some((packet[offset + 1] as int + 1) * 8)
    else if next == 51 then Some((packet[offset + 1] as int + 2) * 4)
    else if next == 44 && offset + 8 <= end then
      if U16(packet[offset + 2], packet[offset + 3]) >= 8 then None else Some(8)
    else None
  }

  /** Where the TCP segment is, behind `left` more headers at most. */
  function Walk(packet: bytes, offset: nat, end: nat, next: byte, left: nat): (r: Option<nat>)
    requires end <= |packet|
    decreases left
  {
    if next == TCP then Some(offset)
    else if left == 0 || offset + 2 > end then None
    else match HeaderSize(packet, offset, end, next)
      case None => None
      case Some(size) =>
        if offset + size > end then None else Walk(packet, offset + size, end, packet[offset], left - 1)
  }

  /** The data of the segment at `offset`; none for a SYN or an RST. */
  function SegmentLen(packet: bytes, offset: nat, end: nat): nat
    requires end <= |packet|
  {
    if offset + 20 > end then 0
    else
      var header := (packet[offset + 12] / 16) as int * 4;
      if header < 20 || offset + header > end || (packet[offset + 13] / 2) % 4 != 0 then 0
      else end - offset - header
  }

  function V4Len(packet: bytes): nat
    requires |packet| >= 20
  {
    var offset := (packet[0] % 16) as int * 4;
    var end := U16(packet[2], packet[3]);
    if offset < 20 || end > |packet| || end < offset || U16(packet[6], packet[7]) % 0x2000 != 0 || packet[9] != TCP
    then 0 else SegmentLen(packet, offset, end)
  }

  function V6Len(packet: bytes): nat
    requires |packet| >= 40
  {
    var end := 40 + U16(packet[4], packet[5]);
    if end > |packet| then 0
    else match Walk(packet, 40, end, packet[6], MAX_HEADERS)
      case None => 0
      case Some(offset) => SegmentLen(packet, offset, end)
  }

  function PayloadLen(packet: bytes): nat {
    if packet == [] then 0
    else if packet[0] / 16 == 4 && |packet| >= 20 then V4Len(packet)
    else if packet[0] / 16 == 6 && |packet| >= 40 then V6Len(packet)
    else 0
  }

  /** One header of the walk. */
  method MeasureHeader(packet: bytes, offset: nat, end: nat, next: byte) returns (size: Option<nat>)
    requires offset + 2 <= end <= |packet|
    ensures size == HeaderSize(packet, offset, end, next)
  {
    if next == 0 || next == 43 || next == 60 {
      return Some((packet[offset + 1] as int + 1) * 8);
    } else if next == 51 {
      return Some((packet[offset + 1] as int + 2) * 4);
    } else if next == 44 && offset + 8 <= end {
      if U16(packet[offset + 2], packet[offset + 3]) >= 8 { return None; }
      return Some(8);
    }
    return None;
  }

  method WalkHeaders(packet: bytes, start: nat, end: nat, kind: byte, v6: bool) returns (r: Option<nat>)
    requires end <= |packet|
    ensures r == if v6 || kind == TCP then Walk(packet, start, end, kind, MAX_HEADERS) else None
  {
    hide HeaderSize;
    var offset: nat, next := start, kind;
    for i := 0 to MAX_HEADERS
      invariant Walk(packet, start, end, kind, MAX_HEADERS) == Walk(packet, offset, end, next, MAX_HEADERS - i)
      invariant !v6 ==> i == 0 && offset == start && next == kind
    {
      if next == TCP { break; }
      if !v6 || offset + 2 > end { return None; }
      var size := MeasureHeader(packet, offset, end, next);
      if size.None? || offset + size.value > end { return None; }
      next := packet[offset];
      offset := offset + size.value;
    }
    return if next == TCP then Some(offset) else None;
  }

  method MeasureSegment(packet: bytes, offset: nat, end: nat) returns (n: nat)
    requires end <= |packet|
    ensures n == SegmentLen(packet, offset, end)
  {
    if offset + 20 > end { return 0; }
    var header := (packet[offset + 12] / 16) as int * 4;
    if header < 20 || offset + header > end || (packet[offset + 13] / 2) % 4 != 0 { return 0; }
    return end - offset - header;
  }

  method TcpPayloadLen(packet: bytes) returns (n: nat)
    ensures n == PayloadLen(packet)
  {
    hide Walk, SegmentLen;
    if packet == [] { return 0; }
    var first := packet[0];
    var offset: nat, end: nat, next: byte;
    if first / 16 == 4 && |packet| >= 20 {
      offset := (first % 16) as int * 4;
      end := U16(packet[2], packet[3]);
      if offset < 20 || end > |packet| || end < offset || U16(packet[6], packet[7]) % 0x2000 != 0 { return 0; }
      next := packet[9];
    } else if first / 16 == 6 && |packet| >= 40 {
      end := 40 + U16(packet[4], packet[5]);
      if end > |packet| { return 0; }
      offset, next := 40, packet[6];
    } else {
      return 0;
    }
    WalkedAlready(packet, offset, end);
    var segment := WalkHeaders(packet, offset, end, next, first / 16 == 6);
    if segment.None? { return 0; }
    n := MeasureSegment(packet, segment.value, end);
  }

  lemma WalkedAlready(packet: bytes, offset: nat, end: nat)
    requires end <= |packet|
    ensures Walk(packet, offset, end, TCP, MAX_HEADERS) == Some(offset)
  {
  }

  // ---------------------------------------------------------------- packets as they are written

  /** The headers between the IPv6 header and the segment. `tail` is all but the next header's number. */
  datatype Headers = Segment | Header(kind: byte, tail: bytes, rest: Headers)

  function KindOf(hs: Headers): byte {
    if hs.Segment? then TCP else hs.kind
  }

  /** Hop-by-hop, routing and destination options, authentication, and a first or only fragment. */
  predicate GoodHeader(kind: byte, tail: bytes) {
    if kind == 0 || kind == 43 || kind == 60 then tail != [] && 1 + |tail| == (tail[0] as int + 1) * 8
    else if kind == 51 then tail != [] && 1 + |tail| == (tail[0] as int + 2) * 4
    else kind == 44 && |tail| == 7 && U16(tail[1], tail[2]) < 8
  }

  predicate GoodHeaders(hs: Headers) {
    hs.Segment? || (GoodHeader(hs.kind, hs.tail) && GoodHeaders(hs.rest))
  }

  function Count(hs: Headers): nat {
    if hs.Segment? then 0 else 1 + Count(hs.rest)
  }

  function Wire(hs: Headers): bytes {
    if hs.Segment? then [] else ([KindOf(hs.rest)] + hs.tail) + Wire(hs.rest)
  }

  /** A TCP segment with `n` bytes of data, neither SYN nor RST. */
  predicate SegmentAt(packet: bytes, offset: nat, end: nat, n: nat) {
    && offset + 20 <= end <= |packet|
    && var header := (packet[offset + 12] / 16) as int * 4;
    && header >= 20 && offset + header + n == end && (packet[offset + 13] / 2) % 4 == 0
  }

  /** An IPv4 packet, not a later fragment, with such a segment. */
  predicate V4Carries(packet: bytes, n: nat) {
    && |packet| >= 20 && packet[0] / 16 == 4
    && var offset := (packet[0] % 16) as int * 4;
    && offset >= 20 && U16(packet[6], packet[7]) % 0x2000 == 0 && packet[9] == TCP
    && SegmentAt(packet, offset, U16(packet[2], packet[3]), n)
  }

  /** An IPv6 packet with such a segment behind the headers `hs`. */
  predicate V6Behind(packet: bytes, n: nat, hs: Headers) {
    && |packet| >= 40 && packet[0] / 16 == 6
    && GoodHeaders(hs) && Count(hs) <= MAX_HEADERS && packet[6] == KindOf(hs)
    && Stands(packet, 40, Wire(hs))
    && SegmentAt(packet, 40 + |Wire(hs)|, 40 + U16(packet[4], packet[5]), n)
  }

  ghost predicate V6Carries(packet: bytes, n: nat) {
    exists hs :: V6Behind(packet, n, hs)
  }

  /** A header as it is written has the size it says. */
  lemma HeaderMeasured(packet: bytes, offset: nat, end: nat, kind: byte, next: byte, tail: bytes)
    requires GoodHeader(kind, tail) && Stands(packet, offset, [next] + tail)
    requires offset + 1 + |tail| <= end <= |packet|
    ensures kind != TCP && tail != [] && packet[offset] == next
    ensures HeaderSize(packet, offset, end, kind) == Some(1 + |tail|)
  {
    var first := [next] + tail;
    StandsAt(packet, offset, first, 0);
    StandsAt(packet, offset, first, 1);
    if kind == 44 {
      StandsAt(packet, offset, first, 2);
      StandsAt(packet, offset, first, 3);
    }
  }

  /** And a header that has its size is one as it is written. */
  lemma HeaderTaken(packet: bytes, offset: nat, end: nat, kind: byte, size: nat)
    requires offset + 2 <= end <= |packet|
    requires HeaderSize(packet, offset, end, kind) == Some(size) && offset + size <= end
    ensures GoodHeader(kind, packet[offset + 1..offset + size])
    ensures Stands(packet, offset, [packet[offset]] + packet[offset + 1..offset + size])
  {
    var tail := packet[offset + 1..offset + size];
    assert tail[0] == packet[offset + 1];
    assert packet[offset..offset + size] == [packet[offset]] + tail;
  }

  lemma {:induction false} Walked(packet: bytes, offset: nat, end: nat, hs: Headers, left: nat)
    requires GoodHeaders(hs) && Count(hs) <= left && Stands(packet, offset, Wire(hs))
    requires offset + |Wire(hs)| <= end <= |packet|
    ensures Walk(packet, offset, end, KindOf(hs), left) == Some(offset + |Wire(hs)|)
    decreases left
  {
    hide HeaderSize, GoodHeader;
    if hs.Header? {
      var first := [KindOf(hs.rest)] + hs.tail;
      StandsJoin(packet, offset, first, Wire(hs.rest));
      HeaderMeasured(packet, offset, end, hs.kind, KindOf(hs.rest), hs.tail);
      Walked(packet, offset + |first|, end, hs.rest, left - 1);
    }
  }

  lemma {:induction false} WalkedOver(packet: bytes, offset: nat, end: nat, next: byte, left: nat) returns (hs: Headers)
    requires offset <= end <= |packet| && Walk(packet, offset, end, next, left).Some?
    ensures GoodHeaders(hs) && Count(hs) <= left && KindOf(hs) == next && Stands(packet, offset, Wire(hs))
    ensures Walk(packet, offset, end, next, left) == Some(offset + |Wire(hs)|)
    decreases left
  {
    hide HeaderSize, GoodHeader;
    hs := Segment;
    if next != TCP {
      var size := HeaderSize(packet, offset, end, next).value;
      var rest := WalkedOver(packet, offset + size, end, packet[offset], left - 1);
      var tail := packet[offset + 1..offset + size];
      hs := Header(next, tail, rest);
      HeaderTaken(packet, offset, end, next, size);
      StandsJoin(packet, offset, [packet[offset]] + tail, Wire(rest));
    }
  }

  /** Exactly the packets that carry data have some counted, and as much as they carry. */
  lemma PayloadExact(packet: bytes, n: nat)
    ensures V4Carries(packet, n) || V6Carries(packet, n) ==> PayloadLen(packet) == n
    ensures PayloadLen(packet) == n && n > 0 ==> V4Carries(packet, n) || V6Carries(packet, n)
  {
    hide Walk, Wire, GoodHeaders;
    if V6Carries(packet, n) {
      var hs :| V6Behind(packet, n, hs);
      Walked(packet, 40, 40 + U16(packet[4], packet[5]), hs, MAX_HEADERS);
    }
    if PayloadLen(packet) == n && n > 0 && packet[0] / 16 == 6 {
      var end := 40 + U16(packet[4], packet[5]);
      var hs := WalkedOver(packet, 40, end, packet[6], MAX_HEADERS);
      assert V6Behind(packet, n, hs);
    }
  }
}
