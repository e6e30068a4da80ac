/**
  * Capsules (RFC 9297, section 3.2): how they are laid down, the parser that takes them off a
  * stream cut anywhere, and the lists that CONNECT-IP (RFC 9484, section 4.7) sends in them.
  */
module Capsules {
  import opened Bytes
  import opened Varint

  const ADDRESS_ASSIGN: nat := 1
  const ADDRESS_REQUEST: nat := 2
  const ROUTE_ADVERTISEMENT: nat := 3
  const DATAGRAM: nat := 0

  const MAX_CAPSULE_BUF: nat := 256 * 1024

  datatype Fault = BufferTooShort | BadIpVersion(version: byte)

  // ---------------------------------------------------------------- frames

  datatype Frame = Frame(kind: nat, value: bytes)

  predicate GoodFrame(f: Frame) {
    f.kind < VARINT_LIMIT && |f.value| < VARINT_LIMIT
  }

  /** A capsule as it goes on the wire. */
  function Encode(f: Frame): bytes
    requires GoodFrame(f)
  {
    PutVarint(f.kind) + (PutVarint(|f.value|) + f.value)
  }

  /** The capsule at the start of `buf` and its length there; None when it has not come whole. */
  function NextFrame(buf: bytes): (r: Option<(Frame, nat)>)
    ensures r.Some? ==> 0 < r.value.1 <= |buf|
  {
    hide GetVarint;
    match GetVarint(buf)
    case None => None
    case Some((kind, n)) =>
      match GetVarint(buf[n..])
      case None => None
      case Some((len, m)) =>
        if |buf| - n - m < len then None
        else Some((Frame(kind, buf[n + m..n + m + len]), n + m + len))
  }

  lemma FrameRoundTrip(f: Frame, rest: bytes)
    requires GoodFrame(f)
    ensures NextFrame(Encode(f) + rest) == Some((f, |Encode(f)|))
  {
    var s := Encode(f) + rest;
    var n, m := VarintLen(f.kind), VarintLen(|f.value|);
    assert s == PutVarint(f.kind) + (PutVarint(|f.value|) + (f.value + rest));
    VarintRoundTrip(f.kind, PutVarint(|f.value|) + (f.value + rest));
    assert s[n..] == PutVarint(|f.value|) + (f.value + rest);
    VarintRoundTrip(|f.value|, f.value + rest);
    assert s[n + m..n + m + |f.value|] == f.value;
  }

  /** A capsule that has not come whole is not taken. */
  lemma FrameCut(f: Frame, cut: nat)
    requires GoodFrame(f) && cut < |Encode(f)|
    ensures NextFrame(Encode(f)[..cut]) == None
  {
    var p := Encode(f)[..cut];
    if NextFrame(p).Some? {
      assert p + Encode(f)[cut..] == Encode(f) == Encode(f) + [];
      NextExtends(p, Encode(f)[cut..]);
      FrameRoundTrip(f, []);
    }
  }

  lemma NextExtends(buf: bytes, more: bytes)
    requires NextFrame(buf).Some?
    ensures NextFrame(buf + more) == NextFrame(buf)
    ensures GoodFrame(NextFrame(buf).value.0)
  {
    var longer := buf + more;
    GetVarintExtends(buf, more);
    var n := GetVarint(buf).value.1;
    assert longer[n..] == buf[n..] + more;
    GetVarintExtends(buf[n..], more);
    var (len, m) := GetVarint(buf[n..]).value;
    assert longer[n + m..n + m + len] == buf[n + m..n + m + len];
  }

  // ---------------------------------------------------------------- streams

  function EncodeAll(frames: seq<Frame>): bytes
    requires forall i :: 0 <= i < |frames| ==> GoodFrame(frames[i])
  {
    if frames == [] then [] else Encode(frames[0]) + EncodeAll(frames[1..])
  }

  /** The whole capsules at the start of `s`. */
  function Frames(s: bytes): seq<Frame>
    decreases |s|
  {
    match NextFrame(s)
    case None => []
    case Some((f, n)) => [f] + Frames(s[n..])
  }

  /** What is left of `s` after its whole capsules. */
  function Rest(s: bytes): (r: bytes)
    ensures |r| <= |s|
    decreases |s|
  {
    match NextFrame(s)
    case None => s
    case Some((_, n)) => Rest(s[n..])
  }

  /** Cutting a stream changes nothing: what is left of one part goes on with the next. */
  lemma {:induction false} FramesAppend(s: bytes, more: bytes)
    ensures Frames(s + more) == Frames(s) + Frames(Rest(s) + more)
    ensures Rest(s + more) == Rest(Rest(s) + more)
    decreases |s|
  {
    if NextFrame(s).Some? {
      NextExtends(s, more);
      var n := NextFrame(s).value.1;
      assert (s + more)[n..] == s[n..] + more;
      FramesAppend(s[n..], more);
    }
  }

  lemma FramesCons(f: Frame, tail: bytes)
    requires GoodFrame(f)
    ensures Frames(Encode(f) + tail) == [f] + Frames(tail) && Rest(Encode(f) + tail) == Rest(tail)
  {
    hide NextFrame, Encode, GoodFrame;
    FrameRoundTrip(f, tail);
    assert (Encode(f) + tail)[|Encode(f)|..] == tail;
  }

  lemma NoFrames()
    ensures Frames([]) == [] && Rest([]) == []
  {
  }

  /** Capsules laid down in a row come back, the same and in order. */
  lemma {:induction false} StreamRoundTrip(frames: seq<Frame>)
    requires forall i :: 0 <= i < |frames| ==> GoodFrame(frames[i])
    ensures Frames(EncodeAll(frames)) == frames && Rest(EncodeAll(frames)) == []
  {
    if frames != [] {
      hide NextFrame, Encode, GoodFrame, Frames, Rest;
      var f, tail := frames[0], EncodeAll(frames[1..]);
      FramesCons(f, tail);
      StreamRoundTrip(frames[1..]);
      assert frames == [f] + frames[1..];
    } else {
      NoFrames();
    }
  }

  /** What is left of a stream that was cut is the start of one of its capsules. */
  lemma {:induction false} RestIsShort(frames: seq<Frame>, cut: nat, largest: nat)
    requires forall i :: 0 <= i < |frames| ==> GoodFrame(frames[i]) && |Encode(frames[i])| <= largest
    requires cut <= |EncodeAll(frames)|
    ensures |Rest(EncodeAll(frames)[..cut])| <= largest
    decreases |frames|
  {
    hide NextFrame, Encode, GoodFrame, Rest, Frames;
    if frames == [] {
      NoFrames();
    } else {
      var f, tail := frames[0], EncodeAll(frames[1..]);
      var n := |Encode(f)|;
      CutJoin(Encode(f), tail, cut);
      if cut < n {
        RestOfCut(f, cut);
      } else {
        FramesCons(f, tail[..cut - n]);
        RestIsShort(frames[1..], cut - n, largest);
      }
    }
  }

  lemma CutJoin(a: bytes, b: bytes, cut: nat)
    requires cut <= |a| + |b|
    ensures (a + b)[..cut] == if cut < |a| then a[..cut] else a + b[..cut - |a|]
  {
  }

  lemma RestOfCut(f: Frame, cut: nat)
    requires GoodFrame(f) && cut < |Encode(f)|
    ensures Rest(Encode(f)[..cut]) == Encode(f)[..cut]
  {
    hide NextFrame, Encode, GoodFrame;
    FrameCut(f, cut);
  }

  // ---------------------------------------------------------------- the lists capsules carry

  datatype Assigned = Assigned(requestId: nat, version: byte, address: bytes, prefix: byte)

  datatype Route = Route(version: byte, start: bytes, end: bytes, protocol: byte)

  /** The length of an address of an IP version; None for a version there is not. */
  function AddressLen(version: byte): Option<nat> {
    if version == 4 then Some(4) else if version == 6 then Some(16) else None
  }

  /** The assigned address at the start of `s`, and its length there. */
  function AssignedAt(s: bytes): (r: Result<(Assigned, nat), Fault>)
    ensures r.Ok? ==> 0 < r.value.1 <= |s|
  {
    match GetVarint(s)
    case None => Err(BufferTooShort)
    case Some((id, n)) =>
      if |s| < n + 1 then Err(BufferTooShort)
      else match AddressLen(s[n])
        case None => Err(BadIpVersion(s[n]))
        case Some(len) =>
          if |s| < n + 1 + len + 1 then Err(BufferTooShort)
          else Ok((Assigned(id, s[n], s[n + 1..n + 1 + len], s[n + 1 + len]), n + 1 + len + 1))
  }

  /** The route at the start of `s`, and its length there. */
  function RouteAt(s: bytes): (r: Result<(Route, nat), Fault>)
    ensures r.Ok? ==> 0 < r.value.1 <= |s|
  {
    if s == [] then Err(BufferTooShort)
    else match AddressLen(s[0])
      case None => Err(BadIpVersion(s[0]))
      case Some(len) =>
        if |s| < 2 * len + 2 then Err(BufferTooShort)
        else Ok((Route(s[0], s[1..1 + len], s[1 + len..1 + 2 * len], s[1 + 2 * len]), 2 * len + 2))
  }

  function Prepend<T, E>(xs: seq<T>, r: Result<seq<T>, E>): Result<seq<T>, E> {
    match r case Ok(ys) => Ok(xs + ys) case Err(e) => Err(e)
  }

  function AssignedList(s: bytes): Result<seq<Assigned>, Fault>
    decreases |s|
  {
    if s == [] then Ok([])
    else match AssignedAt(s)
      case Err(e) => Err(e)
      case Ok((a, n)) => Prepend([a], AssignedList(s[n..]))
  }

  function RouteList(s: bytes): Result<seq<Route>, Fault>
    decreases |s|
  {
    if s == [] then Ok([])
    else match RouteAt(s)
      case Err(e) => Err(e)
      case Ok((a, n)) => Prepend([a], RouteList(s[n..]))
  }

  method ParseAddressAssign(value: bytes) returns (r: Result<seq<Assigned>, Fault>)
    ensures r == AssignedList(value)
  {
    hide AssignedAt;
    var off, out := 0, [];
    PrependNothing(AssignedList(value));
    assert value[0..] == value;
    while off < |value|
      invariant off <= |value|
      invariant AssignedList(value) == Prepend(out, AssignedList(value[off..]))
    {
      var rest := value[off..];
      match AssignedAt(rest)
      case Err(e) => return Err(e);
      case Ok((a, n)) =>
        PrependTwice(out, [a], AssignedList(rest[n..]));
        assert value[off + n..] == rest[n..];
        out, off := out + [a], off + n;
    }
    assert value[off..] == [] && out + [] == out;
    return Ok(out);
  }

  method ParseRouteAdvertisement(value: bytes) returns (r: Result<seq<Route>, Fault>)
    ensures r == RouteList(value)
  {
    var off, out := 0, [];
    PrependNothing(RouteList(value));
    assert value[0..] == value;
    while off < |value|
      invariant off <= |value|
      invariant RouteList(value) == Prepend(out, RouteList(value[off..]))
    {
      var rest := value[off..];
      match RouteAt(rest)
      case Err(e) => return Err(e);
      case Ok((a, n)) =>
        PrependTwice(out, [a], RouteList(rest[n..]));
        assert value[off + n..] == rest[n..];
        out, off := out + [a], off + n;
    }
    assert value[off..] == [] && out + [] == out;
    return Ok(out);
  }

  lemma PrependNothing<T, E>(r: Result<seq<T>, E>)
    ensures Prepend([], r) == r
  {
    if r.Ok? {
      assert [] + r.value == r.value;
    }
  }

  lemma PrependTwice<T, E>(xs: seq<T>, ys: seq<T>, r: Result<seq<T>, E>)
    ensures Prepend(xs, Prepend(ys, r)) == Prepend(xs + ys, r)
  {
    if r.Ok? {
      assert xs + (ys + r.value) == xs + ys + r.value;
    }
  }

  predicate GoodAssigned(a: Assigned) {
    a.requestId < VARINT_LIMIT && AddressLen(a.version) == Some(|a.address|)
  }

  function AssignedWire(list: seq<Assigned>): bytes
    requires forall i :: 0 <= i < |list| ==> GoodAssigned(list[i])
  {
    if list == [] then []
    else
      var a := list[0];
      assert GoodAssigned(a);
      PutVarint(a.requestId) + ([a.version] + a.address + [a.prefix] + AssignedWire(list[1..]))
  }

  /** A list of assigned addresses comes out of a capsule as it was put in. */
  lemma {:induction false} AssignedRoundTrip(list: seq<Assigned>)
    requires forall i :: 0 <= i < |list| ==> GoodAssigned(list[i])
    ensures AssignedList(AssignedWire(list)) == Ok(list)
  {
    if list != [] {
      hide AssignedAt, GoodAssigned;
      var a, tail := list[0], AssignedWire(list[1..]);
      var s := AssignedWire(list);
      AssignedRead(a, tail, s);
      AssignedRoundTrip(list[1..]);
      assert list == [a] + list[1..];
    }
  }

  lemma AssignedRead(a: Assigned, tail: bytes, s: bytes)
    requires GoodAssigned(a) && s == PutVarint(a.requestId) + ([a.version] + a.address + [a.prefix] + tail)
    ensures |s| > |tail| && AssignedAt(s) == Ok((a, |s| - |tail|)) && s[|s| - |tail|..] == tail
  {
    hide PutVarint, GetVarint;
    var head := PutVarint(a.requestId);
    VarintRoundTrip(a.requestId, [a.version] + a.address + [a.prefix] + tail);
    FourParts(head, a.version, a.address, a.prefix, tail, s);
  }

  lemma FourParts(head: bytes, x: byte, mid: bytes, y: byte, tail: bytes, s: bytes)
    requires s == head + ([x] + mid + [y] + tail)
    ensures |s| == |head| + 2 + |mid| + |tail| && s[|head|] == x && s[|head| + 1 + |mid|] == y
    ensures s[|head| + 1..|head| + 1 + |mid|] == mid && s[|head| + 2 + |mid|..] == tail
  {
    var after := [x] + mid + [y] + tail;
    assert after[0] == x && after[1..1 + |mid|] == mid && after[1 + |mid|] == y && after[2 + |mid|..] == tail;
    assert s[|head|..] == after;
  }

  predicate GoodRoute(a: Route) {
    AddressLen(a.version) == Some(|a.start|) && |a.end| == |a.start|
  }

  function RouteWire(list: seq<Route>): bytes
    requires forall i :: 0 <= i < |list| ==> GoodRoute(list[i])
  {
    if list == [] then []
    else
      var a := list[0];
      [a.version] + a.start + a.end + [a.protocol] + RouteWire(list[1..])
  }

  lemma {:induction false} RouteRoundTrip(list: seq<Route>)
    requires forall i :: 0 <= i < |list| ==> GoodRoute(list[i])
    ensures RouteList(RouteWire(list)) == Ok(list)
  {
    if list != [] {
      hide RouteAt, GoodRoute;
      var a, tail := list[0], RouteWire(list[1..]);
      RouteRead(a, tail, RouteWire(list));
      RouteRoundTrip(list[1..]);
      assert list == [a] + list[1..];
    }
  }

  lemma RouteRead(a: Route, tail: bytes, s: bytes)
    requires GoodRoute(a) && s == [a.version] + a.start + a.end + [a.protocol] + tail
    ensures |s| > |tail| && RouteAt(s) == Ok((a, |s| - |tail|)) && s[|s| - |tail|..] == tail
  {
    var len := |a.start|;
    assert s[0] == a.version && s[1..1 + len] == a.start && s[1 + len..1 + 2 * len] == a.end;
    assert s[1 + 2 * len] == a.protocol && s[2 * len + 2..] == tail;
  }

  // ---------------------------------------------------------------- the parser

  datatype Capsule =
    | AddressAssign(addresses: seq<Assigned>)
    | AddressRequest
    | RouteAdvertisement(routes: seq<Route>)
    | Datagram(payload: bytes)
    | Unknown(kind: nat, payload: bytes)

  /** What a frame holds. */
  function Interpret(f: Frame): Result<Capsule, Fault> {
    if f.kind == ADDRESS_ASSIGN then
      match AssignedList(f.value) case Ok(list) => Ok(AddressAssign(list)) case Err(e) => Err(e)
    else if f.kind == ADDRESS_REQUEST then Ok(AddressRequest)
    else if f.kind == ROUTE_ADVERTISEMENT then
      match RouteList(f.value) case Ok(list) => Ok(RouteAdvertisement(list)) case Err(e) => Err(e)
    else if f.kind == DATAGRAM then Ok(Datagram(f.value))
    else Ok(Unknown(f.kind, f.value))
  }

  /** Takes capsules off a stream as it comes in. */
  class CapsuleParser {
    var buf: bytes
    /** All that has been pushed since the buffer was last empty of a stream. */
    ghost var fed: bytes
    /** The frames taken off it. */
    ghost var taken: seq<Frame>

    constructor ()
      ensures Valid() && buf == fed == [] && taken == []
    {
      buf, fed, taken := [], [], [];
    }

    /** The frames of the stream are those taken and those still to take, in order. */
    ghost predicate Valid()
      reads this
    {
      InStep(fed, taken, buf)
    }

    /** Takes the next bytes of the stream; what does not fit in the buffer costs all that is in it. */
    method Push(data: bytes)
      requires Valid()
      modifies this
      ensures Valid()
      ensures if |old(buf)| + |data| > MAX_CAPSULE_BUF then buf == fed == [] && taken == []
              else buf == old(buf) + data && fed == old(fed) + data && taken == old(taken)
    {
      if |buf| + |data| > MAX_CAPSULE_BUF {
        buf, fed, taken := [], [], [];
        return;
      }
      PushInStep(fed, taken, buf, data);
      buf, fed := buf + data, fed + data;
    }

    /**
      * The next capsule of the stream, wherever the stream was cut; none when it has not come
      * whole. A frame whose list is malformed is taken all the same: the one after it is next.
      */
    method Next() returns (r: Result<Option<Capsule>, Fault>)
      requires Valid()
      modifies this
      ensures Valid() && fed == old(fed)
      ensures match NextFrame(old(buf))
              case None => r == Ok(None) && taken == old(taken) == Frames(fed) && buf == old(buf)
              case Some((f, n)) =>
                && buf == old(buf)[n..] && taken == old(taken) + [f] && taken <= Frames(fed)
                && r == match Interpret(f) case Ok(capsule) => Ok(Some(capsule)) case Err(e) => Err(e)
    {
      NextInStep(fed, taken, buf);
      var kind := GetVarint(buf);
      if kind.None? { return Ok(None); }
      var n := kind.value.1;
      var len := GetVarint(buf[n..]);
      if len.None? { return Ok(None); }
      var off := n + len.value.1;
      if |buf| - off < len.value.0 { return Ok(None); }
      var value := buf[off..off + len.value.0];
      ghost var f := Frame(kind.value.0, value);
      assert NextFrame(buf) == Some((f, off + len.value.0));
      buf := buf[off + len.value.0..];
      taken := taken + [f];
      var capsule := Read(kind.value.0, value);
      match capsule
      case Ok(c) => return Ok(Some(c));
      case Err(e) => return Err(e);
    }

    static method Read(kind: nat, value: bytes) returns (r: Result<Capsule, Fault>)
      ensures r == Interpret(Frame(kind, value))
    {
      if kind == ADDRESS_ASSIGN {
        var list := ParseAddressAssign(value);
        match list
        case Ok(addresses) => return Ok(AddressAssign(addresses));
        case Err(e) => return Err(e);
      } else if kind == ADDRESS_REQUEST {
        return Ok(AddressRequest);
      } else if kind == ROUTE_ADVERTISEMENT {
        var list := ParseRouteAdvertisement(value);
        match list
        case Ok(routes) => return Ok(RouteAdvertisement(routes));
        case Err(e) => return Err(e);
      } else if kind == DATAGRAM {
        return Ok(Datagram(value));
      }
      return Ok(Unknown(kind, value));
    }
  }

  /** The frames of the stream `fed` are those taken and those in `buf`, in order. */
  ghost predicate InStep(fed: bytes, taken: seq<Frame>, buf: bytes) {
    Frames(fed) == taken + Frames(buf) && Rest(fed) == Rest(buf)
  }

  lemma PushInStep(fed: bytes, taken: seq<Frame>, buf: bytes, data: bytes)
    requires InStep(fed, taken, buf)
    ensures InStep(fed + data, taken, buf + data)
  {
    FramesAppend(buf, data);
    FramesAppend(fed, data);
    Regroup(taken, Frames(buf), Frames(Rest(buf) + data), Frames(fed), Frames(fed + data), Frames(buf + data));
  }

  lemma Regroup<T>(a: seq<T>, b: seq<T>, c: seq<T>, ab: seq<T>, abc: seq<T>, bc: seq<T>)
    requires ab == a + b && abc == ab + c && bc == b + c
    ensures abc == a + bc
  {
  }

  lemma NextInStep(fed: bytes, taken: seq<Frame>, buf: bytes)
    requires InStep(fed, taken, buf)
    ensures match NextFrame(buf)
            case None => taken == Frames(fed)
            case Some((f, n)) => InStep(fed, taken + [f], buf[n..]) && taken + [f] <= Frames(fed)
  {
    if NextFrame(buf).Some? {
      var (f, n) := NextFrame(buf).value;
      assert taken + ([f] + Frames(buf[n..])) == taken + [f] + Frames(buf[n..]);
    }
  }

  // ---------------------------------------------------------------- reading a whole stream

  /** What frames mean, one by one. */
  function Meanings(frames: seq<Frame>): seq<Result<Capsule, Fault>> {
    seq(|frames|, i requires 0 <= i < |frames| => Interpret(frames[i]))
  }

  lemma MeaningsSnoc(frames: seq<Frame>, f: Frame)
    ensures Meanings(frames + [f]) == Meanings(frames) + [Interpret(f)]
  {
    hide Interpret;
  }

  /** Takes every capsule that has come whole; a malformed list stops nothing. */
  method ReadOn(parser: CapsuleParser) returns (read: seq<Result<Capsule, Fault>>)
    requires parser.Valid()
    modifies parser
    ensures parser.Valid() && parser.fed == old(parser.fed)
    ensures parser.taken == Frames(parser.fed) && parser.buf == Rest(parser.fed)
    ensures Meanings(parser.taken) == Meanings(old(parser.taken)) + read
  {
    hide Interpret, Frames, Rest, NextFrame, Meanings, InStep;
    read := [];
    while true
      invariant parser.Valid() && parser.fed == old(parser.fed)
      invariant Meanings(parser.taken) == Meanings(old(parser.taken)) + read
      decreases |parser.buf|
    {
      ghost var taken, buf := parser.taken, parser.buf;
      var capsule := parser.Next();
      match capsule
      case Ok(None) =>
        NothingNext(parser.fed, parser.taken, parser.buf);
        return;
      case Ok(Some(c)) =>
        MeaningsSnoc(taken, NextFrame(buf).value.0);
        read := read + [Ok(c)];
      case Err(e) =>
        MeaningsSnoc(taken, NextFrame(buf).value.0);
        read := read + [Err(e)];
    }
  }

  lemma NothingNext(fed: bytes, taken: seq<Frame>, buf: bytes)
    requires InStep(fed, taken, buf) && NextFrame(buf).None?
    ensures taken == Frames(fed) && buf == Rest(fed)
  {
    assert taken + [] == taken;
  }

  /**
    * Any capsules at all, laid down in a row and cut in any pieces that fit the buffer with a
    * capsule: reading on after each piece takes them all, kinds and values, in order, whatever
    * their lists hold, and the buffer never resets.
    */
  method ReadStream(pieces: seq<bytes>, ghost frames: seq<Frame>, ghost largest: nat)
    returns (read: seq<Result<Capsule, Fault>>, parser: CapsuleParser)
    requires forall i :: 0 <= i < |frames| ==> GoodFrame(frames[i]) && |Encode(frames[i])| <= largest
    requires Concat(pieces) == EncodeAll(frames)
    requires forall i :: 0 <= i < |pieces| ==> largest + |pieces[i]| <= MAX_CAPSULE_BUF
    ensures fresh(parser) && parser.Valid() && parser.taken == frames && parser.buf == []
    ensures read == Meanings(frames)
  {
    hide Interpret, Frames, Rest, NextFrame, Meanings, InStep, Encode, EncodeAll;
    parser := new CapsuleParser();
    read := [];
    NoFrames();
    NoMeanings();
    assert pieces[0..] == pieces && [] + Concat(pieces) == Concat(pieces);
    for i := 0 to |pieces|
      invariant fresh(parser) && parser.Valid()
      invariant parser.fed + Concat(pieces[i..]) == EncodeAll(frames)
      invariant parser.taken == Frames(parser.fed) && parser.buf == Rest(parser.fed)
      invariant read == Meanings(parser.taken)
    {
      ghost var before, rest := parser.fed, Concat(pieces[i + 1..]);
      assert pieces[i..][1..] == pieces[i + 1..];
      assert before + (pieces[i] + rest) == (before + pieces[i]) + rest;
      assert EncodeAll(frames)[..|before|] == before;
      RestIsShort(frames, |before|, largest);
      parser.Push(pieces[i]);
      var more := ReadOn(parser);
      read := read + more;
    }
    assert pieces[|pieces|..] == [] && parser.fed + [] == parser.fed;
    StreamRoundTrip(frames);
  }

  lemma NoMeanings()
    ensures Meanings([]) == []
  {
  }
}
