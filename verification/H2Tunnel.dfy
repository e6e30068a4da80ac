/**
  * The HTTP/2 carrier: packets batched into capsules on the way out, and capsules drained into
  * packets on the way in, however the stream between the two is cut.
  */
module H2Tunnel {
  import opened Bytes
  import opened Varint
  import opened Capsules
  import opened Datagrams

  const H2_SEND_BATCH_BYTES: nat := 32 * 1024

  // ---------------------------------------------------------------- the way out

  /** What goes on the request stream in one piece: a batch of packets, or a capsule of the control side. */
  datatype Out = Batch(frames: seq<Frame>, wire: bytes) | Control(frame: Frame, wire: bytes)

  predicate AllGood(frames: seq<Frame>) {
    forall i :: 0 <= i < |frames| ==> GoodFrame(frames[i])
  }

  predicate Sendable(packets: seq<bytes>) {
    forall i :: 0 <= i < |packets| ==> |packets[i]| < VARINT_LIMIT
  }

  /** Whole capsules in a row, at most one over the size of a batch. */
  predicate GoodBatch(frames: seq<Frame>, wire: bytes) {
    && AllGood(frames) && frames != []
    && wire == EncodeAll(frames)
    && |EncodeAll(frames[..|frames| - 1])| < H2_SEND_BATCH_BYTES
  }

  /** Whole capsules, whichever side they are from. */
  predicate WholeOut(o: Out) {
    if o.Batch? then GoodBatch(o.frames, o.wire) else GoodFrame(o.frame) && o.wire == Encode(o.frame)
  }

  /** The packets as datagram capsules. */
  function DatagramFrames(packets: seq<bytes>): (frames: seq<Frame>)
    requires Sendable(packets)
    ensures |frames| == |packets| && AllGood(frames)
    ensures forall i :: 0 <= i < |frames| ==> frames[i] == Frame(DATAGRAM, packets[i])
  {
    seq(|packets|, i requires 0 <= i < |packets| => Frame(DATAGRAM, packets[i]))
  }

  /** The packet capsules of what was sent, in order. */
  function Sent(outs: seq<Out>): seq<Frame> {
    if outs == [] then []
    else Sent(outs[..|outs| - 1]) + if outs[|outs| - 1].Batch? then outs[|outs| - 1].frames else []
  }

  function FramesOf(o: Out): seq<Frame> {
    if o.Batch? then o.frames else [o.frame]
  }

  /** All the capsules of what was sent, in order. */
  function AllSent(outs: seq<Out>): seq<Frame> {
    if outs == [] then [] else AllSent(outs[..|outs| - 1]) + FramesOf(outs[|outs| - 1])
  }

  /** What should be sent: before each batch, the capsules of the control side at the packet it starts with. */
  function Woven(outs: seq<Out>, control: nat -> seq<Frame>): seq<Frame> {
    if outs == [] then []
    else
      var last, before := outs[|outs| - 1], outs[..|outs| - 1];
      Woven(before, control) + if last.Batch? then control(|Sent(before)|) + last.frames else []
  }

  /** A batch is full, or took all the packets there were: the next one, if any, had not come. */
  ghost predicate RideAlong(outs: seq<Out>, ready: nat -> bool, n: nat) {
    forall k :: 0 <= k < |outs| && outs[k].Batch? ==> TookAll(outs[k], |Sent(outs[..k + 1])|, ready, n)
  }

  ghost predicate TookAll(o: Out, end: nat, ready: nat -> bool, n: nat) {
    |o.wire| >= H2_SEND_BATCH_BYTES || end >= n || !ready(end)
  }

  lemma RidesOn(outs: seq<Out>, o: Out, ready: nat -> bool, n: nat)
    requires RideAlong(outs, ready, n) && (o.Batch? ==> TookAll(o, |Sent(outs + [o])|, ready, n))
    ensures RideAlong(outs + [o], ready, n)
  {
    hide TookAll, Sent;
    var outs' := outs + [o];
    forall k | 0 <= k < |outs'| && outs'[k].Batch? ensures TookAll(outs'[k], |Sent(outs'[..k + 1])|, ready, n) {
      assert outs'[..k + 1] == if k < |outs| then outs[..k + 1] else outs';
    }
  }

  /** All that goes on the request stream. */
  function Stream(outs: seq<Out>): bytes {
    if outs == [] then [] else Stream(outs[..|outs| - 1]) + outs[|outs| - 1].wire
  }

  /** What is sent piece after piece is its capsules one after the other, none inside another. */
  lemma {:induction false} StreamOfOuts(outs: seq<Out>)
    requires forall o :: o in outs ==> WholeOut(o)
    ensures AllGood(AllSent(outs)) && Stream(outs) == EncodeAll(AllSent(outs))
    decreases |outs|
  {
    if outs != [] {
      hide GoodBatch, Encode, EncodeAll, GoodFrame;
      var last, rest := outs[|outs| - 1], outs[..|outs| - 1];
      assert forall o :: o in rest ==> o in outs;
      StreamOfOuts(rest);
      OutEncodes(last);
      EncodeAllAppend(AllSent(rest), FramesOf(last));
    } else {
      NothingSent();
    }
  }

  lemma OutEncodes(o: Out)
    requires WholeOut(o)
    ensures AllGood(FramesOf(o)) && o.wire == EncodeAll(FramesOf(o))
  {
    hide Encode;
    if o.Control? {
      EncodeAllSnoc([], o.frame);
      assert [] + [o.frame] == [o.frame];
    }
  }

  lemma NothingSent()
    ensures AllGood([]) && EncodeAll([]) == []
  {
  }

  lemma {:induction false} EncodeAllAppend(x: seq<Frame>, y: seq<Frame>)
    requires AllGood(x) && AllGood(y)
    ensures AllGood(x + y) && EncodeAll(x + y) == EncodeAll(x) + EncodeAll(y)
  {
    hide Encode, GoodFrame;
    if x == [] {
      assert x + y == y;
    } else {
      assert (x + y)[1..] == x[1..] + y;
      EncodeAllAppend(x[1..], y);
      assert Encode(x[0]) + (EncodeAll(x[1..]) + EncodeAll(y)) == EncodeAll(x) + EncodeAll(y);
    }
  }

  lemma EncodeAllSnoc(frames: seq<Frame>, f: Frame)
    requires AllGood(frames) && GoodFrame(f)
    ensures AllGood(frames + [f]) && EncodeAll(frames + [f]) == EncodeAll(frames) + Encode(f)
  {
    EncodeAllAppend(frames, [f]);
    assert EncodeAll([f]) == Encode(f) + EncodeAll([]);
  }

  /** Lays a capsule down at the end of `out`. */
  method AppendCapsule(out: bytes, kind: nat, value: bytes) returns (longer: bytes)
    requires GoodFrame(Frame(kind, value))
    ensures longer == out + Encode(Frame(kind, value))
  {
    longer := out;
    longer := longer + PutVarint(kind);
    longer := longer + PutVarint(|value|);
    longer := longer + value;
  }

  /**
    * The sender: takes `packets` off the queue in batches, `ready(i)` telling whether packet i has
    * come when the batch before it looks for it, and sends the capsules of the control side,
    * `control(i)`, before the batch that starts at packet i, or behind the last one. Every packet goes
    * out once and in order, and so does every control capsule, in its place; every piece is whole
    * capsules, and a batch is at most one capsule over its size and leaves behind no packet that
    * had come unless it is full.
    */
  method PumpOutbound(packets: seq<bytes>, ready: nat -> bool, control: nat -> seq<Frame>)
    returns (outs: seq<Out>)
    requires Sendable(packets) && forall i :: AllGood(control(i))
    ensures Sent(outs) == DatagramFrames(packets)
    ensures AllSent(outs) == Woven(outs, control) + control(|packets|)
    ensures forall o :: o in outs ==> WholeOut(o)
    ensures forall o :: o in outs && o.Control? ==> exists i :: 0 <= i <= |packets| && o.frame in control(i)
    ensures RideAlong(outs, ready, |packets|)
  {
    hide GoodBatch, GoodFrame, Encode, Sent, AllSent, Woven, WholeOut, RideAlong;
    outs := [];
    var next := 0;
    var all := DatagramFrames(packets);
    NoneSent(control, ready, |packets|);
    while next < |packets|
      invariant next <= |packets|
      invariant Sent(outs) == all[..next] && AllSent(outs) == Woven(outs, control)
      invariant forall o :: o in outs ==> WholeOut(o)
      invariant forall o :: o in outs && o.Control? ==> exists i :: 0 <= i <= |packets| && o.frame in control(i)
      invariant RideAlong(outs, ready, |packets|)
    {
      outs := SendControl(outs, control(next), control, ready, |packets|);
      var end, batch := FillBatch(packets, ready, next);
      var frames := all[next..end];
      SentSnoc(outs, Batch(frames, batch), control);
      assert all[..next] + frames == all[..end];
      RidesOn(outs, Batch(frames, batch), ready, |packets|);
      BatchIsWhole(frames, batch);
      outs := outs + [Batch(frames, batch)];
      next := end;
    }
    assert all[..|packets|] == all;
    outs := SendControl(outs, control(next), control, ready, |packets|);
  }

  lemma BatchIsWhole(frames: seq<Frame>, wire: bytes)
    requires GoodBatch(frames, wire)
    ensures WholeOut(Batch(frames, wire))
  {
  }

  lemma NoneSent(control: nat -> seq<Frame>, ready: nat -> bool, n: nat)
    ensures Sent([]) == [] && AllSent([]) == [] && Woven([], control) == [] && RideAlong([], ready, n)
  {
  }

  lemma SentSnoc(outs: seq<Out>, o: Out, control: nat -> seq<Frame>)
    ensures Sent(outs + [o]) == Sent(outs) + if o.Batch? then o.frames else []
    ensures AllSent(outs + [o]) == AllSent(outs) + FramesOf(o)
    ensures Woven(outs + [o], control)
         == Woven(outs, control) + if o.Batch? then control(|Sent(outs)|) + o.frames else []
  {
    assert (outs + [o])[..|outs|] == outs;
  }

  /** Capsules of the control side, each on its own. */
  method SendControl(outs: seq<Out>, frames: seq<Frame>, ghost control: nat -> seq<Frame>, ghost ready: nat -> bool,
                     ghost n: nat)
    returns (longer: seq<Out>)
    requires AllGood(frames) && RideAlong(outs, ready, n)
    ensures Sent(longer) == Sent(outs) && AllSent(longer) == AllSent(outs) + frames
    ensures Woven(longer, control) == Woven(outs, control) && RideAlong(longer, ready, n)
    ensures forall o :: o in longer ==> o in outs || (o.Control? && WholeOut(o) && o.frame in frames)
  {
    hide GoodFrame, Encode, Sent, AllSent, Woven, RideAlong;
    longer := outs;
    for i := 0 to |frames|
      invariant Sent(longer) == Sent(outs) && AllSent(longer) == AllSent(outs) + frames[..i]
      invariant Woven(longer, control) == Woven(outs, control) && RideAlong(longer, ready, n)
      invariant forall o :: o in longer ==> o in outs || (o.Control? && WholeOut(o) && o.frame in frames)
    {
      var out := Control(frames[i], Encode(frames[i]));
      SentSnoc(longer, out, control);
      RidesOn(longer, out, ready, n);
      assert frames[..i + 1] == frames[..i] + [frames[i]];
      assert AllSent(outs) + (frames[..i] + [frames[i]]) == (AllSent(outs) + frames[..i]) + [frames[i]];
      longer := longer + [out];
    }
    assert frames[..|frames|] == frames;
  }

  /** A packet and those queued behind it, until the batch is full or the queue is empty. */
  method FillBatch(packets: seq<bytes>, ready: nat -> bool, next: nat) returns (end: nat, batch: bytes)
    requires Sendable(packets) && next < |packets|
    ensures next < end <= |packets|
    ensures end < |packets| && ready(end) ==> |batch| >= H2_SEND_BATCH_BYTES
    ensures GoodBatch(DatagramFrames(packets)[next..end], batch)
  {
    hide Encode, EncodeAll, GoodBatch;
    var all := DatagramFrames(packets);
    ghost var frames := [all[next]];
    BatchStarts(all[next]);
    batch := AppendCapsule([], DATAGRAM, packets[next]);
    end := next + 1;
    while |batch| < H2_SEND_BATCH_BYTES && end < |packets| && ready(end)
      invariant next < end <= |packets|
      invariant frames == all[next..end] && GoodBatch(frames, batch)
      decreases |packets| - end
    {
      BatchGrows(frames, batch, all[end]);
      batch := AppendCapsule(batch, DATAGRAM, packets[end]);
      frames := frames + [all[end]];
      end := end + 1;
    }
  }

  lemma BatchStarts(f: Frame)
    requires GoodFrame(f)
    ensures GoodBatch([f], [] + Encode(f))
  {
    hide Encode, GoodFrame;
    EncodeAllSnoc([], f);
    assert [] + [f] == [f] && [f][..0] == [];
  }

  lemma BatchGrows(frames: seq<Frame>, batch: bytes, f: Frame)
    requires GoodBatch(frames, batch) && |batch| < H2_SEND_BATCH_BYTES && GoodFrame(f)
    ensures GoodBatch(frames + [f], batch + Encode(f))
  {
    hide Encode, GoodFrame, EncodeAll;
    assert (frames + [f])[..|frames|] == frames;
    EncodeAllSnoc(frames, f);
  }

  // ---------------------------------------------------------------- the way in

  /** What becomes of a packet handed to the inbound queue. */
  datatype Handing = Taken | Full | Closed

  /** What a drain does with a capsule. */
  datatype Act = Stop | Skip | Hand(packet: bytes) | Pass(addresses: seq<Assigned>)

  function ActOn(capsule: Result<Capsule, Capsules.Fault>): Act {
    match capsule
    case Ok(Datagram(payload)) =>
      (match StripDatagramContext(payload) case None => Skip case Some(packet) => Hand(packet))
    case Ok(AddressAssign(list)) => Pass(list)
    case Ok(_) => Skip
    case Err(_) => Stop
  }

  /** What a drain does: what stays in the buffer, the packets it hands on, the addresses it passes on. */
  datatype Drain = Drain(rest: bytes, offered: seq<bytes>, addresses: seq<Assigned>)

  /** One drain of `buf`, the packet handed on as number k faring as `fate(k)` says. */
  function Drained(buf: bytes, fate: nat -> Handing, k: nat): Drain
    decreases |buf|
  {
    match NextFrame(buf)
    case None => Drain(buf, [], [])
    case Some((f, n)) =>
      match ActOn(Interpret(f))
      case Stop => Drain(buf[n..], [], [])
      case Skip => Drained(buf[n..], fate, k)
      case Pass(list) =>
        var d := Drained(buf[n..], fate, k);
        d.(addresses := list + d.addresses)
      case Hand(packet) =>
        var d := if fate(k) == Closed then Drain(buf[n..], [], []) else Drained(buf[n..], fate, k + 1);
        d.(offered := [packet] + d.offered)
  }

  /** A drain goes on behind the next capsule. */
  lemma DrainedStep(buf: bytes, fate: nat -> Handing, k: nat)
    ensures Drained(buf, fate, k)
         == match NextFrame(buf)
            case None => Drain(buf, [], [])
            case Some((f, n)) =>
              match ActOn(Interpret(f))
              case Stop => Drain(buf[n..], [], [])
              case Skip => Drained(buf[n..], fate, k)
              case Pass(list) =>
                (var d := Drained(buf[n..], fate, k);
                 d.(addresses := list + d.addresses))
              case Hand(packet) =>
                (var d := if fate(k) == Closed then Drain(buf[n..], [], []) else Drained(buf[n..], fate, k + 1);
                 d.(offered := [packet] + d.offered))
  {
    hide Interpret, ActOn, NextFrame;
  }

  /** The drain loop over the parser. */
  method DrainCapsules(parser: CapsuleParser, fate: nat -> Handing)
    returns (delivered: bool, offered: seq<bytes>, addresses: seq<Assigned>)
    requires parser.Valid()
    modifies parser
    ensures parser.Valid() && parser.fed == old(parser.fed)
    ensures Drained(old(parser.buf), fate, 0) == Drain(parser.buf, offered, addresses)
    ensures delivered <==> offered != []
  {
    hide Interpret, ActOn, NextFrame, Drained;
    delivered, offered, addresses := false, [], [];
    ghost var start := parser.buf;
    while true
      invariant parser.Valid() && parser.fed == old(parser.fed)
      invariant Drained(start, fate, 0) == After(offered, addresses, Drained(parser.buf, fate, |offered|))
      invariant delivered <==> offered != []
      decreases |parser.buf|
    {
      DrainedStep(parser.buf, fate, |offered|);
      var capsule := parser.Next();
      if capsule == Ok(None) {
        return;
      }
      match ActOn(match capsule case Ok(c) => Ok(c.value) case Err(e) => Err(e))
      case Hand(packet) =>
        delivered := true;
        var closed := fate(|offered|) == Closed;
        AfterPacket(offered, addresses, packet,
                    if closed then Drain(parser.buf, [], []) else Drained(parser.buf, fate, |offered| + 1));
        offered := offered + [packet];
        if closed {
          return;
        }
      case Pass(list) =>
        AfterAddresses(offered, addresses, list, Drained(parser.buf, fate, |offered|));
        addresses := addresses + list;
      case Skip =>
      case Stop => return;
    }
  }

  function After(offered: seq<bytes>, addresses: seq<Assigned>, d: Drain): Drain {
    Drain(d.rest, offered + d.offered, addresses + d.addresses)
  }

  lemma AfterPacket(offered: seq<bytes>, addresses: seq<Assigned>, packet: bytes, d: Drain)
    ensures After(offered, addresses, d.(offered := [packet] + d.offered)) == After(offered + [packet], addresses, d)
  {
    assert offered + ([packet] + d.offered) == offered + [packet] + d.offered;
  }

  lemma AfterAddresses(offered: seq<bytes>, addresses: seq<Assigned>, list: seq<Assigned>, d: Drain)
    ensures After(offered, addresses, d.(addresses := list + d.addresses)) == After(offered, addresses + list, d)
  {
    assert addresses + (list + d.addresses) == addresses + list + d.addresses;
  }

  // ---------------------------------------------------------------- what a drain leaves behind

  /** The list in every frame but those past `n` reads well. */
  ghost predicate SoundUpTo(frames: seq<Frame>, n: int) {
    forall i :: 0 <= i < |frames| && i < n ==> Interpret(frames[i]).Ok?
  }

  ghost predicate Opens(fate: nat -> Handing) {
    forall k :: fate(k) != Closed
  }

  /** The packets in `frames`, without the context IDs some carry; what is no packet is passed over. */
  function Packets(frames: seq<Frame>): seq<bytes> {
    if frames == [] then []
    else
      var act := ActOn(Interpret(frames[0]));
      (if act.Hand? then [act.packet] else []) + Packets(frames[1..])
  }

  lemma FramesOfNext(buf: bytes)
    requires NextFrame(buf).Some?
    ensures var (f, n) := NextFrame(buf).value;
            && Frames(buf) == [f] + Frames(buf[n..]) && Frames(buf)[1..] == Frames(buf[n..])
            && Rest(buf) == Rest(buf[n..])
  {
  }

  lemma ActStops(f: Frame)
    ensures ActOn(Interpret(f)).Stop? <==> Interpret(f).Err?
  {
  }

  /**
    * A drain takes every capsule that has come whole exactly when no malformed list stands before
    * the last of them: it stops at the first one, and what is behind it waits for the next drain.
    */
  lemma {:induction false} DrainsAll(buf: bytes, fate: nat -> Handing, k: nat)
    requires Opens(fate)
    ensures Drained(buf, fate, k).rest == Rest(buf) <==> SoundUpTo(Frames(buf), |Frames(buf)| - 1)
    decreases |buf|
  {
    hide Interpret, ActOn, NextFrame;
    if NextFrame(buf).Some? {
      var (f, n) := NextFrame(buf).value;
      var tail := buf[n..];
      FramesOfNext(buf);
      ActStops(f);
      if Interpret(f).Ok? {
        DrainsAll(tail, fate, k);
        DrainsAll(tail, fate, k + 1);
        SoundCons(f, Frames(tail), |Frames(tail)|);
      } else {
        RestShrinks(tail);
        assert Frames(buf)[0] == f;
      }
    }
  }

  lemma SoundCons(f: Frame, frames: seq<Frame>, n: int)
    requires Interpret(f).Ok?
    ensures SoundUpTo([f] + frames, n) <==> SoundUpTo(frames, n - 1)
  {
    hide Interpret;
    var all := [f] + frames;
    assert forall i :: 0 <= i < |frames| ==> frames[i] == all[i + 1];
  }

  lemma RestShrinks(s: bytes)
    ensures Rest(s) == s <==> Frames(s) == []
  {
  }

  /** A malformed list in front of a packet keeps the packet back: a drain that hands none on and leaves one. */
  lemma DrainLeavesOne(fate: nat -> Handing)
    ensures var bad := Frame(ADDRESS_ASSIGN, [0, 5]);
            var packet := [0x45] + seq(19, _ => 0);
            var behind := Frame(DATAGRAM, packet);
            && Packets([bad, behind]) == [packet]
            && Drained(EncodeAll([bad, behind]), fate, 0) == Drain(EncodeAll([behind]), [], [])
  {
    hide Encode, NextFrame, Interpret, Frames, Rest, ActOn;
    var packet: bytes := [0x45] + seq(19, _ => 0);
    var bad, behind := Frame(ADDRESS_ASSIGN, [0, 5]), Frame(DATAGRAM, packet);
    var frames := [bad, behind];
    assert frames[1..] == [behind] && [behind][1..] == [];
    FrameRoundTrip(bad, EncodeAll([behind]));
    assert (Encode(bad) + EncodeAll([behind]))[|Encode(bad)|..] == EncodeAll([behind]);
    BadList(bad.value);
    ActStops(bad);
    DatagramHanded(packet);
    assert Packets([behind]) == [packet] + Packets([]);
    assert Packets(frames) == [] + Packets([behind]);
  }

  /** An address of version 5. */
  lemma BadList(value: bytes)
    requires value == [0, 5]
    ensures Interpret(Frame(ADDRESS_ASSIGN, value)).Err?
  {
    assert [value[0] % 64] + value[1..1] == [0];
  }

  lemma DatagramHanded(packet: bytes)
    requires LooksLikeIpPacket(packet) && !HidesAnother(packet)
    ensures Interpret(Frame(DATAGRAM, packet)).Ok? && ActOn(Interpret(Frame(DATAGRAM, packet))) == Hand(packet)
  {
    StripBare(packet);
  }
}
