/**
  * The receiving end of the HTTP/2 carrier over whole runs: a push and a drain for each piece of
  * the stream, whatever capsules it holds and however it is cut.
  */
module H2Arrival {
  import opened Bytes
  import opened Capsules
  import opened Datagrams
  import opened H2Tunnel

  // ---------------------------------------------------------------- what a drain keeps

  /** The addresses that `frames` assign, in order. */
  function Assignments(frames: seq<Frame>): seq<Assigned> {
    if frames == [] then []
    else
      var act := ActOn(Interpret(frames[0]));
      (if act.Pass? then act.addresses else []) + Assignments(frames[1..])
  }

  lemma PacketsCons(f: Frame, frames: seq<Frame>)
    ensures Packets([f] + frames)
         == (var act := ActOn(Interpret(f)); if act.Hand? then [act.packet] else []) + Packets(frames)
    ensures Assignments([f] + frames)
         == (var act := ActOn(Interpret(f)); if act.Pass? then act.addresses else []) + Assignments(frames)
  {
    hide ActOn, Interpret;
    assert ([f] + frames)[1..] == frames;
  }

  /**
    * Whatever a drain meets, malformed lists and a closed queue included, it loses nothing: the
    * packets and the addresses of the buffer are those it handed on and those still in what it left.
    */
  lemma {:induction false} DrainKeeps(buf: bytes, fate: nat -> Handing, k: nat)
    ensures (var d := Drained(buf, fate, k);
             && |d.rest| <= |buf|
             && Packets(Frames(buf)) == d.offered + Packets(Frames(d.rest))
             && Assignments(Frames(buf)) == d.addresses + Assignments(Frames(d.rest))
             && Rest(d.rest) == Rest(buf))
    decreases |buf|
  {
    hide Interpret, ActOn, NextFrame, Frames, Rest, Packets, Assignments, Drained;
    DrainedStep(buf, fate, k);
    if NextFrame(buf).Some? {
      var (f, n) := NextFrame(buf).value;
      FramesOfNext(buf);
      PacketsCons(f, Frames(buf[n..]));
      DrainKeeps(buf[n..], fate, k);
      DrainKeeps(buf[n..], fate, k + 1);
    }
  }

  /** What stands behind the first malformed list, or else the capsule that has not come whole. */
  ghost function Behind(s: bytes): (r: bytes)
    ensures |r| <= |s|
    decreases |s|
  {
    match NextFrame(s)
    case None => s
    case Some((f, n)) => if Interpret(f).Err? then s[n..] else Behind(s[n..])
  }

  /** A drain stops at the first malformed list, and nowhere else before the end. */
  lemma {:induction false} DrainStops(buf: bytes, fate: nat -> Handing, k: nat)
    requires Opens(fate)
    ensures Drained(buf, fate, k).rest == Behind(buf)
    decreases |buf|
  {
    hide Interpret, ActOn, NextFrame, Drained;
    DrainedStep(buf, fate, k);
    if NextFrame(buf).Some? {
      var (f, n) := NextFrame(buf).value;
      ActStops(f);
      DrainStops(buf[n..], fate, k);
      DrainStops(buf[n..], fate, k + 1);
    }
  }

  /**
    * What stands behind the first malformed list or, with packets counted from `k` on, the first one
    * that finds the queue closed, or else the capsule that has not come whole.
    */
  ghost function Halt(s: bytes, fate: nat -> Handing, k: nat): (r: bytes)
    ensures |r| <= |s|
    decreases |s|
  {
    match NextFrame(s)
    case None => s
    case Some((f, n)) =>
      if Interpret(f).Err? then s[n..]
      else if !ActOn(Interpret(f)).Hand? then Halt(s[n..], fate, k)
      else if fate(k) == Closed then s[n..]
      else Halt(s[n..], fate, k + 1)
  }

  /** A drain stops there, whether the queue stays open or not. */
  lemma {:induction false} DrainHalts(buf: bytes, fate: nat -> Handing, k: nat)
    ensures Drained(buf, fate, k).rest == Halt(buf, fate, k)
    decreases |buf|
  {
    hide Interpret, ActOn, NextFrame, Drained;
    DrainedStep(buf, fate, k);
    if NextFrame(buf).Some? {
      var (f, n) := NextFrame(buf).value;
      ActStops(f);
      DrainHalts(buf[n..], fate, k);
      DrainHalts(buf[n..], fate, k + 1);
    }
  }

  // ---------------------------------------------------------------- when the buffer resets

  /** What is in the buffer after a push and a drain for each piece, as packets fare, as long as all of them fit. */
  ghost function LeftAs(buf: bytes, pieces: seq<bytes>, fate: nat -> nat -> Handing, i: nat): bytes
    decreases |pieces|
  {
    if pieces == [] then buf else LeftAs(Halt(buf + pieces[0], fate(i), 0), pieces[1..], fate, i + 1)
  }

  /** Each piece fits the buffer with what the drains before it, as packets fared, left there. */
  ghost predicate FitAs(buf: bytes, pieces: seq<bytes>, fate: nat -> nat -> Handing, i: nat)
    decreases |pieces|
  {
    pieces != [] ==>
      && |buf| + |pieces[0]| <= MAX_CAPSULE_BUF
      && FitAs(Halt(buf + pieces[0], fate(i), 0), pieces[1..], fate, i + 1)
  }

  /** What is in the buffer after a push and a drain for each piece, as long as all of them fit. */
  ghost function Left(buf: bytes, pieces: seq<bytes>): bytes
    decreases |pieces|
  {
    if pieces == [] then buf else Left(Behind(buf + pieces[0]), pieces[1..])
  }

  /** Each piece fits the buffer with what the drains before it left there. */
  ghost predicate AllFit(buf: bytes, pieces: seq<bytes>)
    decreases |pieces|
  {
    pieces != [] ==> |buf| + |pieces[0]| <= MAX_CAPSULE_BUF && AllFit(Behind(buf + pieces[0]), pieces[1..])
  }

  /** What a push makes of the buffer. */
  function Pushed(buf: bytes, piece: bytes): bytes {
    if |buf| + |piece| <= MAX_CAPSULE_BUF then buf + piece else []
  }

  /** A push and a drain for each piece, one after the other, whatever is reset between. */
  ghost function Drains(buf: bytes, pieces: seq<bytes>, fate: nat -> nat -> Handing, i: nat): Drain
    decreases |pieces|
  {
    if pieces == [] then Drain(buf, [], [])
    else
      var d := Drained(Pushed(buf, pieces[0]), fate(i), 0);
      After(d.offered, d.addresses, Drains(d.rest, pieces[1..], fate, i + 1))
  }

  lemma AfterBoth(offered: seq<bytes>, addresses: seq<Assigned>, packets: seq<bytes>, list: seq<Assigned>, d: Drain)
    ensures After(offered, addresses, After(packets, list, d)) == After(offered + packets, addresses + list, d)
  {
    assert offered + (packets + d.offered) == (offered + packets) + d.offered;
    assert addresses + (list + d.addresses) == (addresses + list) + d.addresses;
  }

  lemma NothingAfter(d: Drain)
    ensures After([], [], d) == d
  {
  }

  lemma AfterAll(offered: seq<bytes>, addresses: seq<Assigned>, buf: bytes)
    ensures After(offered, addresses, Drain(buf, [], [])) == Drain(buf, offered, addresses)
  {
  }

  /** Pushes a piece and drains. While it fits, no packet and no address is lost, whatever the stream holds. */
  method TakePiece(parser: CapsuleParser, piece: bytes, fate: nat -> Handing)
    returns (offered: seq<bytes>, addresses: seq<Assigned>)
    requires parser.Valid()
    modifies parser
    ensures parser.Valid()
    ensures Drained(Pushed(old(parser.buf), piece), fate, 0) == Drain(parser.buf, offered, addresses)
    ensures |old(parser.buf)| + |piece| <= MAX_CAPSULE_BUF ==>
              && parser.fed == old(parser.fed) + piece
              && Packets(Frames(old(parser.buf) + piece)) == offered + Packets(Frames(parser.buf))
              && Assignments(Frames(old(parser.buf) + piece)) == addresses + Assignments(Frames(parser.buf))
              && parser.buf == Halt(old(parser.buf) + piece, fate, 0)
    ensures |old(parser.buf)| + |piece| > MAX_CAPSULE_BUF ==>
              parser.fed == parser.buf == [] && offered == [] && addresses == []
    ensures |parser.buf| <= |old(parser.buf)| + |piece|
  {
    hide Frames, Rest, Packets, Assignments, Drained, Halt, NextFrame, InStep;
    parser.Push(piece);
    ghost var now := parser.buf;
    DrainKeeps(now, fate, 0);
    DrainHalts(now, fate, 0);
    if now == [] {
      EmptyDrain(fate);
    }
    var delivered;
    delivered, offered, addresses := DrainCapsules(parser, fate);
  }

  lemma EmptyDrain(fate: nat -> Handing)
    ensures Drained([], fate, 0) == Drain([], [], []) && Packets(Frames([])) == []
  {
  }

  lemma {:induction false} PacketsAppend(x: seq<Frame>, y: seq<Frame>)
    ensures Packets(x + y) == Packets(x) + Packets(y)
    ensures Assignments(x + y) == Assignments(x) + Assignments(y)
  {
    hide ActOn, Interpret, Packets, Assignments;
    if x == [] {
      assert x + y == y;
      NoPackets();
    } else {
      var f, rest := x[0], x[1..];
      assert x == [f] + rest && x + y == [f] + (rest + y);
      PacketsCons(f, rest);
      PacketsCons(f, rest + y);
      PacketsAppend(rest, y);
    }
  }

  lemma NoPackets()
    ensures Packets([]) == [] && Assignments([]) == []
  {
  }

  /** What was handed on, then or now, and what is left, make up what was fed and what a piece brought. */
  lemma Brings<T>(before: seq<T>, offered: seq<T>, inBuf: seq<T>, brought: seq<T>, left: seq<T>, fed: seq<T>)
    requires before + inBuf == fed && inBuf + brought == offered + left
    ensures (before + offered) + left == fed + brought
  {
    assert (before + inBuf) + brought == before + (inBuf + brought);
    assert (before + offered) + left == before + (offered + left);
  }

  /** A piece brings the packets and addresses of the buffer it joins, less those that were there. */
  lemma PieceBrings(fed: bytes, taken: seq<Frame>, buf: bytes, piece: bytes, rest: bytes, before: seq<bytes>,
                    offered: seq<bytes>, before': seq<Assigned>, addresses: seq<Assigned>)
    requires InStep(fed, taken, buf) && before + Packets(Frames(buf)) == Packets(Frames(fed))
    requires before' + Assignments(Frames(buf)) == Assignments(Frames(fed))
    requires Packets(Frames(buf + piece)) == offered + Packets(Frames(rest))
    requires Assignments(Frames(buf + piece)) == addresses + Assignments(Frames(rest))
    ensures (before + offered) + Packets(Frames(rest)) == Packets(Frames(fed + piece))
    ensures (before' + addresses) + Assignments(Frames(rest)) == Assignments(Frames(fed + piece))
  {
    hide Frames, Rest, Packets, Assignments;
    FramesAppend(fed, piece);
    FramesAppend(buf, piece);
    var brought, held, left := Frames(Rest(buf) + piece), Frames(buf), Frames(rest);
    PacketsAppend(Frames(fed), brought);
    PacketsAppend(held, brought);
    Brings(before, offered, Packets(held), Packets(brought), Packets(left), Packets(Frames(fed)));
    Brings(before', addresses, Assignments(held), Assignments(brought), Assignments(left), Assignments(Frames(fed)));
  }

  /** The queue of packets stays open to the end. */
  ghost predicate StaysOpen(fate: nat -> nat -> Handing) {
    forall i :: Opens(fate(i))
  }

  /** With the queue open, packets do not matter to where a drain stops. */
  lemma {:induction false} OpenFits(buf: bytes, pieces: seq<bytes>, fate: nat -> nat -> Handing, i: nat)
    requires StaysOpen(fate)
    ensures FitAs(buf, pieces, fate, i) == AllFit(buf, pieces) && LeftAs(buf, pieces, fate, i) == Left(buf, pieces)
    decreases |pieces|
  {
    hide Halt, Behind, Drained, Opens;
    if pieces != [] {
      DrainHalts(buf + pieces[0], fate(i), 0);
      DrainStops(buf + pieces[0], fate(i), 0);
      OpenFits(Behind(buf + pieces[0]), pieces[1..], fate, i + 1);
    }
  }

  /**
    * The receiving end, for any pieces of anything, with packets that fare in any way: pushes each
    * and drains. Nothing is reset exactly when each piece fits with what the drains before it left;
    * and then the packets of all that came are those handed on, in order, and those still in the
    * buffer, and so are the addresses.
    */
  method Receive(pieces: seq<bytes>, fate: nat -> nat -> Handing)
    returns (offered: seq<bytes>, addresses: seq<Assigned>, parser: CapsuleParser)
    ensures fresh(parser) && parser.Valid()
    ensures Drains([], pieces, fate, 0) == Drain(parser.buf, offered, addresses)
    ensures parser.fed == Concat(pieces) <==> FitAs([], pieces, fate, 0)
    ensures FitAs([], pieces, fate, 0) ==>
              && offered + Packets(Frames(parser.buf)) == Packets(Frames(Concat(pieces)))
              && addresses + Assignments(Frames(parser.buf)) == Assignments(Frames(Concat(pieces)))
              && parser.buf == LeftAs([], pieces, fate, 0)
    ensures StaysOpen(fate) ==>
              && (FitAs([], pieces, fate, 0) <==> AllFit([], pieces))
              && (AllFit([], pieces) ==> parser.buf == Left([], pieces))
  {
    hide Frames, Rest, Packets, Assignments, Opens, Halt, InStep, Drained, After;
    parser := new CapsuleParser();
    offered, addresses := [], [];
    NoFrames();
    NoPackets();
    ghost var whole := true;
    assert pieces[0..] == pieces && pieces[..0] == [];
    NothingAfter(Drains([], pieces, fate, 0));
    for i := 0 to |pieces|
      invariant fresh(parser) && parser.Valid()
      invariant |parser.fed| <= |Concat(pieces[..i])| && |parser.buf| <= MAX_CAPSULE_BUF
      invariant Drains([], pieces, fate, 0) == After(offered, addresses, Drains(parser.buf, pieces[i..], fate, i))
      invariant whole ==>
                  && parser.fed == Concat(pieces[..i])
                  && offered + Packets(Frames(parser.buf)) == Packets(Frames(parser.fed))
                  && addresses + Assignments(Frames(parser.buf)) == Assignments(Frames(parser.fed))
                  && LeftAs([], pieces, fate, 0) == LeftAs(parser.buf, pieces[i..], fate, i)
                  && FitAs([], pieces, fate, 0) == FitAs(parser.buf, pieces[i..], fate, i)
      invariant !whole ==> |parser.fed| < |Concat(pieces[..i])| && !FitAs([], pieces, fate, 0)
    {
      ghost var before, buf, taken := parser.fed, parser.buf, parser.taken;
      assert pieces[i..][1..] == pieces[i + 1..] && pieces[..i + 1] == pieces[..i] + [pieces[i]];
      ConcatSnoc(pieces[..i], pieces[i]);
      var packets, list := TakePiece(parser, pieces[i], fate(i));
      if |buf| + |pieces[i]| > MAX_CAPSULE_BUF {
        whole := false;
      } else if whole {
        PieceBrings(before, taken, buf, pieces[i], parser.buf, offered, packets, addresses, list);
      }
      AfterBoth(offered, addresses, packets, list, Drains(parser.buf, pieces[i + 1..], fate, i + 1));
      offered, addresses := offered + packets, addresses + list;
    }
    assert pieces[..|pieces|] == pieces && pieces[|pieces|..] == [];
    AfterAll(offered, addresses, parser.buf);
    if StaysOpen(fate) {
      OpenFits([], pieces, fate, 0);
    }
  }

  /** A piece of `n` capsules of an address of version 5. */
  function BadPiece(n: nat): (s: bytes)
    ensures |s| == 4 * n
  {
    BadEncodes();
    if n == 0 then [] else Encode(Frame(ADDRESS_ASSIGN, [0, 5])) + BadPiece(n - 1)
  }

  lemma BadEncodes()
    ensures GoodFrame(Frame(ADDRESS_ASSIGN, [0, 5])) && |Encode(Frame(ADDRESS_ASSIGN, [0, 5]))| == 4
  {
  }

  /**
    * The buffer does reset although each piece fits it with the largest capsule: a drain passes one
    * malformed list and no more, so that whole capsules pile up.
    */
  lemma BufferResets()
    ensures (var piece := BadPiece(40_000);
             4 + |piece| <= MAX_CAPSULE_BUF && !AllFit([], [piece, piece]))
  {
    hide Encode, Interpret, NextFrame, Frames, Rest;
    var bad, piece, rest := Frame(ADDRESS_ASSIGN, [0, 5]), BadPiece(40_000), BadPiece(39_999);
    BadEncodes();
    BadList(bad.value);
    FrameRoundTrip(bad, rest);
    assert piece == Encode(bad) + rest && piece[4..] == rest;
    assert Behind(piece) == rest;
    assert [] + piece == piece && [piece, piece][1..] == [piece];
    assert !AllFit(rest, [piece]);
  }

  // ---------------------------------------------------------------- sound streams

  /** With no malformed list but in the last capsule, a drain leaves only what has not come whole. */
  lemma BehindIsRest(s: bytes)
    requires SoundUpTo(Frames(s), |Frames(s)| - 1)
    ensures Behind(s) == Rest(s)
  {
    hide Behind, Rest, Frames, Drained, SoundUpTo;
    var fate: nat -> Handing := _ => Taken;
    DrainStops(s, fate, 0);
    DrainsAll(s, fate, 0);
  }

  /** The frames of a stream are, in order, those of any start of it and then the others. */
  lemma FramesOfStart(frames: seq<Frame>, cut: nat)
    requires AllGood(frames) && cut <= |EncodeAll(frames)|
    ensures Frames(EncodeAll(frames)[..cut]) <= frames
  {
    hide Frames, Rest, EncodeAll;
    var s := EncodeAll(frames);
    StreamRoundTrip(frames);
    assert s == s[..cut] + s[cut..];
    FramesAppend(s[..cut], s[cut..]);
  }

  lemma PieceIsSound(frames: seq<Frame>, before: bytes, piece: bytes)
    requires AllGood(frames) && SoundUpTo(frames, |frames| - 1) && before + piece <= EncodeAll(frames)
    ensures (var held := Frames(Rest(before) + piece); SoundUpTo(held, |held| - 1))
    ensures Rest(before + piece) == Rest(Rest(before) + piece)
  {
    hide Frames, Rest, EncodeAll, Interpret;
    var now := before + piece;
    assert now == EncodeAll(frames)[..|now|];
    FramesOfStart(frames, |now|);
    FramesAppend(before, piece);
    var held, n := Frames(Rest(before) + piece), |Frames(before)|;
    forall j | 0 <= j < |held| && j < |held| - 1 ensures Interpret(held[j]).Ok? {
      assert held[j] == Frames(now)[n + j] == frames[n + j];
    }
  }

  /**
    * Capsules of which only the last may hold a malformed list, cut in any pieces that fit the
    * buffer with a capsule, never reset it, and nothing of them stays there.
    */
  lemma {:induction false} SoundFits(frames: seq<Frame>, before: bytes, pieces: seq<bytes>, largest: nat)
    requires AllGood(frames) && SoundUpTo(frames, |frames| - 1) && before + Concat(pieces) == EncodeAll(frames)
    requires forall i :: 0 <= i < |frames| ==> |Encode(frames[i])| <= largest
    requires forall i :: 0 <= i < |pieces| ==> largest + |pieces[i]| <= MAX_CAPSULE_BUF
    ensures AllFit(Rest(before), pieces) && Left(Rest(before), pieces) == []
    decreases |pieces|
  {
    hide Frames, Rest, EncodeAll, Encode, SoundUpTo, Behind;
    var stream := EncodeAll(frames);
    if pieces == [] {
      assert before + [] == before;
      StreamRoundTrip(frames);
    } else {
      var piece, rest := pieces[0], pieces[1..];
      assert before + (piece + Concat(rest)) == (before + piece) + Concat(rest);
      assert stream[..|before|] == before;
      RestIsShort(frames, |before|, largest);
      PieceIsSound(frames, before, piece);
      BehindIsRest(Rest(before) + piece);
      SoundFits(frames, before + piece, rest, largest);
    }
  }

  /** Such a stream comes out of `Receive` as its packets, all of them handed on. */
  lemma SoundArrives(frames: seq<Frame>, pieces: seq<bytes>, largest: nat)
    requires AllGood(frames) && SoundUpTo(frames, |frames| - 1) && Concat(pieces) == EncodeAll(frames)
    requires forall i :: 0 <= i < |frames| ==> |Encode(frames[i])| <= largest
    requires forall i :: 0 <= i < |pieces| ==> largest + |pieces[i]| <= MAX_CAPSULE_BUF
    ensures AllFit([], pieces) && Left([], pieces) == []
    ensures Packets(Frames(Concat(pieces))) == Packets(frames) && Packets(Frames([])) == []
  {
    hide Frames, Rest, EncodeAll, Encode, SoundUpTo, AllFit, Left, Packets;
    NoFrames();
    NoPackets();
    assert [] + Concat(pieces) == Concat(pieces);
    SoundFits(frames, [], pieces, largest);
    StreamRoundTrip(frames);
  }

  // ---------------------------------------------------------------- both ends

  /** What arrives of one piece that was sent: the packets of a batch, or what a control capsule carries. */
  ghost function Arriving(outs: seq<Out>): seq<bytes> {
    if outs == [] then []
    else
      var last := outs[|outs| - 1];
      Arriving(outs[..|outs| - 1]) + if last.Batch? then Values(last.frames) else Packets([last.frame])
  }

  function Values(frames: seq<Frame>): seq<bytes> {
    seq(|frames|, i requires 0 <= i < |frames| => frames[i].value)
  }

  /** Every capsule of a batch is a packet that comes back as it is. */
  predicate Ordinary(f: Frame) {
    f.kind == DATAGRAM && LooksLikeIpPacket(f.value) && !HidesAnother(f.value)
  }

  lemma {:induction false} OrdinaryPackets(frames: seq<Frame>)
    requires forall f :: f in frames ==> Ordinary(f)
    ensures Packets(frames) == Values(frames)
  {
    hide ActOn, Interpret, LooksLikeIpPacket, HidesAnother;
    if frames != [] {
      var f, rest := frames[0], frames[1..];
      assert f in frames && f == Frame(DATAGRAM, f.value);
      DatagramHanded(f.value);
      OrdinaryPackets(rest);
      assert Values(frames) == [f.value] + Values(rest);
    }
  }

  lemma {:induction false} AllArriving(outs: seq<Out>)
    requires forall o :: o in outs && o.Batch? ==> forall f :: f in o.frames ==> Ordinary(f)
    ensures Packets(AllSent(outs)) == Arriving(outs)
    decreases |outs|
  {
    hide Packets, Ordinary;
    if outs == [] {
      NoPackets();
    } else {
      var last, rest := outs[|outs| - 1], outs[..|outs| - 1];
      assert forall o :: o in rest ==> o in outs;
      AllArriving(rest);
      PacketsAppend(AllSent(rest), FramesOf(last));
      if last.Batch? {
        OrdinaryPackets(last.frames);
      }
    }
  }

  /**
    * Both ends together, with capsules of the control side between the batches: what is sent, cut
    * anywhere on the way, is the capsules `AllSent`, and their packets are those of the batches, in
    * order, and between them what the control capsules carry.
    */
  lemma SentArrives(packets: seq<bytes>, outs: seq<Out>, pieces: seq<bytes>)
    requires Sendable(packets) && Sent(outs) == DatagramFrames(packets)
    requires (forall o :: o in outs ==> WholeOut(o)) && Concat(pieces) == Stream(outs)
    requires forall i :: 0 <= i < |packets| ==> LooksLikeIpPacket(packets[i]) && !HidesAnother(packets[i])
    ensures AllGood(AllSent(outs)) && Concat(pieces) == EncodeAll(AllSent(outs))
    ensures Frames(Concat(pieces)) == AllSent(outs) && Packets(Frames(Concat(pieces))) == Arriving(outs)
    ensures (forall o :: o in outs && o.Control? ==> Packets([o.frame]) == []) ==> Arriving(outs) == packets
  {
    hide Frames, Rest, EncodeAll, Packets, WholeOut, LooksLikeIpPacket, HidesAnother;
    StreamOfOuts(outs);
    StreamRoundTrip(AllSent(outs));
    forall f | f in Sent(outs) ensures Ordinary(f) {
      var i :| 0 <= i < |packets| && DatagramFrames(packets)[i] == f;
    }
    forall o, f | o in outs && o.Batch? && f in o.frames ensures f in Sent(outs) {
      SentHolds(outs, o, f);
    }
    AllArriving(outs);
    if forall o :: o in outs && o.Control? ==> Packets([o.frame]) == [] {
      QuietArriving(outs);
      assert Values(DatagramFrames(packets)) == packets;
    }
  }

  lemma {:induction false} SentHolds(outs: seq<Out>, o: Out, f: Frame)
    requires o in outs && o.Batch? && f in o.frames
    ensures f in Sent(outs)
    decreases |outs|
  {
    var last, rest := outs[|outs| - 1], outs[..|outs| - 1];
    if o != last {
      assert outs == rest + [last];
      SentHolds(rest, o, f);
    }
  }

  lemma {:induction false} QuietArriving(outs: seq<Out>)
    requires forall o :: o in outs && o.Control? ==> Packets([o.frame]) == []
    ensures Arriving(outs) == Values(Sent(outs))
    decreases |outs|
  {
    hide Packets;
    if outs != [] {
      var last, rest := outs[|outs| - 1], outs[..|outs| - 1];
      assert forall o :: o in rest ==> o in outs;
      QuietArriving(rest);
      if last.Batch? {
        assert Values(Sent(rest) + last.frames) == Values(Sent(rest)) + Values(last.frames);
      }
    }
  }
}
