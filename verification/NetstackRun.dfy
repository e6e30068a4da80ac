/**
  * The network stack at work: the tables of Netstack, changed in place by commands, by data from
  * the application and by passes over the connections, and the loop that takes these in turn.
  */
module NetstackRun {
  import opened Bytes
  import opened Netstack

  /** What a deferred item leaves in the queue. */
  function Queue(back: Option<DataIn>): seq<DataIn> {
    if back.Some? then [back.value] else []
  }

  /** What the loop may defer: one item, of data for a connection that was there. */
  predicate Deferrable(queue: seq<DataIn>, nextId: nat) {
    queue == [] || (|queue| == 1 && queue[0].Tcp? && queue[0].id < nextId)
  }

  /** Passes chunks on while there is a permit for each, before it is taken from the socket. */
  method PassOn(turns: seq<Turn>) returns (delivered: seq<bytes>, full: bool, gone: bool)
    ensures delivered == Passed(turns, MAX_RECV_CHUNKS).0
    ensures full == Passed(turns, MAX_RECV_CHUNKS).1.Full? && gone == Passed(turns, MAX_RECV_CHUNKS).1.Gone?
  {
    delivered, full, gone := [], false, false;
    ghost var all := Passed(turns, MAX_RECV_CHUNKS);
    assert turns[0..] == turns;
    while |delivered| < MAX_RECV_CHUNKS
      invariant |delivered| <= MAX_RECV_CHUNKS && |delivered| <= |turns|
      invariant all.0 == delivered + Passed(turns[|delivered|..], MAX_RECV_CHUNKS - |delivered|).0
      invariant all.1 == Passed(turns[|delivered|..], MAX_RECV_CHUNKS - |delivered|).1
      decreases MAX_RECV_CHUNKS - |delivered|
    {
      if |delivered| == |turns| { break; }
      var turn := turns[|delivered|];
      if turn.Full? {
        full := true;
        break;
      }
      if turn.Gone? {
        gone := true;
        break;
      }
      if turn.chunk.None? { break; }
      assert turns[|delivered|..][1..] == turns[|delivered| + 1..];
      ghost var rest := Passed(turns[|delivered| + 1..], MAX_RECV_CHUNKS - (|delivered| + 1));
      assert delivered + ([turn.chunk.value] + rest.0) == (delivered + [turn.chunk.value]) + rest.0;
      delivered := delivered + [turn.chunk.value];
    }
  }

  /** Ids that are not from before are new ones. */
  predicate Newer(ids: set<nat>, before: set<nat>, nextId: nat) {
    forall id :: id in ids ==> id in before || id >= nextId
  }

  /** The associations that are left: none whose application is gone, and none that was closed. */
  ghost predicate UdpKept(was: map<nat, UdpState>, udp: map<nat, UdpState>, seen: nat -> seq<Turn>, closed: set<nat>) {
    forall id :: id in was ==>
      && (id in udp <==> !Passed(seen(id), MAX_RECV_CHUNKS).1.Gone? && id !in closed)
      && (id in udp ==> udp[id] == was[id])
  }

  /** Those that were not closed. */
  ghost predicate UdpOpen(was: map<nat, UdpState>, udp: map<nat, UdpState>, closed: set<nat>) {
    forall id :: id in was ==> (id in udp <==> id !in closed) && (id in udp ==> udp[id] == was[id])
  }

  class NetStack {
    const cap: nat
    const connect: nat
    const linger: nat
    var sockets: map<nat, Kind>
    var tcp: map<nat, TcpState>
    var udp: map<nat, UdpState>
    var nextId: nat
    var nextPort: nat
    var nextAsk: nat
    ghost var replies: map<nat, seq<Reply>>
    ghost var hist: map<nat, History>
    ghost var taken: seq<DataIn>

    /** What holds between any two steps, with `queue` dequeued and not yet dealt with. */
    ghost predicate Valid(queue: seq<DataIn>)
      reads this
    {
      && Tables(sockets, tcp, udp, nextId)
      && Asks(tcp, replies, nextAsk)
      && Flows(tcp, hist, taken, queue, cap)
      && FIRST_PORT <= nextPort <= LAST_PORT
    }

    constructor (cap: nat, connect: nat, linger: nat)
      ensures Valid([]) && tcp == map[] && udp == map[] && sockets == map[] && taken == []
      ensures nextId == 1 && nextPort == FIRST_PORT
      ensures this.cap == cap && this.connect == connect && this.linger == linger
    {
      this.cap, this.connect, this.linger := cap, connect, linger;
      sockets, tcp, udp := map[], map[], map[];
      nextId, nextPort, nextAsk := 1, FIRST_PORT, 0;
      replies, hist, taken := map[], map[], [];
    }

    // -------------------------------------------------------------- commands

    method AllocPort() returns (port: nat)
      requires FIRST_PORT <= nextPort <= LAST_PORT
      modifies `nextPort
      ensures port == old(nextPort) && nextPort == PortAfter(port, 1)
      ensures FIRST_PORT <= nextPort <= LAST_PORT
    {
      port := nextPort;
      nextPort := if port >= LAST_PORT then FIRST_PORT else port + 1;
    }

    /** The lowest free slot of the socket set. */
    method AddSocket(kind: Kind) returns (handle: nat)
      modifies `sockets
      ensures handle !in old(sockets) && sockets == old(sockets)[handle := kind]
      ensures forall k: nat :: k < handle ==> k in old(sockets)
    {
      handle := 0;
      while handle in sockets
        invariant forall k: nat :: k < handle ==> k in sockets
        decreases set k | k in sockets && k >= handle
      {
        ghost var above := set k | k in sockets && k >= handle;
        assert handle in above && (set k | k in sockets && k >= handle + 1) == above - {handle};
        handle := handle + 1;
      }
      sockets := sockets[handle := kind];
    }

    /** OpenTcp: an error is answered at once, and the others when the connection is up or given up. */
    method OpenTcp(now: nat, connects: bool, ghost queue: seq<DataIn>)
      requires Valid(queue) && DataFor(queue, nextId) == []
      modifies `sockets, `tcp, `nextId, `nextPort, `nextAsk, `replies, `hist
      ensures Valid(queue) && nextAsk == old(nextAsk) + 1 && old(nextAsk) !in old(replies)
      ensures replies == old(replies)[old(nextAsk) := if connects then [] else [Failed]]
      ensures !connects ==>
                tcp == old(tcp) && sockets == old(sockets) && nextId == old(nextId) && hist == old(hist)
      ensures connects ==>
                && nextId == old(nextId) + 1 && old(nextId) in tcp
                && tcp == old(tcp)[old(nextId) := tcp[old(nextId)]]
                && hist == old(hist)[old(nextId) := History(|taken|, [], None, false, 0)]
                && tcp[old(nextId)].handle !in old(sockets)
                && tcp[old(nextId)] == TcpState(tcp[old(nextId)].handle, Some(old(nextAsk)), true, now + connect,
                                                [], false, false, None, false)
    {
      hide Tables, Asks, Flows, Flow;
      AsksNext(tcp, replies, nextAsk);
      var port := AllocPort();
      var resp := nextAsk;
      nextAsk := nextAsk + 1;
      if !connects {
        AsksAnswered(tcp, replies, resp, Failed);
        replies := replies[resp := [Failed]];
        return;
      }
      ghost var sockets0 := sockets;
      var handle := AddSocket(TcpSocket);
      var id := nextId;
      nextId := nextId + 1;
      var st := TcpState(handle, Some(resp), true, now + connect, [], false, false, None, false);
      TablesAddTcp(sockets0, tcp, udp, id, st);
      AsksNew(tcp, replies, resp, id, st);
      FlowOpens(taken, queue, cap, id, st);
      FlowsPut(tcp, hist, taken, queue, cap, id, st, History(|taken|, [], None, false, 0));
      hist := hist[id := History(|taken|, [], None, false, 0)];
      replies := replies[resp := []];
      tcp := tcp[id := st];
    }

    method OpenUdp(binds: bool, ghost queue: seq<DataIn>)
      requires Valid(queue)
      modifies `sockets, `udp, `nextId, `nextPort, `nextAsk, `replies
      ensures Valid(queue) && nextAsk == old(nextAsk) + 1 && old(nextAsk) !in old(replies)
      ensures replies == old(replies)[old(nextAsk) := [if binds then Bound(old(nextId)) else Failed]]
      ensures !binds ==> udp == old(udp) && sockets == old(sockets) && nextId == old(nextId)
      ensures binds ==>
                && nextId == old(nextId) + 1 && old(nextId) in udp
                && udp == old(udp)[old(nextId) := udp[old(nextId)]]
                && udp[old(nextId)].handle !in old(sockets)
    {
      hide Tables, Asks, Flows, Flow;
      AsksNext(tcp, replies, nextAsk);
      var port := AllocPort();
      var resp := nextAsk;
      nextAsk := nextAsk + 1;
      if !binds {
        AsksAnswered(tcp, replies, resp, Failed);
        replies := replies[resp := [Failed]];
        return;
      }
      ghost var sockets0 := sockets;
      var handle := AddSocket(UdpSocket);
      var id := nextId;
      nextId := nextId + 1;
      TablesAddUdp(sockets0, tcp, udp, id, UdpState(handle));
      AsksAnswered(tcp, replies, resp, Bound(id));
      replies := replies[resp := [Bound(id)]];
      udp := udp[id := UdpState(handle)];
    }

    // -------------------------------------------------------------- data from the application

    /** The item just dequeued, in hand. */
    ghost method Take(d: DataIn)
      requires Valid([])
      modifies `taken
      ensures Valid([d]) && taken == old(taken) + [d]
      ensures forall id :: id in tcp ==> id in hist && hist[id].since < |taken|
    {
      hide Tables, Asks, Flows, Flow;
      FlowsTake(tcp, hist, taken, cap, d);
      taken := taken + [d];
    }

    /**
      * What is done with an item in hand: as much of its data as the cap leaves room for joins the
      * pending bytes, and the rest comes back to be deferred.
      */
    method TryHandleData(d: DataIn) returns (back: Option<DataIn>)
      requires Valid([d])
      requires d.TcpClose? ==> taken != [] && taken[|taken| - 1] == d
      requires d.TcpClose? && d.id in tcp ==> d.id in hist && hist[d.id].since < |taken|
      modifies `sockets, `tcp, `udp, `hist
      ensures Valid(Queue(back)) && tcp.Keys == old(tcp).Keys
      ensures back.Some? ==> d.Tcp? && d.id in tcp && |tcp[d.id].pending| == cap
      ensures back.Some? ==> back.value.Tcp? && back.value.id == d.id
      ensures forall id :: id in tcp && id != d.id ==> tcp[id] == old(tcp)[id]
      ensures d.Tcp? && d.id in tcp ==>
                var was := old(tcp)[d.id];
                && tcp[d.id] == was.(pending := tcp[d.id].pending)
                && tcp[d.id].pending + (if back.Some? then back.value.data else []) == was.pending + d.data
      ensures d.TcpClose? && d.id in tcp ==> tcp[d.id] == old(tcp)[d.id].(halfClosed := true)
      ensures !d.Tcp? && !d.TcpClose? ==> tcp == old(tcp)
      ensures udp == if d.UdpClose? then old(udp) - {d.id} else old(udp)
      ensures SameButMarks(old(hist), hist, tcp.Keys) && Carried(old(tcp), tcp)
    {
      hide Tables, Asks, Flows, Flow, Carried, SameButMarks;
      HistoriesThere(tcp, hist, taken, [d], cap);
      CarriedItself(tcp);
      SameItself(hist, tcp.Keys);
      match d
      case Tcp(id, data) =>
        if id in tcp {
          back := Absorb(id, data);
          CarriedOne(old(tcp), id, tcp[id]);
        } else {
          FlowsIgnore(tcp, hist, taken, cap, d);
          back := None;
        }
      case TcpClose(id) =>
        if id in tcp {
          CarriedOne(tcp, id, tcp[id].(halfClosed := true));
          HalfClose(id);
          SameMarked(old(hist), id, hist[id], tcp.Keys);
        } else {
          FlowsIgnore(tcp, hist, taken, cap, d);
        }
        back := None;
      case Udp(id, data) =>
        if id in udp {
          TablesUdp(sockets, tcp, udp, nextId, id);
          assert udp[id].handle in sockets && sockets[udp[id].handle] == UdpSocket;
        }
        FlowsIgnore(tcp, hist, taken, cap, d);
        back := None;
      case UdpClose(id) =>
        FlowsIgnore(tcp, hist, taken, cap, d);
        if id in udp {
          RemoveUdp(id, []);
        }
        assert id !in old(udp) ==> udp - {id} == udp;
        back := None;
    }

    method Absorb(id: nat, data: bytes) returns (back: Option<DataIn>)
      requires Valid([Tcp(id, data)]) && id in tcp
      modifies `tcp
      ensures Valid(Queue(back)) && tcp.Keys == old(tcp).Keys
      ensures back.Some? ==> back.value.Tcp? && back.value.id == id && |tcp[id].pending| == cap
      ensures tcp == old(tcp)[id := old(tcp)[id].(pending := tcp[id].pending)]
      ensures tcp[id].pending + (if back.Some? then back.value.data else []) == old(tcp)[id].pending + data
      ensures old(tcp)[id].pending <= tcp[id].pending
    {
      hide Tables, Asks, Flows, Flow;
      var st := tcp[id];
      FlowOf(tcp, hist, taken, [Tcp(id, data)], cap, id);
      if |st.pending| >= cap {
        return Some(Tcp(id, data));
      }
      var space := cap - |st.pending|;
      var n := if |data| <= space then |data| else space;
      back := if n == |data| then None else Some(Tcp(id, data[n..]));
      st := st.(pending := st.pending + data[..n]);
      TablesPut(sockets, tcp, udp, nextId, id, st);
      AsksOf(tcp, replies, nextAsk, id);
      AsksPut(tcp, replies, nextAsk, id, st);
      FlowsAbsorb(tcp, hist, taken, cap, id, data, n, st, Queue(back));
      tcp := tcp[id := st];
      assert data[..n] + data[n..] == data;
    }

    method HalfClose(id: nat)
      requires Valid([TcpClose(id)]) && id in tcp
      requires taken != [] && taken[|taken| - 1] == TcpClose(id) && id in hist && hist[id].since < |taken|
      modifies `tcp, `hist
      ensures Valid([]) && tcp == old(tcp)[id := old(tcp)[id].(halfClosed := true)]
      ensures hist == old(hist)[id := if old(tcp)[id].halfClosed then old(hist)[id]
                                      else old(hist)[id].(mark := Some(|taken| - 1))]
    {
      hide Tables, Asks, Flows, Flow;
      var st := tcp[id].(halfClosed := true);
      FlowOf(tcp, hist, taken, [TcpClose(id)], cap, id);
      TablesPut(sockets, tcp, udp, nextId, id, st);
      AsksOf(tcp, replies, nextAsk, id);
      AsksPut(tcp, replies, nextAsk, id, st);
      ghost var h := if tcp[id].halfClosed then hist[id] else hist[id].(mark := Some(|taken| - 1));
      FlowsMark(tcp, hist, taken, cap, id, |taken| - 1, st, h);
      hist := hist[id := h];
      tcp := tcp[id := st];
    }

    method RemoveUdp(id: nat, ghost queue: seq<DataIn>)
      requires Valid(queue) && id in udp
      modifies `sockets, `udp
      ensures Valid(queue) && udp == old(udp) - {id} && sockets == old(sockets) - {old(udp)[id].handle}
    {
      hide Tables, Asks, Flows, Flow;
      TablesDropUdp(sockets, tcp, udp, nextId, id);
      var handle := udp[id].handle;
      udp := udp - {id};
      sockets := sockets - {handle};
    }

    // -------------------------------------------------------------- a pass over the connections

    /** A connection and its socket, gone. */
    method Drop(id: nat, ghost queue: seq<DataIn>)
      requires Valid(queue) && id in tcp && tcp[id].established
      modifies `sockets, `tcp
      ensures Valid(queue) && tcp == old(tcp) - {id}
    {
      hide Tables, Asks, Flows, Flow;
      TablesDropTcp(sockets, tcp, udp, nextId, id);
      AsksDrop(tcp, replies, nextAsk, id);
      FlowsDrop(tcp, hist, taken, queue, cap, id);
      TablesTcp(sockets, tcp, udp, nextId, id);
      var handle := tcp[id].handle;
      sockets := sockets - {handle};
      tcp := tcp - {id};
    }

    /** A connection given up before it was established: its request is told, and it is gone. */
    method Refuse(id: nat, ghost queue: seq<DataIn>)
      requires Valid(queue) && id in tcp && !tcp[id].established
      modifies `sockets, `tcp, `replies
      ensures Valid(queue) && tcp == old(tcp) - {id}
      ensures old(tcp)[id].resp.Some? && old(tcp)[id].resp.value in old(replies)
      ensures (var r := old(tcp)[id].resp.value; replies == old(replies)[r := old(replies)[r] + [Failed]])
    {
      hide Tables, Asks, Flows, Flow;
      AsksOf(tcp, replies, nextAsk, id);
      var resp := tcp[id].resp.value;
      TablesDropTcp(sockets, tcp, udp, nextId, id);
      AsksReply(tcp, replies, nextAsk, id, resp, Failed, tcp - {id});
      FlowsDrop(tcp, hist, taken, queue, cap, id);
      TablesTcp(sockets, tcp, udp, nextId, id);
      var handle := tcp[id].handle;
      replies := replies[resp := replies[resp] + [Failed]];
      sockets := sockets - {handle};
      tcp := tcp - {id};
    }

    method Establish(id: nat, ghost queue: seq<DataIn>)
      requires Valid(queue) && id in tcp && !tcp[id].established
      modifies `tcp, `replies
      ensures Valid(queue)
      ensures tcp == old(tcp)[id := old(tcp)[id].(established := true, resp := None, receiver := false)]
      ensures old(tcp)[id].resp.Some? && old(tcp)[id].resp.value in old(replies)
      ensures (var r := old(tcp)[id].resp.value; replies == old(replies)[r := old(replies)[r] + [Connected(id)]])
    {
      hide Tables, Asks, Flows, Flow;
      AsksOf(tcp, replies, nextAsk, id);
      var was := tcp[id];
      var st := was.(established := true);
      if st.resp.Some? && st.receiver {
        replies := replies[st.resp.value := replies[st.resp.value] + [Connected(id)]];
      }
      st := st.(resp := None, receiver := false);
      TablesPut(sockets, tcp, udp, nextId, id, st);
      AsksReply(tcp, old(replies), nextAsk, id, was.resp.value, Connected(id), tcp[id := st]);
      FlowOf(tcp, hist, taken, queue, cap, id);
      FlowSame(was, st, hist[id], taken, queue, id, cap);
      FlowsPut(tcp, hist, taken, queue, cap, id, st, hist[id]);
      assert hist[id := hist[id]] == hist;
      tcp := tcp[id := st];
    }

    /** Puts back an established connection with its history. */
    method Update(id: nat, st: TcpState, ghost h: History, ghost queue: seq<DataIn>)
      requires Valid(queue) && id in tcp && Flow(st, h, taken, queue, id, cap)
      requires st.handle == tcp[id].handle && st.resp == tcp[id].resp && Asking(st)
      modifies `tcp, `hist
      ensures Valid(queue) && tcp == old(tcp)[id := st] && hist == old(hist)[id := h]
    {
      hide Tables, Asks, Flows, Flow;
      TablesPut(sockets, tcp, udp, nextId, id, st);
      AsksPut(tcp, replies, nextAsk, id, st);
      FlowsPut(tcp, hist, taken, queue, cap, id, st, h);
      hist := hist[id := h];
      tcp := tcp[id := st];
    }

    /** The socket takes what it will of the pending bytes, from their front. */
    method SendPending(id: nat, seen: Seen, ghost queue: seq<DataIn>)
      requires Valid(queue) && id in tcp && tcp[id].established
      modifies `tcp, `hist
      ensures Valid(queue) && id in old(hist) && id in hist
      ensures tcp == old(tcp)[id := old(tcp)[id].(pending := old(tcp)[id].pending[Handed(old(tcp)[id], seen)..])]
      ensures (var h := old(hist)[id];
               hist == old(hist)[id := h.(handed := h.handed + old(tcp)[id].pending[..Handed(old(tcp)[id], seen)])])
    {
      hide Tables, Asks, Flows, Flow;
      FlowOf(tcp, hist, taken, queue, cap, id);
      AsksOf(tcp, replies, nextAsk, id);
      TablesTcp(sockets, tcp, udp, nextId, id);
      var st := tcp[id];
      var sent := 0;
      if seen.canSend && st.pending != [] {
        sent := if seen.taken <= |st.pending| then seen.taken else |st.pending|;
      }
      FlowHands(st, hist[id], taken, queue, id, cap, sent);
      Update(id, st.(pending := st.pending[sent..]), hist[id].(handed := hist[id].handed + st.pending[..sent]), queue);
    }

    /** Closes the socket for a TcpClose once nothing is pending. */
    method CloseDrained(id: nat, ghost queue: seq<DataIn>) returns (closed: bool)
      requires Valid(queue) && id in tcp && tcp[id].established
      modifies `tcp, `hist
      ensures Valid(queue) && tcp == old(tcp) && id in old(hist) && id in hist
      ensures closed == (tcp[id].halfClosed && tcp[id].pending == [])
      ensures hist == old(hist)[id := old(hist)[id].(closed := old(hist)[id].closed || closed)]
    {
      hide Tables, Asks, Flows, Flow;
      FlowOf(tcp, hist, taken, queue, cap, id);
      AsksOf(tcp, replies, nextAsk, id);
      closed := tcp[id].halfClosed && |tcp[id].pending| == 0;
      if closed {
        FlowCloses(tcp[id], hist[id], taken, queue, id, cap);
        Update(id, tcp[id], hist[id].(closed := true), queue);
      }
    }

    /** The application is gone: the connection may linger, and is then aborted. */
    method Orphan(id: nat, seen: Seen, now: nat, ghost queue: seq<DataIn>) returns (aborted: bool)
      requires Valid(queue) && id in tcp && tcp[id].established && !tcp[id].aborted
      modifies `tcp, `hist
      ensures Valid(queue) && id in old(hist) && id in hist
      ensures (var was := old(tcp)[id];
               var since := if was.orphanedAt.Some? then was.orphanedAt.value else now;
               && aborted == (seen.canRecv || Elapsed(now, since) >= linger)
               && tcp == old(tcp)[id := was.(orphanedAt := Some(since), aborted := aborted)]
               && hist == old(hist)[id := old(hist)[id].(late := if Elapsed(now, since) >= linger then 1 else 0)]
               && old(hist)[id].late == 0)
    {
      hide Tables, Asks, Flows, Flow;
      FlowOf(tcp, hist, taken, queue, cap, id);
      AsksOf(tcp, replies, nextAsk, id);
      var st := tcp[id];
      var since := if st.orphanedAt.Some? then st.orphanedAt.value else now;
      aborted := seen.canRecv || Elapsed(now, since) >= linger;
      var st' := st.(orphanedAt := Some(since), aborted := aborted);
      ghost var late := if Elapsed(now, since) >= linger then 1 else 0;
      FlowOrphan(st, st', hist[id], taken, queue, id, cap, late);
      Update(id, st', hist[id].(late := late), queue);
    }

    method Settle(id: nat, gone: bool, seen: Seen, now: nat, ghost queue: seq<DataIn>)
      requires Valid(queue) && id in tcp && tcp[id].established && !tcp[id].aborted
      modifies `sockets, `tcp, `hist
      ensures Valid(queue) && tcp == Put(old(tcp), id, Settled(old(tcp)[id], gone, seen, now, linger))
      ensures id in old(hist) && id in hist
      ensures (var h := old(hist)[id];
               hist == old(hist)[id := h.(late := if gone && PastLinger(old(tcp)[id], now, linger) then h.late + 1
                                                  else h.late)])
    {
      hide Tables, Asks, Flows, Flow;
      if gone {
        var aborted := Orphan(id, seen, now, queue);
        if aborted {
          return;
        }
      } else {
        FlowOf(tcp, hist, taken, queue, cap, id);
        assert tcp == tcp[id := tcp[id]];
      }
      if Ended(seen.after) {
        Drop(id, queue);
      }
    }

    /** The sending half of a turn: what the socket takes, and the close that it may have been waiting for. */
    method Upload(id: nat, seen: Seen, ghost queue: seq<DataIn>)
      requires Valid(queue) && id in tcp && tcp[id].established
      modifies `tcp, `hist
      ensures Valid(queue) && id in old(hist)
      ensures (var was, h := old(tcp)[id], old(hist)[id];
               var sent := was.(pending := was.pending[Handed(was, seen)..]);
               && tcp == old(tcp)[id := sent]
               && hist == old(hist)[id := h.(handed := h.handed + was.pending[..Handed(was, seen)],
                                             closed := h.closed || (sent.halfClosed && sent.pending == []))])
    {
      hide Tables, Asks, Flows, Flow, Handed;
      FlowOf(tcp, hist, taken, queue, cap, id);
      SendPending(id, seen, queue);
      var closed := CloseDrained(id, queue);
    }

    /** The part of a pass that an established connection gets. */
    method ServiceUp(id: nat, seen: Seen, now: nat, ghost queue: seq<DataIn>) returns (busy: bool, given: seq<bytes>)
      requires Valid(queue) && id in tcp && tcp[id].established && !tcp[id].aborted
      modifies `sockets, `tcp, `hist
      ensures Valid(queue) && tcp == Put(old(tcp), id, NextUp(old(tcp)[id], seen, now, linger))
      ensures id in old(hist) && id in hist
      ensures hist == old(hist)[id := UpHistory(old(tcp)[id], old(hist)[id], seen, now, linger)]
      ensures (given, busy) == GivenTo(old(tcp)[id], seen)
    {
      hide Tables, Asks, Flows, Flow, Passed, UpHistory, PastLinger, Settled, Handed;
      TablesTcp(sockets, tcp, udp, nextId, id);
      FlowOf(tcp, hist, taken, queue, cap, id);
      Upload(id, seen, queue);
      var gone;
      given, busy, gone := PassOn(seen.turns);
      UpHistorySteps(old(tcp)[id], tcp[id], old(hist)[id], seen, now, linger, gone);
      Settle(id, gone, seen, now, queue);
    }

    /** One connection's part of a pass. */
    method ServiceConn(id: nat, seen: Seen, now: nat, ghost queue: seq<DataIn>) returns (busy: bool, given: seq<bytes>)
      requires Valid(queue) && id in tcp
      modifies `sockets, `tcp, `replies, `hist
      ensures Valid(queue) && tcp == Put(old(tcp), id, Next(old(tcp)[id], seen, now, linger))
      ensures id in old(hist)
      ensures hist == old(hist)[id := NextHistory(old(tcp)[id], old(hist)[id], seen, now, linger)]
      ensures replies == AnsweredTo(old(replies), old(tcp)[id].resp, Answer(old(tcp)[id], seen, now, id))
      ensures (given, busy) == GivenTo(old(tcp)[id], seen)
    {
      hide Tables, Asks, Flows, Flow, NextUp, UpHistory, Passed;
      busy, given := false, [];
      FlowOf(tcp, hist, taken, queue, cap, id);
      AsksOf(tcp, replies, nextAsk, id);
      TablesTcp(sockets, tcp, udp, nextId, id);
      if tcp[id].aborted {
        Drop(id, queue);
        return;
      }
      if !tcp[id].established && Connects(seen.phase) {
        Establish(id, queue);
        UpHistoryOf(old(tcp)[id], tcp[id], hist[id], seen, now, linger);
      }
      if !tcp[id].established && Ended(seen.phase) {
        Refuse(id, queue);
        return;
      }
      if !tcp[id].established {
        if seen.abandoned || now >= tcp[id].deadline {
          Refuse(id, queue);
        }
        assert id in tcp ==> tcp == old(tcp) && old(tcp) == old(tcp)[id := old(tcp)[id]];
        AnsweredNothing(old(replies), old(tcp)[id].resp);
        return;
      }
      busy, given := ServiceUp(id, seen, now, queue);
    }

    /** A pass over all the connections, in whatever order the table gives them. */
    method ServiceTcp(seen: nat -> Seen, now: nat, ghost queue: seq<DataIn>)
      returns (busy: bool, given: map<nat, seq<bytes>>)
      requires Valid(queue)
      modifies `sockets, `tcp, `replies, `hist
      ensures Valid(queue) && tcp == Pass(old(tcp), seen, now, linger)
      ensures hist == Histories(old(tcp), old(hist), seen, now, linger)
      ensures Replied(old(tcp), old(replies), replies, {}, seen, now)
      ensures GivenSoFar(old(tcp), {}, seen, given, busy)
      ensures forall id :: id in tcp && !tcp[id].established ==> now < tcp[id].deadline
    {
      hide Tables, Asks, Flows, Flow, Replied, GivenSoFar;
      busy, given := false, map[];
      HistoriesThere(tcp, hist, taken, queue, cap);
      RepliedNone(tcp, replies, nextAsk, seen, now);
      GivenNone(tcp, seen);
      var ids := tcp.Keys;
      while ids != {}
        invariant Valid(queue) && ids <= tcp.Keys
        invariant Replied(old(tcp), old(replies), replies, ids, seen, now)
        invariant GivenSoFar(old(tcp), ids, seen, given, busy)
        invariant TcpSoFar(old(tcp), tcp, ids, seen, now, linger)
        invariant HistSoFar(old(tcp), old(hist), hist, ids, seen, now, linger)
        decreases |ids|
      {
        hide Next, NextHistory, HistSoFar, TcpSoFar, Answer, AnsweredTo, GivenTo;
        var id :| id in ids;
        TcpStep(old(tcp), tcp, ids, seen, now, linger, id);
        HistStep(old(tcp), old(hist), hist, ids, seen, now, linger, id);
        RepliedStep(old(tcp), old(replies), old(nextAsk), replies, ids, seen, now, id);
        ghost var left := ids;
        ids := ids - {id};
        var full, chunks := ServiceConn(id, seen(id), now, queue);
        GivenStep(old(tcp), left, seen, given, busy, id, chunks, full);
        busy, given := busy || full, given[id := chunks];
      }
      PassDone(old(tcp), old(hist), tcp, hist, seen, now, linger);
      forall id | id in tcp && !tcp[id].established
        ensures now < tcp[id].deadline
      {
        DeadlinesMet(old(tcp), seen, now, linger, id);
      }
    }

    method ServiceUdp(seen: nat -> seq<Turn>, ghost queue: seq<DataIn>) returns (busy: bool)
      requires Valid(queue)
      modifies `sockets, `udp
      ensures Valid(queue) && udp.Keys <= old(udp).Keys && UdpKept(old(udp), udp, seen, {})
    {
      hide Tables, Asks, Flows, Flow, Passed;
      busy := false;
      var ids := udp.Keys;
      while ids != {}
        invariant Valid(queue) && ids <= udp.Keys <= old(udp).Keys
        invariant forall id :: id in udp ==> udp[id] == old(udp)[id]
        invariant forall id :: id in old(udp).Keys - ids ==> (id in udp <==> !Passed(seen(id), MAX_RECV_CHUNKS).1.Gone?)
        decreases |ids|
      {
        var id :| id in ids;
        ids := ids - {id};
        TablesUdp(sockets, tcp, udp, nextId, id);
        var delivered, full, gone := PassOn(seen(id));
        busy := busy || full;
        if gone {
          RemoveUdp(id, queue);
        }
      }
    }
  }

  // ---------------------------------------------------------------- the loop

  datatype Event =
    | Idle
    | OpenTcp(connects: bool)
    | OpenUdp(binds: bool)
    | Data(items: seq<DataIn>)

  /** One turn of the loop: when it is, what its sockets and channels answer, and what comes in. */
  datatype Round = Round(now: nat, tcp: nat -> Seen, udp: nat -> seq<Turn>, event: Event)

  predicate Asked(event: Event) {
    event.OpenTcp? || event.OpenUdp?
  }

  function Requests(rounds: seq<Round>): nat {
    if rounds == [] then 0
    else Requests(rounds[..|rounds| - 1]) + if Asked(rounds[|rounds| - 1].event) then 1 else 0
  }

  /** The data that a round brings. */
  function Items(event: Event): seq<DataIn> {
    if event.Data? then event.items else []
  }

  /** The associations that `items` close. */
  function UdpClosed(items: seq<DataIn>): set<nat> {
    set d | d in items && d.UdpClose? :: d.id
  }

  lemma UdpCloses(udp: map<nat, UdpState>, items: seq<DataIn>, d: DataIn)
    ensures UdpClosed([]) == {} && udp - UdpClosed([]) == udp
    ensures (var rest := udp - UdpClosed(items);
             udp - UdpClosed(items + [d]) == if d.UdpClose? then rest - {d.id} else rest)
  {
    assert d in items + [d];
    assert UdpClosed(items + [d]) == UdpClosed(items) + if d.UdpClose? then {d.id} else {};
  }

  /** An item stays deferred only while its connection has no room. */
  predicate NoRoom(queue: seq<DataIn>, tcp: map<nat, TcpState>, cap: nat) {
    queue != [] ==> queue[0].id in tcp && |tcp[queue[0].id].pending| == cap
  }

  lemma OneDeferred(d: DataIn, tcp: map<nat, TcpState>, cap: nat, nextId: nat)
    requires d.Tcp? && d.id < nextId && d.id in tcp && |tcp[d.id].pending| == cap
    ensures Deferrable([d], nextId) && NoRoom([d], tcp, cap)
  {
  }

  lemma NoneDeferred(tcp: map<nat, TcpState>, cap: nat, nextId: nat)
    ensures Deferrable([], nextId) && NoRoom([], tcp, cap)
  {
  }

  /** Tries the deferred data again. */
  method DrainDeferred(s: NetStack, deferred: seq<DataIn>) returns (left: seq<DataIn>)
    requires s.Valid(deferred) && Deferrable(deferred, s.nextId)
    modifies s`sockets, s`tcp, s`udp, s`hist
    ensures s.Valid(left) && Deferrable(left, s.nextId)
    ensures s.tcp.Keys == old(s.tcp).Keys && s.udp == old(s.udp)
    ensures left != [] ==> deferred != [] && left[0].id == deferred[0].id
    ensures NoRoom(left, s.tcp, s.cap)
    ensures SameButMarks(old(s.hist), s.hist, s.tcp.Keys) && Carried(old(s.tcp), s.tcp)
  {
    hide Tables, Asks, Flows, Flow, SameButMarks;
    HistoriesThere(s.tcp, s.hist, s.taken, deferred, s.cap);
    SameItself(s.hist, s.tcp.Keys);
    left := deferred;
    if left != [] {
      assert left == [left[0]];
      var back := s.TryHandleData(left[0]);
      left := Queue(back);
      if left != [] {
        TablesTcp(s.sockets, s.tcp, s.udp, s.nextId, left[0].id);
      }
    }
  }

  /** Dequeues data until some of it is deferred, or there is no more. */
  method Ingest(s: NetStack, items: seq<DataIn>) returns (deferred: seq<DataIn>, count: nat)
    requires s.Valid([])
    modifies s`sockets, s`tcp, s`udp, s`hist, s`taken
    ensures s.Valid(deferred) && Deferrable(deferred, s.nextId) && NoRoom(deferred, s.tcp, s.cap)
    ensures count <= |items| && (count < |items| ==> deferred != [])
    ensures s.taken == old(s.taken) + items[..count]
    ensures s.tcp.Keys == old(s.tcp).Keys && s.udp == old(s.udp) - UdpClosed(items[..count])
    ensures SameButMarks(old(s.hist), s.hist, s.tcp.Keys) && Carried(old(s.tcp), s.tcp)
  {
    hide Tables, Asks, Flows, Flow, SameButMarks, UdpClosed, Carried;
    HistoriesThere(s.tcp, s.hist, s.taken, [], s.cap);
    SameItself(s.hist, s.tcp.Keys);
    CarriedItself(s.tcp);
    UdpCloses(s.udp, [], UdpClose(0));
    deferred, count := [], 0;
    assert items[..0] == [];
    while deferred == [] && count < |items|
      invariant s.Valid(deferred) && Deferrable(deferred, s.nextId) && count <= |items|
      invariant NoRoom(deferred, s.tcp, s.cap)
      invariant s.taken == old(s.taken) + items[..count]
      invariant s.tcp.Keys == old(s.tcp).Keys && s.udp == old(s.udp) - UdpClosed(items[..count])
      invariant SameButMarks(old(s.hist), s.hist, s.tcp.Keys) && Carried(old(s.tcp), s.tcp)
    {
      hide NoRoom, Deferrable;
      var d := items[count];
      assert items[..count + 1] == items[..count] + [d];
      UdpCloses(old(s.udp), items[..count], d);
      s.Take(d);
      ghost var hist, tcp := s.hist, s.tcp;
      var back := s.TryHandleData(d);
      SameThrough(old(s.hist), hist, s.hist, s.tcp.Keys);
      CarriedThrough(old(s.tcp), tcp, s.tcp);
      deferred := Queue(back);
      count := count + 1;
      if back.Some? {
        TablesTcp(s.sockets, s.tcp, s.udp, s.nextId, d.id);
        OneDeferred(back.value, s.tcp, s.cap, s.nextId);
      } else {
        NoneDeferred(s.tcp, s.cap, s.nextId);
      }
    }
  }

  /** What a new request is answered at once. */
  function AtOnce(event: Event, nextId: nat): seq<Reply> {
    match event
    case OpenTcp(connects) => if connects then [] else [Failed]
    case OpenUdp(binds) => [if binds then Bound(nextId) else Failed]
    case _ => []
  }

  /** How many ids an event gives out. */
  function Granted(event: Event): nat {
    if event == OpenTcp(true) || event == OpenUdp(true) then 1 else 0
  }

  /** The connections with the one that an event opens, as it is opened, if it opens one. */
  ghost predicate TcpOpened(tcp: map<nat, TcpState>, tcp': map<nat, TcpState>, event: Event, now: nat, connect: nat,
                            id: nat, ask: nat)
  {
    if event == OpenTcp(true) then
      && id !in tcp && tcp'.Keys == tcp.Keys + {id}
      && tcp'[id] == TcpState(tcp'[id].handle, Some(ask), true, now + connect, [], false, false, None, false)
    else tcp'.Keys == tcp.Keys
  }

  /** The associations with the one that an event opens, if it opens one, and no others. */
  ghost predicate UdpOpened(udp: map<nat, UdpState>, udp': map<nat, UdpState>, event: Event, id: nat) {
    && udp'.Keys <= udp.Keys + {id}
    && (id in udp' <==> event == OpenUdp(true))
  }

  lemma UdpStill(udp: map<nat, UdpState>, udp': map<nat, UdpState>, closed: set<nat>, event: Event, id: nat)
    requires id !in udp
    requires if event == OpenUdp(true) then closed == {} && id in udp' && udp' == udp[id := udp'[id]]
             else udp' == udp - closed
    ensures UdpOpen(udp, udp', closed) && UdpOpened(udp, udp', event, id)
  {
  }

  /** The history of the connection that an event opens, which begins at `place`. */
  ghost predicate HistOpened(hist: map<nat, History>, event: Event, id: nat, place: nat) {
    event == OpenTcp(true) ==> id in hist && hist[id] == History(place, [], None, false, 0)
  }

  method Handle(s: NetStack, now: nat, event: Event, deferred: seq<DataIn>) returns (left: seq<DataIn>, count: nat)
    requires s.Valid(deferred) && Deferrable(deferred, s.nextId) && NoRoom(deferred, s.tcp, s.cap)
    modifies s
    ensures s.Valid(left) && Deferrable(left, s.nextId) && NoRoom(left, s.tcp, s.cap)
    ensures s.nextId == old(s.nextId) + Granted(event)
    ensures count <= |Items(event)| && (count < |Items(event)| ==> left != []) && (deferred != [] ==> count == 0)
    ensures s.taken == old(s.taken) + Items(event)[..count]
    ensures s.nextAsk == old(s.nextAsk) + (if Asked(event) then 1 else 0) && old(s.nextAsk) !in old(s.replies)
    ensures s.replies == if Asked(event) then old(s.replies)[old(s.nextAsk) := AtOnce(event, old(s.nextId))]
                         else old(s.replies)
    ensures TcpOpened(old(s.tcp), s.tcp, event, now, s.connect, old(s.nextId), old(s.nextAsk))
    ensures UdpOpened(old(s.udp), s.udp, event, old(s.nextId))
    ensures UdpOpen(old(s.udp), s.udp, UdpClosed(Items(event)[..count]))
    ensures Carried(old(s.tcp), s.tcp) && SameButMarks(old(s.hist), s.hist, old(s.tcp).Keys)
    ensures HistOpened(s.hist, event, old(s.nextId), |old(s.taken)|)
  {
    hide Tables, Asks, Flows, Flow, SameButMarks, DataFor, UdpOpen, UdpOpened, UdpClosed;
    HistoriesThere(s.tcp, s.hist, s.taken, deferred, s.cap);
    UdpCloses(s.udp, [], UdpClose(0));
    IdsBelow(s.sockets, s.tcp, s.udp, s.nextId);
    AsksNext(s.tcp, s.replies, s.nextAsk);
    ghost var ids, hist := s.tcp.Keys, s.hist;
    SameItself(hist, ids);
    left, count := deferred, 0;
    match event {
      case Idle =>
      case OpenTcp(connects) =>
        NotForNew(left, s.nextId);
        SameWithout(hist, s.nextId, History(|s.taken|, [], None, false, 0), ids);
        s.OpenTcp(now, connects, left);
      case OpenUdp(binds) =>
        s.OpenUdp(binds, left);
      case Data(items) =>
        if left == [] {
          left, count := Ingest(s, items);
        }
    }
    UdpStill(old(s.udp), s.udp, UdpClosed(Items(event)[..count]), event, old(s.nextId));
  }

  lemma NotForNew(queue: seq<DataIn>, id: nat)
    requires Deferrable(queue, id)
    ensures DataFor(queue, id) == []
  {
    if queue != [] {
      assert queue == [queue[0]];
      DataForOne(queue[0], id);
    }
  }

  lemma NewerStill(x: set<nat>, y: set<nat>, z: set<nat>, nextId: nat, later: nat)
    requires Newer(y, x, nextId) && Newer(z, y, later) && nextId <= later
    ensures Newer(z, x, nextId)
  {
  }

  // ---------------------------------------------------------------- one round

  /** All there is to the stack at one moment, with what is deferred. */
  datatype Snap = Snap(
    sockets: map<nat, Kind>,
    tcp: map<nat, TcpState>,
    udp: map<nat, UdpState>,
    nextId: nat,
    nextAsk: nat,
    replies: map<nat, seq<Reply>>,
    hist: map<nat, History>,
    taken: seq<DataIn>,
    left: seq<DataIn>)

  ghost function SnapOf(s: NetStack, left: seq<DataIn>): Snap
    reads s
  {
    Snap(s.sockets, s.tcp, s.udp, s.nextId, s.nextAsk, s.replies, s.hist, s.taken, left)
  }

  /** What holds at every such moment. */
  ghost predicate Sound(x: Snap, cap: nat) {
    && Tables(x.sockets, x.tcp, x.udp, x.nextId) && Asks(x.tcp, x.replies, x.nextAsk)
    && Flows(x.tcp, x.hist, x.taken, x.left, cap) && Deferrable(x.left, x.nextId)
  }

  /** What a round does with connections and their histories: a pass, and what may come behind it. */
  ghost predicate TcpDone(x: Snap, y: Snap, round: Round, connect: nat, linger: nat) {
    var passed := Pass(x.tcp, round.tcp, round.now, linger);
    && Carried(passed, y.tcp)
    && TcpOpened(passed, y.tcp, round.event, round.now, connect, x.nextId, x.nextAsk)
    && SameButMarks(Histories(x.tcp, x.hist, round.tcp, round.now, linger), y.hist, passed.Keys)
    && HistOpened(y.hist, round.event, x.nextId, |x.taken|)
  }

  /** What a round does with requests: those that waited are answered as they fared, a new one at once or not yet. */
  ghost predicate AsksDone(x: Snap, y: Snap, round: Round) {
    && Replied(x.tcp, x.replies, y.replies, {}, round.tcp, round.now)
    && y.nextAsk == x.nextAsk + (if Asked(round.event) then 1 else 0)
    && (Asked(round.event) ==> x.nextAsk in y.replies && y.replies[x.nextAsk] == AtOnce(round.event, x.nextId))
  }

  /** What a round does with associations: those that are gone or closed go, and one may be opened. */
  ghost predicate UdpDone(x: Snap, y: Snap, round: Round, count: nat)
    requires count <= |Items(round.event)|
  {
    && UdpKept(x.udp, y.udp, round.udp, UdpClosed(Items(round.event)[..count]))
    && UdpOpened(x.udp, y.udp, round.event, x.nextId)
  }

  /**
    * A round, from `x` to `y`, that dequeues `count` of the items it brings: all of them, unless one
    * is deferred, and that only for a connection without room.
    */
  ghost predicate RoundDone(x: Snap, y: Snap, round: Round, count: nat, cap: nat, connect: nat, linger: nat) {
    && Sound(y, cap) && NoRoom(y.left, y.tcp, cap)
    && count <= |Items(round.event)| && (count < |Items(round.event)| ==> y.left != [])
    && y.taken == x.taken + Items(round.event)[..count]
    && y.nextId == x.nextId + Granted(round.event)
    && TcpDone(x, y, round, connect, linger) && AsksDone(x, y, round) && UdpDone(x, y, round, count)
  }

  /** One turn of the loop: a pass over both tables, the deferred data, and what comes in. */
  method OneRound(s: NetStack, round: Round, deferred: seq<DataIn>) returns (left: seq<DataIn>, count: nat)
    requires s.Valid(deferred) && Deferrable(deferred, s.nextId)
    modifies s
    ensures s.Valid(left) && Deferrable(left, s.nextId)
    ensures RoundDone(old(SnapOf(s, deferred)), SnapOf(s, left), round, count, s.cap, s.connect, s.linger)
  {
    hide Tables, Asks, Flows, Flow, Replied, Passed, UdpClosed, UdpKept, UdpOpen, UdpOpened, TcpOpened, HistOpened;
    hide SameButMarks, NoRoom, Histories, Pass, Carried, Deferrable, GivenSoFar, AtOnce;
    IdsBelow(s.sockets, s.tcp, s.udp, s.nextId);
    PassKeys(s.tcp, round.tcp, round.now, s.linger);
    var tcpBusy, given := s.ServiceTcp(round.tcp, round.now, deferred);
    var udpBusy := s.ServiceUdp(round.udp, deferred);
    ghost var tcp1, hist1, udp1 := s.tcp, s.hist, s.udp;
    left := DrainDeferred(s, deferred);
    ghost var tcp2, hist2, replies := s.tcp, s.hist, s.replies;
    left, count := Handle(s, round.now, round.event, left);
    SameThrough(hist1, hist2, s.hist, tcp1.Keys);
    CarriedBoth(tcp1, tcp2, s.tcp);
    OpenedSame(tcp1, tcp2, s.tcp, round.event, round.now, s.connect, old(s.nextId), old(s.nextAsk));
    UdpThrough(old(s.udp), udp1, s.udp, round.udp, UdpClosed(Items(round.event)[..count]), round.event, old(s.nextId));
    RepliedBeside(old(s.tcp), old(s.replies), replies, s.replies, round.tcp, round.now);
  }

  lemma PassKeys(tcp: map<nat, TcpState>, seen: nat -> Seen, now: nat, linger: nat)
    ensures Pass(tcp, seen, now, linger).Keys <= tcp.Keys
  {
    hide Next;
  }

  lemma CarriedBoth(x: map<nat, TcpState>, y: map<nat, TcpState>, z: map<nat, TcpState>)
    requires Carried(x, y) && Carried(y, z) && y.Keys == x.Keys
    ensures Carried(x, z)
  {
    CarriedThrough(x, y, z);
  }

  lemma OpenedSame(x: map<nat, TcpState>, y: map<nat, TcpState>, z: map<nat, TcpState>, event: Event, now: nat,
                   connect: nat, id: nat, ask: nat)
    requires x.Keys == y.Keys && TcpOpened(y, z, event, now, connect, id, ask)
    ensures TcpOpened(x, z, event, now, connect, id, ask)
  {
  }

  lemma UdpThrough(x: map<nat, UdpState>, y: map<nat, UdpState>, z: map<nat, UdpState>, seen: nat -> seq<Turn>,
                   closed: set<nat>, event: Event, id: nat)
    requires UdpKept(x, y, seen, {}) && UdpOpen(y, z, closed) && UdpOpened(y, z, event, id)
    requires y.Keys <= x.Keys && forall other :: other in x ==> other < id
    ensures UdpKept(x, z, seen, closed) && UdpOpened(x, z, event, id)
  {
    hide Passed;
  }

  // ---------------------------------------------------------------- whole runs

  /** A run: one moment after the other, with a round between each two. */
  ghost predicate Chain(states: seq<Snap>, rounds: seq<Round>, counts: seq<nat>, cap: nat, connect: nat, linger: nat) {
    && |states| == |rounds| + 1 && |counts| == |rounds| && Sound(states[0], cap)
    && forall k :: 0 <= k < |rounds| ==>
         RoundDone(states[k], states[k + 1], rounds[k], counts[k], cap, connect, linger)
  }

  lemma ChainMore(states: seq<Snap>, rounds: seq<Round>, counts: seq<nat>, cap: nat, connect: nat, linger: nat,
                  y: Snap, round: Round, count: nat)
    requires Chain(states, rounds, counts, cap, connect, linger)
    requires RoundDone(states[|rounds|], y, round, count, cap, connect, linger)
    ensures Chain(states + [y], rounds + [round], counts + [count], cap, connect, linger)
  {
    hide RoundDone, Sound;
    var states', rounds', counts' := states + [y], rounds + [round], counts + [count];
    forall k | 0 <= k < |rounds'|
      ensures RoundDone(states'[k], states'[k + 1], rounds'[k], counts'[k], cap, connect, linger)
    {
      if k < |rounds| {
        assert states'[k] == states[k] && states'[k + 1] == states[k + 1];
      }
    }
  }

  lemma ChainSound(states: seq<Snap>, rounds: seq<Round>, counts: seq<nat>, cap: nat, connect: nat, linger: nat,
                   n: nat)
    requires Chain(states, rounds, counts, cap, connect, linger) && n <= |rounds|
    ensures Sound(states[n], cap)
  {
    hide Sound, TcpDone, AsksDone, UdpDone, NoRoom;
    if n > 0 {
      assert RoundDone(states[n - 1], states[n], rounds[n - 1], counts[n - 1], cap, connect, linger);
    }
  }

  /** The items that the rounds of a run dequeue, `counts[k]` of those that round k brings. */
  function Dequeues(rounds: seq<Round>, counts: seq<nat>): seq<DataIn>
    requires |counts| <= |rounds|
  {
    if counts == [] then []
    else
      var n := |counts| - 1;
      Dequeues(rounds, counts[..n]) + Front(Items(rounds[n].event), counts[n])
  }

  function Front(items: seq<DataIn>, n: nat): seq<DataIn> {
    if n <= |items| then items[..n] else items
  }

  /** The ids that the rounds of a run give out. */
  function Grants(rounds: seq<Round>): nat {
    if rounds == [] then 0 else Grants(rounds[..|rounds| - 1]) + Granted(rounds[|rounds| - 1].event)
  }

  lemma StillThrough(x: map<nat, seq<Reply>>, y: map<nat, seq<Reply>>, z: map<nat, seq<Reply>>)
    requires StillAnswered(x, y) && StillAnswered(y, z)
    ensures StillAnswered(x, z)
  {
  }

  /** What came of the first `n` rounds: what they dequeued, the requests and ids they gave out, and no reply less. */
  ghost predicate Tally(x: Snap, y: Snap, rounds: seq<Round>, counts: seq<nat>)
    requires |counts| <= |rounds|
  {
    && y.taken == x.taken + Dequeues(rounds, counts)
    && y.nextAsk == x.nextAsk + Requests(rounds) && y.nextId == x.nextId + Grants(rounds)
    && StillAnswered(x.replies, y.replies)
    && Newer(y.tcp.Keys, x.tcp.Keys, x.nextId) && Newer(y.udp.Keys, x.udp.Keys, x.nextId)
  }

  lemma TallyMore(x: Snap, y: Snap, z: Snap, rounds: seq<Round>, counts: seq<nat>, round: Round, count: nat, cap: nat,
                  connect: nat, linger: nat)
    requires |counts| == |rounds| && Tally(x, y, rounds, counts)
    requires RoundDone(y, z, round, count, cap, connect, linger)
    ensures Tally(x, z, rounds + [round], counts + [count])
  {
    hide Sound, NoRoom, Replied, Carried, SameButMarks, UdpKept, StillAnswered, Newer, Pass, Histories, UdpClosed;
    hide AtOnce;
    assert (rounds + [round])[..|rounds|] == rounds && (counts + [count])[..|counts|] == counts;
    DequeuesBeside(rounds, counts, round);
    RepliedStays(y.tcp, y.replies, z.replies, {}, round.tcp, round.now);
    StillThrough(x.replies, y.replies, z.replies);
    PassKeys(y.tcp, round.tcp, round.now, linger);
    RoundNewer(y, z, round, connect, linger);
    NewerStill(x.tcp.Keys, y.tcp.Keys, z.tcp.Keys, x.nextId, y.nextId);
    NewerStill(x.udp.Keys, y.udp.Keys, z.udp.Keys, x.nextId, y.nextId);
  }

  lemma {:induction false} DequeuesBeside(rounds: seq<Round>, counts: seq<nat>, round: Round)
    requires |counts| <= |rounds|
    ensures Dequeues(rounds + [round], counts) == Dequeues(rounds, counts)
    decreases |counts|
  {
    if counts != [] {
      DequeuesBeside(rounds, counts[..|counts| - 1], round);
    }
  }

  lemma RoundNewer(x: Snap, y: Snap, round: Round, connect: nat, linger: nat)
    requires TcpOpened(Pass(x.tcp, round.tcp, round.now, linger), y.tcp, round.event, round.now, connect, x.nextId,
                       x.nextAsk)
    requires UdpOpened(x.udp, y.udp, round.event, x.nextId)
    ensures Newer(y.tcp.Keys, x.tcp.Keys, x.nextId) && Newer(y.udp.Keys, x.udp.Keys, x.nextId)
  {
    hide Pass;
    PassKeys(x.tcp, round.tcp, round.now, linger);
  }

  /** An id that is yet to be given out was in no table before. */
  lemma {:induction false} NotYet(states: seq<Snap>, rounds: seq<Round>, counts: seq<nat>, cap: nat, connect: nat,
                                  linger: nat, n: nat, j: nat, id: nat)
    requires Chain(states, rounds, counts, cap, connect, linger) && j <= n <= |rounds| && id >= states[n].nextId
    ensures id !in states[j].tcp
    decreases n - j
  {
    hide Chain, RoundDone, Tables, Asks, Flows;
    ChainLengths(states, rounds, counts, cap, connect, linger);
    if j == n {
      ChainSound(states, rounds, counts, cap, connect, linger, n);
      IdsBelow(states[n].sockets, states[n].tcp, states[n].udp, states[n].nextId);
    } else {
      RoundOf(states, rounds, counts, cap, connect, linger, n - 1);
      NotYet(states, rounds, counts, cap, connect, linger, n - 1, j, id);
    }
  }

  lemma RoundOf(states: seq<Snap>, rounds: seq<Round>, counts: seq<nat>, cap: nat, connect: nat, linger: nat, k: nat)
    requires Chain(states, rounds, counts, cap, connect, linger) && k < |rounds|
    ensures |states| == |rounds| + 1 && |counts| == |rounds| && states[k].nextId <= states[k + 1].nextId
    ensures TcpDone(states[k], states[k + 1], rounds[k], connect, linger)
  {
    hide Sound, TcpDone, AsksDone, UdpDone, NoRoom;
    assert RoundDone(states[k], states[k + 1], rounds[k], counts[k], cap, connect, linger);
  }

  /** What the socket of `id` took over the first `n` rounds, in order. */
  ghost function TakenBy(states: seq<Snap>, rounds: seq<Round>, n: nat, id: nat): bytes
    requires n <= |states| && n <= |rounds|
  {
    if n == 0 then []
    else
      TakenBy(states, rounds, n - 1, id)
      + if id in states[n - 1].tcp then Uptake(states[n - 1].tcp[id], rounds[n - 1].tcp(id)) else []
  }

  lemma {:induction false} NeverTook(states: seq<Snap>, rounds: seq<Round>, n: nat, id: nat)
    requires n <= |states| && n <= |rounds| && forall j :: 0 <= j < n ==> id !in states[j].tcp
    ensures TakenBy(states, rounds, n, id) == []
  {
    if n > 0 {
      NeverTook(states, rounds, n - 1, id);
    }
  }

  /** Connection `id` was opened by round `k`. */
  ghost predicate OpenedBy(states: seq<Snap>, rounds: seq<Round>, k: nat, id: nat)
    requires |states| == |rounds| + 1
  {
    && k < |rounds| && rounds[k].event == OpenTcp(true) && id == states[k].nextId
    && id !in states[k].tcp && id in states[k + 1].tcp
  }

  /**
    * What became of a connection over the first `n` rounds: what was handed over for it is what its
    * socket took, behind what it began with; it counts from where it did, if it was there, and from
    * what had been dequeued when a round opened it, if not.
    */
  ghost predicate Account(states: seq<Snap>, rounds: seq<Round>, n: nat, id: nat)
    requires |states| == |rounds| + 1 && n <= |rounds|
  {
    && id in states[n].hist
    && var h := states[n].hist[id];
       if id in states[0].tcp then
         && id in states[0].hist && h.since == states[0].hist[id].since && (states[0].hist[id].closed ==> h.closed)
         && h.handed == states[0].hist[id].handed + TakenBy(states, rounds, n, id)
       else
         && h.handed == TakenBy(states, rounds, n, id)
         && exists k :: 0 <= k < n && OpenedBy(states, rounds, k, id) && h.since == |states[k].taken|
  }

  /** A connection in a round: as it was left by the pass, or just opened. */
  lemma AccountRound(x: Snap, y: Snap, round: Round, connect: nat, linger: nat, id: nat)
    requires TcpDone(x, y, round, connect, linger) && id in y.tcp
    requires forall other :: other in x.tcp ==> other in x.hist
    ensures id in y.hist
    ensures id in x.tcp && id != x.nextId ==>
              && y.hist[id].handed == x.hist[id].handed + Uptake(x.tcp[id], round.tcp(id))
              && y.hist[id].since == x.hist[id].since && (x.hist[id].closed ==> y.hist[id].closed)
    ensures id !in x.tcp ==>
              round.event == OpenTcp(true) && id == x.nextId && y.hist[id] == History(|x.taken|, [], None, false, 0)
  {
    hide Next, NextHistory, Uptake, Carried;
    if id in x.tcp {
      HandsUptake(x.tcp[id], x.hist[id], round.tcp(id), round.now, linger);
    }
  }

  /** The account of every connection, over any run. */
  lemma {:induction false} Accounted(states: seq<Snap>, rounds: seq<Round>, counts: seq<nat>, cap: nat, connect: nat,
                                     linger: nat, n: nat, id: nat)
    requires Chain(states, rounds, counts, cap, connect, linger) && n <= |rounds| && id in states[n].tcp
    ensures Account(states, rounds, n, id)
    decreases n
  {
    hide Chain, RoundDone, Tables, Asks, Flows, TcpDone, Uptake;
    ChainLengths(states, rounds, counts, cap, connect, linger);
    var y := states[n];
    ChainSound(states, rounds, counts, cap, connect, linger, n);
    HistoriesThere(y.tcp, y.hist, y.taken, y.left, cap);
    if n == 0 {
      assert y.hist[id].handed == y.hist[id].handed + [];
    } else {
      var x := states[n - 1];
      ChainSound(states, rounds, counts, cap, connect, linger, n - 1);
      RoundOf(states, rounds, counts, cap, connect, linger, n - 1);
      HistoriesThere(x.tcp, x.hist, x.taken, x.left, cap);
      IdsBelow(x.sockets, x.tcp, x.udp, x.nextId);
      AccountRound(x, y, rounds[n - 1], connect, linger, id);
      if id in x.tcp {
        Accounted(states, rounds, counts, cap, connect, linger, n - 1, id);
        AccountMore(states, rounds, n, id);
      } else {
        forall j | 0 <= j < n ensures id !in states[j].tcp {
          NotYet(states, rounds, counts, cap, connect, linger, n - 1, j, id);
        }
        NeverTook(states, rounds, n, id);
        assert OpenedBy(states, rounds, n - 1, id);
      }
    }
  }

  lemma ChainLengths(states: seq<Snap>, rounds: seq<Round>, counts: seq<nat>, cap: nat, connect: nat, linger: nat)
    requires Chain(states, rounds, counts, cap, connect, linger)
    ensures |states| == |rounds| + 1 && |counts| == |rounds|
  {
  }

  lemma AccountMore(states: seq<Snap>, rounds: seq<Round>, n: nat, id: nat)
    requires |states| == |rounds| + 1 && 0 < n <= |rounds| && Account(states, rounds, n - 1, id)
    requires id in states[n - 1].tcp && id in states[n].hist
    requires (var h, h' := states[n - 1].hist[id], states[n].hist[id];
              && h'.handed == h.handed + Uptake(states[n - 1].tcp[id], rounds[n - 1].tcp(id))
              && h'.since == h.since && (h.closed ==> h'.closed))
    ensures Account(states, rounds, n, id)
  {
    hide Uptake, OpenedBy;
    var took := Uptake(states[n - 1].tcp[id], rounds[n - 1].tcp(id));
    assert TakenBy(states, rounds, n, id) == TakenBy(states, rounds, n - 1, id) + took;
    if id in states[0].tcp {
      Regrouped(states[0].hist[id].handed, TakenBy(states, rounds, n - 1, id), took);
    }
  }

  lemma Regrouped(a: bytes, b: bytes, c: bytes)
    ensures (a + b) + c == a + (b + c)
  {
  }

  /** Rounds whose items are, each time, what stands next in a channel dequeue the channel from its front. */
  lemma {:induction false} ChannelOrder(rounds: seq<Round>, counts: seq<nat>, sent: seq<DataIn>)
    requires |counts| <= |rounds|
    requires forall k :: 0 <= k < |counts| ==> Dequeues(rounds, counts[..k]) + Items(rounds[k].event) <= sent
    ensures Dequeues(rounds, counts) <= sent
    decreases |counts|
  {
    if counts != [] {
      var n := |counts| - 1;
      assert Dequeues(rounds, counts[..n]) + Items(rounds[n].event) <= sent;
    }
  }

  /**
    * With the channel dequeued from its front, what the socket of a connection took, what is pending
    * and what is deferred for it are the first bytes sent to it since it was opened, in order.
    */
  lemma HandedInOrder(st: TcpState, h: History, taken: seq<DataIn>, queue: seq<DataIn>, id: nat, cap: nat,
                      sent: seq<DataIn>)
    requires Flow(st, h, taken, queue, id, cap) && taken <= sent
    ensures h.handed + (st.pending + DataFor(queue, id)) <= DataFor(sent[h.since..], id)
  {
    var since := sent[h.since..];
    assert since[..|taken| - h.since] == taken[h.since..];
    DataForPrefix(since, |taken| - h.since, id);
  }

  /**
    * The loop, over any rounds whatever. `states` are its moments, with all that holds at each of
    * them, and between each two a round that did what a round does. So what is dequeued is the items
    * that the rounds brought, `counts` of each; what was handed over for a connection is what its
    * socket took, and counts from where it was opened; at most one item is ever deferred; no reply is
    * taken back; and the id of a connection that is gone never comes back.
    */
  method Run(s: NetStack, deferred0: seq<DataIn>, rounds: seq<Round>)
    returns (deferred: seq<DataIn>, counts: seq<nat>, ghost states: seq<Snap>)
    requires s.Valid(deferred0) && Deferrable(deferred0, s.nextId)
    modifies s
    ensures s.Valid(deferred) && Deferrable(deferred, s.nextId) && |deferred| <= 1
    ensures Chain(states, rounds, counts, s.cap, s.connect, s.linger)
    ensures states[0] == old(SnapOf(s, deferred0)) && states[|rounds|] == SnapOf(s, deferred)
    ensures forall k :: 0 <= k <= |rounds| ==> Tally(states[0], states[k], rounds[..k], counts[..k])
    ensures forall k, id :: 0 <= k <= |rounds| && id in states[k].tcp ==> Account(states, rounds, k, id)
  {
    hide Tables, Asks, Flows, Flow, RoundDone, Tally;
    deferred, counts, states := deferred0, [], [SnapOf(s, deferred0)];
    TallyNone(states[0]);
    assert rounds[..0] == [];
    for i := 0 to |rounds|
      invariant s.Valid(deferred) && Deferrable(deferred, s.nextId) && |counts| == i && |states| == i + 1
      invariant Chain(states, rounds[..i], counts, s.cap, s.connect, s.linger)
      invariant states[0] == old(SnapOf(s, deferred0)) && states[i] == SnapOf(s, deferred)
      invariant forall k :: 0 <= k <= i ==> Tally(states[0], states[k], rounds[..k], counts[..k])
    {
      hide Chain, Deferrable;
      var count;
      deferred, count := OneRound(s, rounds[i], deferred);
      ghost var y := SnapOf(s, deferred);
      assert rounds[..i + 1] == rounds[..i] + [rounds[i]] && counts[..i] == counts;
      ChainMore(states, rounds[..i], counts, s.cap, s.connect, s.linger, y, rounds[i], count);
      TallyMore(states[0], states[i], y, rounds[..i], counts, rounds[i], count, s.cap, s.connect, s.linger);
      ghost var counts' := counts + [count];
      assert counts'[..i + 1] == counts';
      assert forall k :: 0 <= k <= i ==> counts'[..k] == counts[..k];
      counts, states := counts + [count], states + [y];
    }
    assert rounds[..|rounds|] == rounds;
    ChainLengths(states, rounds, counts, s.cap, s.connect, s.linger);
    forall k, id | 0 <= k <= |rounds| && id in states[k].tcp ensures Account(states, rounds, k, id) {
      Accounted(states, rounds, counts, s.cap, s.connect, s.linger, k, id);
    }
  }

  lemma TallyNone(x: Snap)
    ensures Tally(x, x, [], [])
  {
  }

  // ---------------------------------------------------------------- ports

  function PortAfter(port: nat, n: nat): nat {
    if n == 0 then port
    else
      var before := PortAfter(port, n - 1);
      if before >= LAST_PORT then FIRST_PORT else before + 1
  }

  /** Ports go round: one comes again after exactly as many allocations as there are ports. */
  lemma {:induction false} PortsGoRound(port: nat, n: nat)
    requires FIRST_PORT <= port <= LAST_PORT
    ensures PortAfter(port, n) == FIRST_PORT + (port - FIRST_PORT + n) % (LAST_PORT - FIRST_PORT + 1)
  {
    if n > 0 {
      PortsGoRound(port, n - 1);
    }
  }
}
