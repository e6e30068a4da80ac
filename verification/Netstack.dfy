/**
  * The userspace network stack: its tables of connections, the data that the application hands
  * to them, and the passes that serve them. The sockets below are another library's: what they
  * answer is an input here, any state and any number of bytes taken.
  */
module Netstack {
  import opened Bytes

  // ---------------------------------------------------------------- the pieces

  /** What a slot of the socket set holds. */
  datatype Kind = TcpSocket | UdpSocket

  datatype Phase = Closed | TimeWait | Established | CloseWait | Underway

  datatype DataIn =
    | Tcp(id: nat, data: bytes)
    | TcpClose(id: nat)
    | Udp(id: nat, data: bytes)
    | UdpClose(id: nat)

  /** `resp` is the request that waits for the connection, `receiver` the channel it will get. */
  datatype TcpState = TcpState(
    handle: nat,
    resp: Option<nat>,
    receiver: bool,
    deadline: nat,
    pending: bytes,
    established: bool,
    halfClosed: bool,
    orphanedAt: Option<nat>,
    aborted: bool)

  datatype UdpState = UdpState(handle: nat)

  datatype Reply = Connected(id: nat) | Bound(id: nat) | Failed

  /** What one try to pass data on to the application finds: a permit, and perhaps a chunk. */
  datatype Turn = Full | Gone | Granted(chunk: Option<bytes>)

  /** What the socket and the channels of one connection answer during one pass. */
  datatype Seen = Seen(
    phase: Phase,
    abandoned: bool,
    canSend: bool,
    taken: nat,
    turns: seq<Turn>,
    canRecv: bool,
    after: Phase)

  const FIRST_PORT: nat := 49152
  const LAST_PORT: nat := 65000
  const MAX_RECV_CHUNKS: nat := 128

  // ---------------------------------------------------------------- histories

  /**
    * What became of a connection: the place in the stream of dequeued data where it was opened,
    * the bytes its socket took, the place of its TcpClose, whether that closed the socket, and
    * the passes that saw it past its linger.
    */
  datatype History = History(since: nat, handed: bytes, mark: Option<nat>, closed: bool, late: nat)

  function Piece(d: DataIn, id: nat): bytes {
    if d.Tcp? && d.id == id then d.data else []
  }

  /** The bytes for `id` among `items`, in order. */
  function DataFor(items: seq<DataIn>, id: nat): bytes {
    if items == [] then [] else DataFor(items[..|items| - 1], id) + Piece(items[|items| - 1], id)
  }

  lemma DataForSnoc(items: seq<DataIn>, d: DataIn, id: nat)
    ensures DataFor(items + [d], id) == DataFor(items, id) + Piece(d, id)
  {
    assert (items + [d])[..|items|] == items;
  }

  lemma DataForOne(d: DataIn, id: nat)
    ensures DataFor([d], id) == Piece(d, id) && DataFor([], id) == []
  {
    DataForSnoc([], d, id);
    assert [] + [d] == [d];
  }

  lemma {:induction false} DataForPrefix(items: seq<DataIn>, k: nat, id: nat)
    requires k <= |items|
    ensures DataFor(items[..k], id) <= DataFor(items, id)
  {
    if k == |items| {
      assert items[..k] == items;
    } else {
      var shorter := items[..|items| - 1];
      assert shorter[..k] == items[..k];
      DataForPrefix(shorter, k, id);
    }
  }

  /** What was dequeued for a connection since it was opened. */
  ghost function Dequeued(taken: seq<DataIn>, h: History, id: nat): bytes
    requires h.since <= |taken|
  {
    DataFor(taken[h.since..], id)
  }

  /** What was dequeued for it before its TcpClose. */
  ghost function BeforeClose(taken: seq<DataIn>, h: History, id: nat): bytes
    requires h.mark.Some? && h.since <= h.mark.value <= |taken|
  {
    DataFor(taken[h.since..h.mark.value], id)
  }

  /** The TcpClose marked is the first for a connection, and only one still in hand is not marked. */
  ghost predicate FirstClose(h: History, taken: seq<DataIn>, queue: seq<DataIn>, id: nat) {
    forall k :: h.since <= k < |taken| && taken[k] == TcpClose(id) ==>
      if h.mark.Some? then h.mark.value <= k else k == |taken| - 1 && queue == [TcpClose(id)]
  }

  /**
    * Nothing is lost, doubled or moved: what was dequeued is what the socket took, then what is
    * pending, then what is deferred. A half-closed connection has everything from before its
    * TcpClose out of the deferred queue, and its socket was closed for it only behind all of that.
    */
  ghost predicate Flow(st: TcpState, h: History, taken: seq<DataIn>, queue: seq<DataIn>, id: nat, cap: nat) {
    && h.since <= |taken|
    && Dequeued(taken, h, id) == h.handed + (st.pending + DataFor(queue, id))
    && |st.pending| <= cap
    && (st.halfClosed <==> h.mark.Some?)
    && (h.mark.Some? ==>
          && h.since <= h.mark.value < |taken| && taken[h.mark.value] == TcpClose(id)
          && |BeforeClose(taken, h, id)| <= |h.handed| + |st.pending|)
    && FirstClose(h, taken, queue, id)
    && (h.closed ==> h.mark.Some? && BeforeClose(taken, h, id) <= h.handed)
    && h.late <= 1 && (h.late == 1 ==> st.aborted)
  }

  ghost predicate Flows(tcp: map<nat, TcpState>, hist: map<nat, History>, taken: seq<DataIn>, queue: seq<DataIn>,
                        cap: nat)
  {
    forall id :: id in tcp ==> id in hist && Flow(tcp[id], hist[id], taken, queue, id, cap)
  }

  // ---------------------------------------------------------------- the tables

  ghost function TcpHandles(tcp: map<nat, TcpState>): set<nat> {
    set id | id in tcp :: tcp[id].handle
  }

  ghost function UdpHandles(udp: map<nat, UdpState>): set<nat> {
    set id | id in udp :: udp[id].handle
  }

  /** The socket set is the disjoint union of the handles in the two tables, each of its kind. */
  ghost predicate Tables(sockets: map<nat, Kind>, tcp: map<nat, TcpState>, udp: map<nat, UdpState>, nextId: nat) {
    && (forall id :: id in tcp ==> id < nextId && id !in udp)
    && (forall id :: id in udp ==> id < nextId)
    && sockets.Keys == TcpHandles(tcp) + UdpHandles(udp)
    && (forall id :: id in tcp ==> tcp[id].handle in sockets && sockets[tcp[id].handle] == TcpSocket)
    && (forall id :: id in udp ==> udp[id].handle in sockets && sockets[udp[id].handle] == UdpSocket)
    && (forall i, j :: i in tcp && j in tcp && i != j ==> tcp[i].handle != tcp[j].handle)
    && (forall i, j :: i in udp && j in udp && i != j ==> udp[i].handle != udp[j].handle)
  }

  lemma TablesTcp(sockets: map<nat, Kind>, tcp: map<nat, TcpState>, udp: map<nat, UdpState>, nextId: nat, id: nat)
    requires Tables(sockets, tcp, udp, nextId) && id in tcp
    ensures tcp[id].handle in sockets && sockets[tcp[id].handle] == TcpSocket && id < nextId
  {
  }

  lemma IdsBelow(sockets: map<nat, Kind>, tcp: map<nat, TcpState>, udp: map<nat, UdpState>, nextId: nat)
    requires Tables(sockets, tcp, udp, nextId)
    ensures (forall id :: id in tcp ==> id < nextId) && (forall id :: id in udp ==> id < nextId)
  {
  }

  lemma TablesUdp(sockets: map<nat, Kind>, tcp: map<nat, TcpState>, udp: map<nat, UdpState>, nextId: nat, id: nat)
    requires Tables(sockets, tcp, udp, nextId) && id in udp
    ensures udp[id].handle in sockets && sockets[udp[id].handle] == UdpSocket
  {
  }

  lemma TcpHandlesPut(tcp: map<nat, TcpState>, id: nat, st: TcpState)
    requires id in tcp ==> st.handle == tcp[id].handle
    ensures TcpHandles(tcp[id := st]) == TcpHandles(tcp) + {st.handle}
  {
    var tcp' := tcp[id := st];
    assert tcp'[id].handle == st.handle;
    forall h | h in TcpHandles(tcp) ensures h in TcpHandles(tcp') {
      var other :| other in tcp && tcp[other].handle == h;
      assert other in tcp' && tcp'[other].handle == h;
    }
  }

  lemma TcpHandlesDrop(tcp: map<nat, TcpState>, id: nat)
    requires id in tcp && forall other :: other in tcp && other != id ==> tcp[other].handle != tcp[id].handle
    ensures TcpHandles(tcp - {id}) == TcpHandles(tcp) - {tcp[id].handle}
  {
    var tcp' := tcp - {id};
    forall h | h in TcpHandles(tcp) && h != tcp[id].handle ensures h in TcpHandles(tcp') {
      var other :| other in tcp && tcp[other].handle == h;
      assert other in tcp' && tcp'[other] == tcp[other];
    }
  }

  lemma UdpHandlesPut(udp: map<nat, UdpState>, id: nat, st: UdpState)
    requires id in udp ==> st.handle == udp[id].handle
    ensures UdpHandles(udp[id := st]) == UdpHandles(udp) + {st.handle}
  {
    var udp' := udp[id := st];
    assert udp'[id].handle == st.handle;
    forall h | h in UdpHandles(udp) ensures h in UdpHandles(udp') {
      var other :| other in udp && udp[other].handle == h;
      assert other in udp' && udp'[other].handle == h;
    }
  }

  lemma UdpHandlesDrop(udp: map<nat, UdpState>, id: nat)
    requires id in udp && forall other :: other in udp && other != id ==> udp[other].handle != udp[id].handle
    ensures UdpHandles(udp - {id}) == UdpHandles(udp) - {udp[id].handle}
  {
    var udp' := udp - {id};
    forall h | h in UdpHandles(udp) && h != udp[id].handle ensures h in UdpHandles(udp') {
      var other :| other in udp && udp[other].handle == h;
      assert other in udp' && udp'[other] == udp[other];
    }
  }

  lemma TablesAddTcp(sockets: map<nat, Kind>, tcp: map<nat, TcpState>, udp: map<nat, UdpState>, nextId: nat,
                     st: TcpState)
    requires Tables(sockets, tcp, udp, nextId) && st.handle !in sockets
    ensures nextId !in tcp && Tables(sockets[st.handle := TcpSocket], tcp[nextId := st], udp, nextId + 1)
  {
    hide TcpHandles, UdpHandles;
    TcpHandlesPut(tcp, nextId, st);
  }

  lemma TablesAddUdp(sockets: map<nat, Kind>, tcp: map<nat, TcpState>, udp: map<nat, UdpState>, nextId: nat,
                     st: UdpState)
    requires Tables(sockets, tcp, udp, nextId) && st.handle !in sockets
    ensures Tables(sockets[st.handle := UdpSocket], tcp, udp[nextId := st], nextId + 1)
  {
    hide TcpHandles, UdpHandles;
    UdpHandlesPut(udp, nextId, st);
  }

  lemma TablesDropTcp(sockets: map<nat, Kind>, tcp: map<nat, TcpState>, udp: map<nat, UdpState>, nextId: nat, id: nat)
    requires Tables(sockets, tcp, udp, nextId) && id in tcp
    ensures Tables(sockets - {tcp[id].handle}, tcp - {id}, udp, nextId)
  {
    TcpHandlesDrop(tcp, id);
  }

  lemma TablesDropUdp(sockets: map<nat, Kind>, tcp: map<nat, TcpState>, udp: map<nat, UdpState>, nextId: nat, id: nat)
    requires Tables(sockets, tcp, udp, nextId) && id in udp
    ensures Tables(sockets - {udp[id].handle}, tcp, udp - {id}, nextId)
  {
    UdpHandlesDrop(udp, id);
  }

  lemma TablesPut(sockets: map<nat, Kind>, tcp: map<nat, TcpState>, udp: map<nat, UdpState>, nextId: nat,
                  id: nat, st: TcpState)
    requires Tables(sockets, tcp, udp, nextId) && id in tcp && st.handle == tcp[id].handle
    ensures Tables(sockets, tcp[id := st], udp, nextId)
  {
    TcpHandlesPut(tcp, id, st);
  }

  // ---------------------------------------------------------------- requests and replies

  /** A connection holds its request, and the channel to answer it with, until it is established. */
  predicate Asking(st: TcpState) {
    && (st.resp.Some? <==> !st.established) && (st.receiver <==> st.resp.Some?)
    && (st.aborted ==> st.established) && (st.orphanedAt.Some? ==> st.established)
  }

  ghost predicate Holds(tcp: map<nat, TcpState>, r: nat) {
    exists id :: id in tcp && tcp[id].resp == Some(r)
  }

  /** Each request has had exactly one reply, or none while just one connection holds it. */
  ghost predicate Asks(tcp: map<nat, TcpState>, replies: map<nat, seq<Reply>>, nextAsk: nat) {
    && (forall r :: r in replies <==> 0 <= r < nextAsk)
    && (forall id :: id in tcp ==> Asking(tcp[id]) && (tcp[id].resp.Some? ==> tcp[id].resp.value in replies))
    && (forall i, j :: i in tcp && j in tcp && i != j && tcp[i].resp.Some? ==> tcp[i].resp != tcp[j].resp)
    && (forall r :: r in replies ==> |replies[r]| == if Holds(tcp, r) then 0 else 1)
  }

  lemma AsksOf(tcp: map<nat, TcpState>, replies: map<nat, seq<Reply>>, nextAsk: nat, id: nat)
    requires Asks(tcp, replies, nextAsk) && id in tcp
    ensures Asking(tcp[id]) && (tcp[id].resp.Some? ==> tcp[id].resp.value in replies)
  {
  }

  lemma AsksPut(tcp: map<nat, TcpState>, replies: map<nat, seq<Reply>>, nextAsk: nat, id: nat, st: TcpState)
    requires Asks(tcp, replies, nextAsk) && id in tcp && Asking(st) && st.resp == tcp[id].resp
    ensures Asks(tcp[id := st], replies, nextAsk)
  {
    var tcp' := tcp[id := st];
    forall r | r in replies ensures Holds(tcp, r) == Holds(tcp', r) {
      assert forall i :: i in tcp <==> i in tcp';
      assert forall i :: i in tcp ==> tcp[i].resp == tcp'[i].resp;
    }
  }

  lemma AsksNew(tcp: map<nat, TcpState>, replies: map<nat, seq<Reply>>, nextAsk: nat, id: nat, st: TcpState)
    requires Asks(tcp, replies, nextAsk) && id !in tcp && Asking(st) && st.resp == Some(nextAsk)
    ensures Asks(tcp[id := st], replies[nextAsk := []], nextAsk + 1)
  {
    var tcp' := tcp[id := st];
    assert tcp'[id].resp == Some(nextAsk);
    forall r | 0 <= r < nextAsk ensures Holds(tcp, r) == Holds(tcp', r) {
      if Holds(tcp, r) {
        var i :| i in tcp && tcp[i].resp == Some(r);
        assert i in tcp' && tcp'[i] == tcp[i];
      }
    }
  }

  lemma AsksAnswered(tcp: map<nat, TcpState>, replies: map<nat, seq<Reply>>, nextAsk: nat, reply: Reply)
    requires Asks(tcp, replies, nextAsk)
    ensures Asks(tcp, replies[nextAsk := [reply]], nextAsk + 1)
  {
    assert !Holds(tcp, nextAsk);
  }

  /** A held request answered, its connection up or gone. */
  lemma AsksReply(tcp: map<nat, TcpState>, replies: map<nat, seq<Reply>>, nextAsk: nat, id: nat, r: nat, reply: Reply,
                  tcp': map<nat, TcpState>)
    requires Asks(tcp, replies, nextAsk) && id in tcp && tcp[id].resp == Some(r)
    requires tcp' == tcp - {id} || (exists st :: Asking(st) && st.resp.None? && tcp' == tcp[id := st])
    ensures Asks(tcp', replies[r := replies[r] + [reply]], nextAsk)
  {
    assert Holds(tcp, r);
    forall q | q in replies && q != r ensures Holds(tcp, q) == Holds(tcp', q) {
      if Holds(tcp, q) {
        var i :| i in tcp && tcp[i].resp == Some(q);
        assert i in tcp' && tcp'[i] == tcp[i];
      }
    }
  }

  lemma AsksDrop(tcp: map<nat, TcpState>, replies: map<nat, seq<Reply>>, nextAsk: nat, id: nat)
    requires Asks(tcp, replies, nextAsk) && id in tcp && tcp[id].established
    ensures Asks(tcp - {id}, replies, nextAsk)
  {
    var tcp' := tcp - {id};
    forall r | r in replies ensures Holds(tcp, r) == Holds(tcp', r) {
      if Holds(tcp, r) {
        var i :| i in tcp && tcp[i].resp == Some(r);
        assert i in tcp' && tcp'[i] == tcp[i];
      }
    }
  }

  // ---------------------------------------------------------------- flows, step by step

  lemma FlowsPut(tcp: map<nat, TcpState>, hist: map<nat, History>, taken: seq<DataIn>, queue: seq<DataIn>, cap: nat,
                 id: nat, st: TcpState, h: History)
    requires Flows(tcp, hist, taken, queue, cap) && Flow(st, h, taken, queue, id, cap)
    ensures Flows(tcp[id := st], hist[id := h], taken, queue, cap)
  {
  }

  lemma FlowOf(tcp: map<nat, TcpState>, hist: map<nat, History>, taken: seq<DataIn>, queue: seq<DataIn>, cap: nat,
               id: nat)
    requires Flows(tcp, hist, taken, queue, cap) && id in tcp
    ensures id in hist && Flow(tcp[id], hist[id], taken, queue, id, cap) && |tcp[id].pending| <= cap
  {
  }

  /** The same histories for `ids`, but for a TcpClose that was marked. */
  ghost predicate SameButMarks(was: map<nat, History>, now: map<nat, History>, ids: set<nat>) {
    forall id :: id in ids ==>
      && id in was && id in now && now[id] == was[id].(mark := now[id].mark)
      && (was[id].mark.Some? ==> now[id].mark == was[id].mark)
  }

  lemma SameItself(hist: map<nat, History>, ids: set<nat>)
    requires ids <= hist.Keys
    ensures SameButMarks(hist, hist, ids)
  {
  }

  lemma SameThrough(x: map<nat, History>, y: map<nat, History>, z: map<nat, History>, ids: set<nat>)
    requires SameButMarks(x, y, ids) && SameButMarks(y, z, ids)
    ensures SameButMarks(x, z, ids)
  {
  }

  lemma SameMarked(hist: map<nat, History>, id: nat, h: History, ids: set<nat>)
    requires ids <= hist.Keys && id in hist && h == hist[id].(mark := h.mark)
    requires hist[id].mark.Some? ==> h.mark == hist[id].mark
    ensures SameButMarks(hist, hist[id := h], ids)
  {
  }

  lemma SameWithout(hist: map<nat, History>, id: nat, h: History, ids: set<nat>)
    requires ids <= hist.Keys && id !in ids
    ensures SameButMarks(hist, hist[id := h], ids)
  {
  }

  lemma HistoriesThere(tcp: map<nat, TcpState>, hist: map<nat, History>, taken: seq<DataIn>, queue: seq<DataIn>,
                       cap: nat)
    requires Flows(tcp, hist, taken, queue, cap)
    ensures forall id :: id in tcp ==> id in hist && (tcp[id].halfClosed <==> hist[id].mark.Some?)
  {
  }

  lemma FlowOpens(taken: seq<DataIn>, queue: seq<DataIn>, cap: nat, id: nat, st: TcpState)
    requires st.pending == [] && !st.halfClosed && DataFor(queue, id) == []
    ensures Flow(st, History(|taken|, [], None, false, 0), taken, queue, id, cap)
  {
  }

  /** One more item dequeued, and in hand. */
  lemma FlowTakes(st: TcpState, h: History, taken: seq<DataIn>, id: nat, cap: nat, d: DataIn)
    requires Flow(st, h, taken, [], id, cap)
    ensures Flow(st, h, taken + [d], [d], id, cap)
  {
    var taken' := taken + [d];
    hide DataFor;
    assert taken'[h.since..] == taken[h.since..] + [d];
    DataForSnoc(taken[h.since..], d, id);
    DataForOne(d, id);
    assert h.handed + (st.pending + Piece(d, id)) == (h.handed + (st.pending + [])) + Piece(d, id);
    if h.mark.Some? {
      assert taken'[h.since..h.mark.value] == taken[h.since..h.mark.value];
    }
  }

  /** An item that is not data for the connection leaves the hand unheeded by it. */
  lemma FlowIgnores(st: TcpState, h: History, taken: seq<DataIn>, queue: seq<DataIn>, queue': seq<DataIn>, id: nat,
                    cap: nat)
    requires Flow(st, h, taken, queue, id, cap) && DataFor(queue, id) == DataFor(queue', id)
    requires queue == [TcpClose(id)] ==> h.mark.Some?
    ensures Flow(st, h, taken, queue', id, cap)
  {
  }

  /** The socket takes the first `n` pending bytes. */
  lemma FlowHands(st: TcpState, h: History, taken: seq<DataIn>, queue: seq<DataIn>, id: nat, cap: nat, n: nat)
    requires Flow(st, h, taken, queue, id, cap) && n <= |st.pending|
    ensures Flow(st.(pending := st.pending[n..]), h.(handed := h.handed + st.pending[..n]), taken, queue, id, cap)
  {
    assert h.handed + (st.pending + DataFor(queue, id))
        == (h.handed + st.pending[..n]) + (st.pending[n..] + DataFor(queue, id));
  }

  /** With nothing pending, all from before the TcpClose is in the socket. */
  lemma FlowCloses(st: TcpState, h: History, taken: seq<DataIn>, queue: seq<DataIn>, id: nat, cap: nat)
    requires Flow(st, h, taken, queue, id, cap) && st.halfClosed && st.pending == []
    ensures Flow(st, h.(closed := true), taken, queue, id, cap)
  {
    var all, k := taken[h.since..], h.mark.value - h.since;
    assert all[..k] == taken[h.since..h.mark.value];
    DataForPrefix(all, k, id);
    var before, rest := BeforeClose(taken, h, id), DataFor(queue, id);
    assert before <= h.handed + ([] + rest);
    assert before == (h.handed + ([] + rest))[..|before|] == h.handed[..|before|];
  }

  /** A TcpClose just dequeued, with nothing else in hand. */
  lemma FlowMarks(st: TcpState, h: History, taken: seq<DataIn>, id: nat, cap: nat, k: nat)
    requires Flow(st, h, taken, [TcpClose(id)], id, cap) && !st.halfClosed
    requires h.since <= k && |taken| == k + 1 && taken[k] == TcpClose(id)
    ensures Flow(st.(halfClosed := true), h.(mark := Some(k)), taken, [], id, cap)
  {
    hide DataFor;
    DataForOne(TcpClose(id), id);
    var all := taken[h.since..];
    assert all[..k - h.since] == taken[h.since..k];
    DataForPrefix(all, k - h.since, id);
  }

  /** The first `n` bytes in hand go to the pending ones, and the others stay in hand. */
  lemma FlowAbsorbs(st: TcpState, h: History, taken: seq<DataIn>, id: nat, cap: nat, data: bytes, n: nat)
    requires Flow(st, h, taken, [Tcp(id, data)], id, cap) && n <= |data| && |st.pending| + n <= cap
    ensures Flow(st.(pending := st.pending + data[..n]), h, taken, [Tcp(id, data[n..])], id, cap)
    ensures n == |data| ==> Flow(st.(pending := st.pending + data[..n]), h, taken, [], id, cap)
  {
    hide DataFor;
    DataForOne(Tcp(id, data), id);
    DataForOne(Tcp(id, data[n..]), id);
    assert h.handed + (st.pending + data) == h.handed + ((st.pending + data[..n]) + data[n..]);
    if n == |data| {
      assert data[..n] == data;
      assert st.pending + data == (st.pending + data) + [];
    }
  }

  lemma FlowsDrop(tcp: map<nat, TcpState>, hist: map<nat, History>, taken: seq<DataIn>, queue: seq<DataIn>, cap: nat,
                  id: nat)
    requires Flows(tcp, hist, taken, queue, cap)
    ensures Flows(tcp - {id}, hist, taken, queue, cap)
  {
  }

  /** A connection comes up: its bytes stay where they are. */
  lemma FlowSame(st: TcpState, st': TcpState, h: History, taken: seq<DataIn>, queue: seq<DataIn>, id: nat, cap: nat)
    requires Flow(st, h, taken, queue, id, cap)
    requires st'.pending == st.pending && st'.halfClosed == st.halfClosed && st'.aborted == st.aborted
    ensures Flow(st', h, taken, queue, id, cap)
  {
  }

  /** A pass that sees a connection past its linger aborts it, so no pass had seen it so before. */
  lemma FlowOrphan(st: TcpState, st': TcpState, h: History, taken: seq<DataIn>, queue: seq<DataIn>, id: nat, cap: nat,
                   late: nat)
    requires Flow(st, h, taken, queue, id, cap) && !st.aborted
    requires st'.pending == st.pending && st'.halfClosed == st.halfClosed
    requires late == 0 || (late == 1 && st'.aborted)
    ensures h.late == 0 && Flow(st', h.(late := late), taken, queue, id, cap)
  {
  }

  lemma OthersData(id: nat, other: nat, x: bytes, y: bytes)
    requires id != other
    ensures DataFor([Tcp(id, x)], other) == [] == DataFor([Tcp(id, y)], other) == DataFor([], other)
  {
    DataForOne(Tcp(id, x), other);
    DataForOne(Tcp(id, y), other);
  }

  lemma FlowsAbsorb(tcp: map<nat, TcpState>, hist: map<nat, History>, taken: seq<DataIn>, cap: nat,
                    id: nat, data: bytes, n: nat, st: TcpState, queue: seq<DataIn>)
    requires Flows(tcp, hist, taken, [Tcp(id, data)], cap) && id in tcp
    requires n <= |data| && |tcp[id].pending| + n <= cap
    requires st == tcp[id].(pending := tcp[id].pending + data[..n])
    requires queue == [Tcp(id, data[n..])] || (n == |data| && queue == [])
    ensures Flows(tcp[id := st], hist, taken, queue, cap)
  {
    forall i | i in tcp
      ensures i in hist && Flow(tcp[id := st][i], hist[i], taken, queue, i, cap)
    {
      hide Flow, Flows;
      FlowOf(tcp, hist, taken, [Tcp(id, data)], cap, i);
      if i == id {
        FlowAbsorbs(tcp[id], hist[id], taken, id, cap, data, n);
      } else {
        OthersData(id, i, data, data[n..]);
        FlowIgnores(tcp[i], hist[i], taken, [Tcp(id, data)], queue, i, cap);
      }
    }
  }

  /** An item in hand that no connection is to keep. */
  lemma FlowsIgnore(tcp: map<nat, TcpState>, hist: map<nat, History>, taken: seq<DataIn>, cap: nat, d: DataIn)
    requires Flows(tcp, hist, taken, [d], cap) && (d.Tcp? || d.TcpClose? ==> d.id !in tcp)
    ensures Flows(tcp, hist, taken, [], cap)
  {
    forall i | i in tcp
      ensures i in hist && Flow(tcp[i], hist[i], taken, [], i, cap)
    {
      hide Flow, Flows;
      FlowOf(tcp, hist, taken, [d], cap, i);
      DataForOne(d, i);
      FlowIgnores(tcp[i], hist[i], taken, [d], [], i, cap);
    }
  }

  lemma FlowsTake(tcp: map<nat, TcpState>, hist: map<nat, History>, taken: seq<DataIn>, cap: nat, d: DataIn)
    requires Flows(tcp, hist, taken, [], cap)
    ensures Flows(tcp, hist, taken + [d], [d], cap)
    ensures forall id :: id in tcp ==> id in hist && hist[id].since <= |taken|
  {
    forall i | i in tcp
      ensures i in hist && Flow(tcp[i], hist[i], taken + [d], [d], i, cap) && hist[i].since <= |taken|
    {
      FlowTakes(tcp[i], hist[i], taken, i, cap, d);
    }
  }

  lemma FlowsMark(tcp: map<nat, TcpState>, hist: map<nat, History>, taken: seq<DataIn>, cap: nat, id: nat, k: nat,
                  st: TcpState, h: History)
    requires Flows(tcp, hist, taken, [TcpClose(id)], cap) && id in tcp && id in hist
    requires hist[id].since <= k && |taken| == k + 1 && taken[k] == TcpClose(id)
    requires st == tcp[id].(halfClosed := true)
    requires h == if tcp[id].halfClosed then hist[id] else hist[id].(mark := Some(k))
    ensures Flows(tcp[id := st], hist[id := h], taken, [], cap)
  {
    hide Flow;
    forall i | i in tcp
      ensures i in hist && Flow(tcp[id := st][i], hist[id := h][i], taken, [], i, cap)
    {
      FlowOf(tcp, hist, taken, [TcpClose(id)], cap, i);
      if i == id && !tcp[id].halfClosed {
        FlowMarks(tcp[id], hist[id], taken, id, cap, k);
      } else {
        FlowPasses(tcp[i], hist[i], taken, id, i, cap);
      }
    }
  }

  /** A TcpClose that is another connection's, or not the first. */
  lemma FlowPasses(st: TcpState, h: History, taken: seq<DataIn>, id: nat, i: nat, cap: nat)
    requires Flow(st, h, taken, [TcpClose(id)], i, cap) && (i == id ==> st.halfClosed)
    ensures Flow(st, h, taken, [], i, cap)
  {
    hide Flow, DataFor;
    DataForOne(TcpClose(id), i);
    FlowMarked(st, h, taken, [TcpClose(id)], i, cap);
    FlowIgnores(st, h, taken, [TcpClose(id)], [], i, cap);
  }

  lemma FlowMarked(st: TcpState, h: History, taken: seq<DataIn>, queue: seq<DataIn>, id: nat, cap: nat)
    requires Flow(st, h, taken, queue, id, cap)
    ensures st.halfClosed <==> h.mark.Some?
  {
  }

  // ---------------------------------------------------------------- one pass over one connection

  /** The chunks passed on before the first turn that gives none, `room` at most, and that turn. */
  function Passed(turns: seq<Turn>, room: nat): (r: (seq<bytes>, Turn))
    ensures |r.0| <= room
  {
    if room == 0 || turns == [] then ([], Granted(None))
    else if turns[0].Granted? && turns[0].chunk.Some? then
      var rest := Passed(turns[1..], room - 1);
      ([turns[0].chunk.value] + rest.0, rest.1)
    else ([], turns[0])
  }

  /** Passing chunks on finds that the application is gone. */
  predicate FindsGone(seen: Seen) {
    Passed(seen.turns, MAX_RECV_CHUNKS).1.Gone?
  }

  predicate Connects(phase: Phase) {
    phase.Established? || phase.CloseWait?
  }

  predicate Ended(phase: Phase) {
    phase.Closed? || phase.TimeWait?
  }

  function Handed(st: TcpState, seen: Seen): (n: nat)
    ensures n <= |st.pending|
  {
    if !seen.canSend then 0 else if seen.taken <= |st.pending| then seen.taken else |st.pending|
  }

  function Elapsed(now: nat, since: nat): nat {
    if now >= since then now - since else 0
  }

  /** What becomes of a connection once its bytes went both ways: None when it is gone. */
  function Settled(st: TcpState, gone: bool, seen: Seen, now: nat, linger: nat): Option<TcpState> {
    if gone then
      var since := if st.orphanedAt.Some? then st.orphanedAt.value else now;
      var orphan := st.(orphanedAt := Some(since));
      if seen.canRecv || Elapsed(now, since) >= linger then Some(orphan.(aborted := true))
      else if Ended(seen.after) then None else Some(orphan)
    else if Ended(seen.after) then None else Some(st)
  }

  /** What a pass makes of an established connection. */
  function NextUp(st: TcpState, seen: Seen, now: nat, linger: nat): Option<TcpState> {
    Settled(st.(pending := st.pending[Handed(st, seen)..]), FindsGone(seen), seen, now, linger)
  }

  /** What a pass makes of a connection. */
  function Next(st: TcpState, seen: Seen, now: nat, linger: nat): Option<TcpState> {
    if st.aborted then None
    else if st.established then NextUp(st, seen, now, linger)
    else if Connects(seen.phase) then
      NextUp(st.(established := true, resp := None, receiver := false), seen, now, linger)
    else if Ended(seen.phase) || seen.abandoned || now >= st.deadline then None
    else Some(st)
  }

  /** The bytes that the socket of a connection takes in a pass: the first of those pending. */
  function Uptake(st: TcpState, seen: Seen): bytes {
    if st.aborted || (!st.established && !Connects(seen.phase)) then [] else st.pending[..Handed(st, seen)]
  }

  /** What a pass adds to the history of an established connection. */
  function UpHistory(st: TcpState, h: History, seen: Seen, now: nat, linger: nat): History {
    h.(handed := h.handed + st.pending[..Handed(st, seen)],
       closed := h.closed || (st.halfClosed && Handed(st, seen) == |st.pending|),
       late := if FindsGone(seen) && PastLinger(st, now, linger) then h.late + 1 else h.late)
  }

  predicate PastLinger(st: TcpState, now: nat, linger: nat) {
    Elapsed(now, if st.orphanedAt.Some? then st.orphanedAt.value else now) >= linger
  }

  /** What a pass adds to the history of a connection. */
  function NextHistory(st: TcpState, h: History, seen: Seen, now: nat, linger: nat): History {
    if st.aborted || (!st.established && !Connects(seen.phase)) then h else UpHistory(st, h, seen, now, linger)
  }

  /** The histories after a pass: each connection's own turn, and the others as they were. */
  ghost function Histories(tcp: map<nat, TcpState>, hist: map<nat, History>, seen: nat -> Seen, now: nat, linger: nat)
    : map<nat, History>
  {
    map id | id in hist :: if id in tcp then NextHistory(tcp[id], hist[id], seen(id), now, linger) else hist[id]
  }

  /** What a pass answers to the request that waits for a connection. */
  function Answer(st: TcpState, seen: Seen, now: nat, id: nat): seq<Reply> {
    if st.established then []
    else if Connects(seen.phase) then [Connected(id)]
    else if Ended(seen.phase) || seen.abandoned || now >= st.deadline then [Failed]
    else []
  }

  ghost function AnsweredTo(replies: map<nat, seq<Reply>>, resp: Option<nat>, more: seq<Reply>): map<nat, seq<Reply>> {
    if resp.Some? && resp.value in replies then replies[resp.value := replies[resp.value] + more] else replies
  }

  lemma AnsweredNothing(replies: map<nat, seq<Reply>>, resp: Option<nat>)
    ensures AnsweredTo(replies, resp, []) == replies
  {
    if resp.Some? && resp.value in replies {
      assert replies[resp.value] + [] == replies[resp.value];
    }
  }

  /**
    * The replies in a pass on its way: a request that waits for a connection has had its answer if
    * the connection had its turn, and no other request has had one.
    */
  ghost predicate Replied(tcp: map<nat, TcpState>, was: map<nat, seq<Reply>>, replies: map<nat, seq<Reply>>,
                          left: set<nat>, seen: nat -> Seen, now: nat)
  {
    && was.Keys <= replies.Keys
    && (forall r :: r in was && !Holds(tcp, r) ==> replies[r] == was[r])
    && (forall id :: id in tcp && tcp[id].resp.Some? ==>
          && tcp[id].resp.value in was
          && replies[tcp[id].resp.value]
             == was[tcp[id].resp.value] + if id in left then [] else Answer(tcp[id], seen(id), now, id))
  }

  lemma RepliedNone(tcp: map<nat, TcpState>, replies: map<nat, seq<Reply>>, nextAsk: nat, seen: nat -> Seen, now: nat)
    requires Asks(tcp, replies, nextAsk)
    ensures Replied(tcp, replies, replies, tcp.Keys, seen, now)
  {
  }

  lemma RepliedStep(tcp: map<nat, TcpState>, was: map<nat, seq<Reply>>, nextAsk: nat, replies: map<nat, seq<Reply>>,
                    left: set<nat>, seen: nat -> Seen, now: nat, id: nat)
    requires Asks(tcp, was, nextAsk) && Replied(tcp, was, replies, left, seen, now) && id in left && id in tcp
    ensures Replied(tcp, was, AnsweredTo(replies, tcp[id].resp, Answer(tcp[id], seen(id), now, id)), left - {id}, seen,
                    now)
  {
    hide Answer;
    var more := Answer(tcp[id], seen(id), now, id);
    var replies' := AnsweredTo(replies, tcp[id].resp, more);
    if tcp[id].resp.Some? {
      assert Holds(tcp, tcp[id].resp.value);
      assert (was[tcp[id].resp.value] + []) + more == was[tcp[id].resp.value] + more;
    }
  }

  /** What was answered stays. */
  ghost predicate StillAnswered(was: map<nat, seq<Reply>>, replies: map<nat, seq<Reply>>) {
    forall r :: r in was ==> r in replies && was[r] <= replies[r]
  }

  lemma RepliedStays(tcp: map<nat, TcpState>, was: map<nat, seq<Reply>>, replies: map<nat, seq<Reply>>,
                     left: set<nat>, seen: nat -> Seen, now: nat)
    requires Replied(tcp, was, replies, left, seen, now)
    ensures StillAnswered(was, replies)
  {
    forall r | r in was ensures was[r] <= replies[r] {
      if Holds(tcp, r) {
        var id :| id in tcp && tcp[id].resp == Some(r);
      }
    }
  }

  /** Requests that came later change none of this. */
  lemma RepliedBeside(tcp: map<nat, TcpState>, was: map<nat, seq<Reply>>, replies: map<nat, seq<Reply>>,
                      replies': map<nat, seq<Reply>>, seen: nat -> Seen, now: nat)
    requires Replied(tcp, was, replies, {}, seen, now)
    requires forall r :: r in replies ==> r in replies' && replies'[r] == replies[r]
    ensures Replied(tcp, was, replies', {}, seen, now)
  {
    hide Answer;
  }

  lemma AsksNext(tcp: map<nat, TcpState>, replies: map<nat, seq<Reply>>, nextAsk: nat)
    requires Asks(tcp, replies, nextAsk)
    ensures nextAsk !in replies
  {
  }

  /** The bytes a pass hands over are those its socket takes. */
  lemma HandsUptake(st: TcpState, h: History, seen: Seen, now: nat, linger: nat)
    ensures NextHistory(st, h, seen, now, linger).handed == h.handed + Uptake(st, seen)
    ensures NextHistory(st, h, seen, now, linger).since == h.since
    ensures h.closed ==> NextHistory(st, h, seen, now, linger).closed
    ensures |Uptake(st, seen)| <= if seen.canSend then seen.taken else 0
  {
  }

  /** What may come to a table between passes: data, a TcpClose, and connections that have only been asked for. */
  ghost predicate Carried(tcp: map<nat, TcpState>, tcp': map<nat, TcpState>) {
    && (forall id :: id in tcp ==>
          && id in tcp' && tcp[id].pending <= tcp'[id].pending && (tcp[id].halfClosed ==> tcp'[id].halfClosed)
          && tcp'[id] == tcp[id].(pending := tcp'[id].pending, halfClosed := tcp'[id].halfClosed))
    && (forall id :: id in tcp' && id !in tcp ==> !tcp'[id].established && tcp'[id].pending == [])
  }

  lemma CarriedOne(tcp: map<nat, TcpState>, id: nat, st: TcpState)
    requires id in tcp && tcp[id].pending <= st.pending && (tcp[id].halfClosed ==> st.halfClosed)
    requires st == tcp[id].(pending := st.pending, halfClosed := st.halfClosed)
    ensures Carried(tcp, tcp) && Carried(tcp, tcp[id := st])
  {
  }

  lemma CarriedItself(tcp: map<nat, TcpState>)
    ensures Carried(tcp, tcp)
  {
  }

  lemma CarriedThrough(x: map<nat, TcpState>, y: map<nat, TcpState>, z: map<nat, TcpState>)
    requires Carried(x, y) && Carried(y, z) && (y.Keys == x.Keys || z == y)
    ensures Carried(x, z)
  {
  }

  function Put(tcp: map<nat, TcpState>, id: nat, st: Option<TcpState>): map<nat, TcpState> {
    if st.Some? then tcp[id := st.value] else tcp - {id}
  }

  /** What a pass makes of the table, whatever order it takes the connections in. */
  ghost function Pass(tcp: map<nat, TcpState>, seen: nat -> Seen, now: nat, linger: nat): map<nat, TcpState> {
    map id | id in tcp && Next(tcp[id], seen(id), now, linger).Some? :: Next(tcp[id], seen(id), now, linger).value
  }

  /** Only what a connection has pending, and how it stands with its application, goes into its history. */
  lemma UpHistoryOf(st: TcpState, st': TcpState, h: History, seen: Seen, now: nat, linger: nat)
    requires st'.pending == st.pending && st'.halfClosed == st.halfClosed && st'.orphanedAt == st.orphanedAt
    ensures UpHistory(st', h, seen, now, linger) == UpHistory(st, h, seen, now, linger)
  {
    hide Passed;
  }

  /** The three marks of a turn, one after the other. */
  lemma UpHistorySteps(st: TcpState, sent: TcpState, h: History, seen: Seen, now: nat, linger: nat, gone: bool)
    requires sent == st.(pending := st.pending[Handed(st, seen)..])
    requires gone == FindsGone(seen)
    ensures (var h1 := h.(handed := h.handed + st.pending[..Handed(st, seen)]);
             var h2 := h1.(closed := h1.closed || (sent.halfClosed && sent.pending == []));
             UpHistory(st, h, seen, now, linger)
             == h2.(late := if gone && PastLinger(sent, now, linger) then h2.late + 1 else h2.late))
  {
    hide Passed;
  }

  /** The connections of a pass on its way: `left` still have their turn, and the others have had it. */
  ghost predicate TcpSoFar(tcp0: map<nat, TcpState>, tcp: map<nat, TcpState>, left: set<nat>, seen: nat -> Seen,
                           now: nat, linger: nat)
  {
    && left <= tcp.Keys <= tcp0.Keys
    && (forall id :: id in left ==> tcp[id] == tcp0[id])
    && (forall id :: id in tcp0.Keys - left ==>
          && (id in tcp <==> Next(tcp0[id], seen(id), now, linger).Some?)
          && (id in tcp ==> tcp[id] == Next(tcp0[id], seen(id), now, linger).value))
  }

  /** Their histories. */
  ghost predicate HistSoFar(tcp0: map<nat, TcpState>, hist0: map<nat, History>, hist: map<nat, History>, left: set<nat>,
                            seen: nat -> Seen, now: nat, linger: nat)
  {
    && left <= tcp0.Keys <= hist0.Keys == hist.Keys
    && (forall id :: id in hist ==>
          hist[id] == if id in tcp0.Keys - left then NextHistory(tcp0[id], hist0[id], seen(id), now, linger)
                      else hist0[id])
  }

  lemma TcpStep(tcp0: map<nat, TcpState>, tcp: map<nat, TcpState>, left: set<nat>, seen: nat -> Seen, now: nat,
                linger: nat, id: nat)
    requires TcpSoFar(tcp0, tcp, left, seen, now, linger) && id in left
    ensures tcp[id] == tcp0[id]
    ensures TcpSoFar(tcp0, Put(tcp, id, Next(tcp[id], seen(id), now, linger)), left - {id}, seen, now, linger)
  {
    hide Next;
  }

  lemma HistStep(tcp0: map<nat, TcpState>, hist0: map<nat, History>, hist: map<nat, History>, left: set<nat>,
                 seen: nat -> Seen, now: nat, linger: nat, id: nat)
    requires HistSoFar(tcp0, hist0, hist, left, seen, now, linger) && id in left
    ensures HistSoFar(tcp0, hist0, hist[id := NextHistory(tcp0[id], hist[id], seen(id), now, linger)], left - {id},
                      seen, now, linger)
  {
    hide NextHistory;
  }

  lemma PassDone(tcp0: map<nat, TcpState>, hist0: map<nat, History>, tcp: map<nat, TcpState>, hist: map<nat, History>,
                 seen: nat -> Seen, now: nat, linger: nat)
    requires TcpSoFar(tcp0, tcp, {}, seen, now, linger) && HistSoFar(tcp0, hist0, hist, {}, seen, now, linger)
    ensures tcp == Pass(tcp0, seen, now, linger) && hist == Histories(tcp0, hist0, seen, now, linger)
  {
    hide Next, NextHistory;
  }

  /** A pass over an orphan past its linger is counted exactly when it finds the application gone. */
  lemma CountsLate(st: TcpState, h: History, seen: Seen, now: nat, linger: nat)
    requires st.established && !st.aborted && st.orphanedAt.Some? && Elapsed(now, st.orphanedAt.value) >= linger
    ensures NextHistory(st, h, seen, now, linger).late == h.late + if FindsGone(seen) then 1 else 0
  {
  }

  /** No connection waits past its deadline. */
  lemma DeadlinesMet(tcp: map<nat, TcpState>, seen: nat -> Seen, now: nat, linger: nat, id: nat)
    requires id in Pass(tcp, seen, now, linger) && !Pass(tcp, seen, now, linger)[id].established
    ensures now < tcp[id].deadline == Pass(tcp, seen, now, linger)[id].deadline
  {
  }

  /**
    * What a pass leaves of an orphan past its linger: it stays, and is not aborted, exactly when the
    * pass does not find the application gone and the socket is not at its end. Otherwise it is gone
    * by the next pass, whatever happens to its pending bytes between.
    */
  lemma OrphanGone(st: TcpState, first: Seen, now: nat, between: TcpState, second: Seen, later: nat, linger: nat)
    requires Asking(st) && st.orphanedAt.Some? && Elapsed(now, st.orphanedAt.value) >= linger
    requires var mid := Next(st, first, now, linger);
             mid.Some? ==> between.aborted == mid.value.aborted
    ensures (var mid := Next(st, first, now, linger);
             && (mid.Some? && !mid.value.aborted <==> !st.aborted && !FindsGone(first) && !Ended(first.after))
             && (st.aborted || FindsGone(first) || Ended(first.after) ==>
                   mid.None? || Next(between, second, later, linger).None?))
  {
  }

  /** The chunks that a pass gives to the application, and whether it had no room for more. */
  function GivenTo(st: TcpState, seen: Seen): (seq<bytes>, bool) {
    if st.aborted || (!st.established && !Connects(seen.phase)) then ([], false)
    else (Passed(seen.turns, MAX_RECV_CHUNKS).0, Passed(seen.turns, MAX_RECV_CHUNKS).1.Full?)
  }

  /** What a pass on its way has given to the applications, and whether one of them had no room for more. */
  ghost predicate GivenSoFar(tcp: map<nat, TcpState>, left: set<nat>, seen: nat -> Seen, given: map<nat, seq<bytes>>,
                             busy: bool)
  {
    && given.Keys == tcp.Keys - left
    && (forall id :: id in given ==> given[id] == GivenTo(tcp[id], seen(id)).0)
    && (busy <==> exists id :: id in given && GivenTo(tcp[id], seen(id)).1)
  }

  lemma GivenNone(tcp: map<nat, TcpState>, seen: nat -> Seen)
    ensures GivenSoFar(tcp, tcp.Keys, seen, map[], false)
  {
  }

  lemma GivenStep(tcp: map<nat, TcpState>, left: set<nat>, seen: nat -> Seen, given: map<nat, seq<bytes>>, busy: bool,
                  id: nat, chunks: seq<bytes>, full: bool)
    requires GivenSoFar(tcp, left, seen, given, busy) && id in left && id in tcp
    requires (chunks, full) == GivenTo(tcp[id], seen(id))
    ensures GivenSoFar(tcp, left - {id}, seen, given[id := chunks], busy || full)
  {
    hide GivenTo;
    var given' := given[id := chunks];
    assert given'.Keys == tcp.Keys - (left - {id});
    if busy {
      var other :| other in given && GivenTo(tcp[other], seen(other)).1;
      assert other in given';
    }
    assert id in given';
  }
}
