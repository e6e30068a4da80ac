# Koku engine: a verified model of its parsers, tables and loops

This project models the parts of the Koku engine that read bytes from the network and the loops
that keep its tunnels up, and proves what they promise for every input, every cut of a stream and
every order of events.

| file | what it models |
|---|---|
| `Bytes.dfy`, `Text.dfy` | bytes, searches, UTF-8 and the string operations the parsers use |
| `Dechunker.dfy` (module `Chunked`), `Http1.dfy`, `Http1Wire.dfy`, `HttpRoundTrip.dfy` | the HTTP/1.1 answer reader: heads, framing, chunked bodies, and answers as a server writes them |
| `Netstack.dfy`, `NetstackRun.dfy` | the userspace network stack: its tables, its upload queues, its service passes and its loop |
| `Varint.dfy`, `Capsules.dfy`, `Datagrams.dfy`, `H2Tunnel.dfy`, `H2Arrival.dfy` | MASQUE: integers, capsules, HTTP datagrams, the IPv4 checksum, the batching sender, the drainer and whole runs of it |
| `EchConfig.dfy`, `EchSession.dfy`, `EchHandshake.dfy` | ECH: the check of a config list, the key the sessions share, the handshake retry |
| `ClientHello.dfy` | the two readers of the server name in a TLS ClientHello |
| `Dns.dfy` | the HTTPS-record query, the reply that answers it, the ech parameter in it |
| `Egress.dfy` | the order of addresses and the race between connection attempts |
| `Worker.dfy` | the native engine's start, stop and worker thread |
| `Packet.dfy` | the TCP payload of a packet |
| `Failover.dfy` | the WireGuard and warp-in-warp failover loops |

The form follows the source: parsers and the stack that update fields in place are classes, loops
are methods with loops, and each is proved against a function or predicate that says what it is
for. What those functions mean is then proved against something that does not mention them: a
grammar, a writer, a history, a rule of a standard.

What other code decides is an input, and every theorem is for all of it: what a socket takes, what
a channel answers, what a server sends, what a scan finds, when a delay ends, in which order
threads step. Sizes are those of a 64-bit build.

Four promises turned out to hold only under a condition. Each has a witness and the exact condition:

- An answer is read the same however it is cut: not when a cut falls in an overlong chunk line
  (witness `HttpRoundTrip.CutMatters`, condition `Http1.SplitExactly`).
- A bare packet comes back as it is: not an IPv4 packet whose header says it has no length
  (witness `Datagrams.StripHidden`, condition `Datagrams.StripBare`).
- A drain takes every capsule that has come whole: not past a malformed list
  (witness `H2Tunnel.DrainLeavesOne`, condition `H2Tunnel.DrainsAll`).
- The capsule buffer never resets while each piece fits with the largest capsule: it does when
  malformed lists hold whole capsules back (witness `H2Arrival.BufferResets`, condition
  `H2Arrival.Receive`).

## Model

| member | source | states |
|---|---|---|
| Bytes.Search | engine/aether/src/https.rs:343-351 | the windowed search finds the first match at or after its start, and compares exactly one window a place |
| Bytes.FindSkips | engine/aether/src/https.rs:343-351 | a search resumed past places known not to match finds what a full rescan finds |
| Bytes.FindExtends | engine/aether/src/https.rs:488-500 | what a search found stays the first match when more bytes come |
| Text.DecodesAscii | engine/aether/src/https.rs:405-407 | ASCII text survives lossy and strict UTF-8 decoding unchanged |
| Chunked.StepExtends | engine/aether/src/https.rs:466-518 | more bytes change no step of the dechunker that was not stuck |
| Chunked.RunExtends | engine/aether/src/https.rs:466-518 | a run over a longer body is the run over the shorter one, carried on from where that was open |
| Chunked.RunCompletes | engine/aether/src/https.rs:466-518 | every body of the chunked grammar is read to its end, with its chunk data joined in order |
| Chunked.RunSound | engine/aether/src/https.rs:466-518 | whatever is read whole is a body of the grammar, which the proof builds |
| Chunked.Recognises | engine/aether/src/https.rs:447-530 | the dechunker is done, at a place and with a text, exactly when a body of the grammar stands at the start, ends there and has that text, for any reading of size lines; `HttpRoundTrip.SizeExactly` says which reading that is |
| Chunked.BrokenForGood | engine/aether/src/https.rs:466-518 | a body given up as broken is neither a start nor an extension of any body of the grammar |
| Chunked.TrailerUnique | engine/aether/src/https.rs:488-504 | a trailer can be read in one way only |
| Chunked.WireUnique | engine/aether/src/https.rs:466-518 | the body at a place is unique: sizes, data, trailer; no line end inside data ends it |
| Chunked.FairCut | engine/aether/src/https.rs:488-500 | where every line a run passes or stops in is of fair length, no cut falls in a line too long, whatever the run ends with |
| Chunked.UnfairCut | engine/aether/src/https.rs:488-500 | where some line is not, some cut does |
| Chunked.FairBody | engine/aether/src/https.rs:488-500 | a body of the grammar with short lines is fair, whatever is behind it |
| Chunked.RunFaults | engine/aether/src/https.rs:488-496 | a run breaks on what it reads and never on the length of a line |
| Chunked.Dechunker.Advance | engine/aether/src/https.rs:466-518 | the resumed cursors give the verdict of one run over the whole body, and all searches together compare at most one window a byte |
| Chunked.Dechunker.TakeData | engine/aether/src/https.rs:469-487 | one data step: waits, refuses an overflowing size or a missing line end, or takes exactly the chunk |
| Chunked.Dechunker.FindLine | engine/aether/src/https.rs:488-500 | the resumed search finds the first line end after the cursor, its cost charged to new places only |
| Chunked.Dechunker.TakeLine | engine/aether/src/https.rs:488-515 | one line step: a size line, a trailer field or the blank line; too long a line is refused |
| Chunked.Dechunker.Finish | engine/aether/src/https.rs:521-529 | the joined data of a body that ended, and an error for one that did not |
| Http1.HeadExtends | engine/aether/src/https.rs:343-367 | more bytes leave a head that was read as it was, and carry on one that was not |
| Http1.Settled | engine/aether/src/https.rs:338-402 | once an answer is whole or refused, any extension within the size limit leaves it so, with the same status, fields and body |
| Http1.SplitIndependence | engine/aether/src/https.rs:338-402 | for every cut of every answer within the limit: the result is that of one push, unless a cut falls in a chunk line already too long, which is refused as such |
| Http1.FedFrom | engine/aether/src/https.rs:270-286 | the same, from any state of the read loop |
| Http1.FairAnswer | engine/aether/src/https.rs:338-402 | however an answer with fair lines is cut, truncated and malformed ones included, the result is that of one push |
| Http1.FairCut | engine/aether/src/https.rs:488-500 | no cut of such an answer falls in a line too long |
| Http1.UnfairCut | engine/aether/src/https.rs:488-500 | some cut of any other does |
| Http1.SplitExactly | engine/aether/src/https.rs:338-402 | the result of an answer does not depend on its cuts exactly when every chunk line is of fair length, or the answer stops in one too long |
| Http1.Http1Answer.Push | engine/aether/src/https.rs:338-375 | pushing gives the verdict on all the bytes so far, and head and line searches together compare at most one window a byte received |
| Http1.Http1Answer.SeekHead | engine/aether/src/https.rs:343-367 | passes over interim answers and stops at the head a one-shot reading finds, or its error |
| Http1.Http1Answer.FindBlankLine | engine/aether/src/https.rs:343-351 | the resumed search finds the first blank line of the head |
| Http1.Http1Answer.JudgeBody | engine/aether/src/https.rs:368-374 | whether the body is whole by its length, its last chunk or the end of the connection |
| Http1.Http1Answer.Finish | engine/aether/src/https.rs:380-401 | the answer by its framing, or why there is none |
| Http1.ReadAnswer | engine/aether/src/https.rs:270-286 | the read loop stops at the first piece that makes the answer whole |
| Http1Wire.DecimalParses | engine/aether/src/https.rs:409-442 | a number written in decimal is read back by any width it fits |
| Http1Wire.FieldParses | engine/aether/src/https.rs:414-417 | a field line gives its name and value back |
| Http1Wire.HeadRoundTrip | engine/aether/src/https.rs:405-419 | a written head is read back: status and fields in order |
| Http1Wire.WrittenHead | engine/aether/src/https.rs:352-367 | a written head ends at its own blank line, and is interim or final by its status |
| Http1Wire.LookupFirst | engine/aether/src/https.rs:423-445 | a lookup gives the first field of the name, in any case |
| Http1Wire.LengthFrames | engine/aether/src/https.rs:423-445 | Content-Length frames a body that is neither absent nor chunked |
| Http1Wire.ChunkedFrames | engine/aether/src/https.rs:423-445 | chunked goes before Content-Length |
| Http1Wire.HeadsRead | engine/aether/src/https.rs:343-367 | any number of interim answers is passed over, and the answer's own head is read where it starts |
| Http1Wire.AnswerRoundTrip | engine/aether/src/https.rs:304-402 | an answer behind any interim answers, cut in any pieces, is read back with its status, fields and body |
| Http1Wire.OneShotGives | engine/aether/src/https.rs:338-402 | the same in one piece, with lines of any length |
| HttpRoundTrip.SizeLine | engine/aether/src/https.rs:505-511 | a chunk size in hexadecimal, in either case and with any extension, is read back; one above the largest usize is refused |
| HttpRoundTrip.SizeExactly | engine/aether/src/https.rs:505-511 | a size line gives n exactly when its text, before any semicolon and but for white space and a plus sign, writes n in hexadecimal, and n fits |
| HttpRoundTrip.BodyGood | engine/aether/src/https.rs:447-530 | a body written with hexadecimal sizes, extensions and trailer fields is one of the grammar, and its data is that of its chunks |
| HttpRoundTrip.MessageGood | engine/aether/src/https.rs:343-367 | written heads, interim ones first, are what the reader takes them for |
| HttpRoundTrip.SizedAnswer | engine/aether/src/https.rs:304-445 | a written answer with a Content-Length, behind any interim ones and cut in any pieces, comes back with that many bytes |
| HttpRoundTrip.ChunkedAnswer | engine/aether/src/https.rs:304-530 | a written chunked answer comes back with the data of its chunks, whatever is behind it |
| HttpRoundTrip.BareAnswer | engine/aether/src/https.rs:304-445 | a written answer that says neither comes back with all that is behind its head |
| HttpRoundTrip.CutMatters | engine/aether/src/https.rs:488-496 | an answer that is read in one piece and refused in two |
| Netstack.DataForPrefix | engine/aether/src/netstack.rs:629-648 | what was dequeued for a connection earlier is a prefix of what was dequeued later |
| Netstack.TablesAddTcp | engine/aether/src/netstack.rs:679-699 | opening a connection keeps the socket set the disjoint union of the tables' handles |
| Netstack.TablesAddUdp | engine/aether/src/netstack.rs:714-725 | the same for an association |
| Netstack.TablesDropTcp | engine/aether/src/netstack.rs:795-799 | removing a connection with its socket keeps it |
| Netstack.TablesDropUdp | engine/aether/src/netstack.rs:775-780 | the same for an association |
| Netstack.TablesPut | engine/aether/src/netstack.rs:784-936 | so does changing an entry that keeps its handle |
| Netstack.AsksNew | engine/aether/src/netstack.rs:679-699 | a new request is held by just one connection |
| Netstack.AsksReply | engine/aether/src/netstack.rs:805-842 | a held request answered once is held no more, and no other is touched |
| Netstack.AsksDrop | engine/aether/src/netstack.rs:795-799 | an established connection is removed with no request left unanswered |
| Netstack.FlowTakes | engine/aether/src/netstack.rs:629-648 | dequeuing an item puts its bytes behind all others of its connection |
| Netstack.FlowAbsorbs | engine/aether/src/netstack.rs:746-759 | the part of an item that joins the pending bytes and the part that comes back make it up, in order |
| Netstack.FlowHands | engine/aether/src/netstack.rs:846-860 | the bytes a socket takes are the first pending ones |
| Netstack.FlowMarks | engine/aether/src/netstack.rs:762-767 | a TcpClose finds all that was dequeued before it handed over or pending, and is the first one for its connection |
| Netstack.FlowCloses | engine/aether/src/netstack.rs:863-869 | with nothing pending, the socket has all that was dequeued before the TcpClose |
| Netstack.FlowOrphan | engine/aether/src/netstack.rs:903-914 | a connection that a pass sees past its linger was never seen so before, and is now aborted |
| Netstack.FlowsMark | engine/aether/src/netstack.rs:762-767 | a TcpClose keeps the flow of every connection, and none is forgotten |
| Netstack.FlowsAbsorb | engine/aether/src/netstack.rs:746-759 | so does data, deferred in part or not |
| Netstack.DeadlinesMet | engine/aether/src/netstack.rs:833-844 | after a pass no connection that is not established is at or past its deadline |
| Netstack.OrphanGone | engine/aether/src/netstack.rs:903-914 | an orphan past its linger stays exactly when a pass does not find its application gone and its socket is not at its end; otherwise it is gone by the next pass, whatever happens between |
| Netstack.CountsLate | engine/aether/src/netstack.rs:903-912 | a pass over an orphan past its linger is counted exactly when it finds the application gone |
| Netstack.HandsUptake | engine/aether/src/netstack.rs:846-861 | a pass adds to what was handed over exactly what the socket takes, and keeps the place of opening |
| Netstack.PassDone | engine/aether/src/netstack.rs:784-936 | serving each connection once, in any order, gives the table and the histories of a pass |
| Netstack.RepliedStep | engine/aether/src/netstack.rs:804-844 | a turn in a pass answers the request that waits for its connection, as the connection fared, and no other |
| Netstack.RepliedStays | engine/aether/src/netstack.rs:784-936 | a pass takes no reply back |
| Netstack.GivenStep | engine/aether/src/netstack.rs:871-901 | what a pass gives to each application is the chunks of its own turn, and the pass is busy exactly when one had no room |
| NetstackRun.PassOn | engine/aether/src/netstack.rs:875-901 | a chunk is taken from a socket only with a permit in hand, in order, 128 at most |
| NetstackRun.NetStack.constructor | engine/aether/src/netstack.rs:526-536 | an empty stack keeps the invariant |
| NetstackRun.NetStack.AllocPort | engine/aether/src/netstack.rs:543-547 | a port of 49152 to 65000, and the next one in turn |
| NetstackRun.NetStack.AddSocket | engine/aether/src/netstack.rs:679-679 | the lowest free slot, all others untouched |
| NetstackRun.NetStack.OpenTcp | engine/aether/src/netstack.rs:662-700 | a failed connect is answered at once; otherwise a fresh id and a free handle hold the request until its deadline, with a history that starts there; all other replies stay |
| NetstackRun.NetStack.OpenUdp | engine/aether/src/netstack.rs:701-734 | a fresh id and a free handle, or an error, answered at once; all other replies stay |
| NetstackRun.NetStack.TryHandleData | engine/aether/src/netstack.rs:744-782 | data is kept whole and in order between the pending bytes and what is deferred; only a full connection defers; nothing else changes |
| NetstackRun.NetStack.Absorb | engine/aether/src/netstack.rs:746-761 | as much as the cap leaves room for |
| NetstackRun.NetStack.HalfClose | engine/aether/src/netstack.rs:762-767 | marks the end of the stream, once |
| NetstackRun.NetStack.RemoveUdp | engine/aether/src/netstack.rs:775-780 | an association and its socket go together |
| NetstackRun.NetStack.Drop | engine/aether/src/netstack.rs:795-799 | a connection and its socket go together |
| NetstackRun.NetStack.Refuse | engine/aether/src/netstack.rs:820-842 | a connection given up tells its request before it goes |
| NetstackRun.NetStack.Establish | engine/aether/src/netstack.rs:804-818 | a connection that comes up answers its request |
| NetstackRun.NetStack.SendPending | engine/aether/src/netstack.rs:846-861 | the socket takes a prefix of the pending bytes and the rest stays |
| NetstackRun.NetStack.CloseDrained | engine/aether/src/netstack.rs:863-869 | the half-close path closes the socket exactly when nothing is pending |
| NetstackRun.NetStack.Upload | engine/aether/src/netstack.rs:846-869 | the sending half of a turn: a prefix handed over, and the close that waited for it |
| NetstackRun.NetStack.Orphan | engine/aether/src/netstack.rs:903-915 | when an orphan lingers and when it is aborted |
| NetstackRun.NetStack.Settle | engine/aether/src/netstack.rs:903-932 | what becomes of a connection at the end of its turn |
| NetstackRun.NetStack.ServiceUp | engine/aether/src/netstack.rs:846-932 | an established connection's turn: what is sent, what the application is given, when it closes, whether it stays, and its history after it |
| NetstackRun.NetStack.ServiceConn | engine/aether/src/netstack.rs:789-933 | one connection's turn, its history after it, its request's answer and what its application is given, with every other entry and reply untouched |
| NetstackRun.NetStack.ServiceTcp | engine/aether/src/netstack.rs:784-936 | a pass in any order has the result of serving each connection once, tables, histories, replies and what is given, and leaves none past its deadline |
| NetstackRun.NetStack.ServiceUdp | engine/aether/src/netstack.rs:938-986 | exactly the associations whose application is gone are removed |
| NetstackRun.DrainDeferred | engine/aether/src/netstack.rs:581-586 | what stays deferred belongs to a connection whose pending bytes are at the cap |
| NetstackRun.Ingest | engine/aether/src/netstack.rs:629-648 | items are dequeued in order until one is deferred for a connection without room; exactly the associations they close go |
| NetstackRun.Handle | engine/aether/src/netstack.rs:606-650 | commands and data are dealt with in turn: what is dequeued is the first of what came, data waits while something is deferred, a connection is opened with the next id, its deadline and a history that begins there, a new request is answered at once or held, and all other replies stay |
| NetstackRun.OneRound | engine/aether/src/netstack.rs:559-650 | one turn of the loop: what is dequeued is the first of what the round brings, all of it unless a connection has no room; every connection has its pass and keeps its history and its place, and only one that the round opens is new, from what had been dequeued; each request is answered as its connection fared; exactly the associations that are gone or closed go |
| NetstackRun.Run | engine/aether/src/netstack.rs:549-651 | over any rounds, with an item deferred before them or not: a chain of rounds, each doing what one does, with upload conservation, tables, requests and linger at every moment; what is dequeued is the items the rounds brought, in order; at every moment what was handed over for a connection is what its socket took, and it counts from what had been dequeued when the round that opened it did so; no reply is taken back; at most one item is deferred; ids never come back |
| NetstackRun.Accounted | engine/aether/src/netstack.rs:549-861 | the account of every connection at every moment of any run |
| NetstackRun.TallyMore | engine/aether/src/netstack.rs:549-651 | one more round adds what it dequeues, the request and the id it gives out, and takes no reply back |
| NetstackRun.NotYet | engine/aether/src/netstack.rs:680-681 | an id that is yet to be given out was in no table before |
| NetstackRun.ChannelOrder | engine/aether/src/netstack.rs:629-648 | rounds that bring what stands next in the channel dequeue the channel from its front |
| NetstackRun.HandedInOrder | engine/aether/src/netstack.rs:629-861 | what a socket took, what is pending and what is deferred for it are then the first bytes sent to it since it was opened, in order |
| NetstackRun.PortsGoRound | engine/aether/src/netstack.rs:543-547 | a port is given out again only after all 15849 |
| Varint.NumberOfBytes | engine/quiche/octets/src/lib.rs:515-549 | big-endian bytes stand for the number they were made of |
| Varint.VarintRoundTrip | engine/quiche/octets/src/lib.rs:187-209 | an integer put is got, at the length masque.rs computes for it, whatever follows |
| Varint.VarintCut | engine/quiche/octets/src/lib.rs:187-209 | a cut integer is not taken for one |
| Varint.GetVarintExtends | engine/quiche/octets/src/lib.rs:187-209 | an integer got stays got, below 2^62 |
| Capsules.FrameRoundTrip | engine/aether/src/masque.rs:91-111 | a capsule laid down is read back, whatever follows |
| Capsules.FrameCut | engine/aether/src/masque.rs:184-197 | a capsule that has not come whole is not taken |
| Capsules.FramesAppend | engine/aether/src/masque.rs:175-217 | the capsules of a longer stream are those of the shorter, then those of what was left of it and the new bytes |
| Capsules.StreamRoundTrip | engine/aether/src/masque.rs:91-111 | a stream of capsules is read back, all of them and in order, with nothing left |
| Capsules.RestIsShort | engine/aether/src/masque.rs:175-182 | what is left when every whole capsule has been taken is shorter than one capsule |
| Capsules.ParseAddressAssign | engine/aether/src/masque.rs:226-250 | the loop reads the list as its grammar does, with its errors |
| Capsules.ParseRouteAdvertisement | engine/aether/src/masque.rs:252-276 | the same for routes |
| Capsules.AssignedRoundTrip | engine/aether/src/masque.rs:226-250 | a list of assigned addresses is read back |
| Capsules.RouteRoundTrip | engine/aether/src/masque.rs:252-276 | a list of routes is read back |
| Capsules.CapsuleParser.Push | engine/aether/src/masque.rs:175-182 | the bytes join the buffer, or the buffer resets when they do not fit |
| Capsules.CapsuleParser.Next | engine/aether/src/masque.rs:184-217 | the next capsule of the stream, wherever it was cut; a malformed list is consumed whole |
| Capsules.CapsuleParser.Read | engine/aether/src/masque.rs:203-216 | a capsule's meaning by its kind |
| Capsules.PushInStep | engine/aether/src/masque.rs:175-182 | pushing keeps the capsules taken and still to take those of the stream |
| Capsules.NextInStep | engine/aether/src/masque.rs:184-217 | so does taking one |
| Capsules.ReadOn | engine/aether/src/masque.rs:184-217 | reading on takes every capsule that has come whole; a malformed list stops nothing |
| Capsules.ReadStream | engine/aether/src/masque.rs:91-217 | any capsules, laid down in a row and cut in any pieces that fit with the largest, are all taken, kinds and values, in order, and the buffer never resets |
| Datagrams.IpDatagramRoundTrip | engine/aether/src/masque.rs:52-89 | decoding undoes encoding, and gives nothing for another quarter stream id |
| Datagrams.StripBare | engine/aether/src/masque.rs:133-162 | a bare packet comes back as it is exactly when it looks like a packet and hides no other behind a context id |
| Datagrams.StripOrdinary | engine/aether/src/masque.rs:133-162 | so does every IPv6 packet, and every IPv4 packet with a header length |
| Datagrams.StripHidden | engine/aether/src/masque.rs:133-162 | a packet that does not come back as it is |
| Datagrams.StripFramed | engine/aether/src/masque.rs:133-162 | a packet behind context id 0 comes back bare |
| Datagrams.FoldKeeps | engine/aether/src/masque.rs:352-354 | folding keeps the ones'-complement sum |
| Datagrams.Ipv4HeaderChecksum | engine/aether/src/masque.rs:342-356 | the loops compute the complement of the ones'-complement sum of the words, which wraps at 32 bits, past 131072 bytes only |
| Datagrams.FilledChecksOut | engine/aether/src/masque.rs:301-313 | a header with its checksum filled in sums to 0, whatever it holds |
| H2Tunnel.AppendCapsule | engine/aether/src/masque.rs:103-111 | a capsule goes behind what is there |
| H2Tunnel.PumpOutbound | engine/aether/src/masque_h2.rs:672-716 | every packet goes out once and in order, and so does every control capsule, before the batch it came before; every piece is whole capsules; a batch is at most one over its size, and leaves a packet that had come behind only when full |
| H2Tunnel.SendControl | engine/aether/src/masque_h2.rs:683-685 | control capsules go between batches, each whole, and change none |
| H2Tunnel.FillBatch | engine/aether/src/masque_h2.rs:693-713 | a batch is the capsules of the next packets in order, as many as had come until it is full |
| H2Tunnel.StreamOfOuts | engine/aether/src/masque_h2.rs:672-716 | what is sent piece after piece is its capsules one after the other |
| H2Tunnel.DrainCapsules | engine/aether/src/masque_h2.rs:738-788 | one drain: what it hands on, what it passes on and what stays in the buffer |
| H2Tunnel.DrainsAll | engine/aether/src/masque_h2.rs:738-788 | a drain leaves only an unfinished capsule exactly when no list but that of the last capsule is malformed |
| H2Tunnel.DrainLeavesOne | engine/aether/src/masque_h2.rs:738-788 | a malformed list that keeps a packet behind it from being handed on |
| H2Arrival.DrainKeeps | engine/aether/src/masque_h2.rs:738-788 | whatever a drain meets, the packets and addresses of the buffer are those it handed on and those in what it left |
| H2Arrival.DrainStops | engine/aether/src/masque_h2.rs:738-788 | a drain stops at the first malformed list and nowhere else before the end |
| H2Arrival.DrainHalts | engine/aether/src/masque_h2.rs:738-788 | a drain stops behind the first malformed list or the first packet that finds the queue closed, and nowhere else before the end |
| H2Arrival.TakePiece | engine/aether/src/masque_h2.rs:615-620 | pushing a piece that fits and draining loses no packet and no address, whatever the stream holds; a piece that does not fit costs all that was held |
| H2Arrival.Receive | engine/aether/src/masque_h2.rs:615-620 | for any pieces of anything, with a queue that closes or not: the run is a push and a drain for each piece; nothing is reset exactly when each piece fits with what the drains before it left, and then the packets and the addresses of all that came are those passed on and those still held |
| H2Arrival.OpenFits | engine/aether/src/masque_h2.rs:615-620 | with the queue open, whether pieces fit depends on malformed lists alone |
| H2Arrival.BufferResets | engine/aether/src/masque.rs:175-182 | the buffer resets although each piece fits it with the largest capsule: 40000 malformed lists, twice |
| H2Arrival.SoundFits | engine/aether/src/masque_h2.rs:615-620 | with no malformed list but in the last capsule, pieces that fit with the largest capsule never reset it |
| H2Arrival.SoundArrives | engine/aether/src/masque_h2.rs:615-620 | and such a stream comes out as its packets, none left behind |
| H2Arrival.SentArrives | engine/aether/src/masque_h2.rs:672-788 | what the sender sends, control capsules included, re-cut, is read as its capsules, and its packets are those queued, in order, with what the control capsules carry between them |
| EchConfig.ValidPublicName | engine/aether/src/tls.rs:677-699 | the loop accepts exactly the host names of LDH labels whose last is not a number |
| EchConfig.ConfigsRead | engine/aether/src/tls.rs:607-672 | every list of configs that parse is read with its first offerable key |
| EchConfig.ConfigsFound | engine/aether/src/tls.rs:607-672 | whatever is read is a list of configs that parse, which the proof builds |
| EchConfig.CheckOfList | engine/aether/src/tls.rs:607-629 | serialising a list and checking it agrees with the abstract choice |
| EchConfig.CheckDecides | engine/aether/src/tls.rs:607-735 | malformed exactly when the bytes are no list; accepted exactly when they are one whose first offerable config has a 32-byte key |
| EchConfig.Fields.Next | engine/aether/src/tls.rs:702-712 | the cursor takes exactly as many bytes as asked, or none |
| EchConfig.ReadContents | engine/aether/src/tls.rs:640-646 | the fields of a config in order, each within its length |
| EchConfig.AnyMandatory | engine/aether/src/tls.rs:659-664 | whether the extensions parse, and one of them is mandatory |
| EchConfig.AnySuite | engine/aether/src/tls.rs:665-669 | whether the suites parse, and one of them is offered |
| EchConfig.ReadConfig | engine/aether/src/tls.rs:634-636 | one config behind its version and length |
| EchConfig.JudgeConfig | engine/aether/src/tls.rs:637-671 | whether a config can be offered, and with which key |
| EchConfig.CheckEchConfigList | engine/aether/src/tls.rs:607-629 | the loop over the configs; a later one that does not parse rejects the list |
| EchSession.PeriodIsBusy | engine/aether/src/tls.rs:412-438 | a busy period starts with a session and has one throughout |
| EchSession.SharedKey | engine/aether/src/tls.rs:386-449 | for every order of starts, drops and adopted retries: the counter is the live sessions, no key without one, and in a busy period the key the period set last |
| EchSession.HoldsOn | engine/aether/src/tls.rs:415-449 | one more event sets, replaces or keeps the key of the period |
| EchSession.SharedEch.Start | engine/aether/src/tls.rs:415-425 | a start takes the counter and the key to where the history says |
| EchSession.SharedEch.Drop | engine/aether/src/tls.rs:427-438 | so does the end of a session |
| EchSession.SharedEch.AdoptRetry | engine/aether/src/tls.rs:442-449 | and a key a server hands back |
| EchHandshake.NeverDowngrades | engine/aether/src/masque_h2.rs:222-277 | against any server: at most two handshakes, every offer passes the check, and with a key only a handshake that accepted ECH succeeds |
| EchHandshake.ConnectTls | engine/aether/src/masque_h2.rs:222-277 | the tunnel's loop offers and ends as that says, and adopts only a usable retry |
| EchHandshake.Exchange | engine/aether/src/https.rs:78-130 | so does the loop of a request, with the same key check |
| ClientHello.PlausibleAsIs | engine/aether/src/sniff.rs:23-45 | a lower-case domain name is plausible as it is |
| ClientHello.SameExtensions | engine/aether/src/fragment.rs:126-132 | both readers find the extensions at the same place |
| ClientHello.WalksAgree | engine/aether/src/fragment.rs:134-151 | where the sniffer's clamped walk finds the extension, the fragmenter's walk stops at it |
| ClientHello.ReadersAgree | engine/aether/src/sniff.rs:47-121 | on every byte string the sniffer takes a name from, the fragmenter finds a range exactly when the first entry is a host name, and that range is the name |
| ClientHello.ClientHelloRead | engine/aether/src/sniff.rs:47-121 | from a whole ClientHello the sniffer takes the first host name and the fragmenter its place |
| ClientHello.FirstServerName | engine/aether/src/sniff.rs:99-121 | the loop finds the first host name of the list |
| ClientHello.FindExtension | engine/aether/src/sniff.rs:76-97 | the loop finds the first server_name extension |
| ClientHello.SniffServerName | engine/aether/src/sniff.rs:47-97 | the reader gives the plausible form of that name |
| ClientHello.SniHostRange | engine/aether/src/fragment.rs:115-154 | the loop gives the range of the first entry |
| Dns.BuildQuery | engine/aether/src/dns.rs:478-496 | a header with the id, and one question for the labels that are not empty |
| Dns.ResponseMatches | engine/aether/src/dns.rs:424-476 | the loop accepts exactly the replies that answer the question |
| Dns.AnswersExactly | engine/aether/src/dns.rs:424-476 | a message is accepted exactly when it is a reply with the id whose one question repeats the name up to ASCII case, and the type |
| Dns.ReplyAccepted | engine/aether/src/dns.rs:424-496 | a reply in kind to the query that is built for a name is accepted exactly when a length byte holds the length of each label |
| Dns.ValidDomainAnswered | engine/aether/src/dns.rs:199-210 | the query built for a valid domain, with the bit of a reply set and anything behind it, is accepted |
| Dns.SkipName | engine/aether/src/dns.rs:554-565 | on any bytes the loop ends, in bounds, behind the root or a pointer |
| Dns.ParseSvcparamsEch | engine/aether/src/dns.rs:532-552 | the loop gives the first ech parameter of the record |
| Dns.ParseHttpsEch | engine/aether/src/dns.rs:498-530 | the loops give the ech value of the first HTTPS record that has one |
| Dns.NameSkipped | engine/aether/src/dns.rs:554-565 | a name as it is written is skipped whole |
| Dns.ParamsRead | engine/aether/src/dns.rs:538-551 | parameters as they are written give their first ech value |
| Dns.RecordsRead | engine/aether/src/dns.rs:511-529 | so do records |
| Dns.HttpsEchFound | engine/aether/src/dns.rs:498-552 | from any well-formed message, the ech value of the first HTTPS record that has one |
| Egress.Interleaved | engine/aether/src/egress.rs:116-129 | the loop takes the two families by turns |
| Egress.TurnsKeepOrder | engine/aether/src/egress.rs:116-129 | each family keeps its own order |
| Egress.TurnsAlternate | engine/aether/src/egress.rs:124-127 | the families alternate until one runs out |
| Egress.OrderToTry | engine/aether/src/egress.rs:116-129 | the order is a permutation with both of these, first family first |
| Egress.FailsOne | engine/aether/src/egress.rs:155-160 | a failure moves one attempt from in flight to failed |
| Egress.StartsOne | engine/aether/src/egress.rs:144-163 | a start adds the next address, in time and a delay or a failure after the last |
| Egress.AllFailed | engine/aether/src/egress.rs:144-153 | with nothing in flight and none waiting, each address failed just once |
| Egress.ToldMore | engine/aether/src/egress.rs:154-163 | an event that ends an attempt adds its error and its time, any event starts one more address then, and nothing else is added |
| Egress.CourseTells | engine/aether/src/egress.rs:135-166 | at every moment of a race each address that started is in flight or failed once, and starts, errors and attempts are what its events so far say |
| Egress.Wait | engine/aether/src/egress.rs:154-163 | one wait keeps all of that; the attempt that fails is the one its event picks, and nothing else is added |
| Egress.Race | engine/aether/src/egress.rs:135-166 | against any events: attempts in order, each once, in flight or failed, as the events pick them; address i starts as the i-th wait ends, within i delays; what failed, why and when is what the events read so far say; won by the first to connect; lost only when all failed, with the last error |
| Worker.OneRun | native/src/lib.rs:92-94 | RUNS has one entry at most, and none while ACTIVE is false |
| Worker.OneWorker | native/src/lib.rs:79-122 | at most one worker is at work, and ACTIVE is true while it is |
| Worker.HolderMoves | native/src/lib.rs:79-130 | ACTIVE is the claim of one call, through every step |
| Worker.SendersMove | native/src/lib.rs:94-141 | a sender in RUNS is that of the call that holds ACTIVE, under its own handle |
| Worker.HandlesStop | native/src/lib.rs:136-144 | a stop marks only the run whose handle it has |
| Worker.StepOnward | native/src/lib.rs:57-144 | no step of any call undoes anything: no phase goes back, no handle changes, no descriptor is disposed of less, no stop is lost |
| Worker.Engine.Enter | native/src/lib.rs:57-63 | a start begins with nothing done |
| Worker.Engine.Advance | native/src/lib.rs:64-134 | each atomic step of a start or its worker moves that call alone, to the phase that is next, claims only a free engine, and disposes of the descriptor once |
| Worker.Engine.AdvanceStart | native/src/lib.rs:64-134 | the steps of the calling thread |
| Worker.Engine.AdvanceWorker | native/src/lib.rs:99-124 | the steps of the worker thread |
| Worker.Engine.Allot | native/src/lib.rs:92-92 | a handle is given out once |
| Worker.Engine.Register | native/src/lib.rs:93-94 | the sender goes in RUNS under that handle |
| Worker.Engine.Unregister | native/src/lib.rs:121-127 | and out of it again, with no other |
| Worker.Engine.Stop | native/src/lib.rs:136-144 | a stale handle stops nothing; a live one stops its own run |
| Worker.Engine.Interleave | native/src/lib.rs:57-144 | any interleaving of any number of calls keeps all of that, comes to what its steps come to one after the other, and undoes nothing a call has done |
| Packet.TcpPayloadLen | native/src/packet.rs:2-60 | in bounds on any bytes, the loop computes the header walk |
| Packet.WalkHeaders | native/src/packet.rs:29-52 | eight extension headers at most, each by its own length rule |
| Packet.Walked | native/src/packet.rs:29-52 | headers as they are written are walked over |
| Packet.WalkedOver | native/src/packet.rs:29-52 | what is walked over is headers as they are written |
| Packet.PayloadExact | native/src/packet.rs:2-60 | exactly the IPv4 and IPv6 packets with an unfragmented or first-fragment segment, no SYN and no RST, have data counted, and as much as they carry |
| Failover.SetAside | engine/aether/src/lib.rs:2337-2347 | an endpoint that ran twice in a row is excluded for its cooldown, and the loop's variables stay what the log tells |
| Failover.NotedLater | engine/aether/src/lib.rs:2335-2336 | the cooldowns kept are exactly the exclusions of the log whose time is not over |
| Failover.ProperLog | engine/aether/src/lib.rs:2329-2474 | in the log of any rounds an exclusion stands behind two runs in a row and nowhere else, and it is obeyed |
| Failover.ProperCools | engine/aether/src/lib.rs:2337-2347 | exclusions in their place that are obeyed keep an endpoint from running before its cooldown is over |
| Failover.Turn | engine/aether/src/lib.rs:2334-2473 | one turn makes of the log what the log alone says should come next |
| Failover.RunWireguard | engine/aether/src/lib.rs:2329-2474 | over any rounds: the log is the one each turn makes of the log before it; an endpoint that ran twice in a row, last at t, is excluded at once and does not run again before t plus the cooldown; a forced endpoint is never replaced; no idle round with an endpoint to offer |
| Failover.PickPeers | engine/aether/src/lib.rs:1182-1190 | the first addresses of a scan that are not to be avoided, as many as wanted |
| Failover.SpreadHops | engine/aether/src/lib.rs:1711-1725 | in place: the first endpoint of another network takes the second place, and nothing else moves |
| Failover.SpreadIsOut | engine/aether/src/lib.rs:1711-1725 | that is a permutation with the same first, whose second is on another network if any is |
| Failover.Complete | engine/aether/src/lib.rs:536-584 | a scan completes the hops that are known from what it picks, spread or not, or fails |
| Failover.CompletedFinds | engine/aether/src/lib.rs:536-584 | what it adds was found by the scan, on another address than the hop that is known; a scan that finds enough never fails |
| Failover.Forget | engine/aether/src/lib.rs:506-534 | after two failures only the pinned hops are kept, and what is known is what the log tells |
| Failover.GoolTurn | engine/aether/src/lib.rs:505-607 | one turn makes of the log what the log alone says should come next |
| Failover.GoolProperLog | engine/aether/src/lib.rs:499-608 | the log of any rounds keeps the pins, takes every other hop from the last scan, and scans again after two runs |
| Failover.RunGool | engine/aether/src/lib.rs:499-608 | over any rounds: the log is the one each turn makes of the log before it; a pinned hop is never replaced and any other was found by the last scan; other pairs run at most twice before a scan; no tunnel comes up on one address; no idle round with hops to use |

## Left out

- TLS, QUIC, HTTP/2, smoltcp, WireGuard and BoringSSL themselves: their answers are inputs.
- Sockets, timers, files, environment variables and logging: values and times are inputs; the delays between reconnects are not modelled.
- NetstackRun.NetStack.ServiceUp: the closes for a peer that closed first and for an orphan that still lingers do not wait for pending bytes, so only the half-close path is in the drain-before-close claim; the closes themselves are another library's.
- NetstackRun.NetStack.OpenTcp: ids are unbounded, so a wrap of the 64-bit counter is not modelled; keepalive and buffer sizes are left to the sockets.
- NetstackRun.Run: address changes, inbound packets and outbound packets touch no table and are not modelled.
- NetstackRun.PassOn: an empty chunk counts as none.
- Datagrams.Ipv4HeaderChecksum: the sum wraps as in a release build; a debug build would stop there.
- H2Tunnel.PumpOutbound: a failed send, and the end of the stream when the control side finishes with packets still queued, are not modelled.
- Egress.Race: waits end when their delay does; a late timer makes a start later by as much.
- Worker.Engine.Advance: what the engine does with the descriptor once it owns it is not modelled.
- Failover.RunWireguard: profiles, the choice of a quick endpoint and the record of the last connection are not modelled; a scan is taken to honour what it is told to leave out.
- Failover.RunGool: how a scan finds endpoints is not modelled.
- The HTTP/2 path of a request, the `Host` header sniffer, the fragmenting writer and the random padding of handshakes: easy list logic or no deep invariant.
- Routing, the last-connection file, bridges, probing, statistics and account calls: mostly tables and lists beside the cores above.
