/**
  * The HTTP/1.1 answer reader: heads, framing (RFC 9112, section 6.3), and the incremental reader
  * whose every verdict is that of one pass over all the bytes so far.
  */
module Http1 {
  import opened Bytes
  import opened Text
  import Chunked

  /** An answer is refused beyond this many bytes, its heads included. */
  const MAX_BODY: nat := 512 * 1024

  const BLANK_LINE: bytes := [13, 10, 13, 10]

  datatype Error =
    | TooLarge
    | BadStatusLine
    | BadContentLength
    | Empty
    | TruncatedHead
    | Short(got: nat, wanted: nat)
    | Malformed(fault: Chunked.Fault)

  type Field = (string, string)

  /** How a body is delimited. */
  datatype Framing<+C> = Length(length: nat) | Chunks(reader: C) | Close

  // ---------------------------------------------------------------- heads

  /** A field line at its colon; None when it has none. */
  function FieldOf(line: string): Option<Field> {
    var i := IndexOf(line, ':');
    if i == |line| then None else Some((Trim(line[..i]), Trim(line[i + 1..])))
  }

  function FieldsOf(lines: seq<string>): seq<Field> {
    if lines == [] then []
    else match FieldOf(lines[0])
      case None => FieldsOf(lines[1..])
      case Some(field) => [field] + FieldsOf(lines[1..])
  }

  /** What a head says, up to its blank line: a status, and names with values. */
  function ParseHead(head: bytes): Result<(nat, seq<Field>), Error> {
    var lines := Lines(Lossy(head));
    match Token(lines[0], 1)
    case None => Err(BadStatusLine)
    case Some(token) =>
      match ParseUnsigned(token, 10, 0xFFFF)
      case None => Err(BadStatusLine)
      case Some(status) => Ok((status, FieldsOf(lines[1..])))
  }

  /** The value of the first field with this name, whatever its capitals. */
  function Lookup(fields: seq<Field>, name: string): Option<string> {
    if fields == [] then None
    else if SameIgnoringCase(fields[0].0, name) then Some(fields[0].1)
    else Lookup(fields[1..], name)
  }

  /** How the body behind a head is delimited (RFC 9112, section 6.3). */
  function FramingOf(status: nat, fields: seq<Field>): Result<Framing<()>, Error> {
    if status == 204 || status == 304 then Ok(Length(0))
    else
      var encoding := Lookup(fields, "transfer-encoding");
      if encoding.Some? && Contains(ToLower(encoding.value), "chunked") then Ok(Chunks(()))
      else match Lookup(fields, "content-length")
        case None => Ok(Close)
        case Some(value) =>
          match ParseUnsigned(value, 10, USIZE_MAX)
          case None => Err(BadContentLength)
          case Some(length) => Ok(Length(length))
  }

  /** What a head says: that another follows it, or how the answer goes on. */
  datatype Reply = Interim | Final(status: nat, fields: seq<Field>, framing: Framing<()>)

  function ReplyOf(head: bytes): Result<Reply, Error> {
    match ParseHead(head)
    case Err(e) => Err(e)
    case Ok((status, fields)) =>
      if 100 <= status < 200 && status != 101 then Ok(Interim)
      else match FramingOf(status, fields)
        case Err(e) => Err(e)
        case Ok(framing) => Ok(Final(status, fields, framing))
  }

  // ---------------------------------------------------------------- one pass over all the bytes

  /** A reading of heads and of chunk sizes. All that is said of answers below holds for any. */
  datatype Syntax = Syntax(heads: bytes -> Result<Reply, Error>, sizes: Chunked.Sizes)

  const HTTP := Syntax(ReplyOf, Chunked.ChunkSize)

  datatype Head = Reading(start: nat) | BadHead(error: Error) | Read(reply: Reply, bodyStart: nat)

  /** The head of the answer, past any interim answers before it. */
  ghost function ReadHead(x: Syntax, raw: bytes, start: nat): (h: Head)
    requires start <= |raw|
    ensures h.Reading? ==> start <= h.start <= |raw|
    ensures h.Read? ==> h.reply.Final? && start < h.bodyStart <= |raw|
    decreases |raw| - start
  {
    match Find(raw, start, BLANK_LINE)
    case None => Reading(start)
    case Some(end) =>
      match x.heads(raw[start..end])
      case Err(e) => BadHead(e)
      case Ok(Interim) => ReadHead(x, raw, end + 4)
      case Ok(reply) => Read(reply, end + 4)
  }

  function Faulted<T>(r: Result<T, Chunked.Fault>): Result<T, Error> {
    match r case Ok(value) => Ok(value) case Err(fault) => Err(Malformed(fault))
  }

  /** Whether an answer with all of `raw` is whole, or what is wrong with it. */
  ghost function Verdict(x: Syntax, raw: bytes): Result<bool, Error> {
    if |raw| > MAX_BODY then Err(TooLarge)
    else match ReadHead(x, raw, 0)
      case Reading(_) => Ok(false)
      case BadHead(e) => Err(e)
      case Read(reply, start) => BodyVerdict(x, reply.framing, raw[start..])
  }

  ghost function BodyVerdict(x: Syntax, framing: Framing<()>, body: bytes): Result<bool, Error> {
    match framing
    case Length(length) => Ok(|body| >= length)
    case Chunks(_) => Faulted(Chunked.Verdict(x.sizes, body))
    case Close => Ok(false)
  }

  datatype Answer = Answer(status: nat, fields: seq<Field>, body: bytes)

  /** What is made of `raw` when nothing more comes. */
  ghost function Ended(x: Syntax, raw: bytes): Result<Answer, Error> {
    match ReadHead(x, raw, 0)
    case Read(Final(status, fields, framing), start) =>
      (match BodyEnded(x, framing, raw[start..])
       case Ok(body) => Ok(Answer(status, fields, body))
       case Err(e) => Err(e))
    case _ => Err(if raw == [] then Empty else TruncatedHead)
  }

  ghost function BodyEnded(x: Syntax, framing: Framing<()>, body: bytes): Result<bytes, Error> {
    match framing
    case Length(length) => if |body| < length then Err(Short(|body|, length)) else Ok(body[..length])
    case Chunks(_) => Faulted(Chunked.Ended(x.sizes, body))
    case Close => Ok(body)
  }

  /** What a reader makes of an answer that comes in one piece. */
  ghost function OneShot(x: Syntax, raw: bytes): Result<Answer, Error> {
    match Verdict(x, raw) case Err(e) => Err(e) case Ok(_) => Ended(x, raw)
  }

  /** What it makes of one that comes in `pieces` after `raw`: it stops at the first that makes the answer whole. */
  ghost function Fed(x: Syntax, raw: bytes, pieces: seq<bytes>): Result<Answer, Error>
    decreases |pieces|
  {
    if pieces == [] then Ended(x, raw)
    else
      var longer := raw + pieces[0];
      match Verdict(x, longer)
      case Err(e) => Err(e)
      case Ok(true) => Ended(x, longer)
      case Ok(false) => Fed(x, longer, pieces[1..])
  }

  /** Whether `raw` stops inside a line of a chunked body that is already too long. */
  ghost predicate LongLine(x: Syntax, raw: bytes) {
    var h := ReadHead(x, raw, 0);
    h.Read? && h.reply.framing.Chunks? && Chunked.LongLine(x.sizes, raw[h.bodyStart..])
  }

  // ---------------------------------------------------------------- more bytes

  /** One head of the reading. */
  lemma ReadStep(x: Syntax, raw: bytes, start: nat, end: nat)
    requires start <= |raw| && Find(raw, start, BLANK_LINE) == Some(end)
    ensures end + 4 <= |raw| && start <= end
    ensures ReadHead(x, raw, start)
         == match x.heads(raw[start..end])
            case Err(e) => BadHead(e)
            case Ok(Interim) => ReadHead(x, raw, end + 4)
            case Ok(reply) => Read(reply, end + 4)
  {
  }

  lemma NotYetRead(x: Syntax, raw: bytes, start: nat)
    requires start <= |raw| && Find(raw, start, BLANK_LINE) == None
    ensures ReadHead(x, raw, start) == Reading(start)
  {
  }

  /** A head once read is read again when more has come, and one that is not yet whole goes on. */
  lemma {:induction false} HeadExtends(x: Syntax, raw: bytes, more: bytes, start: nat)
    requires start <= |raw|
    ensures var h := ReadHead(x, raw, start);
            ReadHead(x, raw + more, start) == (if h.Reading? then ReadHead(x, raw + more, h.start) else h)
    decreases |raw| - start
  {
    hide ReadHead, Find;
    if Find(raw, start, BLANK_LINE).Some? {
      FindExtends(raw, more, start, BLANK_LINE);
      var end := Find(raw, start, BLANK_LINE).value;
      ReadStep(x, raw, start, end);
      ReadStep(x, raw + more, start, end);
      assert (raw + more)[start..end] == raw[start..end];
      if x.heads(raw[start..end]) == Ok(Interim) {
        HeadExtends(x, raw, more, end + 4);
      }
    } else {
      NotYetRead(x, raw, start);
    }
  }

  /** A verdict other than "go on" stands, whatever comes next, and so does the answer with it. */
  lemma Settled(x: Syntax, raw: bytes, more: bytes)
    requires |raw + more| <= MAX_BODY && !LongLine(x, raw)
    requires Verdict(x, raw) != Ok(false)
    ensures Verdict(x, raw + more) == Verdict(x, raw) && !LongLine(x, raw + more)
    ensures Verdict(x, raw) == Ok(true) ==> Ended(x, raw + more) == Ended(x, raw)
  {
    HeadExtends(x, raw, more, 0);
    var h := ReadHead(x, raw, 0);
    if h.Read? {
      var body := raw[h.bodyStart..];
      assert (raw + more)[h.bodyStart..] == body + more;
      match h.reply.framing
      case Length(length) => assert (body + more)[..length] == body[..length];
      case Chunks(_) => Chunked.RunExtends(x.sizes, body, more, Chunked.START);
      case Close =>
    }
  }

  // ---------------------------------------------------------------- the main results

  ghost predicate CutInLongLine(x: Syntax, raw: bytes, pieces: seq<bytes>) {
    exists k :: 0 < k <= |pieces| && LongLine(x, raw + Concat(pieces[..k]))
  }

  /**
    * However an answer is cut, the reader makes of it what it makes of the whole in one piece,
    * unless a cut falls in a line that is too long by then: that is refused as such, and nothing
    * else depends on the cuts.
    */
  lemma SplitIndependence(x: Syntax, pieces: seq<bytes>)
    requires |Concat(pieces)| <= MAX_BODY
    ensures Fed(x, [], pieces) ==
            if CutInLongLine(x, [], pieces) then Err(Malformed(Chunked.LineTooLong))
            else OneShot(x, Concat(pieces))
  {
    assert forall j :: 0 <= j ==> !Matches([], j, BLANK_LINE);
    assert [] + Concat(pieces) == Concat(pieces);
    FedFrom(x, [], pieces);
  }

  lemma {:induction false} FedFrom(x: Syntax, raw: bytes, pieces: seq<bytes>)
    requires |raw + Concat(pieces)| <= MAX_BODY
    requires Verdict(x, raw) == Ok(false)
    ensures Fed(x, raw, pieces) ==
            if CutInLongLine(x, raw, pieces) then Err(Malformed(Chunked.LineTooLong))
            else OneShot(x, raw + Concat(pieces))
    decreases |pieces|
  {
    if pieces == [] {
      assert raw + [] == raw;
    } else {
      var longer, rest := raw + pieces[0], pieces[1..];
      assert raw + Concat(pieces) == longer + Concat(rest);
      CutsShift(x, raw, pieces);
      if Verdict(x, longer) == Ok(false) {
        FedFrom(x, longer, rest);
      } else if !LongLine(x, longer) {
        Settled(x, longer, Concat(rest));
        forall k | 0 < k <= |rest| ensures !LongLine(x, longer + Concat(rest[..k])) {
          ConcatAppend(rest[..k], rest[k..]);
          assert rest == rest[..k] + rest[k..];
          Settled(x, longer, Concat(rest[..k]));
        }
      }
    }
  }

  /** The cuts of `pieces` are the one after the first piece and those of the rest. */
  lemma CutsShift(x: Syntax, raw: bytes, pieces: seq<bytes>)
    requires pieces != []
    ensures CutInLongLine(x, raw, pieces)
       <==> LongLine(x, raw + pieces[0]) || CutInLongLine(x, raw + pieces[0], pieces[1..])
  {
    var longer, rest := raw + pieces[0], pieces[1..];
    assert Concat(pieces[..1]) == pieces[0] by {
      assert pieces[..1][1..] == [];
    }
    forall k | 0 < k <= |rest|
      ensures raw + Concat(pieces[..k + 1]) == longer + Concat(rest[..k])
    {
      assert pieces[..k + 1][1..] == rest[..k];
    }
    forall k | 1 < k <= |pieces|
      ensures raw + Concat(pieces[..k]) == longer + Concat(rest[..k - 1])
    {
      assert pieces[..k][1..] == rest[..k - 1];
    }
    if CutInLongLine(x, longer, rest) {
      var k :| 0 < k <= |rest| && LongLine(x, longer + Concat(rest[..k]));
      assert LongLine(x, raw + Concat(pieces[..k + 1]));
    }
  }

  /** Every line of a chunked body that the reader meets in `raw` is of fair length. */
  ghost predicate Fair(x: Syntax, raw: bytes) {
    var h := ReadHead(x, raw, 0);
    h.Read? && h.reply.framing.Chunks? ==> Chunked.Fair(x.sizes, raw[h.bodyStart..], Chunked.START)
  }

  lemma LongLineOf(x: Syntax, raw: bytes)
    ensures LongLine(x, raw) <==>
            (var h := ReadHead(x, raw, 0);
             && h.Read? && h.reply.framing.Chunks?
             && !Chunked.Patient(x.sizes, raw[h.bodyStart..], Chunked.START))
  {
  }

  /** No cut of a fair answer, finished or not, sound or not, is in a line too long. */
  lemma FairCut(x: Syntax, raw: bytes, cut: nat)
    requires cut <= |raw| && Fair(x, raw)
    ensures !LongLine(x, raw[..cut])
  {
    hide ReadHead, LongLine;
    var p := raw[..cut];
    assert raw == p + raw[cut..];
    HeadExtends(x, p, raw[cut..], 0);
    LongLineOf(x, p);
    var h := ReadHead(x, p, 0);
    if h.Read? && h.reply.framing.Chunks? {
      var body := raw[h.bodyStart..];
      assert p[h.bodyStart..] == body[..cut - h.bodyStart];
      Chunked.FairCut(x.sizes, body, Chunked.START, cut - h.bodyStart);
    }
  }

  /** Some cut of any other is. */
  lemma UnfairCut(x: Syntax, raw: bytes) returns (cut: nat)
    requires !Fair(x, raw)
    ensures cut <= |raw| && LongLine(x, raw[..cut])
  {
    hide ReadHead, LongLine;
    var h := ReadHead(x, raw, 0);
    var body := raw[h.bodyStart..];
    var within := Chunked.UnfairCut(x.sizes, body, Chunked.START);
    cut := h.bodyStart + within;
    var p := raw[..cut];
    HeadBefore(x, raw, cut, 0);
    assert p[h.bodyStart..] == body[..within];
    LongLineOf(x, p);
  }

  /** A head that stands before a cut is read from what is before it. */
  lemma {:induction false} HeadBefore(x: Syntax, raw: bytes, cut: nat, start: nat)
    requires start <= cut <= |raw| && ReadHead(x, raw, start).Read? && ReadHead(x, raw, start).bodyStart <= cut
    ensures ReadHead(x, raw[..cut], start) == ReadHead(x, raw, start)
    decreases |raw| - start
  {
    hide ReadHead, Find;
    var p := raw[..cut];
    if Find(raw, start, BLANK_LINE).None? {
      NotYetRead(x, raw, start);
    } else {
      var end := Find(raw, start, BLANK_LINE).value;
      ReadStep(x, raw, start, end);
      BlankBefore(raw, cut, start, end);
      ReadStep(x, p, start, end);
      assert p[start..end] == raw[start..end];
      if x.heads(raw[start..end]) == Ok(Interim) {
        HeadBefore(x, raw, cut, end + 4);
      }
    }
  }

  lemma BlankBefore(raw: bytes, cut: nat, start: nat, end: nat)
    requires start <= |raw| && Find(raw, start, BLANK_LINE) == Some(end) && end + 4 <= cut <= |raw|
    ensures Find(raw[..cut], start, BLANK_LINE) == Some(end)
  {
    var p := raw[..cut];
    assert raw == p + raw[cut..];
    assert Matches(p, end, BLANK_LINE);
    FindExtends(p, raw[cut..], start, BLANK_LINE);
  }

  /** However a fair answer is cut, the result is that of one piece. */
  lemma FairAnswer(x: Syntax, pieces: seq<bytes>)
    requires |Concat(pieces)| <= MAX_BODY && Fair(x, Concat(pieces))
    ensures Fed(x, [], pieces) == OneShot(x, Concat(pieces))
  {
    hide LongLine, Fair;
    var raw := Concat(pieces);
    SplitIndependence(x, pieces);
    forall k | 0 < k <= |pieces| ensures !LongLine(x, [] + Concat(pieces[..k])) {
      assert pieces == pieces[..k] + pieces[k..];
      ConcatAppend(pieces[..k], pieces[k..]);
      var cut := |Concat(pieces[..k])|;
      assert [] + Concat(pieces[..k]) == raw[..cut];
      FairCut(x, raw, cut);
    }
  }

  ghost predicate SameHoweverCut(x: Syntax, raw: bytes) {
    forall pieces :: Concat(pieces) == raw ==> Fed(x, [], pieces) == OneShot(x, raw)
  }

  /**
    * For every answer within the limit: its result does not depend on how it is cut exactly when
    * every line of its chunked body is of fair length, or it stops in one that is too long itself.
    */
  lemma SplitExactly(raw: bytes)
    requires |raw| <= MAX_BODY
    ensures SameHoweverCut(HTTP, raw) <==> Fair(HTTP, raw) || LongLine(HTTP, raw)
  {
    hide LongLine, Fair, Fed, OneShot;
    var x := HTTP;
    forall pieces | Concat(pieces) == raw && (Fair(x, raw) || LongLine(x, raw))
      ensures Fed(x, [], pieces) == OneShot(x, raw)
    {
      if Fair(x, raw) {
        FairAnswer(x, pieces);
      } else {
        LongAnswer(x, pieces);
      }
    }
    if !Fair(x, raw) && !LongLine(x, raw) {
      var cut := UnfairCut(x, raw);
      var pieces := [raw[..cut], raw[cut..]];
      TwoPieces(raw, cut);
      SplitIndependence(x, pieces);
      assert [] + Concat(pieces[..1]) == raw[..cut];
      assert CutInLongLine(x, [], pieces);
      NotTooLong(raw);
    }
  }

  lemma TwoPieces(raw: bytes, cut: nat)
    requires cut <= |raw|
    ensures Concat([raw[..cut], raw[cut..]]) == raw && Concat([raw[..cut], raw[cut..]][..1]) == raw[..cut]
  {
    var pieces := [raw[..cut], raw[cut..]];
    assert pieces[1..] == [raw[cut..]] && [raw[cut..]][1..] == [];
    assert pieces[..1] == [raw[..cut]] && [raw[..cut]][1..] == [];
    assert Concat([raw[cut..]]) == raw[cut..] + Concat([]) == raw[cut..];
    assert Concat(pieces) == raw[..cut] + raw[cut..] == raw;
    assert Concat([raw[..cut]]) == raw[..cut] + Concat([]) == raw[..cut];
  }

  /** Nothing but a line too long is refused as one. */
  lemma NotTooLong(raw: bytes)
    requires |raw| <= MAX_BODY && !LongLine(HTTP, raw)
    ensures OneShot(HTTP, raw) != Err(Malformed(Chunked.LineTooLong))
  {
    hide ReadHead, Chunked.ChunkSize, Chunked.Run, ReplyOf;
    HeadFaults(raw, 0);
    var h := ReadHead(HTTP, raw, 0);
    if h.Read? {
      Chunked.RunFaults(Chunked.ChunkSize, raw[h.bodyStart..], Chunked.START);
    }
  }

  lemma {:induction false} HeadFaults(raw: bytes, start: nat)
    requires start <= |raw|
    ensures ReadHead(HTTP, raw, start).BadHead? ==> !ReadHead(HTTP, raw, start).error.Malformed?
    decreases |raw| - start
  {
    hide ReadHead, Find, ReplyOf;
    var end := Find(raw, start, BLANK_LINE);
    if end.None? {
      NotYetRead(HTTP, raw, start);
    } else {
      ReadStep(HTTP, raw, start, end.value);
      ReplyFaults(raw[start..end.value]);
      if ReplyOf(raw[start..end.value]) == Ok(Interim) {
        HeadFaults(raw, end.value + 4);
      }
    }
  }

  lemma ReplyFaults(head: bytes)
    ensures ReplyOf(head).Err? ==> !ReplyOf(head).error.Malformed?
  {
    hide Lookup, Token, Lines, Lossy, FieldsOf, ParseUnsigned;
  }

  lemma LongAnswer(x: Syntax, pieces: seq<bytes>)
    requires |Concat(pieces)| <= MAX_BODY && LongLine(x, Concat(pieces))
    ensures Fed(x, [], pieces) == OneShot(x, Concat(pieces)) == Err(Malformed(Chunked.LineTooLong))
  {
    SplitIndependence(x, pieces);
    var n := |pieces|;
    assert pieces[..n] == pieces && [] + Concat(pieces) == Concat(pieces);
    assert n > 0 by {
      assert forall j :: 0 <= j ==> !Matches([], j, BLANK_LINE);
    }
  }

  // ---------------------------------------------------------------- the incremental reader

  datatype Http1Head =
    Http1Head(status: nat, fields: seq<Field>, bodyStart: nat, framing: Framing<Chunked.Dechunker>)

  /** The reader of one answer, fed piece by piece. */
  class Http1Answer {
    var raw: bytes
    /** All heads before here were interim ones. */
    var headStart: nat
    /** No blank line begins between `headStart` and three bytes before here. */
    var searched: nat
    var head: Option<Http1Head>
    /** How many windows the head searches have compared so far. */
    ghost var compared: nat

    constructor ()
      ensures Valid() && raw == [] && fresh(Parts())
    {
      raw, headStart, searched, head, compared := [], 0, 0, None, 0;
      new;
      assert forall j :: 0 <= j ==> !Matches([], j, BLANK_LINE);
    }

    /** The objects the answer is made of. */
    ghost function Parts(): set<object>
      reads this
    {
      {this} + if head.Some? && head.value.framing.Chunks? then {head.value.framing.reader} else {}
    }

    /** The windows all searches have compared. */
    ghost function Windows(): nat
      reads this, Parts()
    {
      compared + if head.Some? && head.value.framing.Chunks? then head.value.framing.reader.compared else 0
    }

    /** The first place that a search has yet to look at. */
    ghost function Resume(): nat
      reads this
    {
      if headStart + 3 < searched then searched - 3 else headStart
    }

    ghost predicate Seeking()
      reads this
    {
      && head.None?
      && headStart <= searched <= |raw|
      && (forall j :: headStart <= j && j + 4 <= searched ==> !Matches(raw, j, BLANK_LINE))
      && compared <= Resume()
    }

    /** The head that has been read is the one of all the bytes so far. */
    ghost predicate HasHead()
      reads this
    {
      && head.Some?
      && var h := head.value;
      && compared <= h.bodyStart <= |raw|
      && ReadHead(HTTP, raw, 0) == Read(Final(h.status, h.fields, Plain(h.framing)), h.bodyStart)
    }

    static function Plain(f: Framing<Chunked.Dechunker>): Framing<()> {
      match f case Length(n) => Length(n) case Chunks(_) => Chunks(()) case Close => Close
    }

    ghost predicate Valid()
      reads this, Parts()
    {
      && |raw| <= MAX_BODY
      && (head.None? ==> Seeking() && ReadHead(HTTP, raw, 0) == Reading(headStart))
      && (head.Some? ==>
            && HasHead()
            && (head.value.framing.Chunks? ==>
                  head.value.framing.reader.Follows(raw[head.value.bodyStart..])))
    }

    /**
      * Joins `next` to what has come. The verdict is that of one pass over all the bytes
      * so far, and all searches together have compared at most one window a byte.
      */
    method Push(next: bytes) returns (r: Result<bool, Error>)
      requires Valid()
      modifies Parts()
      ensures raw == old(raw) + next
      ensures r == Verdict(HTTP, raw)
      ensures r.Ok? ==> Valid()
      ensures Windows() <= |raw|
      ensures fresh(Parts() - old(Parts()))
    {
      hide ReplyOf;
      hide Chunked.ChunkSize;
      ghost var seen := raw;
      ghost var bodySeen := if head.Some? then raw[head.value.bodyStart..] else [];
      raw := raw + next;
      HeadExtends(HTTP, seen, next, 0);
      if |raw| > MAX_BODY {
        return Err(TooLarge);
      }
      if head.None? {
        assert Seeking() by {
          forall j | headStart <= j && j + 4 <= searched ensures !Matches(raw, j, BLANK_LINE) {
            assert !Matches(seen, j, BLANK_LINE);
          }
        }
        var found := SeekHead();
        match found
        case Err(e) => return Err(e);
        case Ok(whole) => if !whole { return Ok(false); }
      }
      r := JudgeBody(bodySeen);
    }

    /** Reads heads until one is final; Ok(false) when more has to come. */
    method SeekHead() returns (r: Result<bool, Error>)
      requires Seeking() && ReadHead(HTTP, raw, 0) == ReadHead(HTTP, raw, headStart)
      modifies this
      ensures raw == old(raw) && compared <= |raw|
      ensures fresh(Parts() - {this})
      ensures match r
              case Ok(true) => HasHead() && Fresh(head.value.framing)
              case Ok(false) => Seeking() && ReadHead(HTTP, raw, 0) == Reading(headStart)
              case Err(e) => head.None? && ReadHead(HTTP, raw, 0) == BadHead(e)
    {
      hide ReplyOf, ReadHead, Find, Matches;
      while head.None?
        invariant raw == old(raw)
        invariant head.None? && Seeking() && ReadHead(HTTP, raw, 0) == ReadHead(HTTP, raw, headStart)
        decreases |raw| - headStart
      {
        var end := FindBlankLine();
        if end.None? {
          NotYetRead(HTTP, raw, headStart);
          return Ok(false);
        }
        ReadStep(HTTP, raw, headStart, end.value);
        var reply := ReplyOf(raw[headStart..end.value]);
        match reply
        case Err(e) => return Err(e);
        case Ok(Interim) =>
          headStart, searched := end.value + 4, end.value + 4;
        case Ok(Final(status, fields, framing)) =>
          var held := Hold(framing);
          head := Some(Http1Head(status, fields, end.value + 4, held));
          return Ok(true);
      }
      return Ok(true);
    }

    /** The first blank line from `headStart` on; only places not yet looked at cost anything. */
    method FindBlankLine() returns (end: Option<nat>)
      requires Seeking()
      modifies this`searched, this`compared
      ensures end == Find(raw, headStart, BLANK_LINE)
      ensures end.None? ==> Seeking()
      ensures end.Some? ==> compared <= end.value + 1
    {
      var from := Chunked.Max(if searched < 3 then 0 else searched - 3, headStart);
      FindSkips(raw, headStart, from, BLANK_LINE);
      ghost var windows;
      end, windows := Search(raw, from, BLANK_LINE);
      compared := compared + windows;
      if end.None? {
        searched := |raw|;
      }
    }

    /** A chunked body is read by a reader that has seen nothing yet. */
    ghost predicate Fresh(f: Framing<Chunked.Dechunker>)
      reads if f.Chunks? then {f.reader} else {}
    {
      f.Chunks? ==> f.reader.Follows([])
    }

    method Hold(framing: Framing<()>) returns (held: Framing<Chunked.Dechunker>)
      ensures Plain(held) == framing && Fresh(held)
      ensures held.Chunks? ==> fresh(held.reader)
    {
      match framing
      case Length(n) => held := Length(n);
      case Chunks(unread) =>
        assert unread == ();
        var reader := new Chunked.Dechunker();
        held := Chunks(reader);
      case Close => held := Close;
    }

    method JudgeBody(ghost bodySeen: bytes) returns (r: Result<bool, Error>)
      requires HasHead() && |raw| <= MAX_BODY
      requires head.value.framing.Chunks? ==>
                 && head.value.framing.reader.Follows(bodySeen) && bodySeen <= raw[head.value.bodyStart..]
      modifies Parts() - {this}
      ensures r == Verdict(HTTP, raw)
      ensures r.Ok? ==> Valid()
      ensures Windows() <= |raw|
    {
      var h := head.value;
      var body := raw[h.bodyStart..];
      match h.framing
      case Length(length) => return Ok(|body| >= length);
      case Close => return Ok(false);
      case Chunks(reader) =>
        var advanced := reader.Advance(body, bodySeen);
        return Faulted(advanced);
    }

    /** The answer when nothing more comes: that of one pass over all its bytes. */
    method Finish() returns (r: Result<Answer, Error>)
      requires Valid()
      ensures r == Ended(HTTP, raw)
    {
      if head.None? {
        return Err(if raw == [] then Empty else TruncatedHead);
      }
      var h := head.value;
      var body := raw[h.bodyStart..];
      match h.framing
      case Length(length) =>
        if |body| < length {
          return Err(Short(|body|, length));
        }
        return Ok(Answer(h.status, h.fields, body[..length]));
      case Close =>
        return Ok(Answer(h.status, h.fields, body));
      case Chunks(reader) =>
        var joined := reader.Finish(body);
        match joined
        case Ok(whole) => return Ok(Answer(h.status, h.fields, whole));
        case Err(fault) => return Err(Malformed(fault));
    }
  }

  /** The read loop of a request: pushes what each read gives until the answer is whole or the connection ends. */
  method ReadAnswer(pieces: seq<bytes>) returns (r: Result<Answer, Error>)
    ensures r == Fed(HTTP, [], pieces)
  {
    hide ReplyOf;
    hide Chunked.ChunkSize;
    var answer := new Http1Answer();
    for i := 0 to |pieces|
      invariant answer.Valid() && fresh(answer.Parts())
      invariant Fed(HTTP, [], pieces) == Fed(HTTP, answer.raw, pieces[i..])
    {
      var whole := answer.Push(pieces[i]);
      assert pieces[i..][1..] == pieces[i + 1..];
      match whole
      case Err(e) => return Err(e);
      case Ok(done) =>
        if done {
          r := answer.Finish();
          return;
        }
    }
    r := answer.Finish();
  }
}
