/**
  * The chunked body of an HTTP/1.1 answer (RFC 9112, section 7.1): what a body means as a whole,
  * the grammar it is an instance of, and the incremental reader that resumes where it stopped.
  */
module Chunked {
  import opened Bytes
  import opened Text

  /** A line without its end in sight is refused past this length. */
  const MAX_LINE: nat := 8 * 1024

  const CRLF: bytes := [13, 10]

  datatype Fault = ChunkTooLarge | NoLineEnd | LineTooLong | BadChunkSize | EndedEarly

  /** The size a chunk-size line gives: hexadecimal, before any extension. */
  function ChunkSize(line: bytes): Option<nat> {
    match Strict(line)
    case None => None
    case Some(text) => ParseUnsigned(Trim(text[..IndexOf(text, ';')]), 16, USIZE_MAX)
  }

  /** A reading of chunk-size lines. All that is said of runs below holds for any. */
  type Sizes = bytes -> Option<nat>

  // ---------------------------------------------------------------- one step, one run

  datatype Phase = Size | Data(size: nat) | Tail

  /** A place in a body: what comes next at `at`, and the data of the chunks before it. */
  datatype Cursor = Cursor(at: nat, phase: Phase, joined: bytes)

  const START := Cursor(0, Size, [])

  datatype Step = Stuck | Next(cursor: Cursor) | End(at: nat, joined: bytes) | Bad(fault: Fault)

  /** Reads one piece of `body`, a line or the data of a chunk, without any resume point. */
  ghost function StepAt(sizes: Sizes, body: bytes, c: Cursor): (step: Step)
    requires c.at <= |body|
    ensures step.Next? ==> c.at < step.cursor.at <= |body|
    ensures step.End? ==> c.at < step.at <= |body|
  {
    if c.phase.Data? then
      var end := c.at + c.phase.size + 2;
      if end > USIZE_MAX then Bad(ChunkTooLarge)
      else if |body| < end then Stuck
      else if !Matches(body, end - 2, CRLF) then Bad(NoLineEnd)
      else Next(Cursor(end, Size, c.joined + body[c.at..end - 2]))
    else
      match Find(body, c.at, CRLF)
      case None => Stuck
      case Some(end) =>
        var line := body[c.at..end];
        if c.phase.Tail? then
          if line == [] then End(end + 2, c.joined) else Next(c.(at := end + 2))
        else
          match sizes(line)
          case None => Bad(BadChunkSize)
          case Some(size) =>
            Next(Cursor(end + 2, if size == 0 then Tail else Data(size), c.joined))
  }

  datatype Progress = Open(cursor: Cursor) | Whole(at: nat, joined: bytes) | Broken(fault: Fault)

  /** Reads `body` from `c` as far as it goes. */
  ghost function Run(sizes: Sizes, body: bytes, c: Cursor): (p: Progress)
    requires c.at <= |body|
    ensures p.Open? ==> c.at <= p.cursor.at <= |body|
    ensures p.Whole? ==> c.at < p.at <= |body|
    decreases |body| - c.at
  {
    match StepAt(sizes, body, c)
    case Stuck => Open(c)
    case Next(c') => Run(sizes, body, c')
    case End(at, joined) => Whole(at, joined)
    case Bad(fault) => Broken(fault)
  }

  /** Whether `body` stops inside a line that is already too long to go on with. */
  ghost predicate LongLine(sizes: Sizes, body: bytes) {
    var p := Run(sizes, body, START);
    p.Open? && !p.cursor.phase.Data? && |body| - p.cursor.at > MAX_LINE
  }

  /** What the reader says of `body` when it has all of it and has seen none of it before. */
  ghost function Verdict(sizes: Sizes, body: bytes): Result<bool, Fault> {
    match Run(sizes, body, START)
    case Whole(_, _) => Ok(true)
    case Broken(fault) => Err(fault)
    case Open(_) => if LongLine(sizes, body) then Err(LineTooLong) else Ok(false)
  }

  /** The joined body, when the connection ends after `body`. */
  ghost function Ended(sizes: Sizes, body: bytes): Result<bytes, Fault> {
    match Run(sizes, body, START) case Whole(_, joined) => Ok(joined) case _ => Err(EndedEarly)
  }

  // ---------------------------------------------------------------- more bytes

  /** A step once taken is taken again when more of the body has come. */
  lemma StepExtends(sizes: Sizes, body: bytes, more: bytes, c: Cursor)
    requires c.at <= |body|
    requires !StepAt(sizes, body, c).Stuck?
    ensures StepAt(sizes, body + more, c) == StepAt(sizes, body, c)
  {
    var longer := body + more;
    if c.phase.Data? {
      var end := c.at + c.phase.size + 2;
      if end <= |body| {
        assert longer[c.at..end - 2] == body[c.at..end - 2];
        assert Matches(longer, end - 2, CRLF) == Matches(body, end - 2, CRLF);
      }
    } else {
      FindExtends(body, more, c.at, CRLF);
      var end := Find(body, c.at, CRLF).value;
      assert longer[c.at..end] == body[c.at..end];
    }
  }

  /** A run that has ended stays as it is, and one that is open goes on from where it stopped. */
  lemma {:induction false} RunExtends(sizes: Sizes, body: bytes, more: bytes, c: Cursor)
    requires c.at <= |body|
    ensures var p := Run(sizes, body, c);
            Run(sizes, body + more, c) == if p.Open? then Run(sizes, body + more, p.cursor) else p
    decreases |body| - c.at
  {
    if !StepAt(sizes, body, c).Stuck? {
      StepExtends(sizes, body, more, c);
      if StepAt(sizes, body, c).Next? {
        RunExtends(sizes, body, more, StepAt(sizes, body, c).cursor);
      }
    }
  }

  /** A run breaks on what it reads, never on the length of a line. */
  lemma {:induction false} RunFaults(sizes: Sizes, body: bytes, c: Cursor)
    requires c.at <= |body|
    ensures Run(sizes, body, c) != Broken(LineTooLong)
    decreases |body| - c.at
  {
    if StepAt(sizes, body, c).Next? {
      RunFaults(sizes, body, StepAt(sizes, body, c).cursor);
    }
  }

  // ---------------------------------------------------------------- the grammar

  datatype Trailer = Blank | Field(line: bytes, rest: Trailer)

  /** A chunked body: chunks, the last chunk, and the trailer. */
  datatype Body = Last(line: bytes, trailer: Trailer) | Chunk(line: bytes, data: bytes, rest: Body)

  predicate IsLine(line: bytes) {
    forall i :: 0 <= i < |line| ==> !Matches(line, i, CRLF)
  }

  predicate GoodTrailer(t: Trailer) {
    t.Field? ==> IsLine(t.line) && t.line != [] && GoodTrailer(t.rest)
  }

  predicate WellFormed(sizes: Sizes, b: Body) {
    && IsLine(b.line)
    && match b
       case Last(line, trailer) => sizes(line) == Some(0) && GoodTrailer(trailer)
       case Chunk(line, data, rest) => data != [] && sizes(line) == Some(|data|) && WellFormed(sizes, rest)
  }

  function Fields(t: Trailer): bytes {
    match t
    case Blank => [] + CRLF
    case Field(line, rest) => (line + CRLF) + Fields(rest)
  }

  function Wire(b: Body): bytes {
    match b
    case Last(line, trailer) => (line + CRLF) + Fields(trailer)
    case Chunk(line, data, rest) => (line + CRLF) + ((data + CRLF) + Wire(rest))
  }

  /** The data of the chunks. */
  function Joined(b: Body): bytes {
    if b.Last? then [] else b.data + Joined(b.rest)
  }

  /** The search stops at the end of a line, and the text before it is that line. */
  lemma FindsLine(body: bytes, at: nat, line: bytes)
    requires IsLine(line) && Stands(body, at, line + CRLF)
    ensures Find(body, at, CRLF) == Some(at + |line|)
    ensures body[at..at + |line|] == line
  {
    StandsJoin(body, at, line, CRLF);
    var end := at + |line|;
    StandsAt(body, end, CRLF, 0);
    StandsAt(body, end, CRLF, 1);
    assert Matches(body, end, CRLF);
    forall j | at <= j < end ensures !Matches(body, j, CRLF) {
      StandsAt(body, at, line, j - at);
      if j + 1 < end {
        StandsAt(body, at, line, j + 1 - at);
        assert !Matches(line, j - at, CRLF);
      }
    }
  }

  /** The text up to the first CRLF is a line. */
  lemma LineFound(body: bytes, at: nat)
    requires at <= |body| && Find(body, at, CRLF).Some?
    ensures var line := body[at..Find(body, at, CRLF).value];
            IsLine(line) && Stands(body, at, line + CRLF)
  {
    var end := Find(body, at, CRLF).value;
    var line := body[at..end];
    forall i | 0 <= i < |line| ensures !Matches(line, i, CRLF) {
      if i + 1 < |line| {
        assert !Matches(body, at + i, CRLF);
        assert line[i] == body[at + i] && line[i + 1] == body[at + i + 1];
      }
    }
    assert body[end] == CRLF[0] && body[end + 1] == CRLF[1];
    assert Stands(body, end, CRLF);
    StandsJoin(body, at, line, CRLF);
  }

  // ---------------------------------------------------------------- every chunked body is read whole

  lemma TailStep(sizes: Sizes, body: bytes, at: nat, line: bytes, here: nat, joined: bytes)
    requires IsLine(line) && Stands(body, at, line + CRLF) && here == at + |line| + 2
    ensures StepAt(sizes, body, Cursor(at, Tail, joined))
         == if line == [] then End(here, joined) else Next(Cursor(here, Tail, joined))
  {
    hide IsLine;
    FindsLine(body, at, line);
  }

  lemma {:induction false} TrailerCompletes(sizes: Sizes, body: bytes, at: nat, t: Trailer, joined: bytes)
    requires GoodTrailer(t) && Stands(body, at, Fields(t))
    ensures Run(sizes, body, Cursor(at, Tail, joined)) == Whole(at + |Fields(t)|, joined)
    decreases t
  {
    hide StepAt;
    if t.Blank? {
      assert [] + CRLF == CRLF;
      TailStep(sizes, body, at, [], at + 2, joined);
    } else {
      StandsJoin(body, at, t.line + CRLF, Fields(t.rest));
      TailStep(sizes, body, at, t.line, at + |t.line| + 2, joined);
      TrailerCompletes(sizes, body, at + |t.line| + 2, t.rest, joined);
    }
  }

  /** A chunk stands where its line, its data and the rest of the body stand. */
  lemma ChunkStands(body: bytes, at: nat, here: nat, after: nat, b: Body)
    requires b.Chunk? && here == at + |b.line| + 2 && after == here + |b.data| + 2
    ensures at + |Wire(b)| == after + |Wire(b.rest)|
    ensures Stands(body, at, Wire(b)) <==>
            && Stands(body, at, b.line + CRLF)
            && Stands(body, here, b.data + CRLF)
            && Stands(body, after, Wire(b.rest))
  {
    StandsJoin(body, here, b.data + CRLF, Wire(b.rest));
    StandsJoin(body, at, b.line + CRLF, (b.data + CRLF) + Wire(b.rest));
  }

  /** A chunk is read in two steps, whatever bytes its data holds. */
  lemma ChunkRun(sizes: Sizes, body: bytes, at: nat, here: nat, after: nat, b: Body, joined: bytes)
    requires |body| <= USIZE_MAX && b.Chunk? && WellFormed(sizes, b)
    requires here == at + |b.line| + 2 && after == here + |b.data| + 2
    requires Stands(body, at, b.line + CRLF) && Stands(body, here, b.data + CRLF)
    ensures Run(sizes, body, Cursor(at, Size, joined))
         == Run(sizes, body, Cursor(after, Size, joined + b.data))
  {
    SizeStep(sizes, body, at, b.line, here, joined);
    DataStep(sizes, body, here, b.data, after, joined);
  }

  lemma SizeStep(sizes: Sizes, body: bytes, at: nat, line: bytes, here: nat, joined: bytes)
    requires IsLine(line) && sizes(line).Some?
    requires Stands(body, at, line + CRLF) && here == at + |line| + 2
    ensures StepAt(sizes, body, Cursor(at, Size, joined))
         == Next(Cursor(here, if sizes(line) == Some(0) then Tail else Data(sizes(line).value), joined))
  {
    FindsLine(body, at, line);
  }

  lemma DataStep(sizes: Sizes, body: bytes, at: nat, data: bytes, after: nat, joined: bytes)
    requires Stands(body, at, data + CRLF) && |body| <= USIZE_MAX && after == at + |data| + 2
    ensures StepAt(sizes, body, Cursor(at, Data(|data|), joined))
         == Next(Cursor(after, Size, joined + data))
  {
    StandsJoin(body, at, data, CRLF);
    StandsAt(body, at + |data|, CRLF, 0);
    StandsAt(body, at + |data|, CRLF, 1);
    assert Matches(body, at + |data|, CRLF);
  }

  /** The reader takes every chunked body, wherever it stands, to its end. */
  lemma {:induction false} RunCompletes(sizes: Sizes, body: bytes, at: nat, b: Body, joined: bytes)
    requires WellFormed(sizes, b) && |body| <= USIZE_MAX && Stands(body, at, Wire(b))
    ensures Run(sizes, body, Cursor(at, Size, joined)) == Whole(at + |Wire(b)|, joined + Joined(b))
    decreases b
  {
    var here := at + |b.line| + 2;
    if b.Last? {
      StandsJoin(body, at, b.line + CRLF, Fields(b.trailer));
      SizeStep(sizes, body, at, b.line, here, joined);
      TrailerCompletes(sizes, body, here, b.trailer, joined);
      assert joined + [] == joined;
    } else {
      var after := here + |b.data| + 2;
      ChunkStands(body, at, here, after, b);
      ChunkRun(sizes, body, at, here, after, b, joined);
      RunCompletes(sizes, body, after, b.rest, joined + b.data);
      assert joined + b.data + Joined(b.rest) == joined + Joined(b);
    }
  }

  // ---------------------------------------------------------------- what is read whole is a chunked body

  lemma {:induction false} TrailerSound(sizes: Sizes, body: bytes, at: nat, joined: bytes) returns (t: Trailer)
    requires at <= |body|
    requires Run(sizes, body, Cursor(at, Tail, joined)).Whole?
    ensures GoodTrailer(t) && Stands(body, at, Fields(t))
    ensures Run(sizes, body, Cursor(at, Tail, joined)) == Whole(at + |Fields(t)|, joined)
    decreases |body| - at
  {
    hide Run, StepAt, IsLine, Find;
    var line, here := FieldFound(sizes, body, at, joined);
    if line == [] {
      t := Blank;
    } else {
      var rest := TrailerSound(sizes, body, here, joined);
      t := Field(line, rest);
      StandsJoin(body, at, line + CRLF, Fields(rest));
    }
  }

  lemma FieldFound(sizes: Sizes, body: bytes, at: nat, joined: bytes) returns (line: bytes, here: nat)
    requires at <= |body|
    requires Run(sizes, body, Cursor(at, Tail, joined)).Whole?
    ensures IsLine(line) && Stands(body, at, line + CRLF) && here == at + |line| + 2 <= |body|
    ensures Run(sizes, body, Cursor(at, Tail, joined))
         == if line == [] then Whole(here, joined) else Run(sizes, body, Cursor(here, Tail, joined))
  {
    hide IsLine;
    LineFound(body, at);
    var end := Find(body, at, CRLF).value;
    line, here := body[at..end], end + 2;
  }

  lemma {:induction false} RunSound(sizes: Sizes, body: bytes, at: nat, joined: bytes) returns (b: Body)
    requires at <= |body|
    requires Run(sizes, body, Cursor(at, Size, joined)).Whole?
    ensures WellFormed(sizes, b) && Stands(body, at, Wire(b))
    ensures Run(sizes, body, Cursor(at, Size, joined)) == Whole(at + |Wire(b)|, joined + Joined(b))
    decreases |body| - at
  {
    hide Run, StepAt, IsLine, GoodTrailer;
    var line, size, here := SizeFound(sizes, body, at, joined);
    if size == 0 {
      var trailer := TrailerSound(sizes, body, here, joined);
      b := Last(line, trailer);
      StandsJoin(body, at, line + CRLF, Fields(trailer));
      assert joined + [] == joined;
    } else {
      var data, after := DataFound(sizes, body, here, size, joined);
      var rest := RunSound(sizes, body, after, joined + data);
      b := Chunk(line, data, rest);
      ChunkStands(body, at, here, after, b);
      assert joined + data + Joined(rest) == joined + Joined(b);
    }
  }

  lemma SizeFound(sizes: Sizes, body: bytes, at: nat, joined: bytes)
    returns (line: bytes, size: nat, here: nat)
    requires at <= |body|
    requires Run(sizes, body, Cursor(at, Size, joined)).Whole?
    ensures IsLine(line) && sizes(line) == Some(size)
    ensures Stands(body, at, line + CRLF) && here == at + |line| + 2 <= |body|
    ensures Run(sizes, body, Cursor(at, Size, joined))
         == Run(sizes, body, Cursor(here, if size == 0 then Tail else Data(size), joined))
  {
    LineFound(body, at);
    var end := Find(body, at, CRLF).value;
    line, here := body[at..end], end + 2;
    size := sizes(line).value;
  }

  lemma DataFound(sizes: Sizes, body: bytes, at: nat, size: nat, joined: bytes)
    returns (data: bytes, after: nat)
    requires at <= |body| && Run(sizes, body, Cursor(at, Data(size), joined)).Whole?
    ensures |data| == size && Stands(body, at, data + CRLF) && after == at + size + 2 <= |body|
    ensures Run(sizes, body, Cursor(at, Data(size), joined))
         == Run(sizes, body, Cursor(after, Size, joined + data))
  {
    var end := at + size;
    data, after := body[at..end], end + 2;
    assert Matches(body, end, CRLF);
    assert body[end] == CRLF[0] && body[end + 1] == CRLF[1];
    assert Stands(body, end, CRLF);
    StandsJoin(body, at, data, CRLF);
  }

  // ---------------------------------------------------------------- the main results

  /**
    * The reader is done exactly when a chunked body stands at the start of what has come, it stops
    * at the end of that body, and what it has joined is the data of its chunks.
    */
  lemma Recognises(sizes: Sizes, body: bytes, at: nat, joined: bytes)
    requires |body| <= USIZE_MAX
    ensures Run(sizes, body, START) == Whole(at, joined)
       <==> exists b :: WellFormed(sizes, b) && Stands(body, 0, Wire(b))
                        && at == |Wire(b)| && joined == Joined(b)
  {
    if Run(sizes, body, START) == Whole(at, joined) {
      var b := RunSound(sizes, body, 0, []);
      assert [] + Joined(b) == Joined(b);
    }
    forall b | WellFormed(sizes, b) && Stands(body, 0, Wire(b))
      ensures Run(sizes, body, START) == Whole(|Wire(b)|, Joined(b))
    {
      RunCompletes(sizes, body, 0, b, []);
      assert [] + Joined(b) == Joined(b);
    }
  }

  /** What the reader calls malformed neither holds a chunked body nor begins one. */
  lemma BrokenForGood(sizes: Sizes, body: bytes, b: Body)
    requires |body| <= USIZE_MAX && |Wire(b)| <= USIZE_MAX
    requires Run(sizes, body, START).Broken? && WellFormed(sizes, b)
    ensures !(Wire(b) <= body) && !(body <= Wire(b))
  {
    if Wire(b) <= body {
      RunCompletes(sizes, body, 0, b, []);
    } else if body <= Wire(b) {
      assert body + Wire(b)[|body|..] == Wire(b);
      RunExtends(sizes, body, Wire(b)[|body|..], START);
      RunCompletes(sizes, Wire(b), 0, b, []);
    }
  }

  /** Two trailers that stand at one place are one trailer. */
  lemma {:induction false} TrailerUnique(body: bytes, at: nat, x: Trailer, y: Trailer)
    requires GoodTrailer(x) && GoodTrailer(y)
    requires Stands(body, at, Fields(x)) && Stands(body, at, Fields(y))
    ensures x == y
    decreases x
  {
    hide Find, IsLine;
    var left, right := if x.Blank? then [] else x.line, if y.Blank? then [] else y.line;
    if x.Field? { StandsJoin(body, at, left + CRLF, Fields(x.rest)); }
    if y.Field? { StandsJoin(body, at, right + CRLF, Fields(y.rest)); }
    FindsLine(body, at, left);
    FindsLine(body, at, right);
    if x.Field? && y.Field? {
      TrailerUnique(body, at + |left| + 2, x.rest, y.rest);
    }
  }

  /** A body is a chunked body in one way only. */
  lemma {:induction false} WireUnique(sizes: Sizes, body: bytes, at: nat, x: Body, y: Body)
    requires WellFormed(sizes, x) && WellFormed(sizes, y)
    requires Stands(body, at, Wire(x)) && Stands(body, at, Wire(y))
    ensures x == y
    decreases x
  {
    var here := at + |x.line| + 2;
    LineStands(body, at, x);
    LineStands(body, at, y);
    FindsLine(body, at, x.line);
    FindsLine(body, at, y.line);
    if x.Last? {
      TrailerUnique(body, here, x.trailer, y.trailer);
    } else {
      var after := here + |x.data| + 2;
      ChunkStands(body, at, here, after, x);
      ChunkStands(body, at, here, after, y);
      StandsJoin(body, here, x.data, CRLF);
      StandsJoin(body, here, y.data, CRLF);
      WireUnique(sizes, body, after, x.rest, y.rest);
    }
  }

  lemma LineStands(body: bytes, at: nat, b: Body)
    requires Stands(body, at, Wire(b))
    ensures Stands(body, at, b.line + CRLF)
    ensures b.Last? ==> Stands(body, at + |b.line| + 2, Fields(b.trailer))
  {
    match b
    case Last(line, trailer) => StandsJoin(body, at, line + CRLF, Fields(trailer));
    case Chunk(line, data, rest) => ChunkStands(body, at, at + |line| + 2, at + |line| + 2 + |data| + 2, b);
  }

  // ---------------------------------------------------------------- lines of fair length

  predicate ShortFields(t: Trailer) {
    t.Field? ==> |t.line| < MAX_LINE && ShortFields(t.rest)
  }

  predicate ShortLines(b: Body) {
    |b.line| < MAX_LINE && if b.Last? then ShortFields(b.trailer) else ShortLines(b.rest)
  }

  /** A run that is open has not given up on the line it is in. */
  ghost predicate Patient(sizes: Sizes, body: bytes, c: Cursor)
    requires c.at <= |body|
  {
    var p := Run(sizes, body, c);
    p.Open? && !p.cursor.phase.Data? ==> |body| - p.cursor.at <= MAX_LINE
  }

  /** The line at `c`, if one comes there, has its end in time for any cut. */
  ghost predicate FairLine(body: bytes, c: Cursor)
    requires c.at <= |body|
  {
    c.phase.Data? ||
    match Find(body, c.at, CRLF)
    case None => |body| - c.at <= MAX_LINE
    case Some(end) => end - c.at < MAX_LINE
  }

  /** Every line that a run over `body` passes or stops in is of fair length, whatever the run ends with. */
  ghost predicate Fair(sizes: Sizes, body: bytes, c: Cursor)
    requires c.at <= |body|
    decreases |body| - c.at
  {
    FairLine(body, c) && (StepAt(sizes, body, c).Next? ==> Fair(sizes, body, StepAt(sizes, body, c).cursor))
  }

  lemma PatientNext(sizes: Sizes, body: bytes, c: Cursor, next: Cursor)
    requires c.at <= |body| && StepAt(sizes, body, c) == Next(next)
    ensures next.at <= |body| && Patient(sizes, body, c) == Patient(sizes, body, next)
  {
    hide StepAt;
  }

  lemma PatientStuck(sizes: Sizes, body: bytes, c: Cursor)
    requires c.at <= |body| && StepAt(sizes, body, c).Stuck?
    ensures Patient(sizes, body, c) <==> c.phase.Data? || |body| - c.at <= MAX_LINE
  {
    hide StepAt;
  }

  lemma PatientEnded(sizes: Sizes, body: bytes, c: Cursor)
    requires c.at <= |body| && (StepAt(sizes, body, c).End? || StepAt(sizes, body, c).Bad?)
    ensures Patient(sizes, body, c)
  {
    hide StepAt;
  }

  /** A first match that is cut off is not found, and there is none before it. */
  lemma FindCut(body: bytes, from: nat, cut: nat)
    requires from <= cut <= |body|
    ensures Find(body[..cut], from, CRLF)
         == match Find(body, from, CRLF)
            case None => None
            case Some(end) => if end + 2 <= cut then Some(end) else None
  {
    var p := body[..cut];
    assert body == p + body[cut..];
    var end := Find(body, from, CRLF);
    if end.Some? && end.value + 2 <= cut {
      assert Matches(p, end.value, CRLF);
    }
    if Find(p, from, CRLF).Some? {
      FindExtends(p, body[cut..], from, CRLF);
    }
  }

  /** A step that fits a prefix is taken there, and so is one that the prefix takes. */
  lemma StepBefore(sizes: Sizes, body: bytes, c: Cursor, cut: nat)
    requires c.at <= cut <= |body|
    ensures (var step := StepAt(sizes, body, c);
             step.Next? && step.cursor.at <= cut ==> StepAt(sizes, body[..cut], c) == step)
    ensures !StepAt(sizes, body[..cut], c).Stuck? ==> StepAt(sizes, body[..cut], c) == StepAt(sizes, body, c)
  {
    var p := body[..cut];
    assert body == p + body[cut..];
    if !StepAt(sizes, p, c).Stuck? {
      StepExtends(sizes, p, body[cut..], c);
    }
    FindCut(body, c.at, cut);
  }

  /** Where every line is fair, no cut is in a line too long. */
  lemma {:induction false} FairCut(sizes: Sizes, body: bytes, c: Cursor, cut: nat)
    requires c.at <= cut <= |body| && Fair(sizes, body, c)
    ensures Patient(sizes, body[..cut], c)
    decreases |body| - c.at
  {
    hide StepAt, Patient;
    var p := body[..cut];
    StepBefore(sizes, body, c, cut);
    var step := StepAt(sizes, p, c);
    if step.Stuck? {
      if !c.phase.Data? {
        StuckLine(sizes, p, c);
        FindCut(body, c.at, cut);
      }
      PatientStuck(sizes, p, c);
    } else if step.Next? {
      FairCut(sizes, body, step.cursor, cut);
      PatientNext(sizes, p, c, step.cursor);
    } else {
      PatientEnded(sizes, p, c);
    }
  }

  lemma StuckLine(sizes: Sizes, body: bytes, c: Cursor)
    requires c.at <= |body| && !c.phase.Data?
    ensures StepAt(sizes, body, c).Stuck? <==> Find(body, c.at, CRLF).None?
  {
  }

  /** And where some line is not, some cut is. */
  lemma {:induction false} UnfairCut(sizes: Sizes, body: bytes, c: Cursor) returns (cut: nat)
    requires c.at <= |body| && !Fair(sizes, body, c)
    ensures c.at <= cut <= |body| && !Patient(sizes, body[..cut], c)
    decreases |body| - c.at
  {
    hide StepAt, Patient;
    if FairLine(body, c) {
      var next := StepAt(sizes, body, c).cursor;
      cut := UnfairCut(sizes, body, next);
      StepBefore(sizes, body, c, cut);
      PatientNext(sizes, body[..cut], c, next);
    } else {
      var end := Find(body, c.at, CRLF);
      cut := if end.None? then |body| else end.value + 1;
      FindCut(body, c.at, cut);
      StuckLine(sizes, body[..cut], c);
      PatientStuck(sizes, body[..cut], c);
    }
  }

  lemma FairNext(sizes: Sizes, body: bytes, c: Cursor, next: Cursor)
    requires c.at <= |body| && StepAt(sizes, body, c) == Next(next) && FairLine(body, c)
    requires next.at <= |body| && Fair(sizes, body, next)
    ensures Fair(sizes, body, c)
  {
    hide StepAt;
  }

  lemma {:induction false} FairTrailer(sizes: Sizes, body: bytes, at: nat, t: Trailer, joined: bytes)
    requires GoodTrailer(t) && ShortFields(t) && Stands(body, at, Fields(t))
    ensures at <= |body| && Fair(sizes, body, Cursor(at, Tail, joined))
    decreases t
  {
    hide StepAt, Find;
    var line := if t.Blank? then [] else t.line;
    var here := at + |line| + 2;
    if t.Field? {
      StandsJoin(body, at, line + CRLF, Fields(t.rest));
    }
    FindsLine(body, at, line);
    TailStep(sizes, body, at, line, here, joined);
    if t.Field? {
      FairTrailer(sizes, body, here, t.rest, joined);
    }
  }

  /** A chunked body with short lines is fair, whatever is behind it. */
  lemma {:induction false} FairBody(sizes: Sizes, body: bytes, at: nat, b: Body, joined: bytes)
    requires WellFormed(sizes, b) && ShortLines(b) && |body| <= USIZE_MAX && Stands(body, at, Wire(b))
    ensures at <= |body| && Fair(sizes, body, Cursor(at, Size, joined))
    decreases b
  {
    hide StepAt, Find, IsLine, Fair;
    var here := at + |b.line| + 2;
    var c := Cursor(at, Size, joined);
    LineStands(body, at, b);
    FindsLine(body, at, b.line);
    SizeStep(sizes, body, at, b.line, here, joined);
    if b.Last? {
      FairTrailer(sizes, body, here, b.trailer, joined);
      FairNext(sizes, body, c, Cursor(here, Tail, joined));
    } else {
      var after := here + |b.data| + 2;
      var d := Cursor(here, Data(|b.data|), joined);
      ChunkStands(body, at, here, after, b);
      DataStep(sizes, body, here, b.data, after, joined);
      FairBody(sizes, body, after, b.rest, joined + b.data);
      FairNext(sizes, body, d, Cursor(after, Size, joined + b.data));
      FairNext(sizes, body, c, d);
    }
  }

  // ---------------------------------------------------------------- the incremental reader

  /** Reads a chunked body as it comes in, going on each time from where it stopped. */
  class Dechunker {
    /** The cursor: everything before it has been dealt with. */
    var at: nat
    /** No line end begins between the cursor and one byte before here. */
    var searched: nat
    /** Behind a size line other than 0: that size, until the data has been taken. */
    var data: Option<nat>
    /** Set by a size line of 0: all further lines are fields. */
    var trailer: bool
    var done: bool
    var joined: bytes
    /** How many windows the line searches have compared so far. */
    ghost var compared: nat

    constructor ()
      ensures at == searched == compared == 0 && data == None && !trailer && !done && joined == []
      ensures Follows([])
    {
      at, searched, data, trailer, done, joined, compared := 0, 0, None, false, false, [], 0;
      new;
      assert forall j :: 0 <= j ==> !Matches([], j, CRLF);
    }

    ghost function Here(): Cursor
      reads this
    {
      Cursor(at, if trailer then Tail else if data.Some? then Data(data.value) else Size, joined)
    }

    /** The fields agree with one run over `body`, and every search was over new places. */
    ghost predicate Synced(body: bytes)
      reads this
    {
      && at <= searched <= |body|
      && (data.Some? ==> searched == at && !trailer)
      && (forall j :: at <= j && j + 2 <= searched ==> !Matches(body, j, CRLF))
      && compared <= Resume()
    }

    /** Where the next line search starts. */
    ghost function Resume(): nat
      reads this
    {
      if at + 1 < searched then searched - 1 else at
    }

    /** The reader has been given `seen`, all of it and nothing else, and has not failed. */
    ghost predicate Follows(seen: bytes)
      reads this
    {
      && Synced(seen)
      && Run(ChunkSize, seen, START) == if done then Whole(at, joined) else Open(Here())
    }

    /**
      * Takes the body from `seen`, which earlier calls were given, to `body`. The answer is that of
      * a reader given all of `body` at once, and all searches together have compared at most one
      * window a byte.
      */
    method Advance(body: bytes, ghost seen: bytes) returns (r: Result<bool, Fault>)
      requires Follows(seen) && seen <= body
      modifies this
      ensures r == Verdict(ChunkSize, body)
      ensures r.Ok? ==> Follows(body) && done == r.value
      ensures compared <= |body|
    {
      hide ChunkSize;
      assert body == seen + body[|seen|..];
      RunExtends(ChunkSize, seen, body[|seen|..], START);
      assert Synced(body) by {
        forall j | at <= j && j + 2 <= searched ensures !Matches(body, j, CRLF) {
          assert !Matches(seen, j, CRLF);
        }
      }
      while !done
        invariant Synced(body)
        invariant Run(ChunkSize, body, START) == if done then Whole(at, joined) else Run(ChunkSize, body, Here())
        decreases |body| - at, !done
      {
        var stop: Option<Result<bool, Fault>>;
        if data.Some? {
          stop := TakeData(body);
        } else {
          stop := TakeLine(body);
        }
        if stop.Some? {
          return stop.value;
        }
      }
      return Ok(true);
    }

    /** What a step that stops the reader at `c` answers, before anything else may come. */
    ghost predicate Stops(body: bytes, c: Cursor, answer: Result<bool, Fault>)
      requires c.at <= |body|
    {
      match StepAt(ChunkSize, body, c)
      case Bad(fault) => answer == Err(fault)
      case Stuck =>
        answer == if !c.phase.Data? && |body| - c.at > MAX_LINE then Err(LineTooLong) else Ok(false)
      case _ => false
    }

    /** The reader has gone one step on from `c`. */
    ghost predicate Stepped(body: bytes, c: Cursor)
      requires c.at <= |body|
      reads this
    {
      StepAt(ChunkSize, body, c) == if done then End(at, joined) else Next(Here())
    }

    /** One step over the data of a chunk and its line end; None when there is more to do. */
    method TakeData(body: bytes) returns (stop: Option<Result<bool, Fault>>)
      requires Synced(body) && !done && data.Some?
      modifies this
      ensures Synced(body)
      ensures match stop
              case None => Stepped(body, old(Here()))
              case Some(answer) => Stops(body, old(Here()), answer) && Here() == old(Here()) && !done
    {
      var size := data.value;
      if at + size > USIZE_MAX || at + size + 2 > USIZE_MAX {
        return Some(Err(ChunkTooLarge));
      }
      var end := at + size + 2;
      if |body| < end {
        return Some(Ok(false));
      }
      assert Matches(body, end - 2, CRLF) <==> body[end - 2..end] == CRLF;
      if body[end - 2..end] != CRLF {
        return Some(Err(NoLineEnd));
      }
      joined := joined + body[at..end - 2];
      at, searched, data := end, end, None;
      return None;
    }

    /** The first line end from the cursor on; only places not yet looked at cost anything. */
    method FindLine(body: bytes) returns (end: Option<nat>)
      requires Synced(body) && data.None?
      modifies `compared
      ensures end == Find(body, at, CRLF)
      ensures end.None? ==> compared <= (if at + 1 < |body| then |body| - 1 else at)
      ensures end.Some? ==> compared <= end.value + 1
    {
      var from := Max(if searched < 1 then 0 else searched - 1, at);
      FindSkips(body, at, from, CRLF);
      ghost var windows;
      end, windows := Search(body, from, CRLF);
      compared := compared + windows;
    }

    /** One step over a line, which is a size or a field by the phase; None when there is more to do. */
    method TakeLine(body: bytes) returns (stop: Option<Result<bool, Fault>>)
      requires Synced(body) && !done && data.None?
      modifies this
      ensures stop.None? || stop.value.Ok? ==> Synced(body)
      ensures compared <= |body|
      ensures match stop
              case None => Stepped(body, old(Here()))
              case Some(answer) => Stops(body, old(Here()), answer)
      ensures stop.Some? && stop.value.Ok? ==> Here() == old(Here()) && !done
    {
      hide ChunkSize, Find;
      var offset := FindLine(body);
      if offset.None? {
        if |body| - at > MAX_LINE {
          return Some(Err(LineTooLong));
        }
        searched := |body|;
        return Some(Ok(false));
      }
      var end := offset.value;
      var line := body[at..end];
      at, searched := end + 2, end + 2;
      if trailer {
        done := line == [];
        return None;
      }
      var size := ChunkSize(line);
      match size
      case None => return Some(Err(BadChunkSize));
      case Some(n) =>
        if n == 0 { trailer := true; } else { data := Some(n); }
        return None;
    }

    /** The data of all chunks, of a body that was read to its end. */
    method Finish(ghost seen: bytes) returns (r: Result<bytes, Fault>)
      requires Follows(seen)
      ensures r == Ended(ChunkSize, seen)
    {
      return if done then Ok(joined) else Err(EndedEarly);
    }
  }

  function Max(x: nat, y: nat): nat {
    if x < y then y else x
  }
}
