/**
  * HTTP/1.1 answers as a server writes them, and the round trip: whatever is written comes back
  * out of the reader, in whatever pieces it travels.
  */
module Http1Wire {
  import opened Bytes
  import opened Text
  import Chunked
  import opened Http1

  // ---------------------------------------------------------------- writing

  /** `n` in decimal. */
  function Decimal(n: nat): (s: string)
    ensures s != [] && forall i :: 0 <= i < |s| ==> '0' <= s[i] <= '9'
  {
    var last := [(n % 10 + '0' as int) as char];
    if n < 10 then last else Decimal(n / 10) + last
  }

  datatype Written = Written(version: string, status: nat, reason: string, fields: seq<Field>)

  function FieldLine(f: Field): string {
    f.0 + ": " + f.1
  }

  function FieldLines(fields: seq<Field>): string {
    if fields == [] then "" else "\r\n" + FieldLine(fields[0]) + FieldLines(fields[1..])
  }

  function StatusLine(w: Written): string {
    w.version + " " + Decimal(w.status) + " " + w.reason
  }

  /** A head, without the blank line after it. */
  function HeadText(w: Written): string {
    StatusLine(w) + FieldLines(w.fields)
  }

  /** Printable ASCII: no line end hides in it. */
  predicate Printable(s: string) {
    forall i :: 0 <= i < |s| ==> ' ' <= s[i] <= '~'
  }

  predicate Trimmed(s: string) {
    s != [] ==> s[0] != ' ' && s[|s| - 1] != ' '
  }

  predicate GoodField(f: Field) {
    && Printable(f.0) && Trimmed(f.0) && f.0 != [] && ':' !in f.0
    && Printable(f.1) && Trimmed(f.1)
  }

  predicate Good(w: Written) {
    && Printable(w.version) && w.version != [] && ' ' !in w.version
    && Printable(w.reason) && w.status <= 0xFFFF
    && forall i :: 0 <= i < |w.fields| ==> GoodField(w.fields[i])
  }

  // ---------------------------------------------------------------- numbers and fields

  lemma {:induction false} DecimalDigits(n: nat)
    ensures Digits(Decimal(n), 10) == Some(n)
  {
    var s := Decimal(n);
    var last := s[|s| - 1];
    assert Digit(last, 10) == Some(n % 10);
    if n < 10 {
      assert s[..|s| - 1] == [];
    } else {
      assert s[..|s| - 1] == Decimal(n / 10);
      DecimalDigits(n / 10);
    }
  }

  /** A number written in decimal is read back, by any type it fits. */
  lemma DecimalParses(n: nat, max: nat)
    requires n <= max
    ensures ParseUnsigned(Decimal(n), 10, max) == Some(n)
  {
    DecimalDigits(n);
  }

  lemma TrimKeeps(s: string)
    requires Printable(s) && Trimmed(s)
    ensures Trim(s) == s && Trim(" " + s) == s
  {
    if s != [] {
      assert !IsSpace(s[0]) && !IsSpace(s[|s| - 1]);
      assert (" " + s)[1..] == s;
      assert TrimStart(" " + s) == TrimStart(s) == s;
    } else {
      assert " " + s == " ";
      assert TrimStart(" ") == TrimStart(" "[1..]) == "";
    }
  }

  lemma FirstIndex(s: string, c: char, i: nat)
    requires i < |s| && s[i] == c && forall k :: 0 <= k < i ==> s[k] != c
    ensures IndexOf(s, c) == i
  {
  }

  lemma FieldParses(f: Field)
    requires GoodField(f)
    ensures FieldOf(FieldLine(f)) == Some(f)
  {
    hide IndexOf, Trim;
    var line := FieldLine(f);
    assert line == f.0 + (": " + f.1) && line[|f.0|] == ':';
    forall k | 0 <= k < |f.0| ensures line[k] != ':' {
      assert line[k] == f.0[k] && f.0[k] in f.0;
    }
    FirstIndex(line, ':', |f.0|);
    assert line[..|f.0|] == f.0 && line[|f.0| + 1..] == " " + f.1;
    TrimKeeps(f.0);
    TrimKeeps(f.1);
  }

  // ---------------------------------------------------------------- lines

  predicate NoReturn(s: string) {
    forall i :: 0 <= i < |s| ==> s[i] != '\r'
  }

  lemma LineStops(line: string, rest: string)
    requires NoReturn(line)
    ensures Lines(line) == [line]
    ensures Lines(line + "\r\n" + rest) == [line] + Lines(rest)
  {
    hide LineEnd;
    var s := line + "\r\n" + rest;
    assert s[|line|] == '\r' && s[|line| + 1] == '\n';
    assert forall i :: 0 <= i < |line| ==> s[i] == line[i];
    assert s[..|line|] == line && s[|line| + 2..] == rest;
  }

  lemma FieldsCons(line: string, f: Field, lines: seq<string>)
    requires FieldOf(line) == Some(f)
    ensures FieldsOf([line] + lines) == [f] + FieldsOf(lines)
  {
    assert ([line] + lines)[1..] == lines;
  }

  /** Splitting the lines of a head undoes writing them. */
  lemma {:induction false} FieldLinesSplit(line: string, fields: seq<Field>) returns (rest: seq<string>)
    requires Printable(line)
    requires forall i :: 0 <= i < |fields| ==> GoodField(fields[i])
    ensures Lines(line + FieldLines(fields)) == [line] + rest
    ensures FieldsOf(rest) == fields
    decreases |fields|
  {
    hide Lines, FieldLine, FieldLines, FieldOf, GoodField, FieldsOf, Printable;
    rest := [];
    if fields == [] {
      NoFieldLines(line);
    } else {
      FieldLinesCons(line, fields);
      var f, next := fields[0], FieldLine(fields[0]);
      FieldPrintable(f);
      FieldParses(f);
      var others := FieldLinesSplit(next, fields[1..]);
      FieldsCons(next, f, others);
      rest := [next] + others;
      assert fields == [f] + fields[1..];
    }
  }

  lemma NoFieldLines(line: string)
    requires Printable(line)
    ensures Lines(line + FieldLines([])) == [line] + [] && FieldsOf([]) == []
  {
    hide Lines;
    LineStops(line, "");
    assert line + FieldLines([]) == line;
  }

  lemma FieldLinesCons(line: string, fields: seq<Field>)
    requires Printable(line) && fields != []
    ensures Lines(line + FieldLines(fields)) == [line] + Lines(FieldLine(fields[0]) + FieldLines(fields[1..]))
  {
    hide Lines, FieldLine, FieldLines;
    var tail := FieldLine(fields[0]) + FieldLines(fields[1..]);
    FieldLinesAre(line, fields);
    LineStops(line, tail);
  }

  predicate NoSpace(s: string) {
    forall i :: 0 <= i < |s| ==> !IsSpace(s[i])
  }

  lemma {:induction false} TokenLengthIs(token: string, rest: string)
    requires NoSpace(token) && (rest == [] || IsSpace(rest[0]))
    ensures TokenLength(token + rest) == |token|
  {
    hide IsSpace;
    var s := token + rest;
    if token == [] {
      assert s == rest;
    } else {
      assert s[0] == token[0] && s[1..] == token[1..] + rest;
      TokenLengthIs(token[1..], rest);
    }
  }

  /** The first of the words of a line, and what is behind it. */
  lemma FirstToken(token: string, rest: string)
    requires NoSpace(token) && token != [] && (rest == [] || IsSpace(rest[0]))
    ensures Token(token + rest, 0) == Some(token) && Token(token + rest, 1) == Token(rest, 0)
  {
    hide IsSpace, TokenLength;
    var s := token + rest;
    assert s[0] == token[0];
    assert TrimStart(s) == s;
    TokenLengthIs(token, rest);
    assert s[..|token|] == token && s[|token|..] == rest;
  }

  lemma SpaceBefore(s: string)
    ensures Token(" " + s, 0) == Token(s, 0)
  {
    assert (" " + s)[1..] == s;
    assert TrimStart(" " + s) == TrimStart(s);
  }

  lemma NoSpaceIn(s: string)
    requires forall i :: 0 <= i < |s| ==> ' ' < s[i] <= '~'
    ensures NoSpace(s)
  {
  }

  lemma StatusToken(w: Written)
    requires Good(w)
    ensures Token(StatusLine(w), 1) == Some(Decimal(w.status))
  {
    hide Token, IsSpace, NoSpace, Decimal, GoodField;
    var line := StatusLine(w);
    var number, reason := Decimal(w.status), " " + w.reason;
    var after := number + reason;
    assert line == w.version + (" " + after);
    forall i | 0 <= i < |w.version| ensures ' ' < w.version[i] {
      assert w.version[i] in w.version;
    }
    NoSpaceIn(w.version);
    NoSpaceIn(number);
    assert IsSpace(' ') by { SpaceIsSpace(); }
    FirstToken(w.version, " " + after);
    SpaceBefore(after);
    FirstToken(number, reason);
  }

  lemma SpaceIsSpace()
    ensures IsSpace(' ')
  {
  }

  lemma StatusLinePrintable(w: Written)
    requires Good(w)
    ensures Printable(StatusLine(w))
  {
    var s := StatusLine(w);
    var number := Decimal(w.status);
    forall i | 0 <= i < |s| ensures ' ' <= s[i] <= '~' {
      if i < |w.version| {
        assert s[i] == w.version[i];
      } else if |w.version| < i <= |w.version| + |number| {
        assert s[i] == number[i - |w.version| - 1];
      } else if i > |w.version| + |number| + 1 {
        assert s[i] == w.reason[i - |w.version| - |number| - 2];
      }
    }
  }

  // ---------------------------------------------------------------- heads

  /** ASCII text in which every line end is followed by the next line, never by another line end. */
  predicate Lined(s: string) {
    && IsAscii(s)
    && forall i :: 0 <= i < |s| && s[i] == '\r' ==> i + 2 < |s| && s[i + 1] == '\n' && s[i + 2] != '\r'
  }

  lemma FieldLinesAre(line: string, fields: seq<Field>)
    requires fields != []
    ensures line + FieldLines(fields) == line + "\r\n" + (FieldLine(fields[0]) + FieldLines(fields[1..]))
  {
    hide FieldLine;
    JoinedAlike(line, "\r\n", FieldLine(fields[0]), FieldLines(fields[1..]));
  }

  lemma JoinedAlike(a: string, b: string, c: string, d: string)
    ensures a + (b + c + d) == a + b + (c + d)
  {
  }

  lemma LinedJoin(line: string, tail: string)
    requires Printable(line) && Lined(tail) && tail != [] && tail[0] != '\r'
    ensures Lined(line + "\r\n" + tail)
  {
    var s := line + "\r\n" + tail;
    forall i | 0 <= i < |s|
      ensures s[i] as int < 128
      ensures s[i] == '\r' ==> i + 2 < |s| && s[i + 1] == '\n' && s[i + 2] != '\r'
    {
      if i < |line| {
        assert s[i] == line[i];
      } else if i >= |line| + 2 {
        var j := i - |line| - 2;
        assert s[i] == tail[j];
        if s[i] == '\r' {
          assert s[i + 1] == tail[j + 1] && s[i + 2] == tail[j + 2];
        }
      }
    }
  }

  lemma {:induction false} FieldLinesLined(line: string, fields: seq<Field>)
    requires Printable(line)
    requires forall i :: 0 <= i < |fields| ==> GoodField(fields[i])
    ensures Lined(line + FieldLines(fields))
    decreases |fields|
  {
    if fields == [] {
      assert line + FieldLines(fields) == line;
    } else {
      hide Lined, GoodField, FieldLine, FieldLines;
      var f := fields[0];
      assert GoodField(f);
      var next := FieldLine(f);
      var tail := next + FieldLines(fields[1..]);
      FieldPrintable(f);
      FieldLinesLined(next, fields[1..]);
      FieldLinesAre(line, fields);
      assert tail[0] == next[0];
      LinedJoin(line, tail);
    }
  }

  lemma FieldPrintable(f: Field)
    requires GoodField(f)
    ensures Printable(FieldLine(f)) && FieldLine(f) != []
  {
    var line := FieldLine(f);
    forall i | 0 <= i < |line| ensures ' ' <= line[i] <= '~' {
      if i < |f.0| {
        assert line[i] == f.0[i];
      } else if i >= |f.0| + 2 {
        assert line[i] == f.1[i - |f.0| - 2];
      }
    }
  }

  /** The head of a written answer is read back as it was written. */
  lemma HeadRoundTrip(w: Written)
    requires Good(w)
    ensures Lined(HeadText(w))
    ensures ParseHead(Ascii(HeadText(w))) == Ok((w.status, w.fields))
  {
    StatusLinePrintable(w);
    FieldLinesLined(StatusLine(w), w.fields);
    DecodesAscii(HeadText(w));
    var rest := FieldLinesSplit(StatusLine(w), w.fields);
    assert ([StatusLine(w)] + rest)[1..] == rest;
    StatusToken(w);
    DecimalParses(w.status, 0xFFFF);
  }

  /** A written head ends at the blank line after it, and says what was written. */
  lemma WrittenHead(w: Written) returns (head: bytes)
    requires Good(w)
    ensures Lined(HeadText(w)) && head == Ascii(HeadText(w)) && EndsAtBlank(head)
    ensures ReplyOf(head) ==
            if 100 <= w.status < 200 && w.status != 101 then Ok(Interim)
            else match FramingOf(w.status, w.fields)
                 case Err(e) => Err(e)
                 case Ok(framing) => Ok(Final(w.status, w.fields, framing))
  {
    HeadRoundTrip(w);
    var text := HeadText(w);
    head := Ascii(text);
    var s := head + BLANK_LINE;
    forall j | 0 <= j < |head| ensures !Matches(s, j, BLANK_LINE) {
      assert s[j] == head[j] == text[j] as int;
      if text[j] == '\r' {
        assert s[j + 2] == head[j + 2] == text[j + 2] as int;
        assert s[j + 2] != BLANK_LINE[2];
      } else {
        assert s[j] != BLANK_LINE[0];
      }
    }
  }

  // ---------------------------------------------------------------- framing

  /** A lookup finds the value of the first field with the name, and only that. */
  lemma {:induction false} LookupFirst(fields: seq<Field>, name: string, i: nat)
    requires i <= |fields|
    requires forall j :: 0 <= j < i ==> !SameIgnoringCase(fields[j].0, name)
    ensures i < |fields| && SameIgnoringCase(fields[i].0, name) ==> Lookup(fields, name) == Some(fields[i].1)
    ensures i == |fields| ==> Lookup(fields, name) == None
  {
    if i > 0 {
      LookupFirst(fields[1..], name, i - 1);
    }
  }

  /** Content-Length frames a body unless the answer has none or comes in chunks. */
  lemma LengthFrames(status: nat, fields: seq<Field>, i: nat, n: nat)
    requires status != 204 && status != 304 && n <= USIZE_MAX
    requires forall j :: 0 <= j < |fields| ==> !SameIgnoringCase(fields[j].0, "transfer-encoding")
    requires i < |fields| && SameIgnoringCase(fields[i].0, "content-length") && fields[i].1 == Decimal(n)
    requires forall j :: 0 <= j < i ==> !SameIgnoringCase(fields[j].0, "content-length")
    ensures FramingOf(status, fields) == Ok(Length(n))
  {
    LookupFirst(fields, "transfer-encoding", |fields|);
    LookupFirst(fields, "content-length", i);
    DecimalParses(n, USIZE_MAX);
  }

  /** A chunked coding decides the framing, with or without a Content-Length. */
  lemma ChunkedFrames(status: nat, fields: seq<Field>, i: nat)
    requires status != 204 && status != 304
    requires i < |fields| && SameIgnoringCase(fields[i].0, "transfer-encoding")
    requires Contains(ToLower(fields[i].1), "chunked")
    requires forall j :: 0 <= j < i ==> !SameIgnoringCase(fields[j].0, "transfer-encoding")
    ensures FramingOf(status, fields) == Ok(Chunks(()))
  {
    LookupFirst(fields, "transfer-encoding", i);
  }

  // ---------------------------------------------------------------- the round trip

  /** No blank line stands in a head followed by one, but that one. */
  predicate EndsAtBlank(head: bytes) {
    forall j :: 0 <= j < |head| ==> !Matches(head + BLANK_LINE, j, BLANK_LINE)
  }

  /** What a server sends: interim answers, then the answer and its body. */
  datatype Message = Before(head: bytes, rest: Message) | Last(head: bytes, body: bytes)

  ghost predicate GoodMessage(x: Syntax, m: Message) {
    && EndsAtBlank(m.head) && x.heads(m.head).Ok?
    && x.heads(m.head).value.Interim? == m.Before?
    && (m.Before? ==> GoodMessage(x, m.rest))
  }

  function Laid(m: Message): bytes {
    (m.head + BLANK_LINE) + if m.Before? then Laid(m.rest) else m.body
  }

  /** The answer itself, past the interim ones. */
  function Ending(m: Message): (last: Message)
    ensures last.Last?
  {
    if m.Before? then Ending(m.rest) else m
  }

  /** The reply the answer itself opens with. */
  ghost function Opening(x: Syntax, m: Message): (reply: Reply)
    requires GoodMessage(x, m)
    ensures reply.Final?
  {
    if m.Before? then Opening(x, m.rest) else x.heads(m.head).value
  }

  /** The first blank line behind a head is the one that closes it. */
  lemma HeadFound(raw: bytes, at: nat, head: bytes, end: nat)
    requires EndsAtBlank(head) && Stands(raw, at, head + BLANK_LINE) && end == at + |head|
    ensures Find(raw, at, BLANK_LINE) == Some(end) && raw[at..end] == head
  {
    var s := head + BLANK_LINE;
    forall j | at <= j <= end ensures Matches(raw, j, BLANK_LINE) <==> j == end {
      if Matches(raw, j, BLANK_LINE) && j < end {
        forall k | 0 <= k < 4 ensures s[j - at + k] == BLANK_LINE[k] {
          if j - at + k < |s| { StandsAt(raw, at, s, j - at + k); }
          assert raw[j + k] == BLANK_LINE[k];
        }
        assert Matches(s, j - at, BLANK_LINE);
      }
      if j == end {
        forall k | 0 <= k < 4 ensures raw[end + k] == BLANK_LINE[k] {
          StandsAt(raw, at, s, |head| + k);
        }
      }
    }
    StandsJoin(raw, at, head, BLANK_LINE);
    assert Matches(raw, end, BLANK_LINE);
  }

  lemma HeadStep(x: Syntax, raw: bytes, at: nat, head: bytes, next: nat)
    requires EndsAtBlank(head) && Stands(raw, at, head + BLANK_LINE) && next == at + |head| + 4
    requires x.heads(head).Ok?
    ensures ReadHead(x, raw, at)
         == if x.heads(head).value.Interim? then ReadHead(x, raw, next) else Read(x.heads(head).value, next)
  {
    HeadFound(raw, at, head, at + |head|);
  }

  lemma LaidParts(raw: bytes, at: nat, m: Message, next: nat)
    requires Stands(raw, at, Laid(m)) && next == at + |m.head| + 4
    ensures Stands(raw, at, m.head + BLANK_LINE)
    ensures Stands(raw, next, if m.Before? then Laid(m.rest) else m.body)
    ensures at + |Laid(m)| == next + if m.Before? then |Laid(m.rest)| else |m.body|
  {
    hide Stands;
    var rest := if m.Before? then Laid(m.rest) else m.body;
    StandsJoin(raw, at, m.head + BLANK_LINE, rest);
  }

  /** Interim answers are passed over, and the head of the answer is read as it was written. */
  lemma {:induction false} HeadsRead(x: Syntax, raw: bytes, at: nat, m: Message) returns (start: nat)
    requires GoodMessage(x, m) && Stands(raw, at, Laid(m))
    ensures start + |Ending(m).body| == at + |Laid(m)|
    ensures Stands(raw, start, Ending(m).body)
    ensures ReadHead(x, raw, at) == Read(Opening(x, m), start)
    decreases m
  {
    hide ReadHead, EndsAtBlank, Stands;
    start := at + |m.head| + 4;
    LaidParts(raw, at, m, start);
    HeadStep(x, raw, at, m.head, start);
    if m.Before? {
      start := HeadsRead(x, raw, start, m.rest);
    }
  }

  /** Whether a body framed so gives `payload`; `b` is its reading when it comes in chunks. */
  ghost predicate Gives(x: Syntax, framing: Framing<()>, body: bytes, payload: bytes, b: Chunked.Body) {
    match framing
    case Length(n) => |body| >= n && payload == body[..n]
    case Chunks(_) =>
      Chunked.WellFormed(x.sizes, b) && Stands(body, 0, Chunked.Wire(b)) && payload == Chunked.Joined(b)
    case Close => payload == body
  }

  /**
    * The round trip: an answer with any interim answers before it, cut in any pieces, is read back
    * with its status, its fields and its body.
    */
  lemma AnswerRoundTrip(x: Syntax, m: Message, pieces: seq<bytes>, payload: bytes, b: Chunked.Body)
    requires GoodMessage(x, m) && Concat(pieces) == Laid(m) && |Laid(m)| <= MAX_BODY
    requires Gives(x, Opening(x, m).framing, Ending(m).body, payload, b)
    requires Opening(x, m).framing.Chunks? ==> Chunked.ShortLines(b)
    ensures Fed(x, [], pieces) == Ok(Answer(Opening(x, m).status, Opening(x, m).fields, payload))
  {
    hide Gives, Fed, OneShot, Fair, ReadHead, GoodMessage;
    FairMessage(x, m, payload, b);
    FairAnswer(x, pieces);
    OneShotGives(x, m, payload, b);
  }

  lemma FairMessage(x: Syntax, m: Message, payload: bytes, b: Chunked.Body)
    requires GoodMessage(x, m) && |Laid(m)| <= MAX_BODY
    requires Gives(x, Opening(x, m).framing, Ending(m).body, payload, b)
    requires Opening(x, m).framing.Chunks? ==> Chunked.ShortLines(b)
    ensures Fair(x, Laid(m))
  {
    hide ReadHead, GoodMessage, Chunked.Fair, Chunked.WellFormed;
    var raw := Laid(m);
    var start := HeadsRead(x, raw, 0, m);
    assert raw[start..] == Ending(m).body;
    if Opening(x, m).framing.Chunks? {
      Chunked.FairBody(x.sizes, raw[start..], 0, b, []);
    }
  }

  /** In one piece, the answer comes out as it was written. */
  lemma OneShotGives(x: Syntax, m: Message, payload: bytes, b: Chunked.Body)
    requires GoodMessage(x, m) && |Laid(m)| <= MAX_BODY
    requires Gives(x, Opening(x, m).framing, Ending(m).body, payload, b)
    ensures OneShot(x, Laid(m)) == Ok(Answer(Opening(x, m).status, Opening(x, m).fields, payload))
  {
    hide ReadHead, GoodMessage, Chunked.Run, Chunked.WellFormed;
    var raw := Laid(m);
    var start := HeadsRead(x, raw, 0, m);
    assert raw[start..] == Ending(m).body;
    if Opening(x, m).framing.Chunks? {
      Chunked.RunCompletes(x.sizes, raw[start..], 0, b, []);
      assert [] + Chunked.Joined(b) == Chunked.Joined(b);
    }
  }

  /** An answer that stops in a line too long of its chunked body. */
  lemma LongMessage(x: Syntax, m: Message)
    requires GoodMessage(x, m) && Opening(x, m).framing.Chunks? && Chunked.LongLine(x.sizes, Ending(m).body)
    ensures LongLine(x, Laid(m))
  {
    hide ReadHead, GoodMessage, Chunked.LongLine;
    var raw := Laid(m);
    var start := HeadsRead(x, raw, 0, m);
    assert raw[start..] == Ending(m).body;
  }
}
