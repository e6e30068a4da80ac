/**
  * HTTP/1.1 answers written out in full, heads, sizes and all, and read back by the reader as it
  * is; and the one way in which cutting such an answer changes what comes out.
  */
module HttpRoundTrip {
  import opened Bytes
  import opened Text
  import Chunked
  import opened Http1
  import opened Http1Wire

  // ---------------------------------------------------------------- chunk sizes

  function HexDigit(d: nat, upper: bool): (c: char)
    requires d < 16
    ensures Digit(c, 16) == Some(d) && ('0' <= c <= '9' || 'A' <= c <= 'F' || 'a' <= c <= 'f')
  {
    if d < 10 then (d + '0' as int) as char
    else if upper then (d - 10 + 'A' as int) as char else (d - 10 + 'a' as int) as char
  }

  predicate HexText(s: string) {
    forall i :: 0 <= i < |s| ==> '0' <= s[i] <= '9' || 'A' <= s[i] <= 'F' || 'a' <= s[i] <= 'f'
  }

  /** `n` in hexadecimal. */
  function Hex(n: nat, upper: bool): (s: string)
    ensures s != [] && HexText(s)
  {
    var last := [HexDigit(n % 16, upper)];
    if n < 16 then last else Hex(n / 16, upper) + last
  }

  lemma {:induction false} HexDigits(n: nat, upper: bool)
    ensures Digits(Hex(n, upper), 16) == Some(n)
  {
    var s := Hex(n, upper);
    if n < 16 {
      assert s[..|s| - 1] == [];
    } else {
      assert s[..|s| - 1] == Hex(n / 16, upper);
      HexDigits(n / 16, upper);
    }
  }

  /** An extension behind a size: none, or anything printable behind a semicolon. */
  predicate Extension(ext: string) {
    Printable(ext) && (ext != [] ==> ext[0] == ';')
  }

  lemma SizeText(digits: string, ext: string)
    requires digits != [] && HexText(digits) && Extension(ext)
    ensures IsAscii(digits + ext) && Chunked.ChunkSize(Ascii(digits + ext))
         == match Digits(digits, 16) case None => None case Some(n) => if n <= USIZE_MAX then Some(n) else None
  {
    hide IndexOf, Strict, Lossy, Trim, Digits;
    var text := digits + ext;
    forall i | 0 <= i < |text| ensures text[i] as int < 128 {
      assert text[i] == if i < |digits| then digits[i] else ext[i - |digits|];
    }
    DecodesAscii(text);
    BeforeSemicolon(digits, ext);
    assert text[..|digits|] == digits;
    TrimHex(digits);
  }

  lemma BeforeSemicolon(digits: string, ext: string)
    requires HexText(digits) && Extension(ext)
    ensures IndexOf(digits + ext, ';') == |digits|
  {
    var text := digits + ext;
    assert forall k :: 0 <= k < |digits| ==> text[k] == digits[k];
    if ext != [] {
      assert text[|digits|] == ';';
    }
    var i := IndexOf(text, ';');
    assert i <= |digits| ==> i == |digits|;
  }

  lemma TrimHex(digits: string)
    requires digits != [] && HexText(digits)
    ensures Trim(digits) == digits
  {
    assert !IsSpace(digits[0]) && !IsSpace(digits[|digits| - 1]);
  }

  /** A size in hexadecimal, in either case and with any extension, is read back; one too large is refused. */
  lemma SizeLine(n: nat, upper: bool, ext: string)
    requires Extension(ext)
    ensures IsAscii(Hex(n, upper) + ext)
    ensures Chunked.ChunkSize(Ascii(Hex(n, upper) + ext)) == if n <= USIZE_MAX then Some(n) else None
  {
    hide Chunked.ChunkSize, Hex, Digits;
    HexDigits(n, upper);
    SizeText(Hex(n, upper), ext);
  }

  function Zeros(k: nat): string {
    seq(k, _ => '0')
  }

  /** The digits of a number but for the sign that may come first. */
  function Unsigned(s: string): string {
    if |s| > 1 && s[0] == '+' then s[1..] else s
  }

  lemma LowerDigit(c: char, d: nat)
    requires Digit(c, 16) == Some(d)
    ensures d < 16 && Lower(c) == HexDigit(d, false)
  {
  }

  lemma LowerSnoc(s: string)
    requires s != []
    ensures ToLower(s) == ToLower(s[..|s| - 1]) + [Lower(s[|s| - 1])]
  {
  }

  /** A string of digits is zeros and then the number it stands for, in some case. */
  lemma {:induction false} DigitsSound(s: string, n: nat) returns (k: nat)
    requires s != [] && Digits(s, 16) == Some(n)
    ensures ToLower(s) == Zeros(k) + Hex(n, false)
    decreases |s|
  {
    var init, c := s[..|s| - 1], s[|s| - 1];
    var h, d := Digits(init, 16).value, Digit(c, 16).value;
    LowerDigit(c, d);
    LowerSnoc(s);
    assert n == h * 16 + d && n / 16 == h && n % 16 == d;
    k := 0;
    if init == [] {
      assert Zeros(0) == [] && ToLower(init) == [];
    } else {
      var j := DigitsSound(init, h);
      if h == 0 {
        k := j + 1;
        assert Hex(0, false) == ['0'];
        assert Zeros(j) + ['0'] == Zeros(j + 1);
      } else {
        k := j;
        assert (Zeros(j) + Hex(h, false)) + [HexDigit(d, false)] == Zeros(j) + (Hex(h, false) + [HexDigit(d, false)]);
      }
    }
  }

  lemma {:induction false} DigitsLower(s: string)
    ensures Digits(ToLower(s), 16) == Digits(s, 16)
    decreases |s|
  {
    if s != [] {
      var t := ToLower(s);
      LowerSnoc(s);
      assert t[..|t| - 1] == ToLower(s[..|s| - 1]);
      DigitsLower(s[..|s| - 1]);
    }
  }

  lemma {:induction false} LeadingZeros(k: nat, s: string)
    ensures Digits(Zeros(k) + s, 16) == Digits(s, 16)
    decreases |s|, k
  {
    var t := Zeros(k) + s;
    if s != [] {
      assert t[..|t| - 1] == Zeros(k) + s[..|s| - 1] && t[|t| - 1] == s[|s| - 1];
      LeadingZeros(k, s[..|s| - 1]);
    } else if k > 0 {
      assert t[..|t| - 1] == Zeros(k - 1) + s && t[|t| - 1] == '0';
      LeadingZeros(k - 1, s);
    } else {
      assert t == s;
    }
  }

  /** Whether `digits` write `n` in hexadecimal: in some case, with any zeros before it. */
  ghost predicate Writes(digits: string, n: nat) {
    exists k :: ToLower(digits) == Zeros(k) + Hex(n, false)
  }

  /**
    * What a size line means, exactly: text in UTF-8 that before any semicolon, white space and a
    * plus sign aside, writes the size in hexadecimal, and a size that fits.
    */
  lemma SizeExactly(line: bytes, n: nat)
    ensures Chunked.ChunkSize(line) == Some(n) <==>
            && n <= USIZE_MAX && Strict(line).Some?
            && Writes(Unsigned(Trim(Strict(line).value[..IndexOf(Strict(line).value, ';')])), n)
  {
    hide Strict, Trim, IndexOf, Digits, Hex;
    if Strict(line).Some? {
      var digits := Unsigned(Trim(Strict(line).value[..IndexOf(Strict(line).value, ';')]));
      if digits != [] && Digits(digits, 16) == Some(n) {
        var k := DigitsSound(digits, n);
        assert Writes(digits, n);
      }
      if Writes(digits, n) {
        var k :| ToLower(digits) == Zeros(k) + Hex(n, false);
        HexDigits(n, false);
        LeadingZeros(k, Hex(n, false));
        DigitsLower(digits);
      }
    }
  }

  // ---------------------------------------------------------------- written bodies

  /** A chunk as it is written: its data, the case of its size, and its extension. */
  datatype ChunkText = ChunkText(data: bytes, upper: bool, ext: string)

  predicate ShortText(text: string) {
    Printable(text) && |text| < Chunked.MAX_LINE
  }

  predicate GoodChunk(c: ChunkText) {
    c.data != [] && |c.data| <= USIZE_MAX && Extension(c.ext) && ShortText(Hex(|c.data|, c.upper) + c.ext)
  }

  /** A chunked body as it is written: chunks, the extension of the last one, and trailer fields. */
  datatype BodyText = BodyText(chunks: seq<ChunkText>, last: string, trailer: seq<string>)

  predicate GoodBody(t: BodyText) {
    && (forall i :: 0 <= i < |t.chunks| ==> GoodChunk(t.chunks[i]))
    && Extension(t.last) && ShortText(Hex(0, false) + t.last)
    && GoodLines(t.trailer)
  }

  predicate GoodLines(fields: seq<string>) {
    forall i :: 0 <= i < |fields| ==> fields[i] != [] && ShortText(fields[i])
  }

  function TextBytes(text: string): bytes
    requires Printable(text)
  {
    Ascii(text)
  }

  ghost function TrailerOf(fields: seq<string>): Chunked.Trailer
    requires GoodLines(fields)
  {
    if fields == [] then Chunked.Blank else Chunked.Field(TextBytes(fields[0]), TrailerOf(fields[1..]))
  }

  ghost function BodyOf(t: BodyText): Chunked.Body
    requires GoodBody(t)
    decreases |t.chunks|
  {
    if t.chunks == [] then Chunked.Last(TextBytes(Hex(0, false) + t.last), TrailerOf(t.trailer))
    else
      var c := t.chunks[0];
      Chunked.Chunk(TextBytes(Hex(|c.data|, c.upper) + c.ext), c.data, BodyOf(t.(chunks := t.chunks[1..])))
  }

  function DataOf(chunks: seq<ChunkText>): bytes {
    if chunks == [] then [] else chunks[0].data + DataOf(chunks[1..])
  }

  lemma PrintableLine(text: string)
    requires ShortText(text)
    ensures Chunked.IsLine(TextBytes(text)) && |TextBytes(text)| < Chunked.MAX_LINE
  {
    var line := TextBytes(text);
    forall i | 0 <= i < |line| ensures !Matches(line, i, Chunked.CRLF) {
      assert line[i] == text[i] as int != Chunked.CRLF[0];
    }
  }

  lemma {:induction false} TrailerGood(fields: seq<string>)
    requires GoodLines(fields)
    ensures Chunked.GoodTrailer(TrailerOf(fields)) && Chunked.ShortFields(TrailerOf(fields))
    decreases |fields|
  {
    if fields != [] {
      hide Chunked.IsLine;
      PrintableLine(fields[0]);
      TrailerGood(fields[1..]);
    }
  }

  /** A written body is one of the grammar, with short lines, and its data is the data of its chunks. */
  lemma {:induction false} BodyGood(t: BodyText)
    requires GoodBody(t)
    ensures Chunked.WellFormed(Chunked.ChunkSize, BodyOf(t)) && Chunked.ShortLines(BodyOf(t))
    ensures Chunked.Joined(BodyOf(t)) == DataOf(t.chunks)
    decreases |t.chunks|
  {
    hide Chunked.IsLine, Chunked.ChunkSize, Hex, Extension;
    if t.chunks == [] {
      PrintableLine(Hex(0, false) + t.last);
      SizeLine(0, false, t.last);
      TrailerGood(t.trailer);
    } else {
      var c := t.chunks[0];
      assert GoodChunk(c);
      PrintableLine(Hex(|c.data|, c.upper) + c.ext);
      SizeLine(|c.data|, c.upper, c.ext);
      BodyGood(t.(chunks := t.chunks[1..]));
    }
  }

  // ---------------------------------------------------------------- written answers

  predicate InterimStatus(status: nat) {
    100 <= status < 200 && status != 101
  }

  function HeadBytes(w: Written): bytes
    requires Good(w)
  {
    HeadRoundTrip(w);
    Ascii(HeadText(w))
  }

  predicate GoodInterims(interims: seq<Written>) {
    forall i :: 0 <= i < |interims| ==> Good(interims[i]) && InterimStatus(interims[i].status)
  }

  /** An answer as a server sends it: interim heads, a head, and what is behind it. */
  function MessageOf(interims: seq<Written>, w: Written, body: bytes): Message
    requires GoodInterims(interims) && Good(w)
    decreases |interims|
  {
    if interims == [] then Last(HeadBytes(w), body)
    else Before(HeadBytes(interims[0]), MessageOf(interims[1..], w, body))
  }

  lemma {:induction false} MessageGood(interims: seq<Written>, w: Written, body: bytes, framing: Framing<()>)
    requires GoodInterims(interims) && Good(w) && !InterimStatus(w.status)
    requires FramingOf(w.status, w.fields) == Ok(framing)
    ensures (var m := MessageOf(interims, w, body);
             GoodMessage(HTTP, m) && Opening(HTTP, m) == Final(w.status, w.fields, framing) && Ending(m).body == body)
    decreases |interims|
  {
    hide ReplyOf, HeadText, Good, EndsAtBlank, FramingOf;
    if interims == [] {
      var head := WrittenHead(w);
    } else {
      var head := WrittenHead(interims[0]);
      MessageGood(interims[1..], w, body, framing);
    }
  }

  /** An answer with a Content-Length comes back with as many bytes of what is behind its head. */
  lemma SizedAnswer(interims: seq<Written>, w: Written, i: nat, n: nat, body: bytes, pieces: seq<bytes>)
    requires GoodInterims(interims) && Good(w) && !InterimStatus(w.status) && w.status != 204 && w.status != 304
    requires forall j :: 0 <= j < |w.fields| ==> !SameIgnoringCase(w.fields[j].0, "transfer-encoding")
    requires i < |w.fields| && SameIgnoringCase(w.fields[i].0, "content-length") && w.fields[i].1 == Decimal(n)
    requires forall j :: 0 <= j < i ==> !SameIgnoringCase(w.fields[j].0, "content-length")
    requires n <= |body| && Concat(pieces) == Laid(MessageOf(interims, w, body)) && |Concat(pieces)| <= MAX_BODY
    ensures Fed(HTTP, [], pieces) == Ok(Answer(w.status, w.fields, body[..n]))
  {
    hide Fed, GoodMessage, FramingOf, Decimal, Good, Laid, Opening, Ending, MessageOf;
    var m := MessageOf(interims, w, body);
    LaidLength(m);
    BodyOfMessage(interims, w, body);
    LengthFrames(w.status, w.fields, i, n);
    MessageGood(interims, w, body, Length(n));
    AnswerRoundTrip(HTTP, m, pieces, body[..n], Chunked.Last([], Chunked.Blank));
  }

  lemma {:induction false} LaidLength(m: Message)
    ensures |Laid(m)| >= |Ending(m).body|
  {
    if m.Before? {
      LaidLength(m.rest);
    }
  }

  lemma {:induction false} BodyOfMessage(interims: seq<Written>, w: Written, body: bytes)
    requires GoodInterims(interims) && Good(w)
    ensures Ending(MessageOf(interims, w, body)).body == body
    decreases |interims|
  {
    hide Good;
    if interims != [] {
      BodyOfMessage(interims[1..], w, body);
    }
  }

  /** A chunked answer comes back with the data of its chunks, whatever its Content-Length says. */
  lemma ChunkedAnswer(interims: seq<Written>, w: Written, i: nat, t: BodyText, more: bytes, pieces: seq<bytes>)
    requires GoodInterims(interims) && Good(w) && !InterimStatus(w.status) && w.status != 204 && w.status != 304
    requires i < |w.fields| && SameIgnoringCase(w.fields[i].0, "transfer-encoding")
    requires Contains(ToLower(w.fields[i].1), "chunked")
    requires forall j :: 0 <= j < i ==> !SameIgnoringCase(w.fields[j].0, "transfer-encoding")
    requires GoodBody(t) && |Concat(pieces)| <= MAX_BODY
    requires Concat(pieces) == Laid(MessageOf(interims, w, Chunked.Wire(BodyOf(t)) + more))
    ensures Fed(HTTP, [], pieces) == Ok(Answer(w.status, w.fields, DataOf(t.chunks)))
  {
    hide Fed, GoodMessage, FramingOf, Good, Laid, Opening, Ending, MessageOf, Contains, GoodBody, Chunked.Wire;
    hide Chunked.WellFormed, Chunked.ShortLines, Chunked.ChunkSize;
    var b := BodyOf(t);
    var body := Chunked.Wire(b) + more;
    var m := MessageOf(interims, w, body);
    ChunkedFrames(w.status, w.fields, i);
    MessageGood(interims, w, body, Chunks(()));
    BodyGood(t);
    assert Stands(body, 0, Chunked.Wire(b));
    AnswerRoundTrip(HTTP, m, pieces, DataOf(t.chunks), b);
  }

  /** An answer that says neither comes back with all that is behind its head. */
  lemma BareAnswer(interims: seq<Written>, w: Written, body: bytes, pieces: seq<bytes>)
    requires GoodInterims(interims) && Good(w) && !InterimStatus(w.status) && w.status != 204 && w.status != 304
    requires forall j :: 0 <= j < |w.fields| ==> !SameIgnoringCase(w.fields[j].0, "transfer-encoding")
    requires forall j :: 0 <= j < |w.fields| ==> !SameIgnoringCase(w.fields[j].0, "content-length")
    requires Concat(pieces) == Laid(MessageOf(interims, w, body)) && |Concat(pieces)| <= MAX_BODY
    ensures Fed(HTTP, [], pieces) == Ok(Answer(w.status, w.fields, body))
  {
    hide Fed, GoodMessage, Good, Laid, Opening, Ending, MessageOf, Lookup;
    LookupFirst(w.fields, "transfer-encoding", |w.fields|);
    LookupFirst(w.fields, "content-length", |w.fields|);
    MessageGood(interims, w, body, Close);
    AnswerRoundTrip(HTTP, MessageOf(interims, w, body), pieces, body, Chunked.Last([], Chunked.Blank));
  }

  // ---------------------------------------------------------------- a cut that matters

  const CHUNKED_HEAD := Written("HTTP/1.1", 200, "OK", [("Transfer-Encoding", "chunked")])

  lemma ChunkedHeadGood()
    ensures Good(CHUNKED_HEAD) && |HeadText(CHUNKED_HEAD)| == 43
  {
    hide Decimal;
    assert GoodField(CHUNKED_HEAD.fields[0]);
    assert |Decimal(200)| == 3 by { ThreeDigits(); }
    assert CHUNKED_HEAD.fields[1..] == [] && FieldLines([]) == "";
  }

  lemma ThreeDigits()
    ensures |Decimal(200)| == 3
  {
    assert |Decimal(2)| == 1 && |Decimal(20)| == 2;
  }

  lemma ChunkedHeadFrames()
    ensures FramingOf(200, CHUNKED_HEAD.fields) == Ok(Chunks(()))
  {
    hide FramingOf;
    var f := CHUNKED_HEAD.fields[0];
    assert SameIgnoringCase(f.0, "transfer-encoding") by {
      assert ToLower("Transfer-Encoding") == "transfer-encoding" == ToLower("transfer-encoding");
    }
    assert ToLower(f.1) == "chunked";
    ChunkedFrames(200, CHUNKED_HEAD.fields, 0);
  }

  /** The last chunk with an extension that makes its line too long. */
  const LONG_TEXT: string := Hex(0, false) + ([';'] + seq(Chunked.MAX_LINE, _ => 'x'))

  lemma LongText()
    ensures Printable(LONG_TEXT) && Chunked.MAX_LINE < |LONG_TEXT| < 2 * Chunked.MAX_LINE
    ensures Chunked.IsLine(TextBytes(LONG_TEXT)) && Chunked.ChunkSize(TextBytes(LONG_TEXT)) == Some(0)
  {
    hide Chunked.ChunkSize;
    var ext := [';'] + seq(Chunked.MAX_LINE, _ => 'x');
    assert |Hex(0, false)| == 1;
    assert Extension(ext);
    SizeLine(0, false, ext);
    var line := TextBytes(LONG_TEXT);
    forall i | 0 <= i < |line| ensures !Matches(line, i, Chunked.CRLF) {
      assert line[i] == LONG_TEXT[i] as int != Chunked.CRLF[0];
    }
  }

  /** A body that is a line, longer than fair and not ended, is refused. */
  lemma LineAlone(sizes: Chunked.Sizes, line: bytes)
    requires Chunked.IsLine(line) && |line| > Chunked.MAX_LINE
    ensures Chunked.LongLine(sizes, line)
  {
    assert forall j :: |line| <= j ==> !Matches(line, j, Chunked.CRLF);
    assert Find(line, 0, Chunked.CRLF).None?;
  }

  lemma LongStart(head: bytes, line: bytes, raw: bytes)
    requires Good(CHUNKED_HEAD) && head == HeadBytes(CHUNKED_HEAD) && raw == Laid(Last(head, line))
    requires Chunked.IsLine(line) && |line| > Chunked.MAX_LINE
    ensures LongLine(HTTP, raw)
  {
    hide Chunked.LongLine, Chunked.IsLine, Good, GoodMessage, FramingOf, Laid, HeadBytes, LongLine;
    ChunkedHeadFrames();
    MessageGood([], CHUNKED_HEAD, line, Chunks(()));
    LineAlone(HTTP.sizes, line);
    LongMessage(HTTP, Last(head, line));
  }

  /**
    * Cutting does matter: an answer that is read in one piece and refused in two, because the cut is
    * in a line already too long, whose end would have come next.
    */
  lemma CutMatters() returns (pieces: seq<bytes>)
    ensures |Concat(pieces)| <= MAX_BODY
    ensures Fed(HTTP, [], pieces) == Err(Malformed(Chunked.LineTooLong))
    ensures OneShot(HTTP, Concat(pieces)) == Ok(Answer(200, CHUNKED_HEAD.fields, []))
  {
    hide Fed, OneShot, Good, GoodMessage, FramingOf, Chunked.IsLine, Chunked.ChunkSize, LongLine, HeadText;
    ChunkedHeadGood();
    ChunkedHeadFrames();
    LongText();
    var head, line := HeadBytes(CHUNKED_HEAD), TextBytes(LONG_TEXT);
    var b := Chunked.Last(line, Chunked.Blank);
    var first, second := Laid(Last(head, line)), Chunked.CRLF + Chunked.Fields(Chunked.Blank);
    var m := MessageOf([], CHUNKED_HEAD, Chunked.Wire(b));
    pieces := [first, second];
    var raw := first + second;
    assert raw == Laid(m);
    TwoPieces(raw, |first|);
    assert raw[..|first|] == first && raw[|first|..] == second;
    LongStart(head, line, first);
    assert [] + Concat(pieces[..1]) == first;
    assert CutInLongLine(HTTP, [], pieces);
    SplitIndependence(HTTP, pieces);
    MessageGood([], CHUNKED_HEAD, Chunked.Wire(b), Chunks(()));
    OneShotGives(HTTP, m, [], b);
  }
}
