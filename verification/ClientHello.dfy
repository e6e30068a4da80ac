/**
  * The two readers of the server name in a TLS ClientHello (RFC 8446, section 4.1.2, and RFC 6066,
  * section 3): the sniffer, which takes the name, and the fragmenter, which takes its place.
  */
module ClientHello {
  import opened Bytes
  import opened Text

  const MAX_HOST_LEN: nat := 253

  // ---------------------------------------------------------------- the sniffer

  function Be16(buf: bytes, at: nat): Option<nat> {
    if at + 1 < |buf| then Some(U16(buf[at], buf[at + 1])) else None
  }

  function Be24(buf: bytes, at: nat): Option<nat> {
    if at + 2 < |buf| then Some(0x1_0000 * buf[at] + U16(buf[at + 1], buf[at + 2])) else None
  }

  function Min(x: nat, y: nat): nat {
    if x < y then x else y
  }

  /** The ClientHello in `buf`, as much of it as has come: it starts at index 9. */
  function HelloOf(buf: bytes): (hello: Option<bytes>)
    ensures hello.Some? ==> Stands(buf, 9, hello.value) && buf[0] == 0x16 && buf[5] == 0x01
  {
    if buf == [] || buf[0] != 0x16 then None
    else match Be16(buf, 3)
      case None => None
      case Some(recordLen) =>
        var recordEnd := Min(5 + recordLen, |buf|);
        var body := buf[5..recordEnd];
        if body == [] || body[0] != 0x01 then None
        else match Be24(body, 1)
          case None => None
          case Some(helloLen) =>
            var helloEnd := Min(4 + helloLen, |body|);
            SliceOfSlice(buf, 5, recordEnd, 4, helloEnd);
            Some(body[4..helloEnd])
  }

  /** Where the extensions of a ClientHello start and, by their length field, end. */
  function ExtensionsAt(s: bytes, at: nat): Option<(nat, nat)> {
    if at >= |s| then None
    else
      var at1 := at + 1 + s[at];
      match Be16(s, at1)
      case None => None
      case Some(cipherLen) =>
        var at2 := at1 + 2 + cipherLen;
        if at2 >= |s| then None
        else
          var at3 := at2 + 1 + s[at2];
          match Be16(s, at3)
          case None => None
          case Some(extensionsLen) => Some((at3 + 2, at3 + 2 + extensionsLen))
  }

  /** The first server_name extension from `at`, when it and all before it end by `end`. */
  function WalkExtensions(hello: bytes, at: nat, end: nat): (r: Option<(nat, nat)>)
    requires end <= |hello|
    ensures r.Some? ==> at + 4 <= r.value.0 <= r.value.1 <= end
    decreases |hello| - at
  {
    if at + 4 > end then None
    else
      var kind, len := U16(hello[at], hello[at + 1]), U16(hello[at + 2], hello[at + 3]);
      if at + 4 + len > end then None
      else if kind == 0 then Some((at + 4, at + 4 + len))
      else WalkExtensions(hello, at + 4 + len, end)
  }

  /** The data of the server_name extension, by its place in `buf`. */
  function ServerNameData(buf: bytes): (r: Option<(nat, nat)>)
    ensures r.Some? ==> r.value.0 <= r.value.1 <= |buf|
  {
    match HelloOf(buf)
    case None => None
    case Some(hello) =>
      match ExtensionsAt(hello, 34)
      case None => None
      case Some((at, end)) =>
        match WalkExtensions(hello, at, Min(end, |hello|))
        case None => None
        case Some((from, to)) => Some((from + 9, to + 9))
  }

  /** The first host name in a server name list from `at`. */
  function WalkNames(data: bytes, at: nat, end: nat): Option<bytes>
    requires end <= |data|
    decreases |data| - at
  {
    if at + 3 > end then None
    else
      var len := U16(data[at + 1], data[at + 2]);
      if at + 3 + len > end then None
      else if data[at] == 0 then Some(data[at + 3..at + 3 + len])
      else WalkNames(data, at + 3 + len, end)
  }

  function FirstHost(data: bytes): Option<bytes> {
    match Be16(data, 0) case None => None case Some(n) => WalkNames(data, 2, Min(2 + n, |data|))
  }

  /** The host name of a ClientHello, as it stands there. */
  function SniffedHost(buf: bytes): Option<bytes> {
    match ServerNameData(buf) case None => None case Some((from, to)) => FirstHost(buf[from..to])
  }

  // ---------------------------------------------------------------- plausible hosts

  function TrimDots(s: string): (t: string)
    ensures |t| <= |s|
  {
    if s != [] && s[|s| - 1] == '.' then TrimDots(s[..|s| - 1]) else s
  }

  predicate HostChar(c: char) {
    'a' <= c <= 'z' || 'A' <= c <= 'Z' || '0' <= c <= '9' || c == '-' || c == '.' || c == '_'
  }

  /** A decimal number of one to three digits, with no leading zero, up to 255. */
  predicate IsOctet(s: string) {
    && 1 <= |s| <= 3 && (|s| > 1 ==> s[0] != '0')
    && Digits(s, 10).Some? && Digits(s, 10).value <= 255
  }

  /** `n` octets with dots between them. */
  predicate IsOctets(s: string, n: nat)
    decreases n
  {
    var i := IndexOf(s, '.');
    if n == 0 then false
    else if n == 1 then IsOctet(s)
    else i < |s| && IsOctet(s[..i]) && IsOctets(s[i + 1..], n - 1)
  }

  /** The name a host is known by: trimmed, lower-cased; None for what no rule would be written for. */
  function PlausibleHost(raw: bytes): (r: Option<string>)
    ensures r.Some? ==> r.value != [] && 0 < |raw| <= MAX_HOST_LEN
                        && forall i :: 0 <= i < |r.value| ==> HostChar(r.value[i]) && !('A' <= r.value[i] <= 'Z')
  {
    if raw == [] || |raw| > MAX_HOST_LEN then None
    else match Strict(raw)
      case None => None
      case Some(text) =>
        var name := TrimDots(Trim(text));
        if name == [] || |name| > MAX_HOST_LEN then None
        else if !(forall i :: 0 <= i < |name| ==> HostChar(name[i])) || '.' !in name then None
        else if IsOctets(name, 4) then None
        else Some(ToLower(name))
  }

  /** The name the sniffer gives. */
  function TlsSni(buf: bytes): Option<string> {
    match SniffedHost(buf) case None => None case Some(raw) => PlausibleHost(raw)
  }

  predicate LowerHost(host: string) {
    forall i :: 0 <= i < |host| ==> HostChar(host[i]) && !('A' <= host[i] <= 'Z')
  }

  lemma NothingToTrim(host: string)
    requires host != [] && LowerHost(host) && host[|host| - 1] != '.'
    ensures TrimDots(Trim(host)) == host && ToLower(host) == host
  {
    assert !IsSpace(host[0]) && !IsSpace(host[|host| - 1]);
  }

  /** A lower-case domain name is plausible as it is. */
  lemma PlausibleAsIs(host: string)
    requires 0 < |host| <= MAX_HOST_LEN && LowerHost(host)
    requires '.' in host && host[|host| - 1] != '.' && !IsOctets(host, 4)
    ensures IsAscii(host) && PlausibleHost(Ascii(host)) == Some(host)
  {
    hide IsOctets, Strict, Trim, TrimDots, ToLower;
    DecodesAscii(host);
    NothingToTrim(host);
  }

  // ---------------------------------------------------------------- the fragmenter

  /** The number in the `n` bytes at `at`. */
  function TakeAt(buf: bytes, at: nat, n: nat): Option<nat> {
    if at + n > |buf| then None
    else if n == 1 then Some(buf[at])
    else if n == 2 then Some(U16(buf[at], buf[at + 1]))
    else None
  }

  /** The range of the first entry of the server name list whose extension data starts at `body`. */
  function FirstEntryRange(buf: bytes, body: nat): Option<(nat, nat)> {
    var entry := body + 2;
    match (TakeAt(buf, entry, 1), TakeAt(buf, entry + 1, 2))
    case (Some(kind), Some(hostLen)) =>
      var host := entry + 3;
      if kind != 0 || hostLen == 0 || host + hostLen > |buf| then None else Some((host, host + hostLen))
    case _ => None
  }

  function WalkRange(buf: bytes, at: nat, end: nat): Option<(nat, nat)>
    decreases end - at
  {
    if at + 4 > end then None
    else match (TakeAt(buf, at, 2), TakeAt(buf, at + 2, 2))
      case (Some(kind), Some(len)) =>
        if kind == 0 then FirstEntryRange(buf, at + 4) else WalkRange(buf, at + 4 + len, end)
      case _ => None
  }

  /** The range of the server name the fragmenter splits in. */
  function HostRange(buf: bytes): Option<(nat, nat)> {
    if buf == [] || buf[0] != 0x16 || |buf| < 6 || buf[5] != 0x01 then None
    else match ExtensionsAt(buf, 43)
      case None => None
      case Some((at, end)) => WalkRange(buf, at, end)
  }

  // ---------------------------------------------------------------- the two agree

  /** The fields before the extensions are read alike in the hello and, nine bytes on, in the record. */
  lemma SameExtensions(buf: bytes, hello: bytes)
    requires Stands(buf, 9, hello)
    requires ExtensionsAt(hello, 34).Some?
    ensures ExtensionsAt(buf, 43)
         == Some((ExtensionsAt(hello, 34).value.0 + 9, ExtensionsAt(hello, 34).value.1 + 9))
  {
    assert forall i {:trigger hello[i]} :: 0 <= i < |hello| ==> buf[9 + i] == hello[i];
    var at1: nat := 35 + (hello[34] as int);
    var at2 := at1 + 2 + U16(hello[at1], hello[at1 + 1]);
    var at3 := at2 + 1 + hello[at2];
    assert buf[43] == hello[34] && buf[9 + at1] == hello[at1] && buf[9 + at1 + 1] == hello[at1 + 1];
    assert buf[9 + at2] == hello[at2] && buf[9 + at3] == hello[at3] && buf[9 + at3 + 1] == hello[at3 + 1];
  }

  /**
    * Lock step: where the sniffer's walk finds the extension, the fragmenter's, whose end is not
    * clamped to what has come, passes the same extensions and stops at it.
    */
  lemma {:induction false} WalksAgree(buf: bytes, hello: bytes, at: nat, end: nat, wide: nat)
    requires Stands(buf, 9, hello) && end <= |hello| && end + 9 <= wide
    requires WalkExtensions(hello, at, end).Some?
    ensures WalkRange(buf, at + 9, wide)
         == FirstEntryRange(buf, WalkExtensions(hello, at, end).value.0 + 9)
    decreases |hello| - at
  {
    hide U16, FirstEntryRange, WalkRange;
    var kind, len := U16(hello[at], hello[at + 1]), U16(hello[at + 2], hello[at + 3]);
    HeadSame(buf, hello, at);
    RangeStep(buf, at + 9, kind, len, wide);
    if kind != 0 {
      WalksAgree(buf, hello, at + 4 + len, end, wide);
    }
  }

  lemma HeadSame(buf: bytes, hello: bytes, at: nat)
    requires Stands(buf, 9, hello) && at + 4 <= |hello|
    ensures at + 13 <= |buf| && U16(buf[at + 9], buf[at + 10]) == U16(hello[at], hello[at + 1])
    ensures U16(buf[at + 11], buf[at + 12]) == U16(hello[at + 2], hello[at + 3])
  {
    hide U16;
    StandsAt(buf, 9, hello, at);
    StandsAt(buf, 9, hello, at + 1);
    StandsAt(buf, 9, hello, at + 2);
    StandsAt(buf, 9, hello, at + 3);
  }

  lemma RangeStep(buf: bytes, at: nat, kind: nat, len: nat, end: nat)
    requires at + 4 <= |buf| && at + 4 <= end
    requires U16(buf[at], buf[at + 1]) == kind && U16(buf[at + 2], buf[at + 3]) == len
    ensures WalkRange(buf, at, end)
         == if kind == 0 then FirstEntryRange(buf, at + 4) else WalkRange(buf, at + 4 + len, end)
  {
    hide U16, FirstEntryRange;
  }

  lemma RangeOfData(buf: bytes, from: nat, to: nat)
    requires ServerNameData(buf) == Some((from, to))
    ensures HostRange(buf) == FirstEntryRange(buf, from)
  {
    hide HelloOf, ExtensionsAt, WalkExtensions, WalkRange, FirstEntryRange;
    var hello := HelloOf(buf).value;
    var (at, end) := ExtensionsAt(hello, 34).value;
    SameExtensions(buf, hello);
    WalksAgree(buf, hello, at, Min(end, |hello|), end + 9);
  }

  /**
    * For every byte string the sniffer takes a name from: the fragmenter finds a range exactly when
    * the first entry of the server name list is a host name, and then the range is the place of
    * that name.
    */
  lemma ReadersAgree(buf: bytes)
    requires TlsSni(buf).Some?
    ensures var (from, to) := ServerNameData(buf).value;
            && from + 5 <= to
            && (HostRange(buf).Some? <==> buf[from + 2] == 0)
    ensures HostRange(buf).Some? ==>
              var (s, e) := HostRange(buf).value;
              && s < e <= |buf| && PlausibleHost(buf[s..e]) == TlsSni(buf)
  {
    hide PlausibleHost, HelloOf, ExtensionsAt, WalkExtensions;
    var (from, to) := ServerNameData(buf).value;
    RangeOfData(buf, from, to);
    FirstEntryIsData(buf, from, to);
  }

  lemma FirstEntryIsData(buf: bytes, from: nat, to: nat)
    requires from <= to <= |buf| && FirstHost(buf[from..to]).Some? && FirstHost(buf[from..to]).value != []
    ensures from + 5 <= to
    ensures var len := U16(buf[from + 3], buf[from + 4]);
            FirstEntryRange(buf, from) ==
            if buf[from + 2] == 0 then Some((from + 5, from + 5 + len)) else None
    ensures buf[from + 2] == 0 ==>
              var len := U16(buf[from + 3], buf[from + 4]);
              from + 5 + len <= to && FirstHost(buf[from..to]) == Some(buf[from + 5..from + 5 + len])
  {
    var data := buf[from..to];
    var len := U16(data[3], data[4]);
    assert WalkNames(data, 2, Min(2 + U16(data[0], data[1]), |data|)).Some?;
    if data[2] == 0 {
      SliceOfSlice(buf, from, to, 5, 5 + len);
    }
  }

  // ---------------------------------------------------------------- what a client sends

  datatype Extensions = NoExtension | Extension(kind: nat, data: bytes, rest: Extensions)

  predicate FitExtensions(e: Extensions) {
    e.Extension? ==> e.kind < 0x1_0000 && |e.data| < 0x1_0000 && FitExtensions(e.rest)
  }

  function ExtensionsWire(e: Extensions): bytes
    requires FitExtensions(e)
  {
    if e.NoExtension? then [] else (BE16(e.kind) + BE16(|e.data|)) + (e.data + ExtensionsWire(e.rest))
  }

  /** The data of the first server_name extension. */
  function ServerName(e: Extensions): Option<bytes> {
    if e.NoExtension? then None else if e.kind == 0 then Some(e.data) else ServerName(e.rest)
  }

  datatype Names = NoName | Name(kind: byte, host: bytes, rest: Names)

  predicate FitNames(n: Names) {
    n.Name? ==> |n.host| < 0x1_0000 && FitNames(n.rest)
  }

  function NamesWire(n: Names): bytes
    requires FitNames(n)
  {
    if n.NoName? then [] else ([n.kind] + BE16(|n.host|)) + (n.host + NamesWire(n.rest))
  }

  function HostName(n: Names): Option<bytes> {
    if n.NoName? then None else if n.kind == 0 then Some(n.host) else HostName(n.rest)
  }

  /**
    * A ClientHello: version and random, then a session ID of `a` bytes, cipher suites of `b`,
    * compression methods of `c`, each behind its length, and the extensions behind theirs.
    */
  predicate IsHello(s: bytes, a: nat, b: nat, c: nat, e: Extensions) {
    var at1 := 35 + a;
    var at2 := at1 + 2 + b;
    var at3 := at2 + 1 + c;
    && FitExtensions(e) && at3 + 2 + |ExtensionsWire(e)| == |s|
    && s[34] == a && Be16(s, at1) == Some(b) && s[at2] == c
    && Be16(s, at3) == Some(|ExtensionsWire(e)|) && Stands(s, at3 + 2, ExtensionsWire(e))
  }

  /** A handshake record that carries it whole, whatever comes after. */
  predicate IsRecord(buf: bytes, hello: bytes) {
    && |buf| >= 9 && buf[0] == 0x16 && Be16(buf, 3) == Some(|hello| + 4)
    && buf[5] == 0x01 && Be24(buf, 6) == Some(|hello|) && Stands(buf, 9, hello)
  }

  lemma Shift(s: bytes, at: nat, x: bytes, y: bytes, next: nat)
    requires Stands(s, at, x + y) && next == at + |x|
    ensures Stands(s, at, x) && Stands(s, next, y)
  {
    StandsJoin(s, at, x, y);
  }

  lemma {:induction false} ExtensionsWalked(hello: bytes, at: nat, e: Extensions, end: nat)
    requires FitExtensions(e) && Stands(hello, at, ExtensionsWire(e)) && end == at + |ExtensionsWire(e)|
    ensures match ServerName(e)
            case None => WalkExtensions(hello, at, end) == None
            case Some(data) =>
              var found := WalkExtensions(hello, at, end);
              found.Some? && found.value.1 == found.value.0 + |data| && Stands(hello, found.value.0, data)
    decreases e
  {
    if e.Extension? {
      var tail := ExtensionsWire(e.rest);
      var body := at + 4;
      var next := body + |e.data|;
      Shift(hello, at, BE16(e.kind) + BE16(|e.data|), e.data + tail, body);
      Shift(hello, body, e.data, tail, next);
      HeadRead(hello, at, e.kind, |e.data|);
      WalkStep(hello, at, e.kind, next, end);
      if e.kind != 0 {
        ExtensionsWalked(hello, next, e.rest, end);
      }
    }
  }

  lemma WalkStep(hello: bytes, at: nat, kind: nat, next: nat, end: nat)
    requires at + 4 <= next <= end <= |hello|
    requires U16(hello[at], hello[at + 1]) == kind && at + 4 + U16(hello[at + 2], hello[at + 3]) == next
    ensures WalkExtensions(hello, at, end)
         == if kind == 0 then Some((at + 4, next)) else WalkExtensions(hello, next, end)
  {
  }

  lemma HeadRead(s: bytes, at: nat, x: nat, y: nat)
    requires x < 0x1_0000 && y < 0x1_0000 && Stands(s, at, BE16(x) + BE16(y))
    ensures U16(s[at], s[at + 1]) == x && U16(s[at + 2], s[at + 3]) == y
  {
    var head := BE16(x) + BE16(y);
    StandsAt(s, at, head, 0);
    StandsAt(s, at, head, 1);
    StandsAt(s, at, head, 2);
    StandsAt(s, at, head, 3);
  }

  lemma {:induction false} NamesWalked(data: bytes, at: nat, n: Names, end: nat)
    requires FitNames(n) && Stands(data, at, NamesWire(n)) && end == at + |NamesWire(n)|
    ensures WalkNames(data, at, end) == HostName(n)
    decreases n
  {
    if n.Name? {
      var head, tail := [n.kind] + BE16(|n.host|), NamesWire(n.rest);
      var body := at + 3;
      var next := body + |n.host|;
      Shift(data, at, head, n.host + tail, body);
      Shift(data, body, n.host, tail, next);
      StandsAt(data, at, head, 0);
      StandsAt(data, at, head, 1);
      StandsAt(data, at, head, 2);
      NamesWalked(data, next, n.rest, end);
    }
  }

  lemma HelloTaken(buf: bytes, hello: bytes)
    requires IsRecord(buf, hello)
    ensures HelloOf(buf) == Some(hello)
  {
    var body := buf[5..5 + |hello| + 4];
    SliceOfSlice(buf, 5, 5 + |hello| + 4, 4, 4 + |hello|);
    assert body[0] == buf[5] && body[1] == buf[6] && body[2] == buf[7] && body[3] == buf[8];
  }

  /**
    * From a whole ClientHello, whatever follows it, the sniffer takes the first host name of the
    * first server_name extension, and the fragmenter its place when it is the first name there.
    */
  lemma ClientHelloRead(buf: bytes, hello: bytes, a: nat, b: nat, c: nat, e: Extensions, names: Names)
    requires IsRecord(buf, hello) && IsHello(hello, a, b, c, e)
    requires FitNames(names) && |NamesWire(names)| < 0x1_0000
    requires ServerName(e) == Some(BE16(|NamesWire(names)|) + NamesWire(names))
    ensures SniffedHost(buf) == HostName(names)
    ensures names.Name? && names.kind == 0 && names.host != [] ==>
              var range := HostRange(buf);
              && range.Some? && range.value.0 <= range.value.1 <= |buf|
              && buf[range.value.0..range.value.1] == names.host
  {
    hide IsRecord, HelloOf, ExtensionsAt, WalkExtensions, ExtensionsWire, NamesWire, FitNames, HostRange, HostName;
    hide ServerNameData, SniffedHost;
    var at := |hello| - |ExtensionsWire(e)|;
    HelloTaken(buf, hello);
    ExtensionsFound(hello, a, b, c, e, at);
    ExtensionsWalked(hello, at, e, |hello|);
    DataTaken(buf, hello, at, names);
    if names.Name? && names.kind == 0 && names.host != [] {
      FirstIsHost(names);
      RangeTaken(buf, names.host);
    }
  }

  lemma FirstIsHost(names: Names)
    requires names.Name? && names.kind == 0
    ensures HostName(names) == Some(names.host)
  {
  }

  lemma ExtensionsFound(hello: bytes, a: nat, b: nat, c: nat, e: Extensions, at: nat)
    requires IsHello(hello, a, b, c, e) && at == |hello| - |ExtensionsWire(e)|
    ensures ExtensionsAt(hello, 34) == Some((at, |hello|))
  {
    hide ExtensionsWire, U16;
  }

  lemma RangeTaken(buf: bytes, host: bytes)
    requires ServerNameData(buf).Some? && SniffedHost(buf) == Some(host) && host != []
    requires ServerNameData(buf).value.0 + 2 < |buf| && buf[ServerNameData(buf).value.0 + 2] == 0
    ensures var range := HostRange(buf);
            && range.Some? && range.value.0 <= range.value.1 <= |buf|
            && buf[range.value.0..range.value.1] == host
  {
    hide HelloOf, ExtensionsAt, WalkExtensions;
    var (from, to) := ServerNameData(buf).value;
    RangeOfData(buf, from, to);
    FirstEntryIsData(buf, from, to);
  }

  lemma DataTaken(buf: bytes, hello: bytes, at: nat, names: Names)
    requires HelloOf(buf) == Some(hello) && ExtensionsAt(hello, 34) == Some((at, |hello|))
    requires FitNames(names) && |NamesWire(names)| < 0x1_0000
    requires var found := WalkExtensions(hello, at, |hello|);
             var data := BE16(|NamesWire(names)|) + NamesWire(names);
             found.Some? && found.value.1 == found.value.0 + |data| && Stands(hello, found.value.0, data)
    ensures ServerNameData(buf).Some? && SniffedHost(buf) == HostName(names)
    ensures names.Name? ==>
              ServerNameData(buf).value.0 + 2 < |buf| && buf[ServerNameData(buf).value.0 + 2] == names.kind
  {
    hide HelloOf, ExtensionsAt, WalkExtensions, FirstHost, NamesWire, FitNames, HostName, U16;
    var (from, to) := WalkExtensions(hello, at, |hello|).value;
    var data := BE16(|NamesWire(names)|) + NamesWire(names);
    SliceOfSlice(buf, 9, 9 + |hello|, from, to);
    assert buf[from + 9..to + 9] == data;
    NamesRead(names, data);
    if names.Name? {
      assert buf[from + 9..to + 9][2] == buf[from + 9 + 2];
    }
  }

  lemma NamesRead(names: Names, data: bytes)
    requires FitNames(names) && |NamesWire(names)| < 0x1_0000
    requires data == BE16(|NamesWire(names)|) + NamesWire(names)
    ensures FirstHost(data) == HostName(names)
    ensures names.Name? ==> |data| > 2 && data[2] == names.kind
  {
    hide WalkNames, HostName;
    var wire := NamesWire(names);
    assert Stands(data, 2, wire) by {
      assert data[2..] == wire;
    }
    NamesWalked(data, 2, names, |data|);
    assert data[0] == BE16(|wire|)[0] && data[1] == BE16(|wire|)[1];
    if names.Name? {
      assert data[2] == wire[0];
    }
  }

  // ---------------------------------------------------------------- the readers as they run

  method FirstServerName(data: bytes) returns (host: Option<bytes>)
    ensures host == FirstHost(data)
  {
    var listLen := Be16(data, 0);
    if listLen.None? { return None; }
    var listEnd := Min(2 + listLen.value, |data|);
    var at := 2;
    while at + 3 <= listEnd
      invariant FirstHost(data) == WalkNames(data, at, listEnd)
      decreases listEnd - at
    {
      var kind := data[at];
      var len := U16(data[at + 1], data[at + 2]);
      var start := at + 3;
      if start + len > listEnd { return None; }
      if kind == 0 { return Some(data[start..start + len]); }
      at := start + len;
    }
    return None;
  }

  method FindExtension(hello: bytes, start: nat, end: nat) returns (r: Option<(nat, nat)>)
    requires end <= |hello|
    ensures r == WalkExtensions(hello, start, end)
  {
    hide U16;
    var at := start;
    while at + 4 <= end
      invariant WalkExtensions(hello, start, end) == WalkExtensions(hello, at, end)
      decreases end - at
    {
      var kind, len := U16(hello[at], hello[at + 1]), U16(hello[at + 2], hello[at + 3]);
      var dataStart := at + 4;
      if dataStart + len > end { return None; }
      if kind == 0 { return Some((dataStart, dataStart + len)); }
      at := dataStart + len;
    }
    return None;
  }

  method SniffServerName(buf: bytes) returns (name: Option<string>)
    ensures name == TlsSni(buf)
  {
    hide PlausibleHost, FirstHost, HelloOf, ExtensionsAt, WalkExtensions;
    var found := HelloOf(buf);
    if found.None? { return None; }
    var hello := found.value;
    var extensions := ExtensionsAt(hello, 34);
    if extensions.None? { return None; }
    var data := FindExtension(hello, extensions.value.0, Min(extensions.value.1, |hello|));
    if data.None? { return None; }
    var (from, to) := data.value;
    SliceOfSlice(buf, 9, 9 + |hello|, from, to);
    var host := FirstServerName(hello[from..to]);
    return if host.None? then None else PlausibleHost(host.value);
  }

  method SniHostRange(buf: bytes) returns (range: Option<(nat, nat)>)
    ensures range == HostRange(buf)
  {
    if buf == [] || buf[0] != 0x16 || |buf| < 6 || buf[5] != 0x01 { return None; }
    var extensions := ExtensionsAt(buf, 43);
    if extensions.None? { return None; }
    var at, end := extensions.value.0, extensions.value.1;
    ghost var start := at;
    while at + 4 <= end
      invariant WalkRange(buf, start, end) == WalkRange(buf, at, end)
      decreases if at < end then end - at else 0
    {
      var kind := TakeAt(buf, at, 2);
      if kind.None? { return None; }
      var len := TakeAt(buf, at + 2, 2);
      if len.None? { return None; }
      if kind.value == 0 {
        return FirstEntryRange(buf, at + 4);
      }
      at := at + 4 + len.value;
    }
    return None;
  }
}
