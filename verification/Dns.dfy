/**
  * The DNS lookup of an ECH key: the query (RFC 1035, section 4.1), the reply that answers it, and
  * the key among the parameters of its HTTPS records (RFC 9460, section 2.2).
  */
module Dns {
  import opened Bytes

  const RR_HTTPS: nat := 65
  const SVCPARAM_ECH: nat := 5
  const DOT: byte := 46

  // ---------------------------------------------------------------- names and queries

  predicate LabelByte(b: byte) {
    48 <= b <= 57 || 65 <= b <= 90 || 97 <= b <= 122 || b == 45 || b == 95
  }

  predicate GoodLabel(l: bytes) {
    0 < |l| <= 63 && forall i :: 0 <= i < |l| ==> LabelByte(l[i])
  }

  function StripDot(name: bytes): bytes {
    if name != [] && name[|name| - 1] == DOT then name[..|name| - 1] else name
  }

  predicate ValidDomain(name: bytes) {
    var bare := StripDot(name);
    0 < |bare| <= 253 && forall i :: 0 <= i < |Split(bare, DOT)| ==> GoodLabel(Split(bare, DOT)[i])
  }

  /** The labels of a name that are not empty. */
  function NonEmpty(labels: seq<bytes>): (r: seq<bytes>)
    ensures forall i :: 0 <= i < |r| ==> r[i] != [] && r[i] in labels
  {
    if labels == [] then []
    else if labels[0] == [] then NonEmpty(labels[1..]) else [labels[0]] + NonEmpty(labels[1..])
  }

  lemma NonEmptyStep(labels: seq<bytes>, i: nat)
    requires i < |labels|
    ensures NonEmpty(labels[i..])
         == (if labels[i] == [] then [] else [labels[i]]) + NonEmpty(labels[i + 1..])
  {
    assert labels[i..][1..] == labels[i + 1..];
  }

  function LabelsOf(name: bytes): seq<bytes> {
    NonEmpty(Split(name, DOT))
  }

  /** Labels behind their lengths, of which a byte keeps the low eight bits. */
  function LabelsWire(labels: seq<bytes>): bytes {
    if labels == [] then [] else ([|labels[0]| % 256] + labels[0]) + LabelsWire(labels[1..])
  }

  function QueryHeader(id: nat): bytes
    requires id < 0x1_0000
  {
    BE16(id) + [0x01, 0x00, 0x00, 0x01, 0, 0, 0, 0, 0, 0]
  }

  /** The question about `labels`: their name, the type, and the class IN. */
  function Question(labels: seq<bytes>, qtype: nat): bytes
    requires qtype < 0x1_0000
  {
    LabelsWire(labels) + ([0] + BE16(qtype))
  }

  function Query(name: bytes, qtype: nat, id: nat): bytes
    requires qtype < 0x1_0000 && id < 0x1_0000
  {
    QueryHeader(id) + (Question(LabelsOf(name), qtype) + [0, 1])
  }

  method BuildQuery(name: bytes, qtype: nat, id: nat) returns (q: bytes)
    requires qtype < 0x1_0000 && id < 0x1_0000
    ensures q == Query(name, qtype, id)
  {
    hide NonEmpty, LabelsWire, Split;
    q := BE16(id);
    q := q + [0x01, 0x00];
    q := q + [0x00, 0x01];
    q := q + [0x00, 0x00, 0x00, 0x00, 0x00, 0x00];
    assert q == QueryHeader(id);
    var names := WriteLabels(Split(name, DOT));
    q := q + names;
    q := q + [0x00];
    q := q + BE16(qtype);
    q := q + [0x00, 0x01];
  }

  method WriteLabels(labels: seq<bytes>) returns (q: bytes)
    ensures q == LabelsWire(NonEmpty(labels))
  {
    hide NonEmpty, LabelsWire;
    q := [];
    ghost var written: seq<bytes> := [];
    assert labels[0..] == labels;
    assert LabelsWire([]) == [] by { LabelsWireEmpty(); }
    for i := 0 to |labels|
      invariant NonEmpty(labels) == written + NonEmpty(labels[i..])
      invariant q == LabelsWire(written)
    {
      NonEmptyStep(labels, i);
      if labels[i] == [] {
        continue;
      }
      LabelsWireSnoc(written, labels[i]);
      written := written + [labels[i]];
      q := q + [|labels[i]| % 256];
      q := q + labels[i];
    }
    LabelsWireEmpty();
    assert labels[|labels|..] == [];
    assert written == NonEmpty(labels);
  }

  lemma LabelsWireEmpty()
    ensures LabelsWire([]) == [] && NonEmpty([]) == []
  {
  }

  lemma {:induction false} LabelsWireSnoc(labels: seq<bytes>, l: bytes)
    ensures LabelsWire(labels + [l]) == LabelsWire(labels) + ([|l| % 256] + l)
  {
    if labels == [] {
      assert labels + [l] == [l];
      assert LabelsWire([l]) == ([|l| % 256] + l) + LabelsWire([]);
    } else {
      assert (labels + [l])[1..] == labels[1..] + [l];
      LabelsWireSnoc(labels[1..], l);
    }
  }

  // ---------------------------------------------------------------- replies

  function LowerByte(b: byte): byte {
    if 65 <= b <= 90 then b + 32 else b
  }

  /** eq_ignore_ascii_case */
  predicate SameLetters(x: bytes, y: bytes) {
    |x| == |y| && forall i :: 0 <= i < |x| ==> LowerByte(x[i]) == LowerByte(y[i])
  }

  /** The label `l`, in any case, behind its length at `pos`. */
  predicate LabelAt(msg: bytes, pos: nat, l: bytes) {
    && pos + 1 + |l| <= |msg| && msg[pos] == |l|
    && SameLetters(msg[pos + 1..pos + 1 + |l|], l)
  }

  /** Where the name that starts at `pos` goes on behind `labels`, if it begins with them. */
  function MatchLabels(msg: bytes, pos: nat, labels: seq<bytes>): (end: Option<nat>)
    requires pos <= |msg|
    ensures end.Some? ==> pos <= end.value <= |msg|
    decreases |labels|
  {
    if labels == [] then Some(pos)
    else if LabelAt(msg, pos, labels[0]) then MatchLabels(msg, pos + 1 + |labels[0]|, labels[1..])
    else None
  }

  /** A reply that carries this ID, is one, and asks one question. */
  predicate ReplyHeader(msg: bytes, id: nat) {
    |msg| >= 12 && U16(msg[0], msg[1]) == id && msg[2] >= 0x80 && U16(msg[4], msg[5]) == 1
  }

  predicate Answers(msg: bytes, id: nat, name: bytes, qtype: nat) {
    && ReplyHeader(msg, id)
    && var end := MatchLabels(msg, 12, LabelsOf(name));
    && end.Some? && end.value + 5 <= |msg| && msg[end.value] == 0
    && U16(msg[end.value + 1], msg[end.value + 2]) == qtype
  }

  method ResponseMatches(msg: bytes, id: nat, name: bytes, qtype: nat) returns (r: bool)
    ensures r == Answers(msg, id, name, qtype)
  {
    hide MatchLabels, NonEmpty, Split;
    if |msg| < 12 { return false; }
    if U16(msg[0], msg[1]) != id { return false; }
    if msg[2] < 0x80 { return false; }
    if U16(msg[4], msg[5]) != 1 { return false; }
    var end := ReadLabels(msg, 12, Split(name, DOT));
    if end.None? { return false; }
    var pos := end.value;
    if pos >= |msg| || msg[pos] != 0 { return false; }
    pos := pos + 1;
    if pos + 4 > |msg| { return false; }
    return U16(msg[pos], msg[pos + 1]) == qtype;
  }

  method ReadLabels(msg: bytes, start: nat, labels: seq<bytes>) returns (end: Option<nat>)
    requires start <= |msg|
    ensures end == MatchLabels(msg, start, NonEmpty(labels))
  {
    hide NonEmpty, MatchLabels, SameLetters;
    var pos: nat := start;
    assert labels[0..] == labels;
    for i := 0 to |labels|
      invariant pos <= |msg|
      invariant MatchLabels(msg, start, NonEmpty(labels)) == MatchLabels(msg, pos, NonEmpty(labels[i..]))
    {
      NonEmptyStep(labels, i);
      var l := labels[i];
      if l == [] {
        assert NonEmpty(labels[i..]) == NonEmpty(labels[i + 1..]);
        continue;
      }
      MatchStep(msg, pos, l, NonEmpty(labels[i + 1..]));
      if pos >= |msg| || msg[pos] != |l| { return None; }
      pos := pos + 1;
      if pos + |l| > |msg| { return None; }
      if !SameLetters(msg[pos..pos + |l|], l) { return None; }
      pos := pos + |l|;
    }
    assert labels[|labels|..] == [];
    LabelsWireEmpty();
    MatchNone(msg, pos);
    return Some(pos);
  }

  lemma MatchStep(msg: bytes, pos: nat, l: bytes, rest: seq<bytes>)
    requires pos <= |msg|
    ensures MatchLabels(msg, pos, [l] + rest)
         == if LabelAt(msg, pos, l) then MatchLabels(msg, pos + 1 + |l|, rest) else None
  {
    assert ([l] + rest)[1..] == rest;
  }

  lemma MatchNone(msg: bytes, pos: nat)
    requires pos <= |msg|
    ensures MatchLabels(msg, pos, []) == Some(pos)
  {
  }

  /** The same labels up to the case of their letters. */
  predicate SameLabels(xs: seq<bytes>, ys: seq<bytes>) {
    |xs| == |ys| && forall i :: 0 <= i < |xs| ==> SameLetters(xs[i], ys[i])
  }

  predicate ShortLabels(labels: seq<bytes>) {
    forall i :: 0 <= i < |labels| ==> |labels[i]| < 256
  }

  /** Labels match only where the same labels, in some case, are written. */
  lemma {:induction false} MatchSound(msg: bytes, pos: nat, labels: seq<bytes>) returns (xs: seq<bytes>)
    requires pos <= |msg| && MatchLabels(msg, pos, labels).Some?
    ensures SameLabels(xs, labels) && ShortLabels(xs) && Stands(msg, pos, LabelsWire(xs))
    ensures MatchLabels(msg, pos, labels).value == pos + |LabelsWire(xs)|
    decreases |labels|
  {
    xs := [];
    if labels != [] {
      hide LabelsWire;
      var l, next := labels[0], pos + 1 + |labels[0]|;
      var rest := MatchSound(msg, next, labels[1..]);
      var x := msg[pos + 1..next];
      MatchCons(msg, pos, x, l, rest, labels);
      xs := [x] + rest;
    }
  }

  /** Labels match wherever the same labels, in some case, are written. */
  lemma {:induction false} MatchComplete(msg: bytes, pos: nat, labels: seq<bytes>, xs: seq<bytes>)
    requires pos <= |msg| && SameLabels(xs, labels) && ShortLabels(xs) && Stands(msg, pos, LabelsWire(xs))
    ensures MatchLabels(msg, pos, labels) == Some(pos + |LabelsWire(xs)|)
    decreases |labels|
  {
    if labels == [] {
      assert xs == [];
    } else {
      hide LabelsWire;
      var next := pos + 1 + |labels[0]|;
      MatchUncons(msg, pos, xs, labels, next);
      MatchComplete(msg, next, labels[1..], xs[1..]);
    }
  }

  lemma MatchCons(msg: bytes, pos: nat, x: bytes, l: bytes, xs: seq<bytes>, labels: seq<bytes>)
    requires labels != [] && labels[0] == l && SameLetters(x, l) && |l| < 256
    requires pos + 1 + |x| <= |msg| && msg[pos] == |l| && msg[pos + 1..pos + 1 + |x|] == x
    requires SameLabels(xs, labels[1..]) && ShortLabels(xs) && Stands(msg, pos + 1 + |x|, LabelsWire(xs))
    ensures var all := [x] + xs;
            && SameLabels(all, labels) && ShortLabels(all) && Stands(msg, pos, LabelsWire(all))
            && |LabelsWire(all)| == 1 + |x| + |LabelsWire(xs)|
  {
    var all := [x] + xs;
    assert all[1..] == xs;
    assert Stands(msg, pos, [|x| % 256] + x);
    StandsJoin(msg, pos, [|x| % 256] + x, LabelsWire(xs));
    forall i | 0 <= i < |all| ensures SameLetters(all[i], labels[i]) {
      assert i > 0 ==> all[i] == xs[i - 1] && labels[i] == labels[1..][i - 1];
    }
  }

  lemma MatchUncons(msg: bytes, pos: nat, xs: seq<bytes>, labels: seq<bytes>, next: nat)
    requires labels != [] && SameLabels(xs, labels) && ShortLabels(xs) && Stands(msg, pos, LabelsWire(xs))
    requires next == pos + 1 + |labels[0]|
    ensures next <= |msg| && msg[pos] == |labels[0]| && SameLetters(msg[pos + 1..next], labels[0])
    ensures Stands(msg, next, LabelsWire(xs[1..])) && |LabelsWire(xs)| == 1 + |labels[0]| + |LabelsWire(xs[1..])|
  {
    var x := xs[0];
    assert SameLetters(x, labels[0]);
    StandsJoin(msg, pos, [|x| % 256] + x, LabelsWire(xs[1..]));
    StandsJoin(msg, pos, [|x| % 256], x);
    StandsAt(msg, pos, [|x| % 256], 0);
  }

  /**
    * A message is taken for the answer exactly when it is a reply with the ID of the query that
    * repeats its question, the name up to the case of its letters, with a class behind it.
    */
  lemma AnswersExactly(msg: bytes, id: nat, name: bytes, qtype: nat)
    requires qtype < 0x1_0000
    ensures Answers(msg, id, name, qtype) <==>
            && ReplyHeader(msg, id)
            && exists xs :: SameLabels(xs, LabelsOf(name)) && ShortLabels(xs)
                            && Stands(msg, 12, Question(xs, qtype)) && 12 + |Question(xs, qtype)| + 2 <= |msg|
  {
    hide LabelsOf, LabelsWire, MatchLabels;
    var labels := LabelsOf(name);
    if Answers(msg, id, name, qtype) {
      var end := MatchLabels(msg, 12, labels).value;
      var xs := MatchSound(msg, 12, labels);
      assert msg[end..end + 3] == [0] + BE16(qtype);
      StandsJoin(msg, 12, LabelsWire(xs), [0] + BE16(qtype));
    }
    forall xs | ReplyHeader(msg, id) && SameLabels(xs, labels) && ShortLabels(xs)
                && Stands(msg, 12, Question(xs, qtype)) && 12 + |Question(xs, qtype)| + 2 <= |msg|
      ensures Answers(msg, id, name, qtype)
    {
      var end := 12 + |LabelsWire(xs)|;
      var tail := [0] + BE16(qtype);
      StandsJoin(msg, 12, LabelsWire(xs), tail);
      MatchComplete(msg, 12, labels, xs);
      StandsAt(msg, end, tail, 0);
      StandsAt(msg, end, tail, 1);
      StandsAt(msg, end, tail, 2);
    }
  }

  /** A message that answers `query` in kind: its id and question, and flags of a reply; the rest is free. */
  predicate RepliesTo(msg: bytes, query: bytes)
    requires |query| >= 12
  {
    && |query| <= |msg| && msg[..2] == query[..2] && msg[2] >= 0x80 && msg[4..6] == query[4..6]
    && msg[12..|query|] == query[12..]
  }

  /** The query itself with the bit set that makes it a reply, and anything behind it. */
  function ReplyOf(query: bytes, more: bytes): bytes
    requires |query| >= 12 && query[2] < 0x80
  {
    query[2 := query[2] + 0x80] + more
  }

  lemma ReplyOfReplies(query: bytes, more: bytes)
    requires |query| >= 12 && query[2] < 0x80
    ensures RepliesTo(ReplyOf(query, more), query)
  {
    var msg := ReplyOf(query, more);
    assert msg[..2] == query[..2] && msg[4..6] == query[4..6] && msg[12..|query|] == query[12..];
  }

  lemma QueryParts(name: bytes, qtype: nat, id: nat)
    requires qtype < 0x1_0000 && id < 0x1_0000
    ensures (var q := Query(name, qtype, id);
             && |q| >= 12 && q[..2] == BE16(id) && q[2] == 0x01 && q[4..6] == [0x00, 0x01]
             && q[12..] == Question(LabelsOf(name), qtype) + [0, 1])
  {
    hide LabelsOf, Question;
    var q, header, rest := Query(name, qtype, id), QueryHeader(id), Question(LabelsOf(name), qtype) + [0, 1];
    assert q[..12] == header && q[12..] == rest;
    assert header[..2] == BE16(id) && header[4..6] == [0x00, 0x01];
    assert q[..2] == q[..12][..2] && q[4..6] == q[..12][4..6] && q[2] == q[..12][2];
  }

  /**
    * A reply in kind to the query that is sent for a name is accepted exactly when a length byte
    * holds the length of each of its labels.
    */
  lemma ReplyAccepted(msg: bytes, id: nat, name: bytes, qtype: nat)
    requires qtype < 0x1_0000 && id < 0x1_0000
    requires |Query(name, qtype, id)| >= 12 && RepliesTo(msg, Query(name, qtype, id))
    ensures Answers(msg, id, name, qtype) <==> ShortLabels(LabelsOf(name))
  {
    hide LabelsOf, LabelsWire, Answers, Query;
    var q, labels := Query(name, qtype, id), LabelsOf(name);
    QueryParts(name, qtype, id);
    assert msg[0] == msg[..2][0] && msg[1] == msg[..2][1] && msg[4] == msg[4..6][0] && msg[5] == msg[4..6][1];
    assert ReplyHeader(msg, id);
    assert Stands(msg, 12, Question(labels, qtype) + [0, 1]);
    StandsJoin(msg, 12, Question(labels, qtype), [0, 1]);
    AnswersExactly(msg, id, name, qtype);
    assert SameLabels(labels, labels);
  }

  lemma {:induction false} SplitSnoc(s: bytes, separator: byte)
    ensures Split(s + [separator], separator) == Split(s, separator) + [[]]
  {
    if s == [] {
      assert Split([separator], separator) == [[]] + Split([], separator);
    } else {
      assert (s + [separator])[1..] == s[1..] + [separator];
      SplitSnoc(s[1..], separator);
    }
  }

  lemma ValidLabels(name: bytes)
    requires ValidDomain(name)
    ensures ShortLabels(LabelsOf(name))
  {
    var bare, labels := StripDot(name), LabelsOf(name);
    if bare != name {
      assert name == bare + [DOT];
      SplitSnoc(bare, DOT);
    }
    forall i | 0 <= i < |labels| ensures |labels[i]| < 256 {
      assert labels[i] in Split(name, DOT) && labels[i] != [];
      assert labels[i] in Split(bare, DOT);
    }
  }

  /** The query that is built for a valid domain, turned into a reply and extended, is accepted. */
  lemma ValidDomainAnswered(id: nat, name: bytes, qtype: nat, more: bytes)
    requires qtype < 0x1_0000 && id < 0x1_0000 && ValidDomain(name)
    ensures (var q := Query(name, qtype, id);
             |q| >= 12 && q[2] < 0x80 && Answers(ReplyOf(q, more), id, name, qtype))
  {
    hide LabelsOf, Answers, Query, ValidDomain, RepliesTo, ReplyOf;
    QueryParts(name, qtype, id);
    ReplyOfReplies(Query(name, qtype, id), more);
    ReplyAccepted(ReplyOf(Query(name, qtype, id), more), id, name, qtype);
    ValidLabels(name);
  }

  // ---------------------------------------------------------------- the ech parameter

  /** Where the name at `pos` ends: at its root, or behind a pointer. */
  function NameEnd(buf: bytes, pos: nat): (end: Option<nat>)
    ensures end.Some? ==> pos < end.value <= |buf| + 1
    decreases |buf| - pos
  {
    if pos >= |buf| then None
    else if buf[pos] >= 0xC0 then Some(pos + 2)
    else if buf[pos] == 0 then Some(pos + 1)
    else NameEnd(buf, pos + 1 + buf[pos] as int)
  }

  method SkipName(buf: bytes, start: nat) returns (end: Option<nat>)
    ensures end == NameEnd(buf, start)
  {
    var pos: nat := start;
    while true
      invariant NameEnd(buf, start) == NameEnd(buf, pos)
      decreases |buf| - pos
    {
      if pos >= |buf| { return None; }
      var len := buf[pos];
      if len >= 0xC0 { return Some(pos + 2); }
      if len == 0 { return Some(pos + 1); }
      pos := pos + 1 + len as int;
    }
  }

  /** The value of the first ech parameter from `p` on. */
  ghost function ParamsEch(msg: bytes, p: nat, end: nat): Option<bytes>
    requires end <= |msg|
    decreases end - p
  {
    if p + 4 > end then None
    else
      var value := p + 4;
      var next := value + U16(msg[p + 2], msg[p + 3]);
      if next > end then None
      else if U16(msg[p], msg[p + 1]) == SVCPARAM_ECH then Some(msg[value..next])
      else ParamsEch(msg, next, end)
  }

  ghost function RdataEch(msg: bytes, start: nat, end: nat): Option<bytes>
    requires end <= |msg|
  {
    if start + 2 > end then None
    else match NameEnd(msg, start + 2)
      case None => None
      case Some(p) => ParamsEch(msg, p, end)
  }

  method ParseSvcparamsEch(msg: bytes, start: nat, rdlen: nat) returns (r: Option<bytes>)
    requires start + rdlen <= |msg|
    ensures r == RdataEch(msg, start, start + rdlen)
  {
    var end := start + rdlen;
    if start + 2 > end { return None; }
    var after := SkipName(msg, start + 2);
    if after.None? { return None; }
    var p: nat := after.value;
    while p + 4 <= end
      invariant RdataEch(msg, start, end) == ParamsEch(msg, p, end)
      decreases end - p
    {
      var key := U16(msg[p], msg[p + 1]);
      var len := U16(msg[p + 2], msg[p + 3]);
      p := p + 4;
      if p + len > end { return None; }
      if key == SVCPARAM_ECH { return Some(msg[p..p + len]); }
      p := p + len;
    }
    return None;
  }

  /** Where the sections behind `n` questions begin. */
  ghost function QuestionsEnd(msg: bytes, pos: nat, n: nat): Option<nat>
    decreases n
  {
    if n == 0 then Some(pos)
    else match NameEnd(msg, pos)
      case None => None
      case Some(end) => QuestionsEnd(msg, end + 4, n - 1)
  }

  /** The ech value of the first HTTPS record that has one, among `n` records. */
  ghost function RecordsEch(msg: bytes, pos: nat, n: nat): Option<bytes>
    decreases n, 0
  {
    if n == 0 then None
    else match NameEnd(msg, pos)
      case None => None
      case Some(at) =>
        if at + 10 > |msg| then None
        else RecordEch(msg, at + 10, at + 10 + U16(msg[at + 8], msg[at + 9]), U16(msg[at], msg[at + 1]), n - 1)
  }

  ghost function RecordEch(msg: bytes, data: nat, end: nat, rtype: nat, n: nat): Option<bytes>
    decreases n, 1
  {
    if end > |msg| then None
    else if rtype == RR_HTTPS && RdataEch(msg, data, end).Some? then RdataEch(msg, data, end)
    else RecordsEch(msg, end, n)
  }

  ghost function HttpsEch(msg: bytes): Option<bytes> {
    if |msg| < 12 then None
    else match QuestionsEnd(msg, 12, U16(msg[4], msg[5]))
      case None => None
      case Some(pos) => RecordsEch(msg, pos, U16(msg[6], msg[7]))
  }

  method SkipQuestions(msg: bytes, start: nat, qd: nat) returns (end: Option<nat>)
    ensures end == QuestionsEnd(msg, start, qd)
  {
    hide NameEnd;
    var pos: nat := start;
    for i := 0 to qd
      invariant QuestionsEnd(msg, start, qd) == QuestionsEnd(msg, pos, qd - i)
    {
      var after := SkipName(msg, pos);
      if after.None? { return None; }
      pos := after.value + 4;
    }
    return Some(pos);
  }

  method ParseHttpsEch(msg: bytes) returns (r: Option<bytes>)
    ensures r == HttpsEch(msg)
  {
    hide NameEnd, RdataEch;
    if |msg| < 12 { return None; }
    var qd := U16(msg[4], msg[5]);
    var an := U16(msg[6], msg[7]);
    var questions := SkipQuestions(msg, 12, qd);
    if questions.None? { return None; }
    var pos: nat := questions.value;
    for i := 0 to an
      invariant HttpsEch(msg) == RecordsEch(msg, pos, an - i)
    {
      var after := SkipName(msg, pos);
      if after.None? { return None; }
      pos := after.value;
      if pos + 10 > |msg| { return None; }
      var rtype := U16(msg[pos], msg[pos + 1]);
      var rdlen := U16(msg[pos + 8], msg[pos + 9]);
      pos := pos + 10;
      if pos + rdlen > |msg| { return None; }
      if rtype == RR_HTTPS {
        var ech := ParseSvcparamsEch(msg, pos, rdlen);
        if ech.Some? { return ech; }
      }
      pos := pos + rdlen;
    }
    return None;
  }

  // ---------------------------------------------------------------- messages as they are written

  /** A name: labels up to the root or a pointer. Label lengths up to 191 are read as lengths. */
  datatype Name = Root | Pointer(high: byte, low: byte) | Label(text: bytes, rest: Name)

  predicate GoodName(name: Name) {
    match name
    case Root => true
    case Pointer(high, low) => high >= 0xC0
    case Label(text, rest) => 0 < |text| < 0xC0 && GoodName(rest)
  }

  function NameWire(name: Name): bytes
    requires GoodName(name)
  {
    match name
    case Root => [0]
    case Pointer(high, low) => [high, low]
    case Label(text, rest) => ([|text|] + text) + NameWire(rest)
  }

  datatype Params = NoParams | Param(key: nat, value: bytes, rest: Params)

  predicate GoodParams(params: Params) {
    params.NoParams? || (params.key < 0x1_0000 && |params.value| < 0x1_0000 && GoodParams(params.rest))
  }

  function ParamsWire(params: Params): bytes
    requires GoodParams(params)
  {
    match params
    case NoParams => []
    case Param(key, value, rest) => ((BE16(key) + BE16(|value|)) + value) + ParamsWire(rest)
  }

  function EchOf(params: Params): Option<bytes> {
    match params
    case NoParams => None
    case Param(key, value, rest) => if key == SVCPARAM_ECH then Some(value) else EchOf(rest)
  }

  /** What a record holds: a service binding, or bytes that are not looked into. */
  datatype Rdata = Binding(priority: bytes, target: Name, params: Params) | Plain(data: bytes)

  predicate GoodRdata(d: Rdata) {
    d.Plain? || (|d.priority| == 2 && GoodName(d.target) && GoodParams(d.params))
  }

  function RdataWire(d: Rdata): bytes
    requires GoodRdata(d)
  {
    match d
    case Plain(data) => data
    case Binding(priority, target, params) => priority + (NameWire(target) + ParamsWire(params))
  }

  datatype Records = NoRecords | Record(name: Name, rtype: nat, classAndTtl: bytes, data: Rdata, rest: Records)

  ghost predicate GoodRecords(rs: Records) {
    rs.Record? ==>
      && GoodName(rs.name) && rs.rtype < 0x1_0000 && |rs.classAndTtl| == 6
      && GoodRdata(rs.data) && |RdataWire(rs.data)| < 0x1_0000
      && (rs.rtype == RR_HTTPS ==> rs.data.Binding?)
      && GoodRecords(rs.rest)
  }

  ghost function RecordHead(rs: Records): bytes
    requires rs.Record? && GoodRecords(rs)
  {
    (BE16(rs.rtype) + rs.classAndTtl) + BE16(|RdataWire(rs.data)|)
  }

  ghost function RecordsWire(rs: Records): bytes
    requires GoodRecords(rs)
  {
    if rs.NoRecords? then []
    else (NameWire(rs.name) + (RecordHead(rs) + RdataWire(rs.data))) + RecordsWire(rs.rest)
  }

  function RecordCount(rs: Records): nat {
    if rs.NoRecords? then 0 else 1 + RecordCount(rs.rest)
  }

  /** The ech value of the first HTTPS record that has one. */
  function FirstEch(rs: Records): Option<bytes> {
    if rs.NoRecords? then None
    else if rs.rtype == RR_HTTPS && rs.data.Binding? && EchOf(rs.data.params).Some? then EchOf(rs.data.params)
    else FirstEch(rs.rest)
  }

  datatype Questions = NoQuestions | Asked(name: Name, typeAndClass: bytes, rest: Questions)

  predicate GoodQuestions(qs: Questions) {
    qs.NoQuestions? || (GoodName(qs.name) && |qs.typeAndClass| == 4 && GoodQuestions(qs.rest))
  }

  function QuestionsWire(qs: Questions): bytes
    requires GoodQuestions(qs)
  {
    if qs.NoQuestions? then [] else (NameWire(qs.name) + qs.typeAndClass) + QuestionsWire(qs.rest)
  }

  function QuestionCount(qs: Questions): nat {
    if qs.NoQuestions? then 0 else 1 + QuestionCount(qs.rest)
  }

  lemma {:induction false} NameSkipped(msg: bytes, pos: nat, name: Name)
    requires GoodName(name) && Stands(msg, pos, NameWire(name))
    ensures NameEnd(msg, pos) == Some(pos + |NameWire(name)|)
    decreases name
  {
    StandsAt(msg, pos, NameWire(name), 0);
    if name.Label? {
      var first := [|name.text|] + name.text;
      StandsJoin(msg, pos, first, NameWire(name.rest));
      NameSkipped(msg, pos + |first|, name.rest);
    }
  }

  lemma ParamHeadRead(msg: bytes, p: nat, key: nat, length: nat)
    requires key < 0x1_0000 && length < 0x1_0000 && Stands(msg, p, BE16(key) + BE16(length))
    ensures p + 4 <= |msg| && U16(msg[p], msg[p + 1]) == key && U16(msg[p + 2], msg[p + 3]) == length
  {
    var head := BE16(key) + BE16(length);
    StandsAt(msg, p, head, 0);
    StandsAt(msg, p, head, 1);
    StandsAt(msg, p, head, 2);
    StandsAt(msg, p, head, 3);
  }

  /** One parameter of the walk. */
  lemma ParamStep(msg: bytes, p: nat, key: nat, next: nat, end: nat)
    requires p + 4 <= next <= end <= |msg|
    requires U16(msg[p], msg[p + 1]) == key && p + 4 + U16(msg[p + 2], msg[p + 3]) == next
    ensures ParamsEch(msg, p, end)
         == if key == SVCPARAM_ECH then Some(msg[p + 4..next]) else ParamsEch(msg, next, end)
  {
    hide U16;
  }

  lemma NoParamsRead(msg: bytes, end: nat)
    requires end <= |msg|
    ensures ParamsEch(msg, end, end) == None
  {
  }

  lemma {:induction false} ParamsRead(msg: bytes, p: nat, params: Params, end: nat)
    requires GoodParams(params) && Stands(msg, p, ParamsWire(params)) && end == p + |ParamsWire(params)|
    ensures ParamsEch(msg, p, end) == EchOf(params)
    decreases params
  {
    hide BE16, U16, ParamsEch;
    if params.NoParams? {
      NoParamsRead(msg, end);
    } else {
      var head, value := BE16(params.key) + BE16(|params.value|), params.value;
      var next := p + 4 + |value|;
      StandsJoin(msg, p, head + value, ParamsWire(params.rest));
      StandsJoin(msg, p, head, value);
      ParamHeadRead(msg, p, params.key, |value|);
      ParamStep(msg, p, params.key, next, end);
      ParamsRead(msg, next, params.rest, end);
    }
  }

  lemma BindingRead(msg: bytes, start: nat, d: Rdata, end: nat)
    requires d.Binding? && GoodRdata(d) && Stands(msg, start, RdataWire(d)) && end == start + |RdataWire(d)|
    ensures RdataEch(msg, start, end) == EchOf(d.params)
  {
    hide NameWire, ParamsWire, NameEnd, ParamsEch, EchOf;
    StandsJoin(msg, start, d.priority, NameWire(d.target) + ParamsWire(d.params));
    StandsJoin(msg, start + 2, NameWire(d.target), ParamsWire(d.params));
    NameSkipped(msg, start + 2, d.target);
    ParamsRead(msg, start + 2 + |NameWire(d.target)|, d.params, end);
  }

  lemma HeadRead(msg: bytes, at: nat, rs: Records)
    requires rs.Record? && GoodRecords(rs) && Stands(msg, at, RecordHead(rs))
    ensures at + 10 <= |msg| && U16(msg[at], msg[at + 1]) == rs.rtype
    ensures U16(msg[at + 8], msg[at + 9]) == |RdataWire(rs.data)|
  {
    hide RdataWire;
    var head := RecordHead(rs);
    StandsAt(msg, at, head, 0);
    StandsAt(msg, at, head, 1);
    StandsAt(msg, at, head, 8);
    StandsAt(msg, at, head, 9);
  }

  lemma RecordStep(msg: bytes, pos: nat, at: nat, end: nat, rtype: nat, n: nat)
    requires NameEnd(msg, pos) == Some(at) && at + 10 <= end <= |msg|
    requires U16(msg[at], msg[at + 1]) == rtype && end == at + 10 + U16(msg[at + 8], msg[at + 9])
    ensures RecordsEch(msg, pos, n + 1)
         == if rtype == RR_HTTPS && RdataEch(msg, at + 10, end).Some? then RdataEch(msg, at + 10, end)
            else RecordsEch(msg, end, n)
  {
    hide NameEnd, RdataEch, U16;
  }

  lemma NoneRead(msg: bytes, pos: nat)
    ensures RecordsEch(msg, pos, 0) == None
  {
  }

  lemma {:induction false} RecordsRead(msg: bytes, pos: nat, rs: Records)
    requires GoodRecords(rs) && Stands(msg, pos, RecordsWire(rs))
    ensures RecordsEch(msg, pos, RecordCount(rs)) == FirstEch(rs)
    decreases rs
  {
    hide NameWire, RdataWire, RecordHead, NameEnd, RdataEch, EchOf, RecordsEch, U16, GoodName, GoodRdata;
    if rs.NoRecords? {
      NoneRead(msg, pos);
    } else {
      var name, head, data := NameWire(rs.name), RecordHead(rs), RdataWire(rs.data);
      assert |head| == 10 by { HeadLength(rs); }
      var at := pos + |name|;
      var next := at + 10 + |data|;
      StandsJoin(msg, pos, name + (head + data), RecordsWire(rs.rest));
      StandsJoin(msg, pos, name, head + data);
      StandsJoin(msg, at, head, data);
      NameSkipped(msg, pos, rs.name);
      HeadRead(msg, at, rs);
      RecordStep(msg, pos, at, next, rs.rtype, RecordCount(rs.rest));
      if rs.rtype == RR_HTTPS {
        BindingRead(msg, at + 10, rs.data, next);
      }
      RecordsRead(msg, next, rs.rest);
    }
  }

  lemma HeadLength(rs: Records)
    requires rs.Record? && GoodRecords(rs)
    ensures |RecordHead(rs)| == 10
  {
  }

  lemma {:induction false} QuestionsSkipped(msg: bytes, pos: nat, qs: Questions)
    requires GoodQuestions(qs) && Stands(msg, pos, QuestionsWire(qs))
    ensures QuestionsEnd(msg, pos, QuestionCount(qs)) == Some(pos + |QuestionsWire(qs)|)
    decreases qs
  {
    hide NameWire, NameEnd;
    if qs.Asked? {
      var name := NameWire(qs.name);
      StandsJoin(msg, pos, name + qs.typeAndClass, QuestionsWire(qs.rest));
      StandsJoin(msg, pos, name, qs.typeAndClass);
      NameSkipped(msg, pos, qs.name);
      QuestionsSkipped(msg, pos + |name| + 4, qs.rest);
    }
  }

  /**
    * From any well-formed list of records, behind any well-formed questions and before anything
    * at all, the ech value of the first HTTPS record that has one is read.
    */
  lemma HttpsEchFound(msg: bytes, qs: Questions, rs: Records)
    requires GoodQuestions(qs) && GoodRecords(rs)
    requires |msg| >= 12 && U16(msg[4], msg[5]) == QuestionCount(qs) && U16(msg[6], msg[7]) == RecordCount(rs)
    requires Stands(msg, 12, QuestionsWire(qs) + RecordsWire(rs))
    ensures HttpsEch(msg) == FirstEch(rs)
  {
    hide QuestionsWire, RecordsWire, QuestionsEnd, RecordsEch, FirstEch;
    StandsJoin(msg, 12, QuestionsWire(qs), RecordsWire(rs));
    QuestionsSkipped(msg, 12, qs);
    RecordsRead(msg, 12 + |QuestionsWire(qs)|, rs);
  }
}
