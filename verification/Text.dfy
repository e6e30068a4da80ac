/**
  * The text handling of the standard library that the parsers lean on: UTF-8 decoding, strict and
  * lossy, white space, splitting and unsigned numbers.
  */
module Text {
  import opened Bytes

  const REPLACEMENT: char := '\U{FFFD}'

  // ---------------------------------------------------------------- UTF-8

  /** The length of the sequence a lead byte announces; 0 for a byte that leads none. */
  function Width(lead: byte): nat {
    if lead < 0x80 then 1
    else if 0xC2 <= lead <= 0xDF then 2
    else if 0xE0 <= lead <= 0xEF then 3
    else if 0xF0 <= lead <= 0xF4 then 4
    else 0
  }

  predicate Continues(b: byte) {
    0x80 <= b <= 0xBF
  }

  /** Whether `b` may follow `lead`: no overlong form, no surrogate, nothing past U+10FFFF. */
  predicate Seconds(lead: byte, b: byte) {
    if lead == 0xE0 then 0xA0 <= b <= 0xBF
    else if lead == 0xED then 0x80 <= b <= 0x9F
    else if lead == 0xF0 then 0x90 <= b <= 0xBF
    else if lead == 0xF4 then 0x80 <= b <= 0x8F
    else Continues(b)
  }

  /** How many bytes at the start of `s` are one sequence, or the start of one that breaks off. */
  function Reach(s: bytes): (n: nat)
    requires s != []
    ensures 1 <= n <= |s|
  {
    var width := Width(s[0]);
    if width <= 1 || |s| < 2 || !Seconds(s[0], s[1]) then 1
    else if width == 2 || |s| < 3 || !Continues(s[2]) then 2
    else if width == 3 || |s| < 4 || !Continues(s[3]) then 3
    else 4
  }

  /** The six bits a continuation byte carries. */
  function Low6(b: byte): nat {
    if b < 0x80 then 0 else b - 0x80
  }

  /** The character at the start of `s`, when a whole sequence stands there. */
  function Scalar(s: bytes): Option<char>
    requires s != []
  {
    var n, lead: int := Reach(s), s[0];
    if n != Width(s[0]) then None
    else if n == 1 then Some(lead as char)
    else if n == 2 then Some((64 * (lead - 0xC0) + Low6(s[1])) as char)
    else if n == 3 then Some((4096 * (lead - 0xE0) + 64 * Low6(s[1]) + Low6(s[2])) as char)
    else Some((262144 * (lead - 0xF0) + 4096 * Low6(s[1]) + 64 * Low6(s[2]) + Low6(s[3])) as char)
  }

  /** String::from_utf8_lossy: each broken sequence becomes one U+FFFD. */
  function Lossy(s: bytes): string {
    if s == [] then []
    else
      var c := match Scalar(s) case Some(c) => c case None => REPLACEMENT;
      [c] + Lossy(s[Reach(s)..])
  }

  /** str::from_utf8: None unless every sequence is whole. */
  function Strict(s: bytes): Option<string> {
    if s == [] then Some([])
    else match Scalar(s)
      case None => None
      case Some(c) =>
        match Strict(s[Reach(s)..])
        case None => None
        case Some(rest) => Some([c] + rest)
  }

  predicate IsAscii(t: string) {
    forall i :: 0 <= i < |t| ==> t[i] as int < 128
  }

  /** ASCII text as its bytes. */
  function Ascii(t: string): (s: bytes)
    requires IsAscii(t)
    ensures |s| == |t|
    ensures forall i :: 0 <= i < |s| ==> s[i] == t[i] as int
  {
    seq(|t|, i requires 0 <= i < |t| => t[i] as int)
  }

  /** Both decoders give ASCII text back unchanged. */
  lemma {:induction false} DecodesAscii(t: string)
    requires IsAscii(t)
    ensures Lossy(Ascii(t)) == t
    ensures Strict(Ascii(t)) == Some(t)
  {
    if t != [] {
      var s := Ascii(t);
      assert s[Reach(s)..] == Ascii(t[1..]);
      DecodesAscii(t[1..]);
      assert t == [t[0]] + t[1..];
    }
  }

  // ---------------------------------------------------------------- white space and splitting

  /** char::is_whitespace, the Unicode property White_Space. */
  predicate IsSpace(c: char) {
    var n := c as int;
    || 9 <= n <= 13 || n == 0x20 || n == 0x85 || n == 0xA0 || n == 0x1680
    || 0x2000 <= n <= 0x200A || n == 0x2028 || n == 0x2029 || n == 0x202F || n == 0x205F || n == 0x3000
  }

  function TrimStart(s: string): string {
    if s != [] && IsSpace(s[0]) then TrimStart(s[1..]) else s
  }

  function TrimEnd(s: string): string {
    if s != [] && IsSpace(s[|s| - 1]) then TrimEnd(s[..|s| - 1]) else s
  }

  function Trim(s: string): string {
    TrimEnd(TrimStart(s))
  }

  /** The index of the first `c` in `s`, or the length of `s` when there is none. */
  function IndexOf(s: string, c: char): (i: nat)
    ensures i <= |s|
    ensures i < |s| ==> s[i] == c
    ensures forall j :: 0 <= j < i ==> s[j] != c
  {
    if s == [] || s[0] == c then 0 else 1 + IndexOf(s[1..], c)
  }

  /** Where the first line of `s` ends: at CRLF or at the end of `s`. */
  function LineEnd(s: string): (i: nat)
    ensures i <= |s|
    ensures i < |s| ==> i + 2 <= |s| && s[i] == '\r' && s[i + 1] == '\n'
    ensures forall j :: 0 <= j < i && j + 1 < |s| ==> !(s[j] == '\r' && s[j + 1] == '\n')
  {
    if s == [] || (|s| >= 2 && s[0] == '\r' && s[1] == '\n') then 0 else 1 + LineEnd(s[1..])
  }

  /** split("\r\n") */
  function Lines(s: string): (lines: seq<string>)
    ensures |lines| > 0
    decreases |s|
  {
    var i := LineEnd(s);
    if i == |s| then [s] else [s[..i]] + Lines(s[i + 2..])
  }

  /** The length of the run of characters at the start of `s` that are no white space. */
  function TokenLength(s: string): (n: nat)
    ensures n <= |s|
  {
    if s == [] || IsSpace(s[0]) then 0 else 1 + TokenLength(s[1..])
  }

  /** split_whitespace().nth(n) */
  function Token(s: string, n: nat): Option<string>
    decreases |s|
  {
    var rest := TrimStart(s);
    TrimStartShortens(s);
    if rest == [] then None
    else if n == 0 then Some(rest[..TokenLength(rest)])
    else Token(rest[TokenLength(rest)..], n - 1)
  }

  lemma TrimStartShortens(s: string)
    ensures |TrimStart(s)| <= |s|
    ensures TrimStart(s) != [] ==> !IsSpace(TrimStart(s)[0]) && TokenLength(TrimStart(s)) > 0
  {
  }

  // ---------------------------------------------------------------- ASCII case

  function Lower(c: char): char {
    if 'A' <= c <= 'Z' then (c as int + 32) as char else c
  }

  /** to_ascii_lowercase */
  function ToLower(s: string): (t: string)
    ensures |t| == |s|
    ensures forall i :: 0 <= i < |s| ==> t[i] == Lower(s[i])
  {
    seq(|s|, i requires 0 <= i < |s| => Lower(s[i]))
  }

  /** eq_ignore_ascii_case */
  predicate SameIgnoringCase(s: string, t: string) {
    ToLower(s) == ToLower(t)
  }

  /** str::contains of a word */
  predicate Contains(s: string, word: string) {
    word <= s || (s != [] && Contains(s[1..], word))
  }

  // ---------------------------------------------------------------- numbers

  /** char::to_digit */
  function Digit(c: char, radix: nat): Option<nat>
    requires radix == 10 || radix == 16
  {
    var d :=
      if '0' <= c <= '9' then c as int - '0' as int
      else if 'a' <= c <= 'f' then c as int - 'a' as int + 10
      else if 'A' <= c <= 'F' then c as int - 'A' as int + 10
      else 16;
    if d < radix then Some(d) else None
  }

  /** The value of a string of digits; None when some character is none. */
  function Digits(s: string, radix: nat): Option<nat>
    requires radix == 10 || radix == 16
  {
    if s == [] then Some(0)
    else match (Digits(s[..|s| - 1], radix), Digit(s[|s| - 1], radix))
      case (Some(high), Some(low)) => Some(high * radix + low)
      case _ => None
  }

  /** from_str_radix of an unsigned type whose largest value is `max`: a leading plus is allowed. */
  function ParseUnsigned(s: string, radix: nat, max: nat): Option<nat>
    requires radix == 10 || radix == 16
  {
    var digits := if |s| > 1 && s[0] == '+' then s[1..] else s;
    if digits == [] then None
    else match Digits(digits, radix)
      case Some(n) => if n <= max then Some(n) else None
      case None => None
  }
}
