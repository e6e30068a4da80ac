/** Bytes, big-endian numbers and byte searches, shared by every parser of the model. */
module Bytes {

  type byte = b: int | 0 <= b < 256
  type bytes = seq<byte>

  datatype Option<+T> = None | Some(value: T)

  datatype Result<+T, +E> = Ok(value: T) | Err(error: E)

  /** The largest usize of a 64-bit target. */
  const USIZE_MAX: nat := 0xFFFF_FFFF_FFFF_FFFF

  function U16(hi: byte, lo: byte): (n: nat)
    ensures n < 0x1_0000
  {
    256 * hi + lo
  }

  function BE16(n: nat): (s: bytes)
    requires n < 0x1_0000
    ensures |s| == 2 && U16(s[0], s[1]) == n
  {
    [n / 256, n % 256]
  }

  /** The pieces joined end to end. */
  function Concat(pieces: seq<bytes>): bytes {
    if pieces == [] then [] else pieces[0] + Concat(pieces[1..])
  }

  lemma {:induction false} ConcatAppend(xs: seq<bytes>, ys: seq<bytes>)
    ensures Concat(xs + ys) == Concat(xs) + Concat(ys)
  {
    if xs == [] {
      assert xs + ys == ys;
    } else {
      assert (xs + ys)[1..] == xs[1..] + ys;
      ConcatAppend(xs[1..], ys);
    }
  }

  lemma ConcatSnoc(xs: seq<bytes>, y: bytes)
    ensures Concat(xs + [y]) == Concat(xs) + y
  {
    ConcatAppend(xs, [y]);
    assert Concat([y]) == y + Concat([]);
  }

  /** What stands between the bytes `separator` of `s`: one part more than there are of them. */
  function Split(s: bytes, separator: byte): (parts: seq<bytes>)
    ensures |parts| > 0
  {
    if s == [] then [[]]
    else
      var rest := Split(s[1..], separator);
      if s[0] == separator then [[]] + rest else [[s[0]] + rest[0]] + rest[1..]
  }

  // ---------------------------------------------------------------- standing at a place

  /** Whether `piece` stands in `s` at index `at`. */
  predicate Stands(s: bytes, at: nat, piece: bytes) {
    at + |piece| <= |s| && s[at..at + |piece|] == piece
  }

  /** Two pieces stand in a row exactly when each stands at its own place. */
  lemma StandsJoin(s: bytes, at: nat, x: bytes, y: bytes)
    ensures Stands(s, at, x + y) <==> Stands(s, at, x) && Stands(s, at + |x|, y)
  {
    if at + |x| + |y| <= |s| {
      var both := s[at..at + |x| + |y|];
      assert both[..|x|] == s[at..at + |x|] && both[|x|..] == s[at + |x|..at + |x| + |y|];
      assert (x + y)[..|x|] == x && (x + y)[|x|..] == y;
      assert both == both[..|x|] + both[|x|..];
    }
  }

  lemma StandsAt(s: bytes, at: nat, piece: bytes, k: nat)
    requires Stands(s, at, piece) && k < |piece|
    ensures s[at + k] == piece[k]
  {
    assert s[at..at + |piece|][k] == s[at + k];
  }

  lemma SliceOfSlice(s: bytes, a: nat, b: nat, c: nat, d: nat)
    requires a <= b <= |s| && c <= d <= b - a
    ensures s[a..b][c..d] == s[a + c..a + d]
  {
    var x, y := s[a..b][c..d], s[a + c..a + d];
    assert |x| == |y|;
    forall i | 0 <= i < |x| ensures x[i] == y[i] {
      assert x[i] == s[a..b][c + i] == s[a + (c + i)];
    }
  }

  // ---------------------------------------------------------------- searching

  /** Whether `pattern` stands at index `i` of `s`. */
  predicate Matches(s: bytes, i: nat, pattern: bytes) {
    i + |pattern| <= |s| && forall k :: 0 <= k < |pattern| ==> s[i + k] == pattern[k]
  }

  ghost predicate First(s: bytes, from: nat, pattern: bytes, i: nat) {
    from <= i && Matches(s, i, pattern) && forall j :: from <= j < i ==> !Matches(s, j, pattern)
  }

  /** The first place at or after `from` where `pattern` stands. */
  ghost function Find(s: bytes, from: nat, pattern: bytes): (r: Option<nat>)
    ensures r.Some? ==> First(s, from, pattern, r.value)
    ensures r.None? ==> forall j :: from <= j ==> !Matches(s, j, pattern)
  {
    if exists i: nat :: First(s, from, pattern, i) then
      var i: nat :| First(s, from, pattern, i);
      Some(i)
    else
      NoneIsFirst(s, from, pattern);
      None
  }

  /** Where there is a match, there is a first one. */
  lemma NoneIsFirst(s: bytes, from: nat, pattern: bytes)
    requires !exists i: nat :: First(s, from, pattern, i)
    ensures forall j :: from <= j ==> !Matches(s, j, pattern)
  {
    forall j | from <= j ensures !Matches(s, j, pattern) {
      var k := from;
      while k <= j
        invariant from <= k <= j + 1
        invariant forall i :: from <= i < k ==> !Matches(s, i, pattern)
      {
        assert !First(s, from, pattern, k);
        k := k + 1;
      }
    }
  }

  /** What follows a match does not move it. */
  lemma FindExtends(s: bytes, t: bytes, from: nat, pattern: bytes)
    requires Find(s, from, pattern).Some?
    ensures Find(s + t, from, pattern) == Find(s, from, pattern)
  {
    var i := Find(s, from, pattern).value;
    assert Matches(s + t, i, pattern);
    forall j | from <= j < i ensures !Matches(s + t, j, pattern) {
      assert !Matches(s, j, pattern);
    }
  }

  /** A search may start past a stretch in which the pattern does not stand. */
  lemma FindSkips(s: bytes, from: nat, later: nat, pattern: bytes)
    requires from <= later
    requires forall j :: from <= j < later ==> !Matches(s, j, pattern)
    ensures Find(s, from, pattern) == Find(s, later, pattern)
  {
  }

  /**
    * The search of `windows(n).position(..)` from index `from`, with the number of windows it
    * compares.
    */
  method Search(s: bytes, from: nat, pattern: bytes) returns (r: Option<nat>, ghost windows: nat)
    requires |pattern| > 0
    ensures r == Find(s, from, pattern)
    ensures r.Some? ==> windows == r.value - from + 1
    ensures r.None? ==> windows == if from + |pattern| <= |s| then |s| - |pattern| - from + 1 else 0
  {
    var i := from;
    windows := 0;
    while i + |pattern| <= |s|
      invariant from <= i && windows == i - from
      invariant i > from ==> i + |pattern| <= |s| + 1
      invariant Find(s, from, pattern) == Find(s, i, pattern)
    {
      windows := windows + 1;
      var window := s[i..i + |pattern|];
      assert Matches(s, i, window) && (Matches(s, i, pattern) ==> window == pattern);
      if window == pattern {
        return Some(i), windows;
      }
      i := i + 1;
    }
    r := None;
  }
}
