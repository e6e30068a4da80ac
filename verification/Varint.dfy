/** Variable-length integers (RFC 9000, section 16) as the capsules and datagrams carry them. */
module Varint {
  import opened Bytes

  // ---------------------------------------------------------------- big-endian numbers

  function Pow256(n: nat): (p: nat)
    ensures p > 0
  {
    if n == 0 then 1 else 256 * Pow256(n - 1)
  }

  /** The number big-endian bytes stand for. */
  function Number(s: bytes): nat {
    if s == [] then 0 else 256 * Number(s[..|s| - 1]) + s[|s| - 1]
  }

  /** The last `n` bytes of `v`, big-endian. */
  function BigEndian(v: nat, n: nat): (s: bytes)
    ensures |s| == n
  {
    if n == 0 then [] else BigEndian(v / 256, n - 1) + [v % 256]
  }

  lemma {:induction false} NumberOfBytes(v: nat, n: nat)
    requires v < Pow256(n)
    ensures Number(BigEndian(v, n)) == v
    ensures n > 0 && v < 64 * Pow256(n - 1) ==> BigEndian(v, n)[0] < 64
  {
    if n > 0 {
      NumberOfBytes(v / 256, n - 1);
      var s := BigEndian(v, n);
      assert s[..n - 1] == BigEndian(v / 256, n - 1);
    }
  }

  lemma {:induction false} NumberBound(s: bytes)
    requires s != []
    ensures Number(s) < Pow256(|s|)
    ensures s[0] < 64 ==> Number(s) < 64 * Pow256(|s| - 1)
  {
    if |s| > 1 {
      NumberBound(s[..|s| - 1]);
    } else {
      assert s[..0] == [];
    }
  }

  // ---------------------------------------------------------------- variable-length integers

  const VARINT_LIMIT: nat := 0x4000_0000_0000_0000

  function VarintLen(v: nat): nat {
    if v < 64 then 1 else if v < 16384 then 2 else if v < 1_073_741_824 then 4 else 8
  }

  /** How long an integer is, by the two high bits of its first byte. */
  function WidthOf(first: byte): nat {
    var tag := first / 64;
    if tag == 0 then 1 else if tag == 1 then 2 else if tag == 2 then 4 else 8
  }

  function TagOf(width: nat): nat {
    if width == 1 then 0 else if width == 2 then 1 else if width == 4 then 2 else 3
  }

  function PutVarint(v: nat): (s: bytes)
    requires v < VARINT_LIMIT
    ensures |s| == VarintLen(v)
  {
    var n := VarintLen(v);
    var s := BigEndian(v, n);
    FitsWidth(v);
    NumberOfBytes(v, n);
    [s[0] + 64 * TagOf(n)] + s[1..]
  }

  lemma FitsWidth(v: nat)
    requires v < VARINT_LIMIT
    ensures v < 64 * Pow256(VarintLen(v) - 1)
  {
    assert Pow256(1) == 256 && Pow256(3) == 0x100_0000 by {
      assert Pow256(2) == 0x1_0000;
    }
    assert Pow256(5) == 0x100_0000_0000 by {
      assert Pow256(4) == 0x1_0000_0000;
    }
    assert Pow256(7) == 0x100_0000_0000_0000 by {
      assert Pow256(6) == 0x1_0000_0000_0000;
    }
  }

  /** The integer at the start of `s` and its length; None when it has not come whole. */
  function GetVarint(s: bytes): (r: Option<(nat, nat)>)
    ensures r.Some? ==> 0 < r.value.1 <= |s|
  {
    if s == [] || WidthOf(s[0]) > |s| then None
    else
      var n := WidthOf(s[0]);
      Some((Number([s[0] % 64] + s[1..n]), n))
  }

  /** An integer that was put is got, whatever follows it. */
  lemma VarintRoundTrip(v: nat, rest: bytes)
    requires v < VARINT_LIMIT
    ensures GetVarint(PutVarint(v) + rest) == Some((v, VarintLen(v)))
  {
    var n := VarintLen(v);
    var plain := BigEndian(v, n);
    FitsWidth(v);
    NumberOfBytes(v, n);
    var s := PutVarint(v) + rest;
    assert s[0] == plain[0] + 64 * TagOf(n);
    assert [s[0] % 64] + s[1..n] == plain;
  }

  /** The start of an integer, cut short, is not taken for one. */
  lemma VarintCut(v: nat, cut: nat)
    requires v < VARINT_LIMIT && cut < VarintLen(v)
    ensures GetVarint(PutVarint(v)[..cut]) == None
  {
    VarintRoundTrip(v, []);
    assert PutVarint(v) + [] == PutVarint(v);
  }

  lemma GetVarintExtends(s: bytes, more: bytes)
    requires GetVarint(s).Some?
    ensures GetVarint(s + more) == GetVarint(s)
    ensures GetVarint(s).value.0 < VARINT_LIMIT
  {
    var n := WidthOf(s[0]);
    assert (s + more)[1..n] == s[1..n];
    NumberBound([s[0] % 64] + s[1..n]);
    FitsWidth(VARINT_LIMIT - 1);
    assert Pow256(7) == 0x100_0000_0000_0000 by {
      assert Pow256(6) == 0x1_0000_0000_0000 && Pow256(4) == 0x1_0000_0000;
    }
  }
}
