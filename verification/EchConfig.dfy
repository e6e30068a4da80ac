/**
  * ECHConfigLists (draft-ietf-tls-esni, section 4): the check that a list is one BoringSSL offers
  * a key from, and the grammar it decides.
  */
module EchConfig {
  import opened Bytes

  const ECH_CONFIG_VERSION: nat := 0xfe0d
  const HPKE_DHKEM_X25519_HKDF_SHA256: nat := 0x0020
  const HPKE_HKDF_SHA256: nat := 0x0001
  const X25519_PUBLIC_KEY_LEN: nat := 32

  datatype Fault = Malformed | KeyLength | NothingOffered

  // ---------------------------------------------------------------- fields

  /** A field read off the front of some bytes, and the bytes behind it. */
  datatype Got<+T> = Nothing | Got(value: T, rest: bytes)

  function Take(s: bytes, n: nat): Got<bytes> {
    if |s| < n then Nothing else Got(s[..n], s[n..])
  }

  function TakeU8(s: bytes): Got<byte> {
    if |s| < 1 then Nothing else Got(s[0], s[1..])
  }

  function TakeU16(s: bytes): Got<nat> {
    if |s| < 2 then Nothing else Got(U16(s[0], s[1]), s[2..])
  }

  function TakePrefixed8(s: bytes): Got<bytes> {
    match TakeU8(s) case Nothing => Nothing case Got(n, rest) => Take(rest, n)
  }

  function TakePrefixed16(s: bytes): Got<bytes> {
    match TakeU16(s) case Nothing => Nothing case Got(n, rest) => Take(rest, n)
  }

  /** Bytes behind their length, in one byte or in two. */
  function Prefixed8(x: bytes): bytes
    requires |x| < 0x100
  {
    [|x|] + x
  }

  function Prefixed16(x: bytes): bytes
    requires |x| < 0x1_0000
  {
    BE16(|x|) + x
  }

  lemma U16Exact(s: bytes, n: nat, rest: bytes)
    requires n < 0x1_0000
    ensures TakeU16(s) == Got(n, rest) <==> s == BE16(n) + rest
  {
    if TakeU16(s) == Got(n, rest) {
      assert s == [s[0], s[1]] + s[2..];
    }
  }

  lemma U8Exact(s: bytes, b: byte, rest: bytes)
    ensures TakeU8(s) == Got(b, rest) <==> s == [b] + rest
  {
    if TakeU8(s) == Got(b, rest) {
      assert s == [s[0]] + s[1..];
    }
  }

  lemma Prefixed16Exact(s: bytes, x: bytes, rest: bytes)
    ensures TakePrefixed16(s) == Got(x, rest) <==> |x| < 0x1_0000 && s == Prefixed16(x) + rest
  {
    if TakePrefixed16(s) == Got(x, rest) {
      assert s == BE16(|x|) + s[2..] && s[2..] == x + rest;
      assert s == Prefixed16(x) + rest;
    }
    if |x| < 0x1_0000 && s == Prefixed16(x) + rest {
      assert s[2..] == x + rest && (x + rest)[..|x|] == x && (x + rest)[|x|..] == rest;
      assert s[0] == BE16(|x|)[0] && s[1] == BE16(|x|)[1];
    }
  }

  lemma Prefixed8Exact(s: bytes, x: bytes, rest: bytes)
    ensures TakePrefixed8(s) == Got(x, rest) <==> |x| < 0x100 && s == Prefixed8(x) + rest
  {
    if TakePrefixed8(s) == Got(x, rest) {
      assert s == [|x|] + s[1..] && s[1..] == x + rest;
      assert s == Prefixed8(x) + rest;
    }
    if |x| < 0x100 && s == Prefixed8(x) + rest {
      assert s[1..] == x + rest && (x + rest)[..|x|] == x && (x + rest)[|x|..] == rest;
    }
  }

  // ---------------------------------------------------------------- public names

  const DOT: byte := 46
  const HYPHEN: byte := 45

  predicate IsDigit(b: byte) { 48 <= b <= 57 }

  predicate IsAlphanumeric(b: byte) { IsDigit(b) || 65 <= b <= 90 || 97 <= b <= 122 }

  predicate IsHexDigit(b: byte) { IsDigit(b) || 65 <= b <= 70 || 97 <= b <= 102 }

  predicate GoodLabel(part: bytes) {
    && 0 < |part| <= 63
    && part[0] != HYPHEN && part[|part| - 1] != HYPHEN
    && forall i :: 0 <= i < |part| ==> IsAlphanumeric(part[i]) || part[i] == HYPHEN
  }

  /** A label that reads as a number: decimal, or hexadecimal behind 0x. */
  predicate Numeric(part: bytes) {
    || (forall i :: 0 <= i < |part| ==> IsDigit(part[i]))
    || (|part| >= 2 && part[0] == 48 && (part[1] == 120 || part[1] == 88)
        && forall i :: 2 <= i < |part| ==> IsHexDigit(part[i]))
  }

  predicate ValidName(name: bytes) {
    var labels := Split(name, DOT);
    && (forall i :: 0 <= i < |labels| ==> GoodLabel(labels[i]))
    && !Numeric(labels[|labels| - 1])
  }

  method ValidPublicName(name: bytes) returns (valid: bool)
    ensures valid == ValidName(name)
  {
    var last: bytes := [];
    var labels := Split(name, DOT);
    for n := 0 to |labels|
      invariant forall i :: 0 <= i < n ==> GoodLabel(labels[i])
      invariant n > 0 ==> last == labels[n - 1]
    {
      var part := labels[n];
      var ldh := true;
      for i := 0 to |part|
        invariant ldh <==> forall j :: 0 <= j < i ==> IsAlphanumeric(part[j]) || part[j] == HYPHEN
      {
        ldh := ldh && (IsAlphanumeric(part[i]) || part[i] == HYPHEN);
      }
      if part == [] || |part| > 63 || part[0] == HYPHEN || part[|part| - 1] == HYPHEN || !ldh {
        assert !GoodLabel(labels[n]);
        return false;
      }
      last := part;
    }
    var decimal := forall i :: 0 <= i < |last| ==> IsDigit(last[i]);
    var hex := |last| >= 2 && last[0] == 48 && (last[1] == 120 || last[1] == 88)
               && forall i :: 2 <= i < |last| ==> IsHexDigit(last[i]);
    return !decimal && !hex;
  }

  // ---------------------------------------------------------------- the lists in a config

  /** Whether some extension is mandatory; None when the extensions do not parse. */
  function ReadExtensions(s: bytes): Option<bool>
    decreases |s|
  {
    if s == [] then Some(false)
    else match TakeU16(s)
      case Nothing => None
      case Got(kind, s') =>
        match TakePrefixed16(s')
        case Nothing => None
        case Got(_, rest) =>
          match ReadExtensions(rest)
          case None => None
          case Some(later) => Some(kind >= 0x8000 || later)
  }

  predicate Offered(kdf: nat, aead: nat) {
    kdf == HPKE_HKDF_SHA256 && (aead == 1 || aead == 2 || aead == 3)
  }

  /** Whether some cipher suite is one that is offered; None when the suites break off. */
  function ReadSuites(s: bytes): Option<bool>
    decreases |s|
  {
    if s == [] then Some(false)
    else match TakeU16(s)
      case Nothing => None
      case Got(kdf, s') =>
        match TakeU16(s')
        case Nothing => None
        case Got(aead, rest) =>
          match ReadSuites(rest)
          case None => None
          case Some(later) => Some(Offered(kdf, aead) || later)
  }

  // ---------------------------------------------------------------- one config

  /** The contents of a config of the version BoringSSL offers. */
  datatype Contents = Contents(
    id: byte, kem: nat, key: bytes, suites: bytes, maxName: byte, name: bytes, extensions: bytes)

  function TakeContents(s: bytes): Option<Contents> {
    match TakeU8(s)
    case Nothing => None
    case Got(id, s1) =>
      match TakeU16(s1)
      case Nothing => None
      case Got(kem, s2) =>
        match TakePrefixed16(s2)
        case Nothing => None
        case Got(key, s3) =>
          match TakePrefixed16(s3)
          case Nothing => None
          case Got(suites, s4) =>
            match TakeU8(s4)
            case Nothing => None
            case Got(maxName, s5) =>
              match TakePrefixed8(s5)
              case Nothing => None
              case Got(name, s6) =>
                match TakePrefixed16(s6)
                case Nothing => None
                case Got(extensions, s7) =>
                  if s7 != [] then None
                  else Some(Contents(id, kem, key, suites, maxName, name, extensions))
  }

  /** What a config offers: None for one that is malformed, Some(None) for one to pass over, or its key. */
  function Judge(version: nat, contents: bytes): Option<Option<bytes>> {
    if version != ECH_CONFIG_VERSION then Some(None)
    else match TakeContents(contents)
      case None => None
      case Some(c) =>
        if c.key == [] || c.suites == [] || |c.suites| % 4 != 0 || c.name == [] then None
        else if !ValidName(c.name) then Some(None)
        else match (ReadExtensions(c.extensions), ReadSuites(c.suites))
          case (Some(mandatory), Some(suite)) =>
            Some(if !mandatory && c.kem == HPKE_DHKEM_X25519_HKDF_SHA256 && suite then Some(c.key) else None)
          case _ => None
  }

  /** One config off the front of `s`: what it offers. */
  function ConfigAt(s: bytes): Got<Option<bytes>> {
    match TakeU16(s)
    case Nothing => Nothing
    case Got(version, s') =>
      match TakePrefixed16(s')
      case Nothing => Nothing
      case Got(contents, rest) =>
        match Judge(version, contents) case None => Nothing case Some(offer) => Got(offer, rest)
  }

  /** The key of the first config that offers one; None when some config does not parse. */
  function Pick(s: bytes): Option<Option<bytes>>
    decreases |s|
  {
    if s == [] then Some(None)
    else match ConfigAt(s)
      case Nothing => None
      case Got(offer, rest) =>
        match Pick(rest)
        case None => None
        case Some(later) => Some(Or(offer, later))
  }

  function Or<T>(x: Option<T>, y: Option<T>): Option<T> {
    if x.Some? then x else y
  }

  function Verdict(picked: Option<bytes>): Result<(), Fault> {
    match picked
    case None => Err(NothingOffered)
    case Some(key) => if |key| == X25519_PUBLIC_KEY_LEN then Ok(()) else Err(KeyLength)
  }

  function Check(list: bytes): Result<(), Fault> {
    match TakePrefixed16(list)
    case Nothing => Err(Malformed)
    case Got(configs, rest) =>
      if configs == [] || rest != [] then Err(Malformed)
      else match Pick(configs) case None => Err(Malformed) case Some(picked) => Verdict(picked)
  }

  // ---------------------------------------------------------------- the grammar

  datatype Extensions = NoExtension | Extension(kind: nat, data: bytes, rest: Extensions)

  predicate FitExtensions(e: Extensions) {
    e.Extension? ==> e.kind < 0x1_0000 && |e.data| < 0x1_0000 && FitExtensions(e.rest)
  }

  function ExtensionsWire(e: Extensions): bytes
    requires FitExtensions(e)
  {
    if e.NoExtension? then [] else BE16(e.kind) + (Prefixed16(e.data) + ExtensionsWire(e.rest))
  }

  /** Some extension has the high bit of a mandatory one. */
  predicate Mandatory(e: Extensions) {
    e.Extension? && (e.kind >= 0x8000 || Mandatory(e.rest))
  }

  datatype Suites = NoSuite | Suite(kdf: nat, aead: nat, rest: Suites)

  predicate FitSuites(s: Suites) {
    s.Suite? ==> s.kdf < 0x1_0000 && s.aead < 0x1_0000 && FitSuites(s.rest)
  }

  function SuiteCount(s: Suites): nat {
    if s.NoSuite? then 0 else 1 + SuiteCount(s.rest)
  }

  function SuitesWire(s: Suites): (w: bytes)
    requires FitSuites(s)
    ensures |w| == 4 * SuiteCount(s)
  {
    hide BE16, U16;
    if s.NoSuite? then [] else BE16(s.kdf) + (BE16(s.aead) + SuitesWire(s.rest))
  }

  predicate AnyOffered(s: Suites) {
    s.Suite? && (Offered(s.kdf, s.aead) || AnyOffered(s.rest))
  }

  /** The extensions of a config: read as a list, or not at all behind an invalid public name. */
  datatype Tail = Listed(list: Extensions) | Unread(raw: bytes)

  datatype Config =
    | Foreign(version: nat, contents: bytes)
    | Ech(id: byte, kem: nat, key: bytes, suites: Suites, maxName: byte, name: bytes, tail: Tail)

  predicate GoodTail(name: bytes, t: Tail) {
    && t.Listed? == ValidName(name)
    && (t.Listed? ==> FitExtensions(t.list))
    && |TailWire(t)| < 0x1_0000
  }

  function TailWire(t: Tail): bytes {
    if t.Unread? then t.raw else if FitExtensions(t.list) then ExtensionsWire(t.list) else []
  }

  predicate FitContents(c: Contents) {
    c.kem < 0x1_0000 && |c.key| < 0x1_0000 && |c.suites| < 0x1_0000 && |c.name| < 0x100 && |c.extensions| < 0x1_0000
  }

  function ContentsWire(c: Contents): bytes
    requires FitContents(c)
  {
    [c.id] + (BE16(c.kem) + (Prefixed16(c.key) + (Prefixed16(c.suites)
    + ([c.maxName] + (Prefixed8(c.name) + Prefixed16(c.extensions))))))
  }

  function ContentsOf(c: Config): Contents
    requires c.Ech? && FitSuites(c.suites)
  {
    Contents(c.id, c.kem, c.key, SuitesWire(c.suites), c.maxName, c.name, TailWire(c.tail))
  }

  /** A config that parses. */
  predicate GoodConfig(c: Config) {
    match c
    case Foreign(version, contents) =>
      version < 0x1_0000 && version != ECH_CONFIG_VERSION && |contents| < 0x1_0000
    case Ech(_, kem, key, suites, _, name, tail) =>
      && FitSuites(suites) && FitContents(ContentsOf(c))
      && key != [] && suites.Suite? && name != [] && GoodTail(name, tail)
      && |ContentsWire(ContentsOf(c))| < 0x1_0000
  }

  function VersionOf(c: Config): nat {
    if c.Foreign? then c.version else ECH_CONFIG_VERSION
  }

  function BytesOf(c: Config): bytes
    requires GoodConfig(c)
  {
    if c.Foreign? then c.contents else ContentsWire(ContentsOf(c))
  }

  /** The key BoringSSL would offer ECH with, for a config it does not pass over. */
  function Offer(c: Config): Option<bytes> {
    if c.Ech? && ValidName(c.name) && c.tail.Listed? && !Mandatory(c.tail.list)
       && c.kem == HPKE_DHKEM_X25519_HKDF_SHA256 && AnyOffered(c.suites)
    then Some(c.key) else None
  }

  datatype Configs = NoConfig | More(config: Config, rest: Configs)

  predicate GoodConfigs(cs: Configs) {
    cs.More? ==> GoodConfig(cs.config) && GoodConfigs(cs.rest)
  }

  function ConfigsWire(cs: Configs): bytes
    requires GoodConfigs(cs)
  {
    if cs.NoConfig? then []
    else BE16(VersionOf(cs.config)) + (Prefixed16(BytesOf(cs.config)) + ConfigsWire(cs.rest))
  }

  /** The key of the first config that offers one. */
  function FirstOffer(cs: Configs): Option<bytes> {
    if cs.NoConfig? then None else if Offer(cs.config).Some? then Offer(cs.config) else FirstOffer(cs.rest)
  }

  /** A list of at least one config, each of which parses. */
  ghost predicate IsList(list: bytes, cs: Configs) {
    cs.More? && GoodConfigs(cs) && |ConfigsWire(cs)| < 0x1_0000 && list == Prefixed16(ConfigsWire(cs))
  }

  // ---------------------------------------------------------------- what is written is read

  lemma {:induction false} ExtensionsRead(e: Extensions)
    requires FitExtensions(e)
    ensures ReadExtensions(ExtensionsWire(e)) == Some(Mandatory(e))
  {
    if e.Extension? {
      var tail := ExtensionsWire(e.rest);
      U16Exact(ExtensionsWire(e), e.kind, Prefixed16(e.data) + tail);
      Prefixed16Exact(Prefixed16(e.data) + tail, e.data, tail);
      ExtensionsRead(e.rest);
    }
  }

  lemma {:induction false} SuitesRead(s: Suites)
    requires FitSuites(s)
    ensures ReadSuites(SuitesWire(s)) == Some(AnyOffered(s))
  {
    if s.Suite? {
      var tail := SuitesWire(s.rest);
      U16Exact(SuitesWire(s), s.kdf, BE16(s.aead) + tail);
      U16Exact(BE16(s.aead) + tail, s.aead, tail);
      SuitesRead(s.rest);
    }
  }

  /** The fields of a config are read as they are written, and nothing else reads as them. */
  lemma ContentsRead(c: Contents)
    requires FitContents(c)
    ensures TakeContents(ContentsWire(c)) == Some(c)
  {
    hide TakeU8, TakeU16, TakePrefixed8, TakePrefixed16, Prefixed8, Prefixed16, BE16;
    var s6 := Prefixed16(c.extensions);
    var s5 := Prefixed8(c.name) + s6;
    var s4 := [c.maxName] + s5;
    var s3 := Prefixed16(c.suites) + s4;
    var s2 := Prefixed16(c.key) + s3;
    var s1 := BE16(c.kem) + s2;
    U8Exact(ContentsWire(c), c.id, s1);
    U16Exact(s1, c.kem, s2);
    Prefixed16Exact(s2, c.key, s3);
    Prefixed16Exact(s3, c.suites, s4);
    U8Exact(s4, c.maxName, s5);
    Prefixed8Exact(s5, c.name, s6);
    assert s6 == s6 + [];
    Prefixed16Exact(s6, c.extensions, []);
  }

  lemma ContentsFound(s: bytes)
    requires TakeContents(s).Some?
    ensures FitContents(TakeContents(s).value) && ContentsWire(TakeContents(s).value) == s
  {
    var c := TakeContents(s).value;
    var s1 := TakeU8(s).rest;
    var s2 := TakeU16(s1).rest;
    var s3 := TakePrefixed16(s2).rest;
    var s4 := TakePrefixed16(s3).rest;
    var s5 := TakeU8(s4).rest;
    var s6 := TakePrefixed8(s5).rest;
    U8Exact(s, c.id, s1);
    U16Exact(s1, c.kem, s2);
    Prefixed16Exact(s2, c.key, s3);
    Prefixed16Exact(s3, c.suites, s4);
    U8Exact(s4, c.maxName, s5);
    Prefixed8Exact(s5, c.name, s6);
    Prefixed16Exact(s6, c.extensions, []);
    assert s6 == Prefixed16(c.extensions) + [] == Prefixed16(c.extensions);
  }

  lemma ConfigRead(c: Config)
    requires GoodConfig(c)
    ensures Judge(VersionOf(c), BytesOf(c)) == Some(Offer(c))
  {
    hide TakeContents, ContentsWire, ReadSuites, ReadExtensions, ValidName, SuitesWire, ExtensionsWire;
    if c.Ech? {
      ContentsRead(ContentsOf(c));
      SuitesRead(c.suites);
      if c.tail.Listed? {
        ExtensionsRead(c.tail.list);
      }
    }
  }

  lemma {:induction false} ConfigsRead(cs: Configs)
    requires GoodConfigs(cs)
    ensures Pick(ConfigsWire(cs)) == Some(FirstOffer(cs))
  {
    hide Judge, Offer, BytesOf;
    if cs.More? {
      var c, tail := cs.config, ConfigsWire(cs.rest);
      BytesFit(c);
      U16Exact(ConfigsWire(cs), VersionOf(c), Prefixed16(BytesOf(c)) + tail);
      Prefixed16Exact(Prefixed16(BytesOf(c)) + tail, BytesOf(c), tail);
      ConfigRead(c);
      ConfigsRead(cs.rest);
    }
  }

  lemma BytesFit(c: Config)
    requires GoodConfig(c)
    ensures VersionOf(c) < 0x1_0000 && |BytesOf(c)| < 0x1_0000
  {
  }

  // ---------------------------------------------------------------- what is read was written

  lemma {:induction false} ExtensionsFound(s: bytes) returns (e: Extensions)
    requires ReadExtensions(s).Some?
    ensures FitExtensions(e) && ExtensionsWire(e) == s
    decreases |s|
  {
    if s == [] {
      e := NoExtension;
    } else {
      var Got(kind, s') := TakeU16(s);
      var Got(data, rest) := TakePrefixed16(s');
      U16Exact(s, kind, s');
      Prefixed16Exact(s', data, rest);
      var later := ExtensionsFound(rest);
      e := Extension(kind, data, later);
    }
  }

  lemma {:induction false} SuitesFound(s: bytes) returns (x: Suites)
    requires ReadSuites(s).Some?
    ensures FitSuites(x) && SuitesWire(x) == s
    decreases |s|
  {
    if s == [] {
      x := NoSuite;
    } else {
      var Got(kdf, s') := TakeU16(s);
      var Got(aead, rest) := TakeU16(s');
      U16Exact(s, kdf, s');
      U16Exact(s', aead, rest);
      var later := SuitesFound(rest);
      x := Suite(kdf, aead, later);
    }
  }

  /** Cipher suites of a whole number of suites never break off. */
  lemma {:induction false} SuitesWhole(s: bytes)
    requires |s| % 4 == 0
    ensures ReadSuites(s).Some?
    decreases |s|
  {
    if s != [] {
      assert s[2..][2..] == s[4..];
      SuitesWhole(s[4..]);
    }
  }

  lemma ConfigFound(version: nat, contents: bytes) returns (c: Config)
    requires version < 0x1_0000 && |contents| < 0x1_0000
    requires Judge(version, contents).Some?
    ensures GoodConfig(c) && VersionOf(c) == version && BytesOf(c) == contents
  {
    if version != ECH_CONFIG_VERSION {
      c := Foreign(version, contents);
    } else {
      var x := TakeContents(contents).value;
      ContentsFound(contents);
      SuitesWhole(x.suites);
      var suites := SuitesFound(x.suites);
      var tail := Unread(x.extensions);
      if ValidName(x.name) {
        var list := ExtensionsFound(x.extensions);
        tail := Listed(list);
      }
      c := Ech(x.id, x.kem, x.key, suites, x.maxName, x.name, tail);
    }
  }

  lemma {:induction false} ConfigsFound(s: bytes) returns (cs: Configs)
    requires Pick(s).Some?
    ensures GoodConfigs(cs) && ConfigsWire(cs) == s
    decreases |s|
  {
    if s == [] {
      cs := NoConfig;
    } else {
      var Got(version, s') := TakeU16(s);
      var Got(contents, rest) := TakePrefixed16(s');
      U16Exact(s, version, s');
      Prefixed16Exact(s', contents, rest);
      var c := ConfigFound(version, contents);
      var later := ConfigsFound(rest);
      cs := More(c, later);
    }
  }

  // ---------------------------------------------------------------- the main results

  /** Of a list of configs that parse, the check says what the first one offered deserves. */
  lemma CheckOfList(list: bytes, cs: Configs)
    requires IsList(list, cs)
    ensures Check(list) == Verdict(FirstOffer(cs))
  {
    ConfigsRead(cs);
    var wire := ConfigsWire(cs);
    assert Prefixed16(wire) == Prefixed16(wire) + [];
    Prefixed16Exact(list, wire, []);
  }

  /**
    * The check calls a byte string malformed exactly when it is not a non-empty list of configs
    * that all parse, and accepts it exactly when it is one whose first offered key has 32 bytes.
    */
  lemma CheckDecides(list: bytes)
    ensures Check(list) == Err(Malformed) <==> !exists cs :: IsList(list, cs)
    ensures Check(list).Ok? <==>
            exists cs :: IsList(list, cs) && FirstOffer(cs).Some? && |FirstOffer(cs).value| == X25519_PUBLIC_KEY_LEN
  {
    forall cs | IsList(list, cs) ensures Check(list) == Verdict(FirstOffer(cs)) {
      CheckOfList(list, cs);
    }
    if Check(list) != Err(Malformed) {
      var Got(configs, rest) := TakePrefixed16(list);
      Prefixed16Exact(list, configs, []);
      assert list == Prefixed16(configs) + [] == Prefixed16(configs);
      var cs := ConfigsFound(configs);
      assert IsList(list, cs);
    }
  }

  // ---------------------------------------------------------------- the cursor and the check

  /** A cursor over bytes: each field read is taken off the front. */
  class Fields {
    var rest: bytes

    constructor (s: bytes)
      ensures rest == s
    {
      rest := s;
    }

    method Next(len: nat) returns (r: Option<bytes>)
      modifies this
      ensures match Take(old(rest), len)
              case Nothing => r == None && rest == old(rest)
              case Got(head, tail) => r == Some(head) && rest == tail
    {
      if |rest| < len {
        return None;
      }
      r := Some(rest[..len]);
      rest := rest[len..];
    }

    method U8() returns (r: Option<byte>)
      modifies this
      ensures match TakeU8(old(rest)) case Nothing => r == None case Got(b, tail) => r == Some(b) && rest == tail
    {
      var b := Next(1);
      return if b.None? then None else Some(b.value[0]);
    }

    method BigEndian16() returns (r: Option<nat>)
      modifies this
      ensures match TakeU16(old(rest)) case Nothing => r == None case Got(n, tail) => r == Some(n) && rest == tail
    {
      var b := Next(2);
      return if b.None? then None else Some(U16(b.value[0], b.value[1]));
    }

    method Behind8() returns (r: Option<bytes>)
      modifies this
      ensures match TakePrefixed8(old(rest)) case Nothing => r == None case Got(x, tail) => r == Some(x) && rest == tail
    {
      var len := U8();
      if len.None? {
        return None;
      }
      r := Next(len.value);
    }

    method Behind16() returns (r: Option<bytes>)
      modifies this
      ensures match TakePrefixed16(old(rest))
              case Nothing => r == None
              case Got(x, tail) => r == Some(x) && rest == tail
    {
      var len := BigEndian16();
      if len.None? {
        return None;
      }
      r := Next(len.value);
    }
  }

  /** Reads the contents of a config field by field. */
  method ReadContents(s: bytes) returns (r: Option<Contents>)
    ensures r == TakeContents(s)
  {
    var contents := new Fields(s);
    var id := contents.U8();
    if id.None? { return None; }
    var kem := contents.BigEndian16();
    if kem.None? { return None; }
    var key := contents.Behind16();
    if key.None? { return None; }
    var suites := contents.Behind16();
    if suites.None? { return None; }
    var maxName := contents.U8();
    if maxName.None? { return None; }
    var name := contents.Behind8();
    if name.None? { return None; }
    var extensions := contents.Behind16();
    if extensions.None? || contents.rest != [] { return None; }
    return Some(Contents(id.value, kem.value, key.value, suites.value, maxName.value, name.value, extensions.value));
  }

  method AnyMandatory(s: bytes) returns (r: Option<bool>)
    ensures r == ReadExtensions(s)
  {
    var extensions := new Fields(s);
    var mandatory := false;
    while extensions.rest != []
      invariant ReadExtensions(s) == match ReadExtensions(extensions.rest)
                                     case None => None case Some(later) => Some(mandatory || later)
      decreases |extensions.rest|
    {
      var kind := extensions.BigEndian16();
      if kind.None? { return None; }
      var data := extensions.Behind16();
      if data.None? { return None; }
      mandatory := mandatory || kind.value >= 0x8000;
    }
    return Some(mandatory);
  }

  method AnySuite(s: bytes) returns (r: Option<bool>)
    ensures r == ReadSuites(s)
  {
    var suites := new Fields(s);
    var found := false;
    while suites.rest != []
      invariant ReadSuites(s) == match ReadSuites(suites.rest)
                                 case None => None case Some(later) => Some(found || later)
      decreases |suites.rest|
    {
      var kdf := suites.BigEndian16();
      if kdf.None? { return None; }
      var aead := suites.BigEndian16();
      if aead.None? { return None; }
      found := found || Offered(kdf.value, aead.value);
    }
    return Some(found);
  }

  /** Takes the next config off the cursor: what it offers, or None for one that is malformed. */
  method ReadConfig(configs: Fields) returns (r: Option<Option<bytes>>)
    modifies configs
    ensures match ConfigAt(old(configs.rest))
            case Nothing => r == None
            case Got(offer, tail) => r == Some(offer) && configs.rest == tail
  {
    var version := configs.BigEndian16();
    if version.None? { return None; }
    var contents := configs.Behind16();
    if contents.None? { return None; }
    r := JudgeConfig(version.value, contents.value);
  }

  method JudgeConfig(version: nat, contents: bytes) returns (r: Option<Option<bytes>>)
    ensures r == Judge(version, contents)
  {
    hide TakeContents, ReadSuites, ReadExtensions, ValidName;
    if version != ECH_CONFIG_VERSION {
      return Some(None);
    }
    var fields := ReadContents(contents);
    if fields.None? { return None; }
    var c := fields.value;
    if c.key == [] || c.suites == [] || |c.suites| % 4 != 0 || c.name == [] {
      return None;
    }
    var valid := ValidPublicName(c.name);
    if !valid {
      return Some(None);
    }
    var mandatory := AnyMandatory(c.extensions);
    if mandatory.None? { return None; }
    var suite := AnySuite(c.suites);
    if suite.None? { return None; }
    var offered := !mandatory.value && c.kem == HPKE_DHKEM_X25519_HKDF_SHA256 && suite.value;
    return Some(if offered then Some(c.key) else None);
  }

  /** The check a list has to pass before any handshake is given it. */
  method CheckEchConfigList(list: bytes) returns (r: Result<(), Fault>)
    ensures r == Check(list)
  {
    hide ConfigAt;
    var whole := new Fields(list);
    var inner := whole.Behind16();
    if inner.None? || inner.value == [] || whole.rest != [] {
      return Err(Malformed);
    }
    var configs := new Fields(inner.value);
    var picked: Option<bytes> := None;
    while configs.rest != []
      invariant Pick(inner.value) == match Pick(configs.rest)
                                     case None => None case Some(later) => Some(Or(picked, later))
      invariant Check(list) == match Pick(inner.value) case None => Err(Malformed) case Some(p) => Verdict(p)
      decreases |configs.rest|
    {
      ShortensAt(configs.rest);
      var config := ReadConfig(configs);
      if config.None? {
        return Err(Malformed);
      }
      picked := Or(picked, config.value);
    }
    match picked
    case None => return Err(NothingOffered);
    case Some(key) => return if |key| == X25519_PUBLIC_KEY_LEN then Ok(()) else Err(KeyLength);
  }

  lemma ShortensAt(s: bytes)
    ensures ConfigAt(s).Got? ==> |ConfigAt(s).rest| < |s|
  {
  }
}
