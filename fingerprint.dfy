/**
 * Fingerprints recomputed from a plan: the JA3 string and its MD5 hex
 * digest, and the JA4 string. The digests themselves are parameters; what is
 * modelled is exactly which text goes into them and how their output is
 * rendered.
 */
module Fingerprint {
  import opened Wrappers
  import opened Ints
  import opened Text
  import Tls
  import opened Chunks

  type Digest16 = d: seq<u8> | |d| == 16 witness [0, 0, 0, 0, 0, 0, 0, 0, 0, 0, 0, 0, 0, 0, 0, 0]
  type Digest32 = d: seq<u8> | |d| == 32
    witness [0, 0, 0, 0, 0, 0, 0, 0, 0, 0, 0, 0, 0, 0, 0, 0, 0, 0, 0, 0, 0, 0, 0, 0, 0, 0, 0, 0, 0, 0, 0, 0]

  // ---------------------------------------------------------------------
  // GREASE values (RFC 8701, section 2)
  // ---------------------------------------------------------------------

  /** The sixteen reserved GREASE code points. */
  const TLS_GREASE_VALUES: seq<u16> := [
    0x0a0a, 0x1a1a, 0x2a2a, 0x3a3a, 0x4a4a, 0x5a5a, 0x6a6a, 0x7a7a, 0x8a8a, 0x9a9a, 0xaaaa, 0xbaba,
    0xcaca, 0xdada, 0xeaea, 0xfafa]

  predicate IsGreaseValue(v: u16)
  {
    v in TLS_GREASE_VALUES
  }

  /** The two bytes of `v`, when it is written as `hi` then `lo`. */
  lemma ByteHalves(hi: nat, lo: nat, v: int)
    requires lo < 0x100 && v == 0x100 * hi + lo
    ensures v / 0x100 == hi && v % 0x100 == lo
  {
  }

  /** The last hex digit of `v` is that of its low byte. */
  lemma LowNibble(hi: nat, lo: nat, v: int)
    requires v == 0x100 * hi + lo
    ensures v % 0x10 == lo % 0x10
  {
    assert v == 0x10 * (0x10 * hi + lo / 0x10) + lo % 0x10;
  }

  /** Each table entry has two equal bytes ending in hex digit A. */
  lemma GreaseValueHasShape(v: u16)
    requires IsGreaseValue(v)
    ensures v / 0x100 == v % 0x100 && v % 0x10 == 0xa
  {
    assert forall k :: 0 <= k < 16 ==> TLS_GREASE_VALUES[k] == 0x1010 * k + 0x0a0a;
    var k :| 0 <= k < 16 && TLS_GREASE_VALUES[k] == v;
    var b := 0x10 * k + 0xa;
    ByteHalves(b, b, v);
    LowNibble(b, b, v);
  }

  /** Each such value is in the table. */
  lemma ShapeIsGreaseValue(v: u16)
    requires v / 0x100 == v % 0x100 && v % 0x10 == 0xa
    ensures IsGreaseValue(v)
  {
    assert forall k :: 0 <= k < 16 ==> TLS_GREASE_VALUES[k] == 0x1010 * k + 0x0a0a;
    var lo := v % 0x100;
    assert v == 0x100 * lo + lo;
    LowNibble(lo, lo, v);
    var k := lo / 0x10;
    assert lo == 0x10 * k + 0xa && k < 16;
    assert TLS_GREASE_VALUES[k] == v;
  }

  /** The table is exactly the values whose two bytes are equal and end in hex digit A. */
  lemma GreaseValueShape(v: u16)
    ensures IsGreaseValue(v) <==> v / 0x100 == v % 0x100 && v % 0x10 == 0xa
  {
    if IsGreaseValue(v) {
      GreaseValueHasShape(v);
    }
    if v / 0x100 == v % 0x100 && v % 0x10 == 0xa {
      ShapeIsGreaseValue(v);
    }
  }

  // ---------------------------------------------------------------------
  // extension_to_vec
  // ---------------------------------------------------------------------

  /** The plan's extension types in order, GREASE markers dropped. */
  function ExtensionToVec(chunks: seq<ExtensionChunk>): (r: seq<u16>)
    ensures |r| + GreaseCount(chunks) == |chunks|
  {
    if chunks == [] then []
    else (if chunks[0].Grease? then [] else [ChunkCode(chunks[0]).value]) + ExtensionToVec(chunks[1..])
  }

  lemma {:induction false} ExtensionToVecAppend(a: seq<ExtensionChunk>, b: seq<ExtensionChunk>)
    ensures ExtensionToVec(a + b) == ExtensionToVec(a) + ExtensionToVec(b)
  {
    if a != [] {
      assert (a + b)[1..] == a[1..] + b;
      ExtensionToVecAppend(a[1..], b);
    } else {
      assert a + b == b;
    }
  }

  /** Markers contribute nothing: the list is that of the marker-free plan. */
  lemma {:induction false} ExtensionToVecStrip(chunks: seq<ExtensionChunk>)
    ensures ExtensionToVec(chunks) == ExtensionToVec(StripGrease(chunks))
  {
    if chunks != [] {
      ExtensionToVecStrip(chunks[1..]);
      var head := if chunks[0].Grease? then [] else [chunks[0]];
      ExtensionToVecAppend(head, StripGrease(chunks[1..]));
      if !chunks[0].Grease? {
        assert ([chunks[0]] + StripGrease(chunks[1..]))[1..] == StripGrease(chunks[1..]);
      } else {
        assert head + StripGrease(chunks[1..]) == StripGrease(chunks[1..]);
      }
    }
  }

  /** On a marker-free plan, position `i` is the type of chunk `i`. */
  lemma {:induction false} ExtensionToVecPositional(chunks: seq<ExtensionChunk>)
    requires forall i :: 0 <= i < |chunks| ==> !chunks[i].Grease?
    ensures |ExtensionToVec(chunks)| == |chunks|
    ensures forall i :: 0 <= i < |chunks| ==> Some(ExtensionToVec(chunks)[i]) == ChunkCode(chunks[i])
  {
    GreaseCountNone(chunks);
    if chunks != [] {
      ExtensionToVecPositional(chunks[1..]);
      var r := ExtensionToVec(chunks);
      assert r == [ChunkCode(chunks[0]).value] + ExtensionToVec(chunks[1..]);
      forall i | 0 <= i < |chunks| ensures Some(r[i]) == ChunkCode(chunks[i]) {
        if i > 0 {
          assert r[i] == ExtensionToVec(chunks[1..])[i - 1];
          assert chunks[i] == chunks[1..][i - 1];
        }
      }
    }
  }

  // ---------------------------------------------------------------------
  // ja3_full and ja3_hash
  // ---------------------------------------------------------------------

  /** `to_string` of each value. */
  function Decimals(vs: seq<nat>): (r: seq<string>)
    ensures |r| == |vs|
    ensures forall i :: 0 <= i < |vs| ==> r[i] == Decimal(vs[i])
  {
    if vs == [] then [] else [Decimal(vs[0])] + Decimals(vs[1..])
  }

  /** A dash-joined decimal list, as JA3 renders each list field. */
  function DecimalField(vs: seq<nat>): string
  {
    Join(Decimals(vs), '-')
  }

  /** The group list of the first chunk that carries one. */
  function FirstGroups(chunks: seq<ExtensionChunk>): (r: Option<seq<u16>>)
    ensures r.None? <==> forall i :: 0 <= i < |chunks| ==> ChunkGroups(chunks[i]).None?
    ensures r.Some? ==>
              exists k :: && 0 <= k < |chunks| && ChunkGroups(chunks[k]) == r
                          && forall i :: 0 <= i < k ==> ChunkGroups(chunks[i]).None?
  {
    if chunks == [] then None
    else if ChunkGroups(chunks[0]).Some? then ChunkGroups(chunks[0])
    else
      var r := FirstGroups(chunks[1..]);
      assert r.Some? ==> exists k :: && 0 <= k < |chunks[1..]| && ChunkGroups(chunks[1..][k]) == r
                                     && (forall i :: 0 <= i < k ==> ChunkGroups(chunks[1..][i]).None?)
                                     && chunks[k + 1] == chunks[1..][k];
      r
  }

  /** The point formats of a literal EC point formats extension. */
  function ChunkFormats(c: ExtensionChunk): Option<seq<u8>>
  {
    if c.Extension? && c.ext.EcPointFormats? then Some(c.ext.formats) else None
  }

  /** The point-format list of the first literal that carries one. */
  function FirstFormats(chunks: seq<ExtensionChunk>): (r: Option<seq<u8>>)
    ensures r.None? <==> forall i :: 0 <= i < |chunks| ==> ChunkFormats(chunks[i]).None?
    ensures r.Some? ==>
              exists k :: && 0 <= k < |chunks| && ChunkFormats(chunks[k]) == r
                          && forall i :: 0 <= i < k ==> ChunkFormats(chunks[i]).None?
  {
    if chunks == [] then None
    else if ChunkFormats(chunks[0]).Some? then ChunkFormats(chunks[0])
    else
      var r := FirstFormats(chunks[1..]);
      assert r.Some? ==> exists k :: && 0 <= k < |chunks[1..]| && ChunkFormats(chunks[1..][k]) == r
                                     && (forall i :: 0 <= i < k ==> ChunkFormats(chunks[1..][i]).None?)
                                     && chunks[k + 1] == chunks[1..][k];
      r
  }

  /** The five JA3 fields of a plan; a list nobody carries renders as "". */
  function Ja3Fields(plan: JaOverride): seq<string>
  {
    [ "771",
      DecimalField(plan.cipherSuites),
      DecimalField(ExtensionToVec(plan.extensions)),
      match FirstGroups(plan.extensions) case Some(g) => DecimalField(g) case None => "",
      match FirstFormats(plan.extensions) case Some(f) => DecimalField(f) case None => "" ]
  }

  /** `ja3_full`: the five fields joined by commas. */
  function Ja3Full(plan: JaOverride): string
  {
    Join(Ja3Fields(plan), ',')
  }

  /** The point-format list of the one format JA3 descriptors carry renders as "0". */
  lemma UncompressedField()
    ensures DecimalField([Tls.UNCOMPRESSED]) == "0"
  {
    assert Decimals([Tls.UNCOMPRESSED]) == ["0"];
  }

  lemma DecimalFieldNoComma(vs: seq<nat>)
    ensures ',' !in DecimalField(vs)
  {
    forall i | 0 <= i < |vs| ensures ',' !in Decimals(vs)[i] {
      assert AllDigits(Decimal(vs[i]));
    }
    JoinAvoids(Decimals(vs), '-', ',');
  }

  /**
   * Splitting the JA3 string on commas gives back its five fields: the
   * version 771, the cipher codes, the extension types, the first group list
   * and the first point-format list.
   */
  lemma Ja3FullFields(plan: JaOverride)
    ensures Split(Ja3Full(plan), ',') == Ja3Fields(plan)
    ensures Ja3Fields(plan)[0] == "771"
  {
    var f := Ja3Fields(plan);
    DecimalFieldNoComma(plan.cipherSuites);
    DecimalFieldNoComma(ExtensionToVec(plan.extensions));
    if FirstGroups(plan.extensions).Some? {
      DecimalFieldNoComma(FirstGroups(plan.extensions).value);
    }
    if FirstFormats(plan.extensions).Some? {
      DecimalFieldNoComma(FirstFormats(plan.extensions).value);
    }
    assert ',' !in f[0];
    SplitJoin(f, ',');
  }

  /** A non-empty decimal list field splits into the renderings of its values. */
  lemma DecimalFieldTokens(vs: seq<nat>)
    requires |vs| >= 1
    ensures Split(DecimalField(vs), '-') == Decimals(vs)
  {
    forall i | 0 <= i < |vs| ensures '-' !in Decimals(vs)[i] {
      assert AllDigits(Decimal(vs[i]));
    }
    SplitJoin(Decimals(vs), '-');
  }

  /** `ja3_hash`: the lower-case hex rendering of the MD5 of the JA3 string. */
  function Ja3Hash(plan: JaOverride, md5: string -> Digest16): (r: string)
    ensures |r| == 32 && IsLowerHex(r)
  {
    LowerHex(md5(Ja3Full(plan)))
  }

  /** The hash string reads back as exactly the digest of the JA3 string. */
  lemma Ja3HashDigest(plan: JaOverride, md5: string -> Digest16)
    ensures FromLowerHex(Ja3Hash(plan, md5)) == md5(Ja3Full(plan))
  {
    FromLowerHexInverse(md5(Ja3Full(plan)));
  }

  // ---------------------------------------------------------------------
  // ja4_hash
  // ---------------------------------------------------------------------

  /** The version list of the first chunk that carries one. */
  function FirstVersions(chunks: seq<ExtensionChunk>): (r: Option<seq<u16>>)
    ensures r.None? <==> forall i :: 0 <= i < |chunks| ==> ChunkVersions(chunks[i]).None?
    ensures r.Some? ==>
              exists k :: && 0 <= k < |chunks| && ChunkVersions(chunks[k]) == r
                          && forall i :: 0 <= i < k ==> ChunkVersions(chunks[i]).None?
  {
    if chunks == [] then None
    else if ChunkVersions(chunks[0]).Some? then ChunkVersions(chunks[0])
    else
      var r := FirstVersions(chunks[1..]);
      assert r.Some? ==> exists k :: && 0 <= k < |chunks[1..]| && ChunkVersions(chunks[1..][k]) == r
                                     && (forall i :: 0 <= i < k ==> ChunkVersions(chunks[1..][i]).None?)
                                     && chunks[k + 1] == chunks[1..][k];
      r
  }

  /** "13" when the first version list starts with TLS 1.3, "12" otherwise. */
  function Ja4Version(chunks: seq<ExtensionChunk>): (r: string)
    ensures r == "13" || r == "12"
  {
    match FirstVersions(chunks)
    case Some(v) => if |v| > 0 && v[0] == Tls.TLS_V1_3 then "13" else "12"
    case None => "12"
  }

  lemma Ja4VersionSpec(chunks: seq<ExtensionChunk>)
    ensures Ja4Version(chunks) == "13" <==>
              exists k :: && 0 <= k < |chunks| && ChunkVersions(chunks[k]).Some?
                          && (forall i :: 0 <= i < k ==> ChunkVersions(chunks[i]).None?)
                          && |ChunkVersions(chunks[k]).value| > 0
                          && ChunkVersions(chunks[k]).value[0] == Tls.TLS_V1_3
  {
    var r := FirstVersions(chunks);
    if r.Some? {
      var k :| 0 <= k < |chunks| && ChunkVersions(chunks[k]) == r
        && forall i :: 0 <= i < k ==> ChunkVersions(chunks[i]).None?;
      forall k' | 0 <= k' < |chunks| && ChunkVersions(chunks[k']).Some?
                  && (forall i :: 0 <= i < k' ==> ChunkVersions(chunks[i]).None?)
        ensures k' == k
      {
      }
    }
  }

  /** A chunk that puts a server name into the hello. */
  predicate IsDomainChunk(c: ExtensionChunk)
  {
    c.Sni? || (c.Extension? && c.ext.ServerName?)
  }

  /** `any(..)`: some chunk grafts or carries a server name. */
  function HasDomain(chunks: seq<ExtensionChunk>): (r: bool)
    ensures r <==> exists i :: 0 <= i < |chunks| && IsDomainChunk(chunks[i])
  {
    if chunks == [] then false
    else if IsDomainChunk(chunks[0]) then true
    else
      var r := HasDomain(chunks[1..]);
      assert r ==> exists i :: 0 <= i < |chunks[1..]| && IsDomainChunk(chunks[1..][i]) && chunks[i + 1] == chunks[1..][i];
      assert (exists i :: 0 <= i < |chunks| && IsDomainChunk(chunks[i])) ==>
               exists i :: 0 <= i < |chunks[1..]| && IsDomainChunk(chunks[1..][i]) by {
        if exists i :: 0 <= i < |chunks| && IsDomainChunk(chunks[i]) {
          var i :| 0 <= i < |chunks| && IsDomainChunk(chunks[i]);
          assert i > 0 && chunks[1..][i - 1] == chunks[i];
        }
      }
      r
  }

  /** The cipher codes with the GREASE values taken out, order kept. */
  function NonGreaseCiphers(suites: seq<u16>): (r: seq<u16>)
    ensures forall v :: multiset(r)[v] == if IsGreaseValue(v) then 0 else multiset(suites)[v]
  {
    if suites == [] then []
    else
      var rest := NonGreaseCiphers(suites[1..]);
      assert suites == [suites[0]] + suites[1..];
      (if IsGreaseValue(suites[0]) then [] else [suites[0]]) + rest
  }

  /** The extension types without server name (0) and ALPN (0x10), order kept. */
  function CountedExtensions(codes: seq<u16>): (r: seq<u16>)
    ensures forall v :: multiset(r)[v] == if v == Tls.SERVER_NAME || v == Tls.ALPN then 0 else multiset(codes)[v]
  {
    if codes == [] then []
    else
      var rest := CountedExtensions(codes[1..]);
      assert codes == [codes[0]] + codes[1..];
      (if codes[0] == Tls.SERVER_NAME || codes[0] == Tls.ALPN then [] else [codes[0]]) + rest
  }

  /** The JA4 cipher list: non-GREASE codes as sorted `{:04x}` strings. */
  function Ja4Ciphers(plan: JaOverride): seq<string>
  {
    SortLex(HexList(NonGreaseCiphers(plan.cipherSuites)))
  }

  /** The JA4 extension list: counted types as sorted `{:04x}` strings. */
  function Ja4Extensions(plan: JaOverride): seq<string>
  {
    SortLex(HexList(CountedExtensions(ExtensionToVec(plan.extensions))))
  }

  /**
   * The JA4 cipher list is the `{:04x}` rendering of the non-GREASE cipher
   * codes in ascending numeric order, each as often as in the plan.
   */
  lemma Ja4CiphersSpec(plan: JaOverride)
    ensures var s := SortNum(NonGreaseCiphers(plan.cipherSuites));
      && Ja4Ciphers(plan) == HexList(s)
      && SortedNum(s)
      && forall v :: multiset(s)[v] == if IsGreaseValue(v) then 0 else multiset(plan.cipherSuites)[v]
  {
    HexSortNumeric(NonGreaseCiphers(plan.cipherSuites));
  }

  /**
   * The JA4 extension list is the `{:04x}` rendering of the plan's extension
   * types other than 0 and 0x10 in ascending numeric order, markers dropped.
   */
  lemma Ja4ExtensionsSpec(plan: JaOverride)
    ensures var s := SortNum(CountedExtensions(ExtensionToVec(plan.extensions)));
      && Ja4Extensions(plan) == HexList(s)
      && SortedNum(s)
      && forall v :: multiset(s)[v] ==
           if v == Tls.SERVER_NAME || v == Tls.ALPN then 0 else multiset(ExtensionToVec(plan.extensions))[v]
  {
    HexSortNumeric(CountedExtensions(ExtensionToVec(plan.extensions)));
  }

  /** The signature schemes of a literal signature-algorithms extension. */
  function ChunkSchemes(c: ExtensionChunk): Option<seq<u16>>
  {
    if c.Extension? && c.ext.SignatureAlgorithms? then Some(c.ext.schemes) else None
  }

  /** `find_map`: the scheme list of the first literal that carries one. */
  function FirstSchemes(chunks: seq<ExtensionChunk>): (r: Option<seq<u16>>)
    ensures r.None? <==> forall i :: 0 <= i < |chunks| ==> ChunkSchemes(chunks[i]).None?
    ensures r.Some? ==>
              exists k :: && 0 <= k < |chunks| && ChunkSchemes(chunks[k]) == r
                          && forall i :: 0 <= i < k ==> ChunkSchemes(chunks[i]).None?
  {
    if chunks == [] then None
    else if ChunkSchemes(chunks[0]).Some? then ChunkSchemes(chunks[0])
    else
      var r := FirstSchemes(chunks[1..]);
      assert r.Some? ==> exists k :: && 0 <= k < |chunks[1..]| && ChunkSchemes(chunks[1..][k]) == r
                                     && (forall i :: 0 <= i < k ==> ChunkSchemes(chunks[1..][i]).None?)
                                     && chunks[k + 1] == chunks[1..][k];
      r
  }

  /** The signature list, in its original order (it is not sorted). */
  function Ja4Signatures(chunks: seq<ExtensionChunk>): seq<string>
  {
    match FirstSchemes(chunks)
    case Some(s) => HexList(s)
    case None => []
  }

  /** The protocol names of a literal ALPN extension. */
  function ChunkProtocols(c: ExtensionChunk): Option<seq<Tls.Bytes>>
  {
    if c.Extension? && c.ext.Protocols? then Some(c.ext.protocols) else None
  }

  function FirstProtocols(chunks: seq<ExtensionChunk>): (r: Option<seq<Tls.Bytes>>)
    ensures r.None? <==> forall i :: 0 <= i < |chunks| ==> ChunkProtocols(chunks[i]).None?
    ensures r.Some? ==>
              exists k :: && 0 <= k < |chunks| && ChunkProtocols(chunks[k]) == r
                          && forall i :: 0 <= i < k ==> ChunkProtocols(chunks[i]).None?
  {
    if chunks == [] then None
    else if ChunkProtocols(chunks[0]).Some? then ChunkProtocols(chunks[0])
    else
      var r := FirstProtocols(chunks[1..]);
      assert r.Some? ==> exists k :: && 0 <= k < |chunks[1..]| && ChunkProtocols(chunks[1..][k]) == r
                                     && (forall i :: 0 <= i < k ==> ChunkProtocols(chunks[1..][i]).None?)
                                     && chunks[k + 1] == chunks[1..][k];
      r
  }

  /** The ALPN protocol names "h2" and "http/1.1" as bytes. */
  const H2: Tls.Bytes := [0x68, 0x32]
  const HTTP_1_1: Tls.Bytes := [0x68, 0x74, 0x74, 0x70, 0x2f, 0x31, 0x2e, 0x31]

  /** The first name of the first ALPN literal: "h2", "h1", or "00" for anything else or nothing. */
  function AlpnTag(chunks: seq<ExtensionChunk>): (r: string)
    ensures r == "h2" <==> FirstProtocols(chunks).Some? && |FirstProtocols(chunks).value| > 0
                           && FirstProtocols(chunks).value[0] == H2
    ensures r == "h1" <==> FirstProtocols(chunks).Some? && |FirstProtocols(chunks).value| > 0
                           && FirstProtocols(chunks).value[0] == HTTP_1_1
    ensures r == "h2" || r == "h1" || r == "00"
  {
    match FirstProtocols(chunks)
    case Some(p) =>
      if |p| == 0 then "00"
      else if p[0] == H2 then "h2"
      else if p[0] == HTTP_1_1 then "h1"
      else "00"
    case None => "00"
  }

  /** The readable part: protocol, version, domain flag, the two counts and the ALPN tag. */
  function Ja4Prefix(plan: JaOverride): string
  {
    PrefixText(Ja4Version(plan.extensions), HasDomain(plan.extensions),
               |Ja4Ciphers(plan)|, |Ja4Extensions(plan)|, AlpnTag(plan.extensions))
  }

  /** `t{version}{d|i}{cipher count}{extension count}{alpn}`. */
  function PrefixText(version: string, domain: bool, ciphers: nat, extensions: nat, alpn: string): string
  {
    "t" + version + (if domain then "d" else "i") + Decimal(ciphers) + Decimal(extensions) + alpn
  }

  /** The first six digest bytes as twelve hex characters. */
  function Truncated(d: Digest32): (r: string)
    ensures |r| == 12 && IsLowerHex(r)
  {
    LowerHex(d[..6])
  }

  /** The text hashed for the cipher part. */
  function Ja4CipherInput(plan: JaOverride): string
  {
    Join(Ja4Ciphers(plan), ',')
  }

  /** The text hashed for the extension part: sorted extensions, "_", signatures in order. */
  function Ja4ExtensionInput(plan: JaOverride): string
  {
    Join(Ja4Extensions(plan), ',') + "_" + Join(Ja4Signatures(plan.extensions), ',')
  }

  /** `ja4_hash`: `t{ver}{flag}{nc}{ne}{alpn}_{B}_{C}`. */
  function Ja4Hash(plan: JaOverride, sha256: string -> Digest32): string
  {
    Ja4Prefix(plan) + "_" + Truncated(sha256(Ja4CipherInput(plan))) + "_" + Truncated(sha256(Ja4ExtensionInput(plan)))
  }

  lemma DecimalNoUnderscore(n: nat)
    ensures '_' !in Decimal(n)
  {
    assert AllDigits(Decimal(n));
  }

  lemma HexNoUnderscore(s: string)
    requires IsLowerHex(s)
    ensures '_' !in s
  {
  }

  lemma PrefixTextNoUnderscore(version: string, domain: bool, ciphers: nat, extensions: nat, alpn: string)
    requires '_' !in version && '_' !in alpn
    ensures '_' !in PrefixText(version, domain, ciphers, extensions, alpn)
  {
    DecimalNoUnderscore(ciphers);
    DecimalNoUnderscore(extensions);
  }

  /** No part of the readable prefix contains an underscore. */
  lemma Ja4PrefixNoUnderscore(plan: JaOverride)
    ensures '_' !in Ja4Prefix(plan)
  {
    PrefixTextNoUnderscore(Ja4Version(plan.extensions), HasDomain(plan.extensions),
                           |Ja4Ciphers(plan)|, |Ja4Extensions(plan)|, AlpnTag(plan.extensions));
  }

  lemma SplitThree(p: string, b: string, c: string)
    requires '_' !in p && '_' !in b && '_' !in c
    ensures Split(p + "_" + b + "_" + c, '_') == [p, b, c]
  {
    var parts := [p, b, c];
    assert parts[1..] == [b, c] && [b, c][1..] == [c];
    assert Join([c], '_') == c;
    assert Join([b, c], '_') == b + ['_'] + c;
    assert Join(parts, '_') == p + ['_'] + (b + ['_'] + c);
    assert p + "_" + b + "_" + c == p + ['_'] + (b + ['_'] + c);
    SplitJoin(parts, '_');
  }

  /**
   * The JA4 string has exactly three underscore-separated parts: the prefix,
   * then twelve hex characters of the digest of the cipher text, then twelve
   * of the digest of the extension text. The prefix is "t", the version tag,
   * 'd' or 'i', the two counts in decimal and the ALPN tag.
   */
  lemma Ja4HashParts(plan: JaOverride, sha256: string -> Digest32)
    ensures Split(Ja4Hash(plan, sha256), '_') ==
              [Ja4Prefix(plan), Truncated(sha256(Ja4CipherInput(plan))), Truncated(sha256(Ja4ExtensionInput(plan)))]
    ensures FromLowerHex(Truncated(sha256(Ja4CipherInput(plan)))) == sha256(Ja4CipherInput(plan))[..6]
    ensures FromLowerHex(Truncated(sha256(Ja4ExtensionInput(plan)))) == sha256(Ja4ExtensionInput(plan))[..6]
  {
    var b, c := sha256(Ja4CipherInput(plan)), sha256(Ja4ExtensionInput(plan));
    var p, tb, tc := Ja4Prefix(plan), Truncated(b), Truncated(c);
    Ja4PrefixNoUnderscore(plan);
    HexNoUnderscore(tb);
    HexNoUnderscore(tc);
    SplitThree(p, tb, tc);
    FromLowerHexInverse(b[..6]);
    FromLowerHexInverse(c[..6]);
  }
}
