/**
 * The descriptor parser: a JA3 string ("version,ciphers,extensions,groups,
 * formats", each list dash separated) plus the builder's side configuration
 * becomes a plan, or a closed-set error naming what went wrong first.
 */
module Builder {
  import opened Wrappers
  import opened Ints
  import opened Text
  import Tls
  import opened Chunks

  /** Why a descriptor could not be turned into a plan. */
  datatype FailReason =
    | Part
    | CipherSuite(token: string)
    | NamedGroup(token: string)
    | ExtensionType(token: string)
    | MissingTlsVersion
    | MissingAlpn
    | MissingSignatureAlgorithms
    | MissingCompressCertificate

  /** A snapshot of the builder's fields. */
  datatype BuilderConfig = BuilderConfig(
    tlsVersions: Option<seq<u16>>,
    alpn: Option<seq<Tls.Bytes>>,
    signatureAlgorithms: Option<seq<u16>>,
    compressCertificate: Option<u16>,
    grease: bool,
    unknownExtensions: map<u16, Tls.ClientExtension>,
    shuffleExtension: bool)

  /** Every map entry is filed under its own extension type. */
  predicate UnknownMapConsistent(cfg: BuilderConfig)
  {
    forall k :: k in cfg.unknownExtensions ==> Tls.ExtType(cfg.unknownExtensions[k]) == k
  }

  // ---------------------------------------------------------------------
  // Per-token conversion
  // ---------------------------------------------------------------------

  /** The extension types with a fixed chunk that needs no configuration. */
  const WELL_KNOWN: set<u16> := {
    Tls.SERVER_NAME, Tls.KEY_SHARE, Tls.EXTENDED_MASTER_SECRET, Tls.RENEGOTIATION_INFO,
    Tls.STATUS_REQUEST, Tls.SIGNED_CERTIFICATE_TIMESTAMP, Tls.PADDING,
    Tls.PSK_KEY_EXCHANGE_MODES, Tls.SESSION_TICKET, Tls.EC_POINT_FORMATS }

  /** The extension types whose chunk is built from the builder's fields. */
  const CONFIGURED: set<u16> := {
    Tls.SUPPORTED_GROUPS, Tls.SUPPORTED_VERSIONS, Tls.ALPN, Tls.SIGNATURE_ALGORITHMS,
    Tls.COMPRESS_CERTIFICATE }

  /** `convert_extension`: grafts for server name and key share, fixed literals for the rest. */
  function ConvertExtension(code: u16): (r: Option<ExtensionChunk>)
    ensures r.Some? <==> code in WELL_KNOWN
    ensures r.Some? ==> ChunkCode(r.value) == Some(code)
    ensures code == Tls.SERVER_NAME ==> r == Some(Sni)
    ensures code == Tls.KEY_SHARE ==> r == Some(KeyShare)
    ensures r.Some? && code != Tls.SERVER_NAME && code != Tls.KEY_SHARE ==> r.value.Extension?
  {
    if code == Tls.SERVER_NAME then Some(Sni)
    else if code == Tls.KEY_SHARE then Some(KeyShare)
    else if code == Tls.EXTENDED_MASTER_SECRET then Some(Extension(Tls.ExtendedMasterSecretRequest))
    else if code == Tls.RENEGOTIATION_INFO then Some(Extension(Tls.RenegotiationInfo([])))
    else if code == Tls.STATUS_REQUEST then Some(Extension(Tls.CertificateStatusRequest))
    else if code == Tls.SIGNED_CERTIFICATE_TIMESTAMP then Some(Extension(Tls.SignedCertificateTimestampRequest))
    else if code == Tls.PADDING then Some(Extension(Tls.Padding([])))
    else if code == Tls.PSK_KEY_EXCHANGE_MODES then Some(Extension(Tls.PresharedKeyModes([Tls.PSK_DHE_KE])))
    else if code == Tls.SESSION_TICKET then Some(Extension(Tls.SessionTicketRequest))
    else if code == Tls.EC_POINT_FORMATS then Some(Extension(Tls.EcPointFormats([Tls.UNCOMPRESSED])))
    else None
  }

  /** The chunk for one extension-type token, given the parsed named groups. */
  function ConvertToken(cfg: BuilderConfig, groups: seq<u16>, tok: string): Result<ExtensionChunk, FailReason>
  {
    match ParseU16(tok)
    case None => Err(ExtensionType(tok))
    case Some(code) =>
      if code == Tls.SUPPORTED_GROUPS then
        Ok(if cfg.grease then GreasedNameGroups(groups) else Extension(Tls.NamedGroups(groups)))
      else if code == Tls.SUPPORTED_VERSIONS then
        (match cfg.tlsVersions
         case None => Err(MissingTlsVersion)
         case Some(v) => Ok(if cfg.grease then GreasedTlsVersion(v) else Extension(Tls.SupportedVersions(v))))
      else if code == Tls.ALPN then
        (match cfg.alpn
         case None => Err(MissingAlpn)
         case Some(p) => Ok(Extension(Tls.Protocols(p))))
      else if code == Tls.SIGNATURE_ALGORITHMS then
        (match cfg.signatureAlgorithms
         case None => Err(MissingSignatureAlgorithms)
         case Some(s) => Ok(Extension(Tls.SignatureAlgorithms(s))))
      else if code == Tls.COMPRESS_CERTIFICATE then
        (match cfg.compressCertificate
         case None => Err(MissingCompressCertificate)
         case Some(c) => Ok(Extension(Tls.CompressCertificate([c]))))
      else
        (match ConvertExtension(code)
         case Some(chunk) => Ok(chunk)
         case None =>
           if code in cfg.unknownExtensions then Ok(Extension(cfg.unknownExtensions[code]))
           else Err(ExtensionType(tok)))
  }

  /** The two numeric fields that are parsed into lists of codes. */
  datatype CodeField = CipherField | GroupField

  /** A cipher-suite or named-group token: a u16, or an error naming it. */
  function CodeToken(field: CodeField, tok: string): Result<u16, FailReason>
  {
    match ParseU16(tok)
    case None => Err(if field == CipherField then CipherSuite(tok) else NamedGroup(tok))
    case Some(code) => Ok(code)
  }

  // ---------------------------------------------------------------------
  // Whole-list conversion, stopping at the first failing token
  // ---------------------------------------------------------------------

  /** A numeric field's tokens in order, or the error of the first bad one. */
  function CodeTokens(field: CodeField, toks: seq<string>): Result<seq<u16>, FailReason>
  {
    if toks == [] then Ok([])
    else match CodeToken(field, toks[0])
      case Err(e) => Err(e)
      case Ok(c) =>
        match CodeTokens(field, toks[1..])
        case Err(e) => Err(e)
        case Ok(cs) => Ok([c] + cs)
  }

  /** The extension field's chunks in order, or the error of the first bad token. */
  function ConvertTokens(cfg: BuilderConfig, groups: seq<u16>, toks: seq<string>): Result<seq<ExtensionChunk>, FailReason>
  {
    if toks == [] then Ok([])
    else match ConvertToken(cfg, groups, toks[0])
      case Err(e) => Err(e)
      case Ok(c) =>
        match ConvertTokens(cfg, groups, toks[1..])
        case Err(e) => Err(e)
        case Ok(cs) => Ok([c] + cs)
  }

  /**
   * A numeric field either succeeds with one value per token, in token
   * order, or fails with the error of a token all of whose predecessors parse.
   */
  lemma {:induction false} CodeTokensSpec(field: CodeField, toks: seq<string>)
    ensures var r := CodeTokens(field, toks);
      && (r.Ok? ==>
            && |r.value| == |toks|
            && forall i :: 0 <= i < |toks| ==> CodeToken(field, toks[i]) == Ok(r.value[i]))
      && (r.Err? ==>
            exists k :: && 0 <= k < |toks|
                        && CodeToken(field, toks[k]) == Err(r.error)
                        && forall i :: 0 <= i < k ==> CodeToken(field, toks[i]).Ok?)
  {
    if toks != [] && CodeToken(field, toks[0]).Ok? {
      CodeTokensSpec(field, toks[1..]);
      var r := CodeTokens(field, toks[1..]);
      if r.Err? {
        var k :| 0 <= k < |toks[1..]| && CodeToken(field, toks[1..][k]) == Err(r.error) &&
          forall i :: 0 <= i < k ==> CodeToken(field, toks[1..][i]).Ok?;
        assert CodeToken(field, toks[k + 1]) == Err(r.error);
      }
    }
  }

  /** The same characterisation for the extension field. */
  lemma {:induction false} ConvertTokensSpec(cfg: BuilderConfig, groups: seq<u16>, toks: seq<string>)
    ensures var r := ConvertTokens(cfg, groups, toks);
      && (r.Ok? ==>
            && |r.value| == |toks|
            && forall i :: 0 <= i < |toks| ==> ConvertToken(cfg, groups, toks[i]) == Ok(r.value[i]))
      && (r.Err? ==>
            exists k :: && 0 <= k < |toks|
                        && ConvertToken(cfg, groups, toks[k]) == Err(r.error)
                        && forall i :: 0 <= i < k ==> ConvertToken(cfg, groups, toks[i]).Ok?)
  {
    if toks != [] && ConvertToken(cfg, groups, toks[0]).Ok? {
      ConvertTokensSpec(cfg, groups, toks[1..]);
      var r := ConvertTokens(cfg, groups, toks[1..]);
      if r.Err? {
        var k :| 0 <= k < |toks[1..]| && ConvertToken(cfg, groups, toks[1..][k]) == Err(r.error) &&
          forall i :: 0 <= i < k ==> ConvertToken(cfg, groups, toks[1..][i]).Ok?;
        assert ConvertToken(cfg, groups, toks[k + 1]) == Err(r.error);
      }
    }
  }

  /** The first failing token decides the error. */
  lemma {:induction false} CodeTokensFirstError(field: CodeField, toks: seq<string>, k: nat)
    requires k < |toks| && CodeToken(field, toks[k]).Err?
    requires forall i :: 0 <= i < k ==> CodeToken(field, toks[i]).Ok?
    ensures CodeTokens(field, toks) == Err(CodeToken(field, toks[k]).error)
  {
    if k > 0 {
      CodeTokensFirstError(field, toks[1..], k - 1);
    }
  }

  /** When every token parses, the list holds their values in token order. */
  lemma {:induction false} CodeTokensOk(field: CodeField, toks: seq<string>, vals: seq<u16>)
    requires |vals| == |toks|
    requires forall i :: 0 <= i < |toks| ==> CodeToken(field, toks[i]) == Ok(vals[i])
    ensures CodeTokens(field, toks) == Ok(vals)
  {
    if toks != [] {
      CodeTokensOk(field, toks[1..], vals[1..]);
      assert vals == [vals[0]] + vals[1..];
    }
  }

  lemma {:induction false} ConvertTokensFirstError(cfg: BuilderConfig, groups: seq<u16>, toks: seq<string>, k: nat)
    requires k < |toks| && ConvertToken(cfg, groups, toks[k]).Err?
    requires forall i :: 0 <= i < k ==> ConvertToken(cfg, groups, toks[i]).Ok?
    ensures ConvertTokens(cfg, groups, toks) == Err(ConvertToken(cfg, groups, toks[k]).error)
  {
    if k > 0 {
      ConvertTokensFirstError(cfg, groups, toks[1..], k - 1);
    }
  }

  lemma {:induction false} ConvertTokensOk(cfg: BuilderConfig, groups: seq<u16>, toks: seq<string>, vals: seq<ExtensionChunk>)
    requires |vals| == |toks|
    requires forall i :: 0 <= i < |toks| ==> ConvertToken(cfg, groups, toks[i]) == Ok(vals[i])
    ensures ConvertTokens(cfg, groups, toks) == Ok(vals)
  {
    if toks != [] {
      ConvertTokensOk(cfg, groups, toks[1..], vals[1..]);
      assert vals == [vals[0]] + vals[1..];
    }
  }

  /** The `for` loop over one numeric field, returning at the first bad token. */
  method ParseCodeList(field: CodeField, toks: seq<string>) returns (r: Result<seq<u16>, FailReason>)
    ensures r == CodeTokens(field, toks)
  {
    var codes: seq<u16> := [];
    for i := 0 to |toks|
      invariant |codes| == i
      invariant forall j :: 0 <= j < i ==> CodeToken(field, toks[j]) == Ok(codes[j])
    {
      var code := ParseU16(toks[i]);
      if code.None? {
        CodeTokensFirstError(field, toks, i);
        return Err(if field == CipherField then CipherSuite(toks[i]) else NamedGroup(toks[i]));
      }
      codes := codes + [code.value];
    }
    CodeTokensOk(field, toks, codes);
    r := Ok(codes);
  }

  /**
   * The `for` loop over the extension tokens: each converted chunk is pushed
   * after the leading chunks already in the vector.
   */
  method ConvertExtensionList(cfg: BuilderConfig, groups: seq<u16>, toks: seq<string>, lead: seq<ExtensionChunk>)
    returns (r: Result<seq<ExtensionChunk>, FailReason>)
    ensures r.Ok? <==> ConvertTokens(cfg, groups, toks).Ok?
    ensures r.Ok? ==> r.value == lead + ConvertTokens(cfg, groups, toks).value
    ensures r.Err? ==> r.error == ConvertTokens(cfg, groups, toks).error
  {
    var exts := lead;
    ghost var converted: seq<ExtensionChunk> := [];
    for i := 0 to |toks|
      invariant |converted| == i && exts == lead + converted
      invariant forall j :: 0 <= j < i ==> ConvertToken(cfg, groups, toks[j]) == Ok(converted[j])
    {
      var chunk := ConvertToken(cfg, groups, toks[i]);
      if chunk.Err? {
        ConvertTokensFirstError(cfg, groups, toks, i);
        return Err(chunk.error);
      }
      exts := exts + [chunk.value];
      converted := converted + [chunk.value];
    }
    ConvertTokensOk(cfg, groups, toks, converted);
    r := Ok(exts);
  }

  // ---------------------------------------------------------------------
  // GREASE markers and the whole descriptor
  // ---------------------------------------------------------------------

  /**
   * With GREASE on: one marker in front and one at the end, except that a
   * final padding literal keeps the last place and the marker goes just
   * before it (`Vec::insert(len - 1, ..)`).
   */
  function AddGreaseMarkers(grease: bool, chunks: seq<ExtensionChunk>): seq<ExtensionChunk>
  {
    if !grease then chunks
    else
      var exts := [Grease] + chunks;
      var n := |exts|;
      if IsPaddingLiteral(exts[n - 1]) then exts[..n - 1] + [Grease] + exts[n - 1..]
      else exts + [Grease]
  }

  /** Tokens of the dash-separated field `i` of a five-field descriptor. */
  function FieldTokens(ja3: string, i: nat): seq<string>
    requires |Split(ja3, ',')| == 5 && i < 5
  {
    Split(Split(ja3, ',')[i], '-')
  }

  /**
   * `with_ja3_full` as a function: field count, then every cipher token, then
   * every group token, then the extension tokens left to right. Fields 0
   * (version) and 4 (EC point formats) are never read.
   */
  function Parse(cfg: BuilderConfig, ja3: string): (r: Result<JaOverride, FailReason>)
    ensures |Split(ja3, ',')| != 5 ==> r == Err(Part)
    ensures r.Ok? ==> r.value.shuffleExtension == cfg.shuffleExtension
  {
    if |Split(ja3, ',')| != 5 then Err(Part)
    else match CodeTokens(CipherField, FieldTokens(ja3, 1))
      case Err(e) => Err(e)
      case Ok(suites) =>
        match CodeTokens(GroupField, FieldTokens(ja3, 3))
        case Err(e) => Err(e)
        case Ok(groups) =>
          match ConvertTokens(cfg, groups, FieldTokens(ja3, 2))
          case Err(e) => Err(e)
          case Ok(chunks) => Ok(JaOverride(suites, AddGreaseMarkers(cfg.grease, chunks), cfg.shuffleExtension))
  }

  /** Parse unfolded along its success path. */
  lemma ParseSucceeds(cfg: BuilderConfig, ja3: string, suites: seq<u16>, groups: seq<u16>, chunks: seq<ExtensionChunk>)
    requires |Split(ja3, ',')| == 5
    requires CodeTokens(CipherField, FieldTokens(ja3, 1)) == Ok(suites)
    requires CodeTokens(GroupField, FieldTokens(ja3, 3)) == Ok(groups)
    requires ConvertTokens(cfg, groups, FieldTokens(ja3, 2)) == Ok(chunks)
    ensures Parse(cfg, ja3) == Ok(JaOverride(suites, AddGreaseMarkers(cfg.grease, chunks), cfg.shuffleExtension))
  {
  }

  /** Parse unfolded along each of its failure paths. */
  lemma ParseFails(cfg: BuilderConfig, ja3: string)
    requires |Split(ja3, ',')| == 5
    ensures CodeTokens(CipherField, FieldTokens(ja3, 1)).Err? ==>
              Parse(cfg, ja3) == Err(CodeTokens(CipherField, FieldTokens(ja3, 1)).error)
    ensures CodeTokens(CipherField, FieldTokens(ja3, 1)).Ok? && CodeTokens(GroupField, FieldTokens(ja3, 3)).Err? ==>
              Parse(cfg, ja3) == Err(CodeTokens(GroupField, FieldTokens(ja3, 3)).error)
    ensures CodeTokens(CipherField, FieldTokens(ja3, 1)).Ok? && CodeTokens(GroupField, FieldTokens(ja3, 3)).Ok? &&
            ConvertTokens(cfg, CodeTokens(GroupField, FieldTokens(ja3, 3)).value, FieldTokens(ja3, 2)).Err? ==>
              Parse(cfg, ja3) ==
              Err(ConvertTokens(cfg, CodeTokens(GroupField, FieldTokens(ja3, 3)).value, FieldTokens(ja3, 2)).error)
  {
  }

  // ---------------------------------------------------------------------
  // The builder object
  // ---------------------------------------------------------------------

  /** `JAOverrideBuilder`: side configuration set through chained setters. */
  class JaOverrideBuilder {
    var tlsVersions: Option<seq<u16>>
    var alpn: Option<seq<Tls.Bytes>>
    var signatureAlgorithms: Option<seq<u16>>
    var compressCertificate: Option<u16>
    var grease: bool
    var unknownExtensions: map<u16, Tls.ClientExtension>
    var shuffleExtension: bool

    function Config(): BuilderConfig
      reads this
    {
      BuilderConfig(tlsVersions, alpn, signatureAlgorithms, compressCertificate,
                    grease, unknownExtensions, shuffleExtension)
    }

    /** `Default`: nothing configured, GREASE and shuffling off. */
    constructor ()
      ensures Config() == BuilderConfig(None, None, None, None, false, map[], false)
    {
      tlsVersions, alpn, signatureAlgorithms, compressCertificate := None, None, None, None;
      grease, unknownExtensions, shuffleExtension := false, map[], false;
    }

    method WithGrease(grease: bool)
      modifies this
      ensures Config() == old(Config()).(grease := grease)
    {
      this.grease := grease;
    }

    method WithShuffleExtension(shuffleExtension: bool)
      modifies this
      ensures Config() == old(Config()).(shuffleExtension := shuffleExtension)
    {
      this.shuffleExtension := shuffleExtension;
    }

    method WithTlsVersions(tlsVersions: seq<u16>)
      modifies this
      ensures Config() == old(Config()).(tlsVersions := Some(tlsVersions))
    {
      this.tlsVersions := Some(tlsVersions);
    }

    method WithAlpn(alpn: seq<Tls.Bytes>)
      modifies this
      ensures Config() == old(Config()).(alpn := Some(alpn))
    {
      this.alpn := Some(alpn);
    }

    method WithSignatureAlgorithms(signatureAlgorithms: seq<u16>)
      modifies this
      ensures Config() == old(Config()).(signatureAlgorithms := Some(signatureAlgorithms))
    {
      this.signatureAlgorithms := Some(signatureAlgorithms);
    }

    method WithCompressCertificate(compressCertificate: u16)
      modifies this
      ensures Config() == old(Config()).(compressCertificate := Some(compressCertificate))
    {
      this.compressCertificate := Some(compressCertificate);
    }

    /** `with_ja3_full`: three loops push into the suite, group and chunk lists. */
    method WithJa3Full(ja3: string) returns (r: Result<JaOverride, FailReason>)
      ensures r == Parse(Config(), ja3)
    {
      var parts := Split(ja3, ',');
      if |parts| != 5 {
        return Err(Part);
      }
      var cfg := Config();
      ParseFails(cfg, ja3);
      var suites := ParseCodeList(CipherField, Split(parts[1], '-'));
      if suites.Err? {
        return Err(suites.error);
      }
      var groups := ParseCodeList(GroupField, Split(parts[3], '-'));
      if groups.Err? {
        return Err(groups.error);
      }
      var lead := if grease then [Grease] else [];
      var exts := ConvertExtensionList(cfg, groups.value, Split(parts[2], '-'), lead);
      if exts.Err? {
        return Err(exts.error);
      }
      ghost var converted := ConvertTokens(cfg, groups.value, FieldTokens(ja3, 2)).value;
      ParseSucceeds(cfg, ja3, suites.value, groups.value, converted);
      var chunks := exts.value;
      assert chunks == lead + converted;
      if grease {
        var n := |chunks|;
        if IsPaddingLiteral(chunks[n - 1]) {
          chunks := chunks[..n - 1] + [Grease] + chunks[n - 1..];
        } else {
          chunks := chunks + [Grease];
        }
      }
      assert chunks == AddGreaseMarkers(grease, converted);
      r := Ok(JaOverride(suites.value, chunks, shuffleExtension));
    }
  }
}
