/**
 * Re-rendering a parsed descriptor: `ja3_full` of the plan built from a JA3
 * string gives back that string, provided the string is in the form
 * `ja3_full` itself produces (version 771, canonical decimal tokens, a
 * supported-groups extension, and a point-format field that is "0" exactly
 * when the EC point formats extension is listed).
 */
module RoundTrip {
  import opened Wrappers
  import opened Ints
  import opened Text
  import Tls
  import opened Chunks
  import opened Builder
  import opened BuilderFacts
  import opened Fingerprint

  /** A dash field rendered back from values, each of which its token spells canonically. */
  lemma DecimalFieldRoundTrip(field: string, vs: seq<u16>)
    requires |vs| == |Split(field, '-')|
    requires forall i :: 0 <= i < |vs| ==> Split(field, '-')[i] == Decimal(vs[i])
    ensures DecimalField(vs) == field
  {
    var toks := Split(field, '-');
    assert Decimals(vs) == toks;
    JoinSplit(field, '-');
  }

  /** A canonical token is the rendering of the value it parses to. */
  lemma CanonicalToken(tok: string, v: u16)
    requires IsCanonicalDecimal(tok) && ParseU16(tok) == Some(v)
    ensures tok == Decimal(v)
  {
  }

  /** The markers are the only chunks the plan adds to the converted tokens. */
  lemma AddGreaseMarkersMembers(grease: bool, c: seq<ExtensionChunk>)
    ensures forall x :: x in AddGreaseMarkers(grease, c) <==> x in c || (grease && x == Grease)
  {
    if grease {
      var exts := [Grease] + c;
      var n := |exts|;
      assert exts == exts[..n - 1] + exts[n - 1..];
    }
  }

  /** Markers stripped, the plan is the converted token list. */
  lemma StripParsed(cfg: BuilderConfig, ja3: string)
    requires Parse(cfg, ja3).Ok?
    ensures |Split(ja3, ',')| == 5
    ensures var groups := CodeTokens(GroupField, FieldTokens(ja3, 3)).value;
      StripGrease(Parse(cfg, ja3).value.extensions) == ConvertTokens(cfg, groups, FieldTokens(ja3, 2)).value
  {
    ParsedPlan(cfg, ja3);
    var groups := CodeTokens(GroupField, FieldTokens(ja3, 3)).value;
    var t2 := FieldTokens(ja3, 2);
    var c := ConvertTokens(cfg, groups, t2).value;
    ConvertedNoGrease(cfg, groups, t2);
    if cfg.grease {
      GreaseMarkersShape(c);
    } else {
      StripGreaseNone(c);
    }
  }

  /** A numeric field whose tokens are all canonical parses and renders back to itself. */
  lemma CanonicalFieldRoundTrip(code: CodeField, field: string)
    requires forall t :: t in Split(field, '-') ==> IsCanonicalDecimal(t)
    ensures CodeTokens(code, Split(field, '-')).Ok?
    ensures DecimalField(CodeTokens(code, Split(field, '-')).value) == field
  {
    var toks := Split(field, '-');
    CodeTokensOkIff(code, toks);
    CodeTokensSpec(code, toks);
    var vs := CodeTokens(code, toks).value;
    forall i | 0 <= i < |vs| ensures toks[i] == Decimal(vs[i]) {
      assert toks[i] in toks;
      assert CodeToken(code, toks[i]) == Ok(vs[i]);
    }
    DecimalFieldRoundTrip(field, vs);
  }

  /** Field 2 (cipher suites) renders back. */
  lemma CiphersRoundTrip(cfg: BuilderConfig, ja3: string)
    requires Parse(cfg, ja3).Ok?
    requires forall t :: t in FieldTokens(ja3, 1) ==> IsCanonicalDecimal(t)
    ensures DecimalField(Parse(cfg, ja3).value.cipherSuites) == Split(ja3, ',')[1]
  {
    ParsedPlan(cfg, ja3);
    CanonicalFieldRoundTrip(CipherField, Split(ja3, ',')[1]);
  }

  /** Field 3 (extension types) renders back. */
  lemma ExtensionsRoundTrip(cfg: BuilderConfig, ja3: string)
    requires Parse(cfg, ja3).Ok? && UnknownMapConsistent(cfg)
    requires forall t :: t in FieldTokens(ja3, 2) ==> IsCanonicalDecimal(t)
    ensures DecimalField(ExtensionToVec(Parse(cfg, ja3).value.extensions)) == Split(ja3, ',')[2]
  {
    StripParsed(cfg, ja3);
    var groups := CodeTokens(GroupField, FieldTokens(ja3, 3)).value;
    var t2 := FieldTokens(ja3, 2);
    var c := ConvertTokens(cfg, groups, t2).value;
    var ext := Parse(cfg, ja3).value.extensions;
    ConvertTokensSpec(cfg, groups, t2);
    ConvertedNoGrease(cfg, groups, t2);
    ExtensionToVecStrip(ext);
    ExtensionToVecPositional(c);
    var codes := ExtensionToVec(c);
    forall i | 0 <= i < |codes| ensures t2[i] == Decimal(codes[i]) {
      ConvertTokenCode(cfg, groups, t2[i]);
      assert t2[i] in t2;
      CanonicalToken(t2[i], codes[i]);
    }
    DecimalFieldRoundTrip(Split(ja3, ',')[2], codes);
  }

  /** With a consistent unknown map, only a type-10 token yields a chunk carrying groups. */
  lemma GroupsOnlyFromSupportedGroups(cfg: BuilderConfig, groups: seq<u16>, tok: string)
    requires UnknownMapConsistent(cfg) && ConvertToken(cfg, groups, tok).Ok?
    ensures ChunkGroups(ConvertToken(cfg, groups, tok).value).Some? <==> ParseU16(tok) == Some(Tls.SUPPORTED_GROUPS)
    ensures ChunkGroups(ConvertToken(cfg, groups, tok).value).Some? ==>
              ChunkGroups(ConvertToken(cfg, groups, tok).value) == Some(groups)
  {
    ConvertTokenCode(cfg, groups, tok);
    ConvertTokenConfigured(cfg, groups, tok);
  }

  /** With a consistent unknown map, only a type-11 token yields point formats, and they are [0]. */
  lemma FormatsOnlyFromPointFormats(cfg: BuilderConfig, groups: seq<u16>, tok: string)
    requires UnknownMapConsistent(cfg) && ConvertToken(cfg, groups, tok).Ok?
    ensures ChunkFormats(ConvertToken(cfg, groups, tok).value).Some? <==> ParseU16(tok) == Some(Tls.EC_POINT_FORMATS)
    ensures ChunkFormats(ConvertToken(cfg, groups, tok).value).Some? ==>
              ChunkFormats(ConvertToken(cfg, groups, tok).value) == Some([Tls.UNCOMPRESSED])
  {
    ConvertTokenCode(cfg, groups, tok);
  }

  /** Some extension token names the supported-groups extension. */
  predicate ListsSupportedGroups(ja3: string)
    requires |Split(ja3, ',')| == 5
  {
    exists t :: t in FieldTokens(ja3, 2) && ParseU16(t) == Some(Tls.SUPPORTED_GROUPS)
  }

  /** Some extension token names the EC point formats extension. */
  predicate ListsPointFormats(ja3: string)
    requires |Split(ja3, ',')| == 5
  {
    exists t :: t in FieldTokens(ja3, 2) && ParseU16(t) == Some(Tls.EC_POINT_FORMATS)
  }

  /** When some chunk carries groups and all that do carry `groups`, the first one does. */
  lemma FirstGroupsUniform(ext: seq<ExtensionChunk>, groups: seq<u16>)
    requires exists x :: x in ext && ChunkGroups(x).Some?
    requires forall x :: x in ext && ChunkGroups(x).Some? ==> ChunkGroups(x) == Some(groups)
    ensures FirstGroups(ext) == Some(groups)
  {
    var x :| x in ext && ChunkGroups(x).Some?;
    var j :| 0 <= j < |ext| && ext[j] == x;
    assert ChunkGroups(ext[j]).Some?;
    var k :| 0 <= k < |ext| && ChunkGroups(ext[k]) == FirstGroups(ext);
    assert ext[k] in ext;
  }

  /** When all chunks that carry point formats carry `formats`, the first one does, if any. */
  lemma FirstFormatsUniform(ext: seq<ExtensionChunk>, formats: seq<u8>)
    requires forall x :: x in ext && ChunkFormats(x).Some? ==> ChunkFormats(x) == Some(formats)
    ensures (exists x :: x in ext && ChunkFormats(x).Some?) ==> FirstFormats(ext) == Some(formats)
    ensures (forall x :: x in ext ==> ChunkFormats(x).None?) ==> FirstFormats(ext).None?
  {
    if exists x :: x in ext && ChunkFormats(x).Some? {
      var x :| x in ext && ChunkFormats(x).Some?;
      var j :| 0 <= j < |ext| && ext[j] == x;
      assert ChunkFormats(ext[j]).Some?;
      var k :| 0 <= k < |ext| && ChunkFormats(ext[k]) == FirstFormats(ext);
      assert ext[k] in ext;
    } else {
      forall i | 0 <= i < |ext| ensures ChunkFormats(ext[i]).None? {
        assert ext[i] in ext;
      }
    }
  }

  /** Over converted tokens: group carriers carry `groups`, and a type-10 token makes one. */
  lemma TokensGroups(cfg: BuilderConfig, groups: seq<u16>, toks: seq<string>, c: seq<ExtensionChunk>)
    requires UnknownMapConsistent(cfg) && ConvertTokens(cfg, groups, toks) == Ok(c)
    ensures forall x :: x in c && ChunkGroups(x).Some? ==> ChunkGroups(x) == Some(groups)
    ensures (exists t :: t in toks && ParseU16(t) == Some(Tls.SUPPORTED_GROUPS)) ==>
              exists x :: x in c && ChunkGroups(x).Some?
  {
    ConvertTokensSpec(cfg, groups, toks);
    forall x | x in c && ChunkGroups(x).Some? ensures ChunkGroups(x) == Some(groups) {
      var m :| 0 <= m < |c| && c[m] == x;
      GroupsOnlyFromSupportedGroups(cfg, groups, toks[m]);
    }
    if exists t :: t in toks && ParseU16(t) == Some(Tls.SUPPORTED_GROUPS) {
      var t :| t in toks && ParseU16(t) == Some(Tls.SUPPORTED_GROUPS);
      var m :| 0 <= m < |toks| && toks[m] == t;
      GroupsOnlyFromSupportedGroups(cfg, groups, toks[m]);
      assert c[m] in c;
    }
  }

  /** Over converted tokens: point-format carriers carry [0], and exist exactly when a type-11 token does. */
  lemma TokensFormats(cfg: BuilderConfig, groups: seq<u16>, toks: seq<string>, c: seq<ExtensionChunk>)
    requires UnknownMapConsistent(cfg) && ConvertTokens(cfg, groups, toks) == Ok(c)
    ensures forall x :: x in c && ChunkFormats(x).Some? ==> ChunkFormats(x) == Some([Tls.UNCOMPRESSED])
    ensures (exists x :: x in c && ChunkFormats(x).Some?) <==>
              exists t :: t in toks && ParseU16(t) == Some(Tls.EC_POINT_FORMATS)
  {
    ConvertTokensSpec(cfg, groups, toks);
    forall x | x in c && ChunkFormats(x).Some?
      ensures ChunkFormats(x) == Some([Tls.UNCOMPRESSED])
      ensures exists t :: t in toks && ParseU16(t) == Some(Tls.EC_POINT_FORMATS)
    {
      var m :| 0 <= m < |c| && c[m] == x;
      FormatsOnlyFromPointFormats(cfg, groups, toks[m]);
      assert toks[m] in toks;
    }
    if exists t :: t in toks && ParseU16(t) == Some(Tls.EC_POINT_FORMATS) {
      var t :| t in toks && ParseU16(t) == Some(Tls.EC_POINT_FORMATS);
      var m :| 0 <= m < |toks| && toks[m] == t;
      FormatsOnlyFromPointFormats(cfg, groups, toks[m]);
      assert c[m] in c;
    }
  }

  /** With markers added around converted tokens, the first group carrier still carries `groups`. */
  lemma FirstGroupsMarked(cfg: BuilderConfig, groups: seq<u16>, toks: seq<string>, c: seq<ExtensionChunk>)
    requires UnknownMapConsistent(cfg) && ConvertTokens(cfg, groups, toks) == Ok(c)
    requires exists t :: t in toks && ParseU16(t) == Some(Tls.SUPPORTED_GROUPS)
    ensures FirstGroups(AddGreaseMarkers(cfg.grease, c)) == Some(groups)
  {
    var ext := AddGreaseMarkers(cfg.grease, c);
    TokensGroups(cfg, groups, toks, c);
    AddGreaseMarkersMembers(cfg.grease, c);
    var x :| x in c && ChunkGroups(x).Some?;
    assert x in ext;
    FirstGroupsUniform(ext, groups);
  }

  /** The first chunk carrying groups carries the parsed group field, when a type-10 token is listed. */
  lemma FirstGroupsParsed(cfg: BuilderConfig, ja3: string)
    requires Parse(cfg, ja3).Ok? && UnknownMapConsistent(cfg)
    requires |Split(ja3, ',')| == 5 && ListsSupportedGroups(ja3)
    ensures FirstGroups(Parse(cfg, ja3).value.extensions) == Some(CodeTokens(GroupField, FieldTokens(ja3, 3)).value)
  {
    ParsedPlan(cfg, ja3);
    var groups := CodeTokens(GroupField, FieldTokens(ja3, 3)).value;
    FirstGroupsMarked(cfg, groups, FieldTokens(ja3, 2), ConvertTokens(cfg, groups, FieldTokens(ja3, 2)).value);
  }

  /** Field 4 (named groups) renders back, when a supported-groups token is listed. */
  lemma GroupsRoundTrip(cfg: BuilderConfig, ja3: string)
    requires Parse(cfg, ja3).Ok? && UnknownMapConsistent(cfg)
    requires forall t :: t in FieldTokens(ja3, 3) ==> IsCanonicalDecimal(t)
    requires |Split(ja3, ',')| == 5 && ListsSupportedGroups(ja3)
    ensures FirstGroups(Parse(cfg, ja3).value.extensions).Some?
    ensures DecimalField(FirstGroups(Parse(cfg, ja3).value.extensions).value) == Split(ja3, ',')[3]
  {
    FirstGroupsParsed(cfg, ja3);
    CanonicalFieldRoundTrip(GroupField, Split(ja3, ',')[3]);
  }

  /** With markers added around converted tokens, point formats are [0] when a type-11 token is listed, absent otherwise. */
  lemma FirstFormatsMarked(cfg: BuilderConfig, groups: seq<u16>, toks: seq<string>, c: seq<ExtensionChunk>)
    requires UnknownMapConsistent(cfg) && ConvertTokens(cfg, groups, toks) == Ok(c)
    ensures (exists t :: t in toks && ParseU16(t) == Some(Tls.EC_POINT_FORMATS)) ==>
              FirstFormats(AddGreaseMarkers(cfg.grease, c)) == Some([Tls.UNCOMPRESSED])
    ensures !(exists t :: t in toks && ParseU16(t) == Some(Tls.EC_POINT_FORMATS)) ==>
              FirstFormats(AddGreaseMarkers(cfg.grease, c)).None?
  {
    var ext := AddGreaseMarkers(cfg.grease, c);
    TokensFormats(cfg, groups, toks, c);
    AddGreaseMarkersMembers(cfg.grease, c);
    FirstFormatsUniform(ext, [Tls.UNCOMPRESSED]);
    if exists x :: x in c && ChunkFormats(x).Some? {
      var x :| x in c && ChunkFormats(x).Some?;
      assert x in ext;
    }
  }

  /** Field 5 (point formats): [0] when the extension is listed, nothing when it is not. */
  lemma FormatsRoundTrip(cfg: BuilderConfig, ja3: string)
    requires Parse(cfg, ja3).Ok? && UnknownMapConsistent(cfg)
    ensures |Split(ja3, ',')| == 5
    ensures ListsPointFormats(ja3) ==> FirstFormats(Parse(cfg, ja3).value.extensions) == Some([Tls.UNCOMPRESSED])
    ensures !ListsPointFormats(ja3) ==> FirstFormats(Parse(cfg, ja3).value.extensions).None?
  {
    ParsedPlan(cfg, ja3);
    var t2 := FieldTokens(ja3, 2);
    var groups := CodeTokens(GroupField, FieldTokens(ja3, 3)).value;
    FirstFormatsMarked(cfg, groups, t2, ConvertTokens(cfg, groups, t2).value);
  }

  /** The conditions under which a descriptor is already in `ja3_full` form. */
  predicate InJa3FullForm(cfg: BuilderConfig, ja3: string)
  {
    && Parse(cfg, ja3).Ok?
    && UnknownMapConsistent(cfg)
    && Split(ja3, ',')[0] == "771"
    && (forall t :: t in FieldTokens(ja3, 1) ==> IsCanonicalDecimal(t))
    && (forall t :: t in FieldTokens(ja3, 2) ==> IsCanonicalDecimal(t))
    && (forall t :: t in FieldTokens(ja3, 3) ==> IsCanonicalDecimal(t))
    && ListsSupportedGroups(ja3)
    && (if ListsPointFormats(ja3) then Split(ja3, ',')[4] == "0" else Split(ja3, ',')[4] == "")
  }

  /** A plan whose five renderings are the five fields renders as those fields. */
  lemma FieldsFromParts(plan: JaOverride, f: seq<string>)
    requires |f| == 5 && f[0] == "771"
    requires DecimalField(plan.cipherSuites) == f[1]
    requires DecimalField(ExtensionToVec(plan.extensions)) == f[2]
    requires FirstGroups(plan.extensions).Some? && DecimalField(FirstGroups(plan.extensions).value) == f[3]
    requires || (FirstFormats(plan.extensions) == Some([Tls.UNCOMPRESSED]) && f[4] == "0")
             || (FirstFormats(plan.extensions).None? && f[4] == "")
    ensures Ja3Fields(plan) == f
  {
    var a, b := DecimalField(plan.cipherSuites), DecimalField(ExtensionToVec(plan.extensions));
    var c := DecimalField(FirstGroups(plan.extensions).value);
    var e := if FirstFormats(plan.extensions).Some? then "0" else "";
    UncompressedField();
    assert Ja3Fields(plan) == ["771", a, b, c, e];
    FiveFields("771", a, b, c, e, f);
  }

  lemma FiveFields(a: string, b: string, c: string, d: string, e: string, f: seq<string>)
    requires |f| == 5 && f[0] == a && f[1] == b && f[2] == c && f[3] == d && f[4] == e
    ensures [a, b, c, d, e] == f
  {
  }

  /** Parsing a descriptor in `ja3_full` form and rendering the plan gives back the descriptor. */
  lemma Ja3RoundTrip(cfg: BuilderConfig, ja3: string)
    requires InJa3FullForm(cfg, ja3)
    ensures Ja3Full(Parse(cfg, ja3).value) == ja3
  {
    CiphersRoundTrip(cfg, ja3);
    ExtensionsRoundTrip(cfg, ja3);
    GroupsRoundTrip(cfg, ja3);
    FormatsRoundTrip(cfg, ja3);
    FieldsFromParts(Parse(cfg, ja3).value, Split(ja3, ','));
    JoinSplit(ja3, ',');
  }
}
