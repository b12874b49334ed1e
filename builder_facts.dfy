/**
 * Properties of the descriptor parser: which tokens it accepts, what each
 * accepted token becomes, which error wins, and where the GREASE markers go.
 */
module BuilderFacts {
  import opened Wrappers
  import opened Ints
  import opened Text
  import Tls
  import opened Chunks
  import opened Builder

  // ---------------------------------------------------------------------
  // One extension token
  // ---------------------------------------------------------------------

  /**
   * Reference definition of the extension types a configuration accepts:
   * the fixed ones, supported groups, a configured type whose field is set,
   * and any other type present in the unknown-extension map.
   */
  predicate Accepted(cfg: BuilderConfig, code: u16)
  {
    || code in WELL_KNOWN
    || code == Tls.SUPPORTED_GROUPS
    || (code == Tls.SUPPORTED_VERSIONS && cfg.tlsVersions.Some?)
    || (code == Tls.ALPN && cfg.alpn.Some?)
    || (code == Tls.SIGNATURE_ALGORITHMS && cfg.signatureAlgorithms.Some?)
    || (code == Tls.COMPRESS_CERTIFICATE && cfg.compressCertificate.Some?)
    || (code !in CONFIGURED && code in cfg.unknownExtensions)
  }

  /** A token converts exactly when it is a u16 the configuration accepts. */
  lemma ConvertTokenAccepted(cfg: BuilderConfig, groups: seq<u16>, tok: string)
    ensures ConvertToken(cfg, groups, tok).Ok? <==> ParseU16(tok).Some? && Accepted(cfg, ParseU16(tok).value)
  {
  }

  /** Each way a token can fail, and the error it fails with. */
  lemma ConvertTokenErrors(cfg: BuilderConfig, groups: seq<u16>, tok: string)
    ensures ParseU16(tok).None? ==> ConvertToken(cfg, groups, tok) == Err(ExtensionType(tok))
    ensures ParseU16(tok) == Some(Tls.SUPPORTED_VERSIONS) ==>
              (ConvertToken(cfg, groups, tok) == Err(MissingTlsVersion) <==> cfg.tlsVersions.None?)
    ensures ParseU16(tok) == Some(Tls.ALPN) ==>
              (ConvertToken(cfg, groups, tok) == Err(MissingAlpn) <==> cfg.alpn.None?)
    ensures ParseU16(tok) == Some(Tls.SIGNATURE_ALGORITHMS) ==>
              (ConvertToken(cfg, groups, tok) == Err(MissingSignatureAlgorithms) <==> cfg.signatureAlgorithms.None?)
    ensures ParseU16(tok) == Some(Tls.COMPRESS_CERTIFICATE) ==>
              (ConvertToken(cfg, groups, tok) == Err(MissingCompressCertificate) <==> cfg.compressCertificate.None?)
    ensures ParseU16(tok).Some? && ParseU16(tok).value !in WELL_KNOWN + CONFIGURED ==>
              (ConvertToken(cfg, groups, tok) == Err(ExtensionType(tok)) <==> ParseU16(tok).value !in cfg.unknownExtensions)
  {
  }

  /** The error of a failing token does not depend on the group list. */
  lemma ConvertTokenErrorIndependent(cfg: BuilderConfig, g1: seq<u16>, g2: seq<u16>, tok: string)
    ensures ConvertToken(cfg, g1, tok).Err? <==> ConvertToken(cfg, g2, tok).Err?
    ensures ConvertToken(cfg, g1, tok).Err? ==> ConvertToken(cfg, g1, tok).error == ConvertToken(cfg, g2, tok).error
  {
  }

  /**
   * Configured types carry the configured payload whole: type 10 the full
   * parsed group list, type 43 the configured versions, greased exactly when
   * GREASE is on; 16, 13 and 27 the ALPN list, the signature schemes and the
   * single compression algorithm. Any other type without its own handling
   * is a clone of the unknown-map entry filed under it.
   */
  lemma ConvertTokenConfigured(cfg: BuilderConfig, groups: seq<u16>, tok: string)
    ensures ParseU16(tok) == Some(Tls.SUPPORTED_GROUPS) ==>
              && ConvertToken(cfg, groups, tok).Ok?
              && ChunkGroups(ConvertToken(cfg, groups, tok).value) == Some(groups)
              && (ConvertToken(cfg, groups, tok).value.GreasedNameGroups? <==> cfg.grease)
    ensures ParseU16(tok) == Some(Tls.SUPPORTED_VERSIONS) && cfg.tlsVersions.Some? ==>
              && ConvertToken(cfg, groups, tok).Ok?
              && ChunkVersions(ConvertToken(cfg, groups, tok).value) == cfg.tlsVersions
              && (ConvertToken(cfg, groups, tok).value.GreasedTlsVersion? <==> cfg.grease)
    ensures ParseU16(tok) == Some(Tls.ALPN) && cfg.alpn.Some? ==>
              ConvertToken(cfg, groups, tok) == Ok(Extension(Tls.Protocols(cfg.alpn.value)))
    ensures ParseU16(tok) == Some(Tls.SIGNATURE_ALGORITHMS) && cfg.signatureAlgorithms.Some? ==>
              ConvertToken(cfg, groups, tok) == Ok(Extension(Tls.SignatureAlgorithms(cfg.signatureAlgorithms.value)))
    ensures ParseU16(tok) == Some(Tls.COMPRESS_CERTIFICATE) && cfg.compressCertificate.Some? ==>
              ConvertToken(cfg, groups, tok) == Ok(Extension(Tls.CompressCertificate([cfg.compressCertificate.value])))
    ensures ParseU16(tok).Some? && ParseU16(tok).value !in WELL_KNOWN + CONFIGURED &&
            ParseU16(tok).value in cfg.unknownExtensions ==>
              ConvertToken(cfg, groups, tok) == Ok(Extension(cfg.unknownExtensions[ParseU16(tok).value]))
  {
  }

  /** A converted token is never a GREASE marker. */
  lemma ConvertTokenNotGrease(cfg: BuilderConfig, groups: seq<u16>, tok: string)
    ensures ConvertToken(cfg, groups, tok).Ok? ==> !ConvertToken(cfg, groups, tok).value.Grease?
  {
  }

  /**
   * With every unknown-map entry filed under its own type, a converted chunk
   * stands for exactly the type its token names.
   */
  lemma ConvertTokenCode(cfg: BuilderConfig, groups: seq<u16>, tok: string)
    requires UnknownMapConsistent(cfg)
    ensures ConvertToken(cfg, groups, tok).Ok? ==> ChunkCode(ConvertToken(cfg, groups, tok).value) == ParseU16(tok)
  {
    if ConvertToken(cfg, groups, tok).Ok? {
      var code := ParseU16(tok).value;
      if code !in WELL_KNOWN + CONFIGURED {
        assert code in cfg.unknownExtensions;
      }
    }
  }

  /** Types with their own handling never look at the unknown-extension map. */
  lemma UnknownMapOnlyForUnhandled(cfg: BuilderConfig, m: map<u16, Tls.ClientExtension>, groups: seq<u16>, tok: string)
    requires ParseU16(tok).Some? && ParseU16(tok).value in WELL_KNOWN + CONFIGURED
    ensures ConvertToken(cfg.(unknownExtensions := m), groups, tok) == ConvertToken(cfg, groups, tok)
  {
  }

  // ---------------------------------------------------------------------
  // The whole descriptor
  // ---------------------------------------------------------------------

  /** A numeric field succeeds when every token is a u16. */
  lemma {:induction false} CodeTokensAllParse(field: CodeField, toks: seq<string>)
    requires forall t :: t in toks ==> ParseU16(t).Some?
    ensures CodeTokens(field, toks).Ok?
  {
    if toks != [] {
      assert toks[0] in toks;
      forall t | t in toks[1..] ensures ParseU16(t).Some? {
        assert t in toks;
      }
      CodeTokensAllParse(field, toks[1..]);
    }
  }

  /** A numeric field succeeds exactly when every token is a u16. */
  lemma CodeTokensOkIff(field: CodeField, toks: seq<string>)
    ensures CodeTokens(field, toks).Ok? <==> forall t :: t in toks ==> ParseU16(t).Some?
  {
    CodeTokensSpec(field, toks);
    var r := CodeTokens(field, toks);
    if r.Err? {
      var k :| 0 <= k < |toks| && CodeToken(field, toks[k]) == Err(r.error);
      assert toks[k] in toks;
    } else {
      forall t | t in toks ensures ParseU16(t).Some? {
        var i :| 0 <= i < |toks| && toks[i] == t;
        assert CodeToken(field, toks[i]) == Ok(r.value[i]);
      }
    }
  }

  /** The extension field succeeds exactly when every token is an accepted u16. */
  lemma ConvertTokensOkIff(cfg: BuilderConfig, groups: seq<u16>, toks: seq<string>)
    ensures ConvertTokens(cfg, groups, toks).Ok? <==>
              forall t :: t in toks ==> ParseU16(t).Some? && Accepted(cfg, ParseU16(t).value)
  {
    ConvertTokensSpec(cfg, groups, toks);
    var r := ConvertTokens(cfg, groups, toks);
    if r.Err? {
      var k :| 0 <= k < |toks| && ConvertToken(cfg, groups, toks[k]) == Err(r.error);
      ConvertTokenAccepted(cfg, groups, toks[k]);
      assert toks[k] in toks;
    } else {
      forall t | t in toks ensures ParseU16(t).Some? && Accepted(cfg, ParseU16(t).value) {
        var i :| 0 <= i < |toks| && toks[i] == t;
        assert ConvertToken(cfg, groups, toks[i]) == Ok(r.value[i]);
        ConvertTokenAccepted(cfg, groups, t);
      }
    }
  }

  /** A converted token list has one chunk per token and no marker among them. */
  lemma ConvertedNoGrease(cfg: BuilderConfig, groups: seq<u16>, toks: seq<string>)
    requires ConvertTokens(cfg, groups, toks).Ok?
    ensures |ConvertTokens(cfg, groups, toks).value| == |toks|
    ensures forall i :: 0 <= i < |toks| ==> !ConvertTokens(cfg, groups, toks).value[i].Grease?
  {
    ConvertTokensSpec(cfg, groups, toks);
    forall i | 0 <= i < |toks| ensures !ConvertTokens(cfg, groups, toks).value[i].Grease? {
      ConvertTokenNotGrease(cfg, groups, toks[i]);
    }
  }

  /** The cipher list, the groups and the converted chunks of a successful parse. */
  lemma ParsedPlan(cfg: BuilderConfig, ja3: string)
    requires Parse(cfg, ja3).Ok?
    ensures |Split(ja3, ',')| == 5
    ensures var t1, t2, t3 := FieldTokens(ja3, 1), FieldTokens(ja3, 2), FieldTokens(ja3, 3);
      && CodeTokens(CipherField, t1).Ok? && CodeTokens(GroupField, t3).Ok?
      && ConvertTokens(cfg, CodeTokens(GroupField, t3).value, t2).Ok?
      && Parse(cfg, ja3).value.cipherSuites == CodeTokens(CipherField, t1).value
      && Parse(cfg, ja3).value.extensions ==
           AddGreaseMarkers(cfg.grease, ConvertTokens(cfg, CodeTokens(GroupField, t3).value, t2).value)
  {
    var t1, t2, t3 := FieldTokens(ja3, 1), FieldTokens(ja3, 2), FieldTokens(ja3, 3);
    ParseFails(cfg, ja3);
    var c1, c3 := CodeTokens(CipherField, t1), CodeTokens(GroupField, t3);
    ParseSucceeds(cfg, ja3, c1.value, c3.value, ConvertTokens(cfg, c3.value, t2).value);
  }

  /**
   * A descriptor parses exactly when it has five fields, every cipher and
   * group token is a u16, and every extension token is accepted.
   */
  lemma ParseOkIff(cfg: BuilderConfig, ja3: string)
    ensures Parse(cfg, ja3).Ok? <==>
      && |Split(ja3, ',')| == 5
      && (forall t :: t in FieldTokens(ja3, 1) ==> ParseU16(t).Some?)
      && (forall t :: t in FieldTokens(ja3, 3) ==> ParseU16(t).Some?)
      && (forall t :: t in FieldTokens(ja3, 2) ==> ParseU16(t).Some? && Accepted(cfg, ParseU16(t).value))
  {
    if |Split(ja3, ',')| == 5 {
      var t1, t2, t3 := FieldTokens(ja3, 1), FieldTokens(ja3, 2), FieldTokens(ja3, 3);
      ParseFails(cfg, ja3);
      CodeTokensOkIff(CipherField, t1);
      CodeTokensOkIff(GroupField, t3);
      var c1, c3 := CodeTokens(CipherField, t1), CodeTokens(GroupField, t3);
      if c1.Ok? && c3.Ok? {
        ConvertTokensOkIff(cfg, c3.value, t2);
        var c2 := ConvertTokens(cfg, c3.value, t2);
        if c2.Ok? {
          ParseSucceeds(cfg, ja3, c1.value, c3.value, c2.value);
        }
      }
    }
  }

  /** On success the cipher list holds one value per cipher token, in token order. */
  lemma ParseCipherSuites(cfg: BuilderConfig, ja3: string)
    requires Parse(cfg, ja3).Ok?
    ensures |Split(ja3, ',')| == 5
    ensures |Parse(cfg, ja3).value.cipherSuites| == |FieldTokens(ja3, 1)|
    ensures forall i :: 0 <= i < |FieldTokens(ja3, 1)| ==>
              ParseU16(FieldTokens(ja3, 1)[i]) == Some(Parse(cfg, ja3).value.cipherSuites[i])
  {
    ParsedPlan(cfg, ja3);
    var t1 := FieldTokens(ja3, 1);
    CodeTokensSpec(CipherField, t1);
    var c1 := CodeTokens(CipherField, t1);
    forall i | 0 <= i < |t1| ensures ParseU16(t1[i]) == Some(c1.value[i]) {
      assert CodeToken(CipherField, t1[i]) == Ok(c1.value[i]);
    }
  }

  /** The first bad cipher token is the error, whatever follows it. */
  lemma ParseCipherError(cfg: BuilderConfig, ja3: string, k: nat)
    requires |Split(ja3, ',')| == 5
    requires k < |FieldTokens(ja3, 1)| && ParseU16(FieldTokens(ja3, 1)[k]).None?
    requires forall i :: 0 <= i < k ==> ParseU16(FieldTokens(ja3, 1)[i]).Some?
    ensures Parse(cfg, ja3) == Err(CipherSuite(FieldTokens(ja3, 1)[k]))
  {
    var t1 := FieldTokens(ja3, 1);
    forall i | 0 <= i < k ensures CodeToken(CipherField, t1[i]).Ok? {
      assert ParseU16(t1[i]).Some?;
    }
    CodeTokensFirstError(CipherField, t1, k);
    ParseFails(cfg, ja3);
  }

  /** An empty cipher field is one empty token, which is not a number. */
  lemma ParseEmptyCipherField(cfg: BuilderConfig, ja3: string)
    requires |Split(ja3, ',')| == 5 && Split(ja3, ',')[1] == ""
    ensures Parse(cfg, ja3) == Err(CipherSuite(""))
  {
    assert FieldTokens(ja3, 1) == [""];
    ParseCipherError(cfg, ja3, 0);
  }

  /** With every cipher token valid, the first bad group token is the error. */
  lemma ParseGroupError(cfg: BuilderConfig, ja3: string, k: nat)
    requires |Split(ja3, ',')| == 5
    requires forall t :: t in FieldTokens(ja3, 1) ==> ParseU16(t).Some?
    requires k < |FieldTokens(ja3, 3)| && ParseU16(FieldTokens(ja3, 3)[k]).None?
    requires forall i :: 0 <= i < k ==> ParseU16(FieldTokens(ja3, 3)[i]).Some?
    ensures Parse(cfg, ja3) == Err(NamedGroup(FieldTokens(ja3, 3)[k]))
  {
    var t1, t3 := FieldTokens(ja3, 1), FieldTokens(ja3, 3);
    CodeTokensAllParse(CipherField, t1);
    forall i | 0 <= i < k ensures CodeToken(GroupField, t3[i]).Ok? {
      assert ParseU16(t3[i]).Some?;
    }
    CodeTokensFirstError(GroupField, t3, k);
    ParseFails(cfg, ja3);
  }

  /**
   * With every cipher and group token valid, the first extension token that
   * does not convert decides the error.
   */
  lemma ParseExtensionError(cfg: BuilderConfig, ja3: string, k: nat)
    requires |Split(ja3, ',')| == 5
    requires forall t :: t in FieldTokens(ja3, 1) ==> ParseU16(t).Some?
    requires forall t :: t in FieldTokens(ja3, 3) ==> ParseU16(t).Some?
    requires k < |FieldTokens(ja3, 2)|
    requires !(ParseU16(FieldTokens(ja3, 2)[k]).Some? && Accepted(cfg, ParseU16(FieldTokens(ja3, 2)[k]).value))
    requires forall i :: 0 <= i < k ==>
               ParseU16(FieldTokens(ja3, 2)[i]).Some? && Accepted(cfg, ParseU16(FieldTokens(ja3, 2)[i]).value)
    ensures Parse(cfg, ja3).Err?
    ensures forall g :: ConvertToken(cfg, g, FieldTokens(ja3, 2)[k]) == Err(Parse(cfg, ja3).error)
  {
    var t1, t2, t3 := FieldTokens(ja3, 1), FieldTokens(ja3, 2), FieldTokens(ja3, 3);
    CodeTokensAllParse(CipherField, t1);
    CodeTokensAllParse(GroupField, t3);
    var groups := CodeTokens(GroupField, t3).value;
    forall i | 0 <= i < k ensures ConvertToken(cfg, groups, t2[i]).Ok? {
      ConvertTokenAccepted(cfg, groups, t2[i]);
    }
    ConvertTokenAccepted(cfg, groups, t2[k]);
    ConvertTokensFirstError(cfg, groups, t2, k);
    ParseFails(cfg, ja3);
    forall g ensures ConvertToken(cfg, g, t2[k]) == Err(Parse(cfg, ja3).error) {
      ConvertTokenErrorIndependent(cfg, groups, g, t2[k]);
    }
  }

  /** The version field and the EC point format field are never read. */
  lemma ParseIgnoresVersionAndFormats(cfg: BuilderConfig, a: string, b: string)
    requires |Split(a, ',')| == 5 && |Split(b, ',')| == 5
    requires forall i :: 1 <= i <= 3 ==> Split(a, ',')[i] == Split(b, ',')[i]
    ensures Parse(cfg, a) == Parse(cfg, b)
  {
    assert FieldTokens(a, 1) == FieldTokens(b, 1);
    assert FieldTokens(a, 2) == FieldTokens(b, 2);
    assert FieldTokens(a, 3) == FieldTokens(b, 3);
  }

  /** Without GREASE the plan has one chunk per extension token, in token order. */
  lemma ParseChunksNoGrease(cfg: BuilderConfig, ja3: string)
    requires !cfg.grease && Parse(cfg, ja3).Ok?
    ensures |Split(ja3, ',')| == 5
    ensures |Parse(cfg, ja3).value.extensions| == |FieldTokens(ja3, 2)|
    ensures forall i :: 0 <= i < |FieldTokens(ja3, 2)| ==>
              ConvertToken(cfg, CodeTokens(GroupField, FieldTokens(ja3, 3)).value, FieldTokens(ja3, 2)[i])
                == Ok(Parse(cfg, ja3).value.extensions[i])
  {
    ParsedPlan(cfg, ja3);
    var t2, t3 := FieldTokens(ja3, 2), FieldTokens(ja3, 3);
    ConvertTokensSpec(cfg, CodeTokens(GroupField, t3).value, t2);
  }

  /** A lone marker counts once and strips to nothing. */
  lemma LoneMarker()
    ensures GreaseCount([Grease]) == 1 && StripGrease([Grease]) == []
  {
    assert [Grease][1..] == [];
  }

  /** Markers before `front` and between `front` and `back`: two of them, and nothing else added. */
  lemma MarkersAround(front: seq<ExtensionChunk>, back: seq<ExtensionChunk>)
    requires forall i :: 0 <= i < |front| ==> !front[i].Grease?
    requires forall i :: 0 <= i < |back| ==> !back[i].Grease?
    ensures GreaseCount([Grease] + front + [Grease] + back) == 2
    ensures StripGrease([Grease] + front + [Grease] + back) == front + back
  {
    var a := [Grease] + front;
    var b := a + [Grease];
    LoneMarker();
    GreaseCountNone(front);
    GreaseCountNone(back);
    StripGreaseNone(front);
    StripGreaseNone(back);
    GreaseCountAppend([Grease], front);
    GreaseCountAppend(a, [Grease]);
    GreaseCountAppend(b, back);
    StripGreaseAppend([Grease], front);
    StripGreaseAppend(a, [Grease]);
    StripGreaseAppend(b, back);
    assert StripGrease(a) == front;
    assert StripGrease(b) == front + [];
    assert front + [] == front;
  }

  /**
   * The marker placement rule on a non-empty, marker-free chunk list: a
   * marker in front, and the second one last unless the last chunk is a
   * padding literal, in which case it goes just before that chunk.
   */
  lemma GreaseMarkersShape(c: seq<ExtensionChunk>)
    requires |c| >= 1
    requires forall i :: 0 <= i < |c| ==> !c[i].Grease?
    ensures var ext := AddGreaseMarkers(true, c);
      && |ext| == |c| + 2
      && ext[0].Grease?
      && GreaseCount(ext) == 2
      && StripGrease(ext) == c
      && (IsPaddingLiteral(ext[|ext| - 1]) ==> ext[|ext| - 2].Grease?)
      && (!IsPaddingLiteral(ext[|ext| - 1]) ==> ext[|ext| - 1].Grease?)
    ensures IsPaddingLiteral(c[|c| - 1]) ==>
              AddGreaseMarkers(true, c) == [Grease] + c[..|c| - 1] + [Grease, c[|c| - 1]]
    ensures !IsPaddingLiteral(c[|c| - 1]) ==> AddGreaseMarkers(true, c) == [Grease] + c + [Grease]
  {
    var n := |c|;
    var ext := AddGreaseMarkers(true, c);
    if IsPaddingLiteral(c[n - 1]) {
      var front, back := c[..n - 1], c[n - 1..];
      assert c == front + back;
      assert ext == [Grease] + front + [Grease] + back;
      MarkersAround(front, back);
    } else {
      assert ext == [Grease] + c + [Grease] + [];
      MarkersAround(c, []);
      assert c + [] == c;
    }
  }

  /**
   * With GREASE on, the plan has a marker first and exactly one more: last,
   * or just before a final padding literal. Without the markers it is the
   * converted token list, so its length is the token count plus two.
   */
  lemma ParseGreasePlacement(cfg: BuilderConfig, ja3: string)
    requires cfg.grease && Parse(cfg, ja3).Ok?
    ensures |Split(ja3, ',')| == 5
    ensures var ext := Parse(cfg, ja3).value.extensions;
      && |ext| == |FieldTokens(ja3, 2)| + 2
      && ext[0].Grease?
      && GreaseCount(ext) == 2
      && StripGrease(ext) == ConvertTokens(cfg, CodeTokens(GroupField, FieldTokens(ja3, 3)).value, FieldTokens(ja3, 2)).value
      && (IsPaddingLiteral(ext[|ext| - 1]) ==> ext[|ext| - 2].Grease?)
      && (!IsPaddingLiteral(ext[|ext| - 1]) ==> ext[|ext| - 1].Grease?)
    ensures var c := ConvertTokens(cfg, CodeTokens(GroupField, FieldTokens(ja3, 3)).value, FieldTokens(ja3, 2)).value;
      var ext := Parse(cfg, ja3).value.extensions;
      && |c| == |FieldTokens(ja3, 2)| >= 1
      && (IsPaddingLiteral(c[|c| - 1]) ==> ext == [Grease] + c[..|c| - 1] + [Grease, c[|c| - 1]])
      && (!IsPaddingLiteral(c[|c| - 1]) ==> ext == [Grease] + c + [Grease])
  {
    ParsedPlan(cfg, ja3);
    var t2, t3 := FieldTokens(ja3, 2), FieldTokens(ja3, 3);
    var groups := CodeTokens(GroupField, t3).value;
    ConvertedNoGrease(cfg, groups, t2);
    GreaseMarkersShape(ConvertTokens(cfg, groups, t2).value);
  }

  /**
   * With every unknown-map entry filed under its own type, a chunk is a
   * padding literal exactly when its token is the padding type 21.
   */
  lemma ConvertTokenPadding(cfg: BuilderConfig, groups: seq<u16>, tok: string)
    requires UnknownMapConsistent(cfg) && ConvertToken(cfg, groups, tok).Ok?
    ensures IsPaddingLiteral(ConvertToken(cfg, groups, tok).value) <==> ParseU16(tok) == Some(Tls.PADDING)
  {
    ConvertTokenCode(cfg, groups, tok);
  }

  /**
   * The placement rule read on the descriptor: the second marker goes just
   * before the last chunk when the last extension token is 21 (padding), and
   * at the end otherwise.
   */
  lemma ParsePaddingToken(cfg: BuilderConfig, ja3: string)
    requires cfg.grease && Parse(cfg, ja3).Ok? && UnknownMapConsistent(cfg)
    ensures |Split(ja3, ',')| == 5
    ensures var t := FieldTokens(ja3, 2);
      var c := ConvertTokens(cfg, CodeTokens(GroupField, FieldTokens(ja3, 3)).value, t).value;
      var ext := Parse(cfg, ja3).value.extensions;
      && |c| == |t| >= 1
      && (ParseU16(t[|t| - 1]) == Some(Tls.PADDING) ==> ext == [Grease] + c[..|c| - 1] + [Grease, c[|c| - 1]])
      && (ParseU16(t[|t| - 1]) != Some(Tls.PADDING) ==> ext == [Grease] + c + [Grease])
  {
    ParseGreasePlacement(cfg, ja3);
    var t := FieldTokens(ja3, 2);
    var groups := CodeTokens(GroupField, FieldTokens(ja3, 3)).value;
    ConvertTokensSpec(cfg, groups, t);
    ConvertTokenPadding(cfg, groups, t[|t| - 1]);
  }
}
