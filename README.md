# ja-tools, modelled in Dafny

ja-tools makes a rustls client present the TLS ClientHello that a JA3
fingerprint describes. The model covers four pieces of the crate.

- **The builder** (`src/builder.rs`). `JAOverrideBuilder` holds the
  configured TLS versions, ALPN protocols, signature algorithms,
  compress-certificate option, GREASE flag, unknown-extension map and
  shuffle flag. `with_ja3_full` parses a JA3 descriptor
  `version,ciphers,extensions,groups,formats` into a `JAOverride` plan: the
  cipher list, a list of extension *chunks*, and the shuffle flag. Errors
  name the first token that fails.
- **The override engine** (`src/lib.rs`). The plan replaces the cipher
  list that the TLS engine would send. It also emits at most one extension per
  chunk, taking SNI and key share from the natural list; a graft whose kind
  is absent from the natural list emits nothing. When shuffling is
  on, it permutes the range from the first non-GREASE chunk to the last
  shufflable one.
- **The fingerprints** (`src/hash.rs`). `ja3_full`, `ja3_hash` and
  `ja4_hash` are recomputed from a plan.
- **The GREASE ECH extension** (`src/extensions.rs`). `grease_ech` builds
  a random outer ECHClientHello payload.

## Module layout

- `basics.dfy`: `Wrappers` (Option, Result) and `Ints` (u8, u16 and
  big-endian bytes).
- `text.dfy`: `Text`, the Rust standard-library behaviour the core relies on:
  - `str::split` and `join`;
  - `u16::from_str`, which accepts a leading `+`;
  - decimal and lower-hex rendering;
  - byte-wise string order;
  - `sort_unstable` on strings, proved equal to numeric sorting for 4-digit
    hex.
- `tls.dfy`: `Tls`, the rustls `ClientExtension` values the core builds and
  the IANA codes it uses.
- `chunks.dfy`: `Chunks`, `ExtensionChunk` and the `JAOverride` plan.
- `builder.dfy`: `Builder`, which has two parts:
  - the spec function `Parse`;
  - the class `JaOverrideBuilder`, whose setters and imperative
    `WithJa3Full` are proved against `Parse`.
- `builder_facts.dfy`: `BuilderFacts`, which covers:
  - success exactly when every token is valid;
  - which error wins;
  - where the GREASE markers go;
  - fields that are never read.
- `engine.dfy`: `Engine`, which holds:
  - the emission function;
  - the shuffle on an array;
  - `OverrideExtensions`, proved against `Overridden`, whose shuffled range
    is proved to be a permutation confined to that range.
- `fingerprint.dfy`: `Fingerprint`, the JA3 and JA4 renderings, with the
  digests as parameters.
- `ech.dfy`: `Ech`. It holds the method `GreaseEch` and an encoder/parser
  pair for the outer ECH payload. The pair is proved inverse, and the
  payload is proved to read back as the drawn values.
- `roundtrip.dfy`: `RoundTrip`. For a descriptor already in `ja3_full` form,
  rendering its plan gives back the descriptor.

## Model

| member | source | states |
|---|---|---|
| Ints.BigEndian16 | src/extensions.rs:10-11 | `to_be_bytes` of a u16 is two bytes that read back as the value |
| Ints.BigEndian16Inverse | src/extensions.rs:15 | two bytes read as big-endian and written again are the same two bytes |
| Text.Split | src/builder.rs:50 | `str::split` yields at least one piece and no piece contains the separator |
| Text.JoinSplit | src/hash.rs:16-58 | joining the pieces of a split with the same separator restores the string |
| Text.SplitJoin | src/hash.rs:16-58 | splitting a join of separator-free pieces gives the pieces back |
| Text.SplitPrefix | src/builder.rs:50 | a separator-free prefix merges into the first piece of the split |
| Text.JoinAvoids | src/hash.rs:126-142 | a character absent from every piece and distinct from the separator is absent from the join |
| Text.Decimal | src/hash.rs:22 | `to_string` of a number is a non-empty string of digits |
| Text.DecimalValue | src/hash.rs:22 | the digits of the rendering denote the number |
| Text.ParseDecimal | src/builder.rs:56-63 | `parse::<u16>` reads a rendered u16 back as itself |
| Text.CanonicalDecimal | src/hash.rs:22 | a rendered u16 is canonical: digits only, no leading zero except "0" itself |
| Text.HexDigit | src/hash.rs:96 | each hex digit is a lower-case hex character |
| Text.HexDigitOrder | src/hash.rs:124-125 | hex digit characters are ordered as their values |
| Text.Hex2 | src/hash.rs:129 | `{:02x}` is two lower-hex characters |
| Text.LowerHex | src/hash.rs:128-131 | hex-encoding n bytes gives 2n lower-hex characters |
| Text.HexDigitValue | src/hash.rs:129 | every lower-hex character is the digit of a value below 16 |
| Text.FromLowerHexInverse | src/hash.rs:128-131 | hex decoding inverts the byte-wise hex encoding |
| Text.Hex4 | src/hash.rs:96 | `{:04x}` is four lower-hex characters |
| Text.LexLeTotal | src/hash.rs:124-125 | Rust's string order is total |
| Text.LexLeTransitive | src/hash.rs:124-125 | Rust's string order is transitive |
| Text.LexLeAntisymmetric | src/hash.rs:124-125 | Rust's string order is antisymmetric |
| Text.LexLeFour | src/hash.rs:124-125 | on four-character strings the order is position by position |
| Text.BaseSixteenOrder | src/hash.rs:124-125 | comparing the values of four hex digits is comparing the digits in order |
| Text.Hex4Order | src/hash.rs:124-125 | `{:04x}` renderings compare as strings exactly as the numbers compare |
| Text.InsertLexMultiset | src/hash.rs:124 | one insertion step of the sort adds exactly the inserted string |
| Text.SortedHead | src/hash.rs:124 | the head of a sorted list is at most every later element |
| Text.InsertLexSorted | src/hash.rs:124 | inserting into a sorted list keeps it sorted |
| Text.InsertBeforeHead | src/hash.rs:124 | a string at most the head can be put in front of a sorted list |
| Text.ConsSorted | src/hash.rs:124 | a lower bound of a sorted list can be put in front of it |
| Text.SortLexSpec | src/hash.rs:124-125 | `sort_unstable` on strings yields a sorted permutation |
| Text.HexList | src/hash.rs:96 | the rendered list has one `{:04x}` string per value, in order |
| Text.InsertNumMultiset | src/hash.rs:124 | one numeric insertion step adds exactly the inserted value |
| Text.SortNumMultiset | src/hash.rs:124 | the numeric sort is a permutation |
| Text.InsertCommutes | src/hash.rs:124-125 | inserting the rendering into rendered values equals rendering the numeric insertion |
| Text.SortCommutes | src/hash.rs:124-125 | sorting the hex strings equals rendering the numerically sorted values |
| Text.SortedLexNum | src/hash.rs:124-125 | hex renderings sorted as strings means the values are sorted as numbers |
| Text.HexSortNumeric | src/hash.rs:124-125 | the sorted JA4 hex lists are the numerically sorted values rendered; that order is sorted and a permutation |
| Chunks.ChunkCode | src/hash.rs:178-191 | a chunk has an extension code exactly when it is not a GREASE marker |
| Chunks.GreaseCountAppend | src/hash.rs:178-191 | the marker count of a concatenation is the sum of the counts |
| Chunks.GreaseCountNone | src/builder.rs:82-143 | a list without markers counts zero markers |
| Chunks.StripGreaseAppend | src/hash.rs:178-191 | removing markers distributes over concatenation |
| Chunks.StripGreaseNone | src/builder.rs:82-143 | removing markers from a marker-free list changes nothing |
| Builder.ConvertExtension | src/builder.rs:166-194 | `convert_extension` returns a chunk exactly for the well-known codes and that chunk carries the code; 0 becomes the `Sni` graft, 51 the `KeyShare` graft, and every other well-known code a literal extension |
| Builder.ConvertToken | src/builder.rs:84-141 | the conversion of one extension token; its success condition, errors and chunks are stated by `BuilderFacts.ConvertTokenAccepted`, `ConvertTokenErrors`, `ConvertTokenConfigured` (including the unknown-map entry) and `ConvertTokenCode` |
| Builder.CodeTokens | src/builder.rs:54-75 | a cipher or group field's value list or first error; stated by `Builder.CodeTokensSpec` and `BuilderFacts.CodeTokensOkIff` |
| Builder.ConvertTokens | src/builder.rs:82-143 | the extension field's chunk list or first error; stated by `Builder.ConvertTokensSpec` and `BuilderFacts.ConvertTokensOkIff` |
| Builder.CodeTokensSpec | src/builder.rs:54-75 | a numeric field succeeds with one value per token in order, or fails with the first bad token's error |
| Builder.ConvertTokensSpec | src/builder.rs:82-143 | the extension field succeeds with one chunk per token in order, or fails with the first failing token's error |
| Builder.CodeTokensFirstError | src/builder.rs:56-63 | the first bad token decides the error, whatever follows it |
| Builder.CodeTokensOk | src/builder.rs:56-63 | tokens that each parse give exactly that value list |
| Builder.ConvertTokensFirstError | src/builder.rs:82-143 | the `?` on the first failing extension token decides the error |
| Builder.ConvertTokensOk | src/builder.rs:82-143 | tokens that each convert give exactly that chunk list |
| Builder.ParseCodeList | src/builder.rs:54-75 | the push loop over cipher or group tokens computes the field's value list or first error |
| Builder.ConvertExtensionList | src/builder.rs:76-144 | the push loop appends the converted chunks after the leading marker, or stops at the first error |
| Builder.AddGreaseMarkers | src/builder.rs:145-155 | the leading marker (`src/builder.rs:77-81`) and the trailing or pre-padding one; its shape is stated by `BuilderFacts.GreaseMarkersShape` |
| Builder.Parse | src/builder.rs:49-53 | a descriptor without exactly five comma fields fails with `Part`; a plan keeps the builder's shuffle flag |
| Builder.ParseSucceeds | src/builder.rs:158-162 | unfolding lemma of `Parse`: with all three fields converted, the plan is the ciphers, the marked chunks and the shuffle flag |
| Builder.ParseFails | src/builder.rs:54-144 | unfolding lemma of `Parse`: ciphers are checked first, then groups, then extensions, and the first failing field's error is returned |
| Builder.JaOverrideBuilder.constructor | src/builder.rs:36-46 | `Default`: no optional settings, GREASE and shuffle off, empty unknown map |
| Builder.JaOverrideBuilder.WithGrease | src/builder.rs:197-200 | sets the GREASE flag and nothing else |
| Builder.JaOverrideBuilder.WithShuffleExtension | src/builder.rs:202-205 | sets the shuffle flag and nothing else |
| Builder.JaOverrideBuilder.WithTlsVersions | src/builder.rs:207-210 | sets the TLS versions and nothing else |
| Builder.JaOverrideBuilder.WithAlpn | src/builder.rs:212-215 | sets the ALPN protocols and nothing else |
| Builder.JaOverrideBuilder.WithSignatureAlgorithms | src/builder.rs:217-223 | sets the signature algorithms and nothing else |
| Builder.JaOverrideBuilder.WithCompressCertificate | src/builder.rs:225-231 | sets the compress-certificate option and nothing else |
| Builder.JaOverrideBuilder.WithJa3Full | src/builder.rs:49-163 | the imperative parse returns exactly `Parse` of the builder's configuration |
| BuilderFacts.ConvertTokenAccepted | src/builder.rs:82-143 | an extension token converts exactly when it is a u16 the configuration accepts |
| BuilderFacts.ConvertTokenErrors | src/builder.rs:84-141 | each failure has its own error: a bad number, missing versions, ALPN, signature algorithms or compress option, or an unknown type |
| BuilderFacts.ConvertTokenErrorIndependent | src/builder.rs:82-143 | whether a token fails, and its error, do not depend on the group list |
| BuilderFacts.ConvertTokenConfigured | src/builder.rs:88-141 | type 10 carries the parsed groups and type 43 the configured versions, each greased exactly when GREASE is on; 16, 13 and 27 carry the configured ALPN, schemes and compression option; any other type without its own handling is the unknown-map entry filed under it |
| BuilderFacts.ConvertTokenNotGrease | src/builder.rs:82-143 | a converted token is never a marker |
| BuilderFacts.ConvertTokenCode | src/builder.rs:82-143 | with every unknown-map entry filed under its own type, a converted token's chunk carries the token's extension code |
| BuilderFacts.UnknownMapOnlyForUnhandled | src/builder.rs:130-141 | the unknown-extension map is consulted only for types without their own handling |
| BuilderFacts.CodeTokensAllParse | src/builder.rs:54-75 | a numeric field whose tokens all parse succeeds |
| BuilderFacts.CodeTokensOkIff | src/builder.rs:54-75 | a numeric field succeeds exactly when every token is a u16 |
| BuilderFacts.ConvertTokensOkIff | src/builder.rs:82-143 | the extension field succeeds exactly when every token is an accepted u16 |
| BuilderFacts.ConvertedNoGrease | src/builder.rs:82-143 | a converted list has one chunk per token and no marker |
| BuilderFacts.ParsedPlan | src/builder.rs:49-163 | unfolding lemma of `Parse`: a successful parse has five fields, and its plan is the parsed ciphers and the marked conversion of the extension tokens |
| BuilderFacts.ParseOkIff | src/builder.rs:49-163 | a descriptor parses exactly when it has five fields, every cipher and group token is a u16, and every extension token is accepted |
| BuilderFacts.ParseCipherSuites | src/builder.rs:54-64 | on success the cipher list holds the value of each cipher token, in order |
| BuilderFacts.ParseCipherError | src/builder.rs:57-59 | the first bad cipher token is the error |
| BuilderFacts.ParseEmptyCipherField | src/builder.rs:56-59 | an empty cipher field fails on the empty token |
| BuilderFacts.ParseGroupError | src/builder.rs:65-75 | with valid ciphers, the first bad group token is the error |
| BuilderFacts.ParseExtensionError | src/builder.rs:82-143 | with valid ciphers and groups, the first unaccepted extension token decides the error |
| BuilderFacts.ParseIgnoresVersionAndFormats | src/builder.rs:50-163 | the TLS version field and the point-format field never affect the result |
| BuilderFacts.ParseChunksNoGrease | src/builder.rs:76-144 | without GREASE the plan has one chunk per extension token, each carrying that token's code |
| BuilderFacts.LoneMarker | src/builder.rs:77-81 | a lone marker counts once and strips to nothing |
| BuilderFacts.MarkersAround | src/builder.rs:145-155 | markers around and inside a marker-free list add exactly two and nothing else |
| BuilderFacts.GreaseMarkersShape | src/builder.rs:145-155 | with GREASE the result is `[G] + c + [G]`, except that when the last chunk is a padding literal it is `[G] + front + [G, padding]`; so exactly two markers are added |
| BuilderFacts.ParseGreasePlacement | src/builder.rs:76-155 | a GREASE plan has tokens+2 chunks and is the conversion once markers are removed; it is `[G] + c + [G]` when the last converted chunk is not padding and `[G] + front + [G, padding]` when it is |
| BuilderFacts.ConvertTokenPadding | src/builder.rs:130-147 | with a consistent unknown map, a converted chunk is a padding literal exactly when its token is 21 |
| BuilderFacts.ParsePaddingToken | src/builder.rs:145-155 | with a consistent unknown map, the second marker goes just before the last chunk exactly when the last extension token is 21, and at the end otherwise |
| Engine.OverrideCipherSuites | src/lib.rs:34-36 | the natural cipher list is replaced by the plan's |
| Engine.FindGraft | src/lib.rs:45-60 | the grafted natural extension is the first of its kind, or there is none |
| Engine.EmitChunk | src/lib.rs:40-76 | what one chunk emits; stated by `Engine.EmitChunkSpec` |
| Engine.Emit | src/lib.rs:39-77 | the unshuffled output in plan order; stated by `Engine.EmitLength`, `EmitPositional` and `EmitTypes` |
| Engine.EmitChunkSpec | src/lib.rs:39-77 | a chunk emits nothing only when its natural extension is missing; otherwise a marker emits the GREASE extension drawn for its position, a graft the first natural SNI or key share, a literal itself, and a greased list the groups or versions with the GREASE value drawn for its position in front |
| Engine.EmitLength | src/lib.rs:39-77 | the output is one shorter than the plan for each chunk that was dropped |
| Engine.EmitPositional | src/lib.rs:39-77 | when nothing is dropped, output position i is what chunk i emits |
| Engine.EmitTypes | src/lib.rs:39-77 | when nothing is dropped, each non-marker chunk's output has that chunk's extension type |
| Engine.DroppedCountZero | src/lib.rs:45-60 | nothing is dropped exactly when no chunk's natural extension is missing |
| Engine.FirstNonGrease | src/lib.rs:79-83 | `position` finds the first non-marker chunk, or none when all are markers |
| Engine.LastShufflable | src/lib.rs:84-91 | `rposition` finds the last chunk that is neither a marker nor padding, or none |
| Engine.ShuffleBounds | src/lib.rs:78-91 | the shuffle range; stated by `Engine.ShuffleBoundsSpec` |
| Engine.ShuffleBoundsSpec | src/lib.rs:78-94 | a range exists only with shuffling on; it runs from the first non-marker to the last shufflable chunk, is non-empty and lies in the plan; otherwise there is none |
| Engine.ShuffleBoundsOrdered | src/lib.rs:79-91 | the start of the range is never after its end |
| Engine.Swap | src/lib.rs:92-94 | a swap keeps the length |
| Engine.SwapUpdates | src/lib.rs:92-94 | a swap writes each slot with the other's element |
| Engine.SwapIndex | src/lib.rs:92-94 | the swap partner for position i lies in 0..=i and is the draw when the draw is in range |
| Engine.FisherYates | src/lib.rs:92-94 | rand's descending Fisher-Yates on `first..=last`; stated by `Engine.FisherYatesMultiset`, `FisherYatesOutside` and `ShufflePermutesRange` |
| Engine.FisherYatesStep | src/lib.rs:92-94 | unfolding lemma of `FisherYates`: the shuffle swaps slot i and then shuffles the first i slots |
| Engine.SwapMultiset | src/lib.rs:92-94 | a swap is a permutation |
| Engine.FisherYatesMultiset | src/lib.rs:92-94 | the shuffle is a permutation of the whole sequence |
| Engine.FisherYatesOutside | src/lib.rs:92-94 | the shuffle changes nothing outside `first..=last` |
| Engine.ConfinedSlices | src/lib.rs:92-94 | a permutation that fixes everything outside a range permutes that range |
| Engine.ShufflePermutesRange | src/lib.rs:92-94 | `res[first..=last].shuffle` keeps the prefix and suffix and permutes the range |
| Engine.SwapSlots | src/lib.rs:92-94 | swapping two array slots leaves the array as the swapped sequence |
| Engine.ShuffleRange | src/lib.rs:92-94 | the in-place Fisher-Yates loop on the array computes the specified shuffle |
| Engine.ShuffleOutput | src/lib.rs:92-94 | shuffling a copy of the output in an array returns the specified shuffle |
| Engine.EmitPlan | src/lib.rs:39-77 | the push loop over the plan returns the specified emission |
| Engine.ShuffleWithinSpec | src/lib.rs:92-94 | without a range the output is unchanged; with one, it is a permutation confined to the range |
| Engine.Overridden | src/lib.rs:38-97 | the result of `override_extensions`; stated by `Engine.OverriddenSpec` |
| Engine.OverriddenSpec | src/lib.rs:38-97 | without shuffling the result is the emission; with it, the emission with exactly the plan's range permuted |
| Engine.ShuffleChosen | src/lib.rs:92-94 | shuffles the chosen range, or returns the output unchanged |
| Engine.OverrideExtensions | src/lib.rs:38-97 | `override_extensions` returns the emission with its plan range shuffled |
| Fingerprint.GreaseValueHasShape | src/hash.rs:9-12 | each listed GREASE value has equal bytes ending in nibble 0xa |
| Fingerprint.ShapeIsGreaseValue | src/hash.rs:9-12 | every u16 of that shape is listed |
| Fingerprint.GreaseValueShape | src/hash.rs:9-12 | the sixteen GREASE values are exactly the u16s 0x?a?a with equal bytes |
| Fingerprint.ExtensionToVec | src/hash.rs:178-191 | one code per non-marker chunk |
| Fingerprint.ExtensionToVecAppend | src/hash.rs:178-191 | the code list of a concatenation is the concatenation of the code lists |
| Fingerprint.ExtensionToVecStrip | src/hash.rs:178-191 | markers contribute nothing to the code list |
| Fingerprint.ExtensionToVecPositional | src/hash.rs:178-191 | on a marker-free list, position i is chunk i's code |
| Fingerprint.Decimals | src/hash.rs:20-29 | the rendered list has one decimal per value, in order |
| Fingerprint.FirstGroups | src/hash.rs:30-37 | the groups of the first chunk that carries groups, or none when no chunk does |
| Fingerprint.FirstFormats | src/hash.rs:44-50 | the formats of the first chunk that carries point formats, or none |
| Fingerprint.UncompressedField | src/hash.rs:51-56 | the single `uncompressed` format renders as "0" |
| Fingerprint.DecimalFieldNoComma | src/hash.rs:16-58 | a dash-joined decimal field contains no comma |
| Fingerprint.Ja3Full | src/hash.rs:16-58 | the `ja3_full` string; stated by `Fingerprint.Ja3FullFields` and `RoundTrip.Ja3RoundTrip` |
| Fingerprint.Ja3FullFields | src/hash.rs:16-58 | `ja3_full` splits on commas into its five fields, the first of which is "771" |
| Fingerprint.DecimalFieldTokens | src/hash.rs:20-24 | a non-empty field splits on dashes into the decimals of its values |
| Fingerprint.Ja3Hash | src/hash.rs:60-63 | the JA3 hash is 32 lower-hex characters |
| Fingerprint.Ja3HashDigest | src/hash.rs:60-63 | the JA3 hash decodes to the MD5 digest of `ja3_full` |
| Fingerprint.FirstVersions | src/hash.rs:67-75 | the versions of the first chunk that carries versions, or none |
| Fingerprint.Ja4Version | src/hash.rs:67-84 | the version tag is "13" or "12" |
| Fingerprint.Ja4VersionSpec | src/hash.rs:67-84 | the tag is "13" exactly when the first versions list starts with TLS 1.3 |
| Fingerprint.HasDomain | src/hash.rs:85-88 | the domain flag is set exactly when some chunk is SNI or a server-name extension |
| Fingerprint.NonGreaseCiphers | src/hash.rs:89-99 | leaves out exactly the GREASE values and keeps every other cipher with its multiplicity |
| Fingerprint.CountedExtensions | src/hash.rs:100-110 | leaves out exactly SNI (0) and ALPN (0x10) and keeps every other code with its multiplicity |
| Fingerprint.Ja4CiphersSpec | src/hash.rs:89-99 | the JA4 cipher list is the non-GREASE ciphers, sorted numerically, as hex |
| Fingerprint.Ja4ExtensionsSpec | src/hash.rs:101-125 | the JA4 extension list is the codes without SNI and ALPN, sorted numerically, as hex |
| Fingerprint.FirstSchemes | src/hash.rs:111-122 | the signature algorithms of the first chunk that carries them, or none |
| Fingerprint.FirstProtocols | src/hash.rs:143-150 | the protocols of the first chunk that carries ALPN, or none |
| Fingerprint.AlpnTag | src/hash.rs:143-164 | "h2" or "h1" exactly when the first protocol is `h2` or `http/1.1`; otherwise "00" |
| Fingerprint.Truncated | src/hash.rs:126-142 | a truncated digest is 12 lower-hex characters |
| Fingerprint.DecimalNoUnderscore | src/hash.rs:169-170 | a count contains no underscore |
| Fingerprint.HexNoUnderscore | src/hash.rs:172-173 | a hex digest part contains no underscore |
| Fingerprint.PrefixTextNoUnderscore | src/hash.rs:166-171 | the readable part contains no underscore |
| Fingerprint.Ja4PrefixNoUnderscore | src/hash.rs:166-171 | the JA4 prefix of any plan contains no underscore |
| Fingerprint.SplitThree | src/hash.rs:166 | three underscore-free parts joined by `_` split back into those parts |
| Fingerprint.Ja4Hash | src/hash.rs:66-175 | the `ja4_hash` string; stated by `Fingerprint.Ja4HashParts`, `Ja4CiphersSpec` and `Ja4ExtensionsSpec` |
| Fingerprint.Ja4HashParts | src/hash.rs:126-174 | `ja4_hash` splits on `_` into the prefix and two 12-character parts; each part decodes to the first six bytes of SHA-256 of its input |
| Ech.Encode | src/extensions.rs:6-25 | an outer ECH payload is ten header bytes plus `enc` plus the payload |
| Ech.ParseEncode | src/extensions.rs:6-25 | the outer payload parser reads an encoding back as the value |
| Ech.EncodeParse | src/extensions.rs:6-25 | whatever the parser accepts is well formed and re-encodes to the same bytes |
| Ech.Draws | src/extensions.rs:16-18 | n random bytes are the n successive draws |
| Ech.DrawsSnoc | src/extensions.rs:16-18 | one more loop turn appends one more draw |
| Ech.PushDraws | src/extensions.rs:16-23 | the push loop appends the n draws to the payload |
| Ech.GreaseEch | src/extensions.rs:6-25 | `grease_ech` returns an extension of type 65037 whose payload encodes the GREASE outer hello |
| Ech.EncodeLayout | src/extensions.rs:9-23 | where each field lies in the encoding: type, KDF, AEAD, config id, enc length and enc, payload length and payload |
| Ech.LengthPrefixes | src/extensions.rs:10-20 | the big-endian bytes of 1, 32 and 144 |
| Ech.GreasePayload | src/extensions.rs:7-23 | the outer hello `grease_ech` encodes; stated by `Ech.GreasePayloadHeader`, `GreasePayloadDraws` and `GreaseEchReadsBack` |
| Ech.GreasePayloadHeader | src/extensions.rs:9-20 | the payload is 186 bytes: outer type 0, HKDF-SHA256 and AES-128-GCM as 0x0001, a random config id, length 32 at 6..8, length 144 at 40..42 |
| Ech.GreasePayloadDraws | src/extensions.rs:16-23 | bytes 8..40 and 42..186 are the successive random draws |
| Ech.GreaseEchReadsBack | src/extensions.rs:6-25 | the extension has type 65037, and its payload parses to HKDF-SHA256, AES-128-GCM, the drawn config id, 32 drawn `enc` bytes and 144 drawn payload bytes |
| RoundTrip.DecimalFieldRoundTrip | src/hash.rs:20-24 | dash-joining the decimals of a field's pieces restores the field |
| RoundTrip.CanonicalToken | src/builder.rs:56-63 | unfolding lemma of `IsCanonicalDecimal`: a canonical decimal token is the rendering of the value it parses to |
| RoundTrip.AddGreaseMarkersMembers | src/builder.rs:77-81 | the markers add nothing but `Grease` to the chunk list |
| RoundTrip.StripParsed | src/builder.rs:76-155 | removing the markers from a parsed plan gives the converted extension tokens |
| RoundTrip.CanonicalFieldRoundTrip | src/builder.rs:54-75 | a field of canonical tokens parses, and renders back as itself |
| RoundTrip.CiphersRoundTrip | src/hash.rs:20-24 | the JA3 cipher field of a parsed plan is the descriptor's canonical cipher field |
| RoundTrip.ExtensionsRoundTrip | src/hash.rs:25-29 | with a consistent unknown map, the JA3 extension field of a parsed plan is the descriptor's canonical extension field |
| RoundTrip.GroupsOnlyFromSupportedGroups | src/builder.rs:88-96 | with a consistent unknown map, only a type-10 token gives a chunk with groups, and those are the parsed group list |
| RoundTrip.FormatsOnlyFromPointFormats | src/builder.rs:166-194 | with a consistent unknown map, only a type-11 token gives a chunk with point formats, and those are `[uncompressed]` |
| RoundTrip.FirstGroupsUniform | src/hash.rs:30-37 | when every chunk that carries groups carries the same list, the first one found is that list |
| RoundTrip.FirstFormatsUniform | src/hash.rs:44-50 | when every chunk that carries formats carries the same list, the first one found is that list, or none |
| RoundTrip.TokensGroups | src/builder.rs:82-143 | with a consistent unknown map, converted chunks carry only the parsed group list, and a type-10 token yields one |
| RoundTrip.TokensFormats | src/builder.rs:82-143 | with a consistent unknown map, converted chunks carry only `[uncompressed]`, and do so exactly when a type-11 token is present |
| RoundTrip.FirstGroupsMarked | src/hash.rs:30-43 | with a consistent unknown map, with a type-10 token, the first groups of the marked plan are the parsed groups |
| RoundTrip.FirstGroupsParsed | src/hash.rs:30-43 | with a consistent unknown map, a parsed plan that lists type 10 reports the descriptor's groups |
| RoundTrip.GroupsRoundTrip | src/hash.rs:30-43 | with a consistent unknown map, the JA3 group field of such a plan is the descriptor's canonical group field |
| RoundTrip.FirstFormatsMarked | src/hash.rs:44-56 | with a consistent unknown map, the marked plan reports `[uncompressed]` exactly when a type-11 token is present |
| RoundTrip.FormatsRoundTrip | src/hash.rs:44-56 | with a consistent unknown map, a parsed plan renders the format field as "0" when type 11 is listed, and as empty otherwise |
| RoundTrip.FieldsFromParts | src/hash.rs:16-58 | a plan whose five renderings are the five fields renders as those fields |
| RoundTrip.Ja3RoundTrip | src/builder.rs:238-268 | with a consistent unknown map, `ja3_full(with_ja3_full(s)) == s` for every descriptor already in `ja3_full` form |

## Left out

- The MD5 and SHA-256 digests (`md5::compute`, `sha2::Sha256`) are function
  parameters of `Ja3Hash` and `Ja4Hash`. Only their output format and
  truncation are modelled.
- Randomness (`rand::thread_rng`, `rand::random`) is injected. `Entropy`
  supplies the GREASE extension, group and version drawn for each plan
  position and the raw draw behind each shuffle step. `GreaseEch` takes a
  byte source `random`.
- `ClientExtension::grease()`, `NamedGroup::grease()` and
  `ProtocolVersion::grease()` are injected through `Entropy`. rustls itself
  is not part of this model: its extension values are an abstract datatype,
  and no wire encoding is modelled.
- Engine.SwapIndex: `SliceRandom::shuffle` draws each swap index uniformly
  from `0..=i`. The model takes an arbitrary draw and uses `i` when the draw
  is out of range. It makes no claim about the distribution.
- Engine.OverrideExtensions: the panic of `res[first..=last]` when a dropped
  SNI or key share chunk puts `last` past the end of the output is a
  precondition. The range is computed on plan indices and applied to the
  output, as in the code.
- The `Display` impl of `FailReason` (`src/builder.rs:30-34`) and the
  `ja3`/`ja4` cargo features are not modelled. They only format messages and
  select what is compiled.
- `FailReason` carries the offending token as a string slice; the model
  carries the token's characters.
- `examples/client.rs` is not part of this model. It is a demonstration
  client that performs network I/O.
- The concrete descriptor and hashes in the unit test (`src/builder.rs:238-268`)
  are not evaluated. `Ja3RoundTrip` states the property that test checks
  for the whole class of descriptors already in `ja3_full` form.
- Three behaviours of the code that the model reproduces as written:
  - the code finds the shuffle range on plan indices and applies it to the
    emitted list (`src/lib.rs:79-94`);
  - JA4 counts are unpadded decimals (`src/hash.rs:169-170`);
  - the JA4 extension count leaves out 0 and 16 (`src/hash.rs:104`).
- The unknown-extension map is a public `HashMap` (`src/builder.rs:44`) that
  callers fill freely, so an entry may be filed under a type other than its
  own. The padding, code and round-trip facts (`ConvertTokenCode`,
  `ConvertTokenPadding`, `ParsePaddingToken`, `ExtensionsRoundTrip` and the
  other `RoundTrip` lemmas down to `Ja3RoundTrip`) assume every entry is
  filed under its own type (`UnknownMapConsistent`). For other maps, only
  the general facts of the conversion hold, such as `ConvertTokenConfigured`
  and `ConvertTokenAccepted`.
- `u16::from_str` accepts a leading `+`, as Rust's does. A `+` token parses
  but is not canonical, so `Ja3RoundTrip` requires canonical tokens.
