/**
 * The plan: the chunk sequence that describes the extension list to emit,
 * the cipher-suite list and the shuffle flag.
 */
module Chunks {
  import opened Wrappers
  import opened Ints
  import Tls

  /**
   * One slot of the extension plan: a GREASE marker, a graft of the engine's
   * own server-name or key-share extension, a group or version list that gets
   * a GREASE value prepended when emitted, or a literal extension.
   */
  datatype ExtensionChunk =
    | Grease
    | Sni
    | KeyShare
    | GreasedNameGroups(groups: seq<u16>)
    | GreasedTlsVersion(versions: seq<u16>)
    | Extension(ext: Tls.ClientExtension)

  /** The plan record (`JAOverride`); never changed once built. */
  datatype JaOverride = JaOverride(
    cipherSuites: seq<u16>,
    extensions: seq<ExtensionChunk>,
    shuffleExtension: bool)

  /** A literal whose extension type is padding. */
  predicate IsPaddingLiteral(c: ExtensionChunk)
  {
    c.Extension? && Tls.ExtType(c.ext) == Tls.PADDING
  }

  /** The registry code a chunk stands for; GREASE markers stand for none. */
  function ChunkCode(c: ExtensionChunk): (r: Option<u16>)
    ensures r.None? <==> c.Grease?
  {
    match c
    case Grease => None
    case Sni => Some(Tls.SERVER_NAME)
    case KeyShare => Some(Tls.KEY_SHARE)
    case GreasedNameGroups(_) => Some(Tls.SUPPORTED_GROUPS)
    case GreasedTlsVersion(_) => Some(Tls.SUPPORTED_VERSIONS)
    case Extension(e) => Some(Tls.ExtType(e))
  }

  /** The named-group list a chunk carries, greased or literal. */
  function ChunkGroups(c: ExtensionChunk): Option<seq<u16>>
  {
    match c
    case GreasedNameGroups(g) => Some(g)
    case Extension(e) => if e.NamedGroups? then Some(e.groups) else None
    case _ => None
  }

  /** The protocol-version list a chunk carries, greased or literal. */
  function ChunkVersions(c: ExtensionChunk): Option<seq<u16>>
  {
    match c
    case GreasedTlsVersion(v) => Some(v)
    case Extension(e) => if e.SupportedVersions? then Some(e.versions) else None
    case _ => None
  }

  /** Number of GREASE markers in a chunk sequence. */
  function GreaseCount(chunks: seq<ExtensionChunk>): nat
  {
    if chunks == [] then 0
    else (if chunks[0].Grease? then 1 else 0) + GreaseCount(chunks[1..])
  }

  lemma {:induction false} GreaseCountAppend(a: seq<ExtensionChunk>, b: seq<ExtensionChunk>)
    ensures GreaseCount(a + b) == GreaseCount(a) + GreaseCount(b)
  {
    if a != [] {
      assert (a + b)[1..] == a[1..] + b;
      GreaseCountAppend(a[1..], b);
    } else {
      assert a + b == b;
    }
  }

  /** A sequence with no GREASE marker has a GREASE count of zero. */
  lemma {:induction false} GreaseCountNone(chunks: seq<ExtensionChunk>)
    requires forall i :: 0 <= i < |chunks| ==> !chunks[i].Grease?
    ensures GreaseCount(chunks) == 0
  {
    if chunks != [] { GreaseCountNone(chunks[1..]); }
  }

  /** The chunks other than GREASE markers, in order. */
  function StripGrease(chunks: seq<ExtensionChunk>): seq<ExtensionChunk>
  {
    if chunks == [] then []
    else (if chunks[0].Grease? then [] else [chunks[0]]) + StripGrease(chunks[1..])
  }

  lemma {:induction false} StripGreaseAppend(a: seq<ExtensionChunk>, b: seq<ExtensionChunk>)
    ensures StripGrease(a + b) == StripGrease(a) + StripGrease(b)
  {
    if a != [] {
      assert (a + b)[1..] == a[1..] + b;
      StripGreaseAppend(a[1..], b);
    } else {
      assert a + b == b;
    }
  }

  /** Stripping leaves a sequence without markers unchanged. */
  lemma {:induction false} StripGreaseNone(chunks: seq<ExtensionChunk>)
    requires forall i :: 0 <= i < |chunks| ==> !chunks[i].Grease?
    ensures StripGrease(chunks) == chunks
  {
    if chunks != [] {
      StripGreaseNone(chunks[1..]);
      assert chunks == [chunks[0]] + chunks[1..];
    }
  }
}
