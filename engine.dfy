/**
 * The override engine: the TLS engine hands over its natural cipher list and
 * extension list, and the plan replaces them. Every plan chunk emits at most
 * one extension, in plan order; with shuffling on, a range of the output fixed
 * by the plan is permuted in place.
 */
module Engine {
  import opened Wrappers
  import opened Ints
  import Tls
  import opened Chunks

  /**
   * The values the engine draws at random, indexed by the plan position (or,
   * for the shuffle, the slice position) that consumes them: the GREASE
   * extension, named group and protocol version, and the raw draw behind each
   * swap index of the shuffle.
   */
  datatype Entropy = Entropy(
    greaseExtension: nat -> Tls.ClientExtension,
    greaseGroup: nat -> u16,
    greaseVersion: nat -> u16,
    shuffleIndex: nat -> nat)

  /** `override_cipher_suites`: the natural list is ignored. */
  function OverrideCipherSuites(plan: JaOverride, natural: seq<u16>): (r: seq<u16>)
    ensures r == plan.cipherSuites
  {
    plan.cipherSuites
  }

  // ---------------------------------------------------------------------
  // Grafts from the natural list
  // ---------------------------------------------------------------------

  /** The two natural extensions a plan can graft. */
  datatype Graft = ServerNameGraft | KeyShareGraft

  predicate Matches(g: Graft, e: Tls.ClientExtension)
  {
    match g
    case ServerNameGraft => e.ServerName?
    case KeyShareGraft => e.KeyShare?
  }

  /** `iter().find(..)`: the first natural extension of the graft's kind. */
  function FindGraft(g: Graft, natural: seq<Tls.ClientExtension>): (r: Option<Tls.ClientExtension>)
    ensures r.None? <==> forall i :: 0 <= i < |natural| ==> !Matches(g, natural[i])
    ensures r.Some? ==>
              exists k :: && 0 <= k < |natural| && natural[k] == r.value && Matches(g, r.value)
                          && forall i :: 0 <= i < k ==> !Matches(g, natural[i])
  {
    if natural == [] then None
    else if Matches(g, natural[0]) then Some(natural[0])
    else
      var r := FindGraft(g, natural[1..]);
      assert r.Some? ==> exists k :: && 0 <= k < |natural[1..]| && natural[1..][k] == r.value
                                     && Matches(g, r.value)
                                     && (forall i :: 0 <= i < k ==> !Matches(g, natural[1..][i]))
                                     && natural[k + 1] == r.value;
      r
  }

  // ---------------------------------------------------------------------
  // Emitting the plan
  // ---------------------------------------------------------------------

  /** What one chunk at plan position `i` emits: nothing or one extension. */
  function EmitChunk(c: ExtensionChunk, i: nat, natural: seq<Tls.ClientExtension>, rng: Entropy)
    : seq<Tls.ClientExtension>
  {
    match c
    case Grease => [rng.greaseExtension(i)]
    case Sni =>
      (match FindGraft(ServerNameGraft, natural)
       case Some(e) => [e]
       case None => [])
    case KeyShare =>
      (match FindGraft(KeyShareGraft, natural)
       case Some(e) => [e]
       case None => [])
    case Extension(e) => [e]
    case GreasedNameGroups(v) => [Tls.NamedGroups([rng.greaseGroup(i)] + v)]
    case GreasedTlsVersion(v) => [Tls.SupportedVersions([rng.greaseVersion(i)] + v)]
  }

  /** The unshuffled output: each chunk's emission, in plan order. */
  function Emit(chunks: seq<ExtensionChunk>, natural: seq<Tls.ClientExtension>, rng: Entropy)
    : seq<Tls.ClientExtension>
  {
    if chunks == [] then []
    else
      var n := |chunks| - 1;
      Emit(chunks[..n], natural, rng) + EmitChunk(chunks[n], n, natural, rng)
  }

  /** A graft chunk whose kind is missing from the natural list. */
  predicate Dropped(c: ExtensionChunk, natural: seq<Tls.ClientExtension>)
  {
    || (c.Sni? && FindGraft(ServerNameGraft, natural).None?)
    || (c.KeyShare? && FindGraft(KeyShareGraft, natural).None?)
  }

  /** Number of chunks that emit nothing. */
  function DroppedCount(chunks: seq<ExtensionChunk>, natural: seq<Tls.ClientExtension>): nat
  {
    if chunks == [] then 0
    else
      var n := |chunks| - 1;
      DroppedCount(chunks[..n], natural) + (if Dropped(chunks[n], natural) then 1 else 0)
  }

  /**
   * A chunk emits exactly one extension unless it is a graft with nothing to
   * graft: a marker emits the GREASE extension drawn for its position, a graft
   * is the first natural extension of its kind, a literal is emitted
   * unchanged, and a greased list gets the GREASE value drawn for its
   * position in front.
   */
  lemma EmitChunkSpec(c: ExtensionChunk, i: nat, natural: seq<Tls.ClientExtension>, rng: Entropy)
    ensures |EmitChunk(c, i, natural, rng)| == if Dropped(c, natural) then 0 else 1
    ensures c.Sni? && !Dropped(c, natural) ==>
              exists k :: && 0 <= k < |natural| && EmitChunk(c, i, natural, rng) == [natural[k]]
                          && natural[k].ServerName?
                          && forall j :: 0 <= j < k ==> !natural[j].ServerName?
    ensures c.KeyShare? && !Dropped(c, natural) ==>
              exists k :: && 0 <= k < |natural| && EmitChunk(c, i, natural, rng) == [natural[k]]
                          && natural[k].KeyShare?
                          && forall j :: 0 <= j < k ==> !natural[j].KeyShare?
    ensures c.Grease? ==> EmitChunk(c, i, natural, rng) == [rng.greaseExtension(i)]
    ensures c.Extension? ==> EmitChunk(c, i, natural, rng) == [c.ext]
    ensures c.GreasedNameGroups? ==>
              EmitChunk(c, i, natural, rng) == [Tls.NamedGroups([rng.greaseGroup(i)] + c.groups)]
    ensures c.GreasedTlsVersion? ==>
              EmitChunk(c, i, natural, rng) == [Tls.SupportedVersions([rng.greaseVersion(i)] + c.versions)]
    ensures c.GreasedNameGroups? ==>
              var e := EmitChunk(c, i, natural, rng)[0];
              e.NamedGroups? && |e.groups| == |c.groups| + 1 && e.groups[1..] == c.groups
    ensures c.GreasedTlsVersion? ==>
              var e := EmitChunk(c, i, natural, rng)[0];
              e.SupportedVersions? && |e.versions| == |c.versions| + 1 && e.versions[1..] == c.versions
  {
    if c.Sni? && !Dropped(c, natural) {
      var k :| 0 <= k < |natural| && natural[k] == FindGraft(ServerNameGraft, natural).value &&
        Matches(ServerNameGraft, natural[k]) && forall j :: 0 <= j < k ==> !Matches(ServerNameGraft, natural[j]);
      assert EmitChunk(c, i, natural, rng) == [natural[k]];
    }
    if c.KeyShare? && !Dropped(c, natural) {
      var k :| 0 <= k < |natural| && natural[k] == FindGraft(KeyShareGraft, natural).value &&
        Matches(KeyShareGraft, natural[k]) && forall j :: 0 <= j < k ==> !Matches(KeyShareGraft, natural[j]);
      assert EmitChunk(c, i, natural, rng) == [natural[k]];
    }
  }

  /** Without shuffling the output is the plan length minus the dropped grafts. */
  lemma {:induction false} EmitLength(chunks: seq<ExtensionChunk>, natural: seq<Tls.ClientExtension>, rng: Entropy)
    ensures |Emit(chunks, natural, rng)| == |chunks| - DroppedCount(chunks, natural)
    ensures DroppedCount(chunks, natural) <= |chunks|
  {
    if chunks != [] {
      var n := |chunks| - 1;
      EmitLength(chunks[..n], natural, rng);
      EmitChunkSpec(chunks[n], n, natural, rng);
    }
  }

  /** With no graft dropped, output position `i` is what plan chunk `i` emits. */
  lemma {:induction false} EmitPositional(chunks: seq<ExtensionChunk>, natural: seq<Tls.ClientExtension>, rng: Entropy)
    requires DroppedCount(chunks, natural) == 0
    ensures |Emit(chunks, natural, rng)| == |chunks|
    ensures forall i :: 0 <= i < |chunks| ==> [Emit(chunks, natural, rng)[i]] == EmitChunk(chunks[i], i, natural, rng)
  {
    if chunks != [] {
      var n := |chunks| - 1;
      var front := chunks[..n];
      EmitPositional(front, natural, rng);
      EmitChunkSpec(chunks[n], n, natural, rng);
      forall i | 0 <= i < |chunks|
        ensures [Emit(chunks, natural, rng)[i]] == EmitChunk(chunks[i], i, natural, rng)
      {
        if i < n {
          assert chunks[i] == front[i];
        }
      }
    }
  }

  /**
   * With no graft dropped, every non-GREASE chunk emits an extension of the
   * type the chunk stands for (the type the fingerprint recomputation reports).
   */
  lemma EmitTypes(chunks: seq<ExtensionChunk>, natural: seq<Tls.ClientExtension>, rng: Entropy)
    requires DroppedCount(chunks, natural) == 0
    ensures |Emit(chunks, natural, rng)| == |chunks|
    ensures forall i :: 0 <= i < |chunks| && !chunks[i].Grease? ==>
              ChunkCode(chunks[i]) == Some(Tls.ExtType(Emit(chunks, natural, rng)[i]))
  {
    EmitPositional(chunks, natural, rng);
    forall i | 0 <= i < |chunks| && !chunks[i].Grease?
      ensures ChunkCode(chunks[i]) == Some(Tls.ExtType(Emit(chunks, natural, rng)[i]))
    {
      EmitChunkSpec(chunks[i], i, natural, rng);
      var c := chunks[i];
      if c.Sni? {
        var k :| 0 <= k < |natural| && EmitChunk(c, i, natural, rng) == [natural[k]] && natural[k].ServerName?;
      } else if c.KeyShare? {
        var k :| 0 <= k < |natural| && EmitChunk(c, i, natural, rng) == [natural[k]] && natural[k].KeyShare?;
      }
    }
  }

  /** A dropped chunk count of zero means no graft went missing. */
  lemma {:induction false} DroppedCountZero(chunks: seq<ExtensionChunk>, natural: seq<Tls.ClientExtension>)
    ensures DroppedCount(chunks, natural) == 0 <==> forall i :: 0 <= i < |chunks| ==> !Dropped(chunks[i], natural)
  {
    if chunks != [] {
      var n := |chunks| - 1;
      DroppedCountZero(chunks[..n], natural);
      assert forall i :: 0 <= i < n ==> chunks[..n][i] == chunks[i];
    }
  }

  // ---------------------------------------------------------------------
  // The shuffle range
  // ---------------------------------------------------------------------

  /** `position`: the first chunk that is not a GREASE marker (padding counts). */
  function FirstNonGrease(chunks: seq<ExtensionChunk>): (r: Option<nat>)
    ensures r.None? <==> forall i :: 0 <= i < |chunks| ==> chunks[i].Grease?
    ensures r.Some? ==>
              && r.value < |chunks| && !chunks[r.value].Grease?
              && forall i :: 0 <= i < r.value ==> chunks[i].Grease?
  {
    if chunks == [] then None
    else if !chunks[0].Grease? then Some(0)
    else
      match FirstNonGrease(chunks[1..])
      case None => None
      case Some(k) => Some(k + 1)
  }

  /** A chunk the shuffle range may end on: neither a marker nor a padding literal. */
  predicate Shufflable(c: ExtensionChunk)
  {
    !c.Grease? && !IsPaddingLiteral(c)
  }

  /** `rposition`: the last chunk that is neither a marker nor a padding literal. */
  function LastShufflable(chunks: seq<ExtensionChunk>): (r: Option<nat>)
    ensures r.None? <==> forall i :: 0 <= i < |chunks| ==> !Shufflable(chunks[i])
    ensures r.Some? ==>
              && r.value < |chunks| && Shufflable(chunks[r.value])
              && forall i :: r.value < i < |chunks| ==> !Shufflable(chunks[i])
  {
    if chunks == [] then None
    else
      var n := |chunks| - 1;
      if Shufflable(chunks[n]) then Some(n)
      else
        var r := LastShufflable(chunks[..n]);
        assert forall i :: 0 <= i < n ==> chunks[..n][i] == chunks[i];
        r
  }

  /** The inclusive plan-index range to shuffle, when shuffling is on and both ends exist. */
  function ShuffleBounds(plan: JaOverride): Option<(nat, nat)>
  {
    if !plan.shuffleExtension then None
    else match (FirstNonGrease(plan.extensions), LastShufflable(plan.extensions))
      case (Some(f), Some(l)) => Some((f, l))
      case _ => None
  }

  /**
   * The range is only chosen with shuffling on, starts at the first
   * non-marker chunk, ends at the last shufflable one, and is never empty.
   */
  lemma ShuffleBoundsSpec(plan: JaOverride)
    ensures ShuffleBounds(plan).Some? ==>
              && plan.shuffleExtension
              && Some(ShuffleBounds(plan).value.0) == FirstNonGrease(plan.extensions)
              && Some(ShuffleBounds(plan).value.1) == LastShufflable(plan.extensions)
              && ShuffleBounds(plan).value.0 <= ShuffleBounds(plan).value.1 < |plan.extensions|
    ensures ShuffleBounds(plan).None? <==>
              || !plan.shuffleExtension
              || forall i :: 0 <= i < |plan.extensions| ==> !Shufflable(plan.extensions[i])
  {
    var f, l := FirstNonGrease(plan.extensions), LastShufflable(plan.extensions);
    if l.Some? {
      assert !plan.extensions[l.value].Grease?;
    }
  }

  /** The shuffled range is never empty. */
  lemma ShuffleBoundsOrdered(plan: JaOverride)
    ensures ShuffleBounds(plan).Some? ==> ShuffleBounds(plan).value.0 <= ShuffleBounds(plan).value.1
  {
    ShuffleBoundsSpec(plan);
  }

  // ---------------------------------------------------------------------
  // The in-place shuffle
  // ---------------------------------------------------------------------

  /** `s` with positions `i` and `j` exchanged. */
  function Swap<T>(s: seq<T>, i: nat, j: nat): (r: seq<T>)
    requires i < |s| && j < |s|
    ensures |r| == |s|
  {
    seq(|s|, k requires 0 <= k < |s| => if k == i then s[j] else if k == j then s[i] else s[k])
  }

  /** A swap is two updates. */
  lemma SwapUpdates<T>(s: seq<T>, i: nat, j: nat)
    requires i < |s| && j < |s|
    ensures Swap(s, i, j) == s[i := s[j]][j := s[i]]
  {
  }

  /**
   * The slice position that slice position `i` is swapped with: the draw for
   * `i`, which the random number library takes from `[0, i]`; a draw outside
   * that range stands for `i`.
   */
  function SwapIndex(draw: nat -> nat, i: nat): (j: nat)
    ensures j <= i
    ensures draw(i) <= i ==> j == draw(i)
  {
    if draw(i) <= i then draw(i) else i
  }

  /**
   * The shuffle of the slice `s[lo..=hi]` from slice position `i` down to 1,
   * as the random number library's `SliceRandom::shuffle` does it: position
   * `i` is swapped with a position drawn from `[0, i]`.
   */
  function FisherYates<T>(s: seq<T>, lo: nat, hi: nat, i: nat, draw: nat -> nat): seq<T>
    requires lo + i <= hi < |s|
    decreases i
  {
    if i == 0 then s
    else FisherYates(Swap(s, lo + i, lo + SwapIndex(draw, i)), lo, hi, i - 1, draw)
  }

  /** One step of the shuffle: swap at slice position `i`, then shuffle the positions below it. */
  lemma FisherYatesStep<T>(s: seq<T>, lo: nat, hi: nat, i: nat, draw: nat -> nat)
    requires 0 < i && lo + i <= hi < |s|
    ensures FisherYates(s, lo, hi, i, draw) == FisherYates(Swap(s, lo + i, lo + SwapIndex(draw, i)), lo, hi, i - 1, draw)
  {
  }

  /** A swap keeps the multiset of elements. */
  lemma SwapMultiset<T>(s: seq<T>, i: nat, j: nat)
    requires i < |s| && j < |s|
    ensures multiset(Swap(s, i, j)) == multiset(s)
  {
    SwapUpdates(s, i, j);
  }

  /** The shuffle keeps the length and the multiset of elements. */
  lemma {:induction false} FisherYatesMultiset<T>(s: seq<T>, lo: nat, hi: nat, i: nat, draw: nat -> nat)
    requires lo + i <= hi < |s|
    ensures |FisherYates(s, lo, hi, i, draw)| == |s|
    ensures multiset(FisherYates(s, lo, hi, i, draw)) == multiset(s)
    decreases i
  {
    if i > 0 {
      SwapMultiset(s, lo + i, lo + SwapIndex(draw, i));
      FisherYatesMultiset(Swap(s, lo + i, lo + SwapIndex(draw, i)), lo, hi, i - 1, draw);
    }
  }

  /** The shuffle moves nothing outside `[lo, hi]`. */
  lemma {:induction false} FisherYatesOutside<T>(s: seq<T>, lo: nat, hi: nat, i: nat, draw: nat -> nat)
    requires lo + i <= hi < |s|
    ensures |FisherYates(s, lo, hi, i, draw)| == |s|
    ensures forall k :: 0 <= k < |s| && (k < lo || hi < k) ==> FisherYates(s, lo, hi, i, draw)[k] == s[k]
    decreases i
  {
    if i > 0 {
      var t := Swap(s, lo + i, lo + SwapIndex(draw, i));
      FisherYatesOutside(t, lo, hi, i - 1, draw);
      assert FisherYates(s, lo, hi, i, draw) == FisherYates(t, lo, hi, i - 1, draw);
    }
  }

  /** Cutting a sequence in three cuts its multiset in three. */
  lemma MultisetThirds<T>(s: seq<T>, lo: nat, hi: nat)
    requires lo <= hi < |s|
    ensures multiset(s) == multiset(s[..lo]) + multiset(s[lo..hi + 1]) + multiset(s[hi + 1..])
  {
    assert s == s[..lo] + s[lo..hi + 1] + s[hi + 1..];
  }

  /** A rearrangement that moves nothing outside `[lo, hi]` permutes the slice `[lo, hi]`. */
  lemma ConfinedSlices<T>(r: seq<T>, s: seq<T>, lo: nat, hi: nat)
    requires lo <= hi < |s| && |r| == |s| && multiset(r) == multiset(s)
    requires forall k :: 0 <= k < |s| && (k < lo || hi < k) ==> r[k] == s[k]
    ensures r[..lo] == s[..lo] && r[hi + 1..] == s[hi + 1..]
    ensures multiset(r[lo..hi + 1]) == multiset(s[lo..hi + 1])
  {
    assert r[..lo] == s[..lo];
    assert r[hi + 1..] == s[hi + 1..];
    MultisetThirds(r, lo, hi);
    MultisetThirds(s, lo, hi);
    var mr, ms := multiset(r[lo..hi + 1]), multiset(s[lo..hi + 1]);
    forall x ensures mr[x] == ms[x] {
      assert multiset(r)[x] == multiset(s)[x];
    }
  }

  /**
   * `r` has the length of `s`, agrees with it outside `[lo, hi]`, and holds
   * the same elements as `s` inside it.
   */
  ghost predicate PermutesRange<T>(r: seq<T>, s: seq<T>, lo: nat, hi: nat)
    requires lo <= hi < |s|
  {
    && |r| == |s|
    && r[..lo] == s[..lo] && r[hi + 1..] == s[hi + 1..]
    && multiset(r[lo..hi + 1]) == multiset(s[lo..hi + 1])
  }

  /** Shuffling `[lo, hi]` permutes that range and leaves everything else in place. */
  lemma ShufflePermutesRange<T>(s: seq<T>, lo: nat, hi: nat, draw: nat -> nat)
    requires lo <= hi < |s|
    ensures PermutesRange(FisherYates(s, lo, hi, hi - lo, draw), s, lo, hi)
  {
    var r := FisherYates(s, lo, hi, hi - lo, draw);
    FisherYatesMultiset(s, lo, hi, hi - lo, draw);
    FisherYatesOutside(s, lo, hi, hi - lo, draw);
    ConfinedSlices(r, s, lo, hi);
    assert |r| == |s|;
    assert r[..lo] == s[..lo];
    assert r[hi + 1..] == s[hi + 1..];
    assert multiset(r[lo..hi + 1]) == multiset(s[lo..hi + 1]);
  }

  /** Exchange two slots of the buffer. */
  method SwapSlots(a: array<Tls.ClientExtension>, i: nat, j: nat)
    requires i < a.Length && j < a.Length
    modifies a
    ensures a[..] == Swap(old(a[..]), i, j)
  {
    a[i], a[j] := a[j], a[i];
    SwapUpdates(old(a[..]), i, j);
  }

  /** `res[lo..=hi].shuffle(..)` on the output buffer. */
  method ShuffleRange(a: array<Tls.ClientExtension>, lo: nat, hi: nat, draw: nat -> nat)
    requires lo <= hi < a.Length
    modifies a
    ensures a[..] == FisherYates(old(a[..]), lo, hi, hi - lo, draw)
  {
    ghost var shuffled := FisherYates(a[..], lo, hi, hi - lo, draw);
    var i := hi - lo;
    while i > 0
      invariant 0 <= i <= hi - lo && a.Length == |old(a[..])|
      invariant FisherYates(a[..], lo, hi, i, draw) == shuffled
      decreases i
    {
      var j := SwapIndex(draw, i);
      ghost var before := a[..];
      SwapSlots(a, lo + i, lo + j);
      FisherYatesStep(before, lo, hi, i, draw);
      i := i - 1;
    }
  }

  /** Copy the output into a buffer and shuffle its range there. */
  method ShuffleOutput(res: seq<Tls.ClientExtension>, lo: nat, hi: nat, draw: nat -> nat)
    returns (shuffled: seq<Tls.ClientExtension>)
    requires lo <= hi < |res|
    ensures shuffled == FisherYates(res, lo, hi, hi - lo, draw)
  {
    var buf := new Tls.ClientExtension[|res|](k requires 0 <= k < |res| => res[k]);
    assert buf[..] == res;
    ShuffleRange(buf, lo, hi, draw);
    shuffled := buf[..];
  }

  // ---------------------------------------------------------------------
  // override_extensions
  // ---------------------------------------------------------------------

  /** The `for` loop of `override_extensions`: push what every chunk emits. */
  method EmitPlan(chunks: seq<ExtensionChunk>, natural: seq<Tls.ClientExtension>, rng: Entropy)
    returns (res: seq<Tls.ClientExtension>)
    ensures res == Emit(chunks, natural, rng)
  {
    res := [];
    for i := 0 to |chunks|
      invariant res == Emit(chunks[..i], natural, rng)
    {
      assert chunks[..i + 1][..i] == chunks[..i];
      match chunks[i]
      case Grease => res := res + [rng.greaseExtension(i)];
      case Sni =>
        var sni := FindGraft(ServerNameGraft, natural);
        if sni.Some? {
          res := res + [sni.value];
        }
      case KeyShare =>
        var keyShare := FindGraft(KeyShareGraft, natural);
        if keyShare.Some? {
          res := res + [keyShare.value];
        }
      case Extension(e) => res := res + [e];
      case GreasedNameGroups(v) => res := res + [Tls.NamedGroups([rng.greaseGroup(i)] + v)];
      case GreasedTlsVersion(v) => res := res + [Tls.SupportedVersions([rng.greaseVersion(i)] + v)];
    }
    assert chunks[..|chunks|] == chunks;
  }

  /** `out` with its `bounds` range shuffled by `draw`, or unchanged without a range. */
  function ShuffleWithin(out: seq<Tls.ClientExtension>, bounds: Option<(nat, nat)>, draw: nat -> nat)
    : seq<Tls.ClientExtension>
    requires bounds.Some? ==> bounds.value.0 <= bounds.value.1 < |out|
  {
    match bounds
    case None => out
    case Some((first, last)) => FisherYates(out, first, last, last - first, draw)
  }

  /**
   * What `override_extensions` returns: the emitted plan, with the plan's
   * shuffle range of it shuffled when the plan asks for one.
   */
  function Overridden(plan: JaOverride, natural: seq<Tls.ClientExtension>, rng: Entropy): seq<Tls.ClientExtension>
    requires ShuffleBounds(plan).Some? ==> ShuffleBounds(plan).value.1 < |Emit(plan.extensions, natural, rng)|
  {
    ShuffleBoundsOrdered(plan);
    ShuffleWithin(Emit(plan.extensions, natural, rng), ShuffleBounds(plan), rng.shuffleIndex)
  }

  /**
   * Without a range the output is unchanged; with one, the output has the
   * same length, agrees with `out` outside the range and holds the same
   * extensions inside it.
   */
  lemma ShuffleWithinSpec(out: seq<Tls.ClientExtension>, bounds: Option<(nat, nat)>, draw: nat -> nat)
    requires bounds.Some? ==> bounds.value.0 <= bounds.value.1 < |out|
    ensures bounds.None? ==> ShuffleWithin(out, bounds, draw) == out
    ensures bounds.Some? ==> PermutesRange(ShuffleWithin(out, bounds, draw), out, bounds.value.0, bounds.value.1)
  {
    if bounds.Some? {
      ShufflePermutesRange(out, bounds.value.0, bounds.value.1, draw);
    }
  }

  /**
   * Without a shuffle range the result of `override_extensions` is the
   * emitted plan; with one, it permutes that range of the emitted plan and
   * leaves the rest in place.
   */
  lemma OverriddenSpec(plan: JaOverride, natural: seq<Tls.ClientExtension>, rng: Entropy)
    requires ShuffleBounds(plan).Some? ==> ShuffleBounds(plan).value.1 < |Emit(plan.extensions, natural, rng)|
    ensures ShuffleBounds(plan).None? ==> Overridden(plan, natural, rng) == Emit(plan.extensions, natural, rng)
    ensures ShuffleBounds(plan).Some? ==>
              && ShuffleBounds(plan).value.0 <= ShuffleBounds(plan).value.1
              && PermutesRange(Overridden(plan, natural, rng), Emit(plan.extensions, natural, rng),
                               ShuffleBounds(plan).value.0, ShuffleBounds(plan).value.1)
  {
    ShuffleBoundsOrdered(plan);
    ShuffleWithinSpec(Emit(plan.extensions, natural, rng), ShuffleBounds(plan), rng.shuffleIndex);
  }

  /** Shuffle the chosen range of the output, if a range was chosen. */
  method ShuffleChosen(out: seq<Tls.ClientExtension>, bounds: Option<(nat, nat)>, draw: nat -> nat)
    returns (res: seq<Tls.ClientExtension>)
    requires bounds.Some? ==> bounds.value.0 <= bounds.value.1 < |out|
    ensures res == ShuffleWithin(out, bounds, draw)
  {
    res := out;
    if bounds.Some? {
      res := ShuffleOutput(out, bounds.value.0, bounds.value.1, draw);
    }
  }

  /**
   * `override_extensions`: emit the plan, then shuffle the plan's range of the
   * output in place. The range is computed on plan indices but applied to the
   * output, so it must fit the output (out of range, the slice panics).
   */
  method OverrideExtensions(plan: JaOverride, natural: seq<Tls.ClientExtension>, rng: Entropy)
    returns (res: seq<Tls.ClientExtension>)
    requires ShuffleBounds(plan).Some? ==> ShuffleBounds(plan).value.1 < |Emit(plan.extensions, natural, rng)|
    ensures res == Overridden(plan, natural, rng)
  {
    var out := EmitPlan(plan.extensions, natural, rng);
    ShuffleBoundsOrdered(plan);
    res := ShuffleChosen(out, ShuffleBounds(plan), rng.shuffleIndex);
  }
}
