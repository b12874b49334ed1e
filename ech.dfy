/**
 * The GREASE encrypted_client_hello extension: an outer ECH payload with a
 * random config id, a random 32-byte encapsulated key and a random 144-byte
 * payload, laid out as in section 6.2 of draft-ietf-tls-esni (GREASE ECH).
 * The random source is a parameter: draw `n` is `random(n)`.
 */
module Ech {
  import opened Wrappers
  import opened Ints
  import Tls

  /** HPKE KDF and AEAD identifiers (RFC 9180, sections 7.2 and 7.3). */
  const HKDF_SHA256: u16 := 0x0001
  const AES_128_GCM: u16 := 0x0001

  /** The ECHClientHello type byte of an outer ClientHello. */
  const OUTER: u8 := 0

  const ENC_LENGTH: u16 := 32
  const PAYLOAD_LENGTH: u16 := 144

  /** The fields of an outer ECHClientHello. */
  datatype EchOuter = EchOuter(kdf: u16, aead: u16, configId: u8, enc: Tls.Bytes, payload: Tls.Bytes)

  /** Both variable-length fields fit their two-byte length prefix. */
  predicate WellFormed(o: EchOuter)
  {
    |o.enc| < 0x1_0000 && |o.payload| < 0x1_0000
  }

  /** Wire form: type, kdf, aead, config id, length-prefixed enc, length-prefixed payload. */
  function Encode(o: EchOuter): (r: Tls.Bytes)
    requires WellFormed(o)
    ensures |r| == 10 + |o.enc| + |o.payload|
  {
    [OUTER] + BigEndian16(o.kdf) + BigEndian16(o.aead) + [o.configId]
      + BigEndian16(|o.enc|) + o.enc + BigEndian16(|o.payload|) + o.payload
  }

  /** Reads an outer ECHClientHello; `None` unless the bytes are exactly one. */
  function Parse(b: Tls.Bytes): Option<EchOuter>
  {
    if |b| < 8 || b[0] != OUTER then None
    else
      var encLength := FromBigEndian16(b[6], b[7]);
      if |b| < 10 + encLength then None
      else
        var payloadLength := FromBigEndian16(b[8 + encLength], b[9 + encLength]);
        if |b| != 10 + encLength + payloadLength then None
        else Some(EchOuter(FromBigEndian16(b[1], b[2]), FromBigEndian16(b[3], b[4]), b[5],
                           b[8..8 + encLength], b[10 + encLength..]))
  }

  /** Parsing an encoded payload gives back its fields. */
  lemma ParseEncode(o: EchOuter)
    requires WellFormed(o)
    ensures Parse(Encode(o)) == Some(o)
  {
    var b := Encode(o);
    var e := |o.enc|;
    assert b[1..3] == BigEndian16(o.kdf) && b[3..5] == BigEndian16(o.aead);
    assert b[6..8] == BigEndian16(e);
    assert b[8..8 + e] == o.enc;
    assert b[8 + e..10 + e] == BigEndian16(|o.payload|);
    assert b[10 + e..] == o.payload;
  }

  /** Whatever parses is a well-formed payload that encodes back to the same bytes. */
  lemma EncodeParse(b: Tls.Bytes)
    requires Parse(b).Some?
    ensures WellFormed(Parse(b).value) && Encode(Parse(b).value) == b
  {
    var o := Parse(b).value;
    var e := FromBigEndian16(b[6], b[7]);
    BigEndian16Inverse(b[1], b[2]);
    BigEndian16Inverse(b[3], b[4]);
    BigEndian16Inverse(b[6], b[7]);
    BigEndian16Inverse(b[8 + e], b[9 + e]);
    FieldCuts(b, e);
  }

  /** Cutting a buffer at the field boundaries of a wire form whose enc is `e` bytes long. */
  lemma FieldCuts(b: Tls.Bytes, e: nat)
    requires 10 + e <= |b|
    ensures b == [b[0]] + [b[1], b[2]] + [b[3], b[4]] + [b[5]] + [b[6], b[7]] + b[8..8 + e]
                 + [b[8 + e], b[9 + e]] + b[10 + e..]
  {
    assert b == b[..8] + b[8..8 + e] + b[8 + e..10 + e] + b[10 + e..];
    assert b[..8] == [b[0]] + [b[1], b[2]] + [b[3], b[4]] + [b[5]] + [b[6], b[7]];
    assert b[8 + e..10 + e] == [b[8 + e], b[9 + e]];
  }

  /** `n` consecutive draws starting at draw `start`. */
  function Draws(random: nat -> u8, start: nat, n: nat): (r: Tls.Bytes)
    ensures |r| == n
    ensures forall i :: 0 <= i < n ==> r[i] == random(start + i)
  {
    seq(n, i requires 0 <= i => random(start + i))
  }

  /** One more draw extends the run by that draw. */
  lemma DrawsSnoc(random: nat -> u8, start: nat, n: nat)
    ensures Draws(random, start, n + 1) == Draws(random, start, n) + [random(start + n)]
  {
  }

  /** A run of draws placed at `off` puts draw `start + (j - off)` at byte `j`. */
  lemma DrawsAt(p: Tls.Bytes, off: nat, random: nat -> u8, start: nat, n: nat)
    requires off + n <= |p| && p[off..off + n] == Draws(random, start, n)
    ensures forall j :: off <= j < off + n ==> p[j] == random(start + (j - off))
  {
    forall j | off <= j < off + n ensures p[j] == random(start + (j - off)) {
      assert p[j] == p[off..off + n][j - off];
    }
  }

  /** The GREASE payload's fields for a given random source: draws 0, 1..32 and 33..176. */
  function GreasePayload(random: nat -> u8): EchOuter
  {
    EchOuter(HKDF_SHA256, AES_128_GCM, random(0), Draws(random, 1, ENC_LENGTH), Draws(random, 1 + ENC_LENGTH, PAYLOAD_LENGTH))
  }

  /** The `for` loops of `grease_ech`: push `n` draws, starting at draw `start`. */
  method PushDraws(payload: Tls.Bytes, random: nat -> u8, start: nat, n: nat) returns (out: Tls.Bytes)
    ensures out == payload + Draws(random, start, n)
  {
    out := payload;
    for i := 0 to n
      invariant out == payload + Draws(random, start, i)
    {
      DrawsSnoc(random, start, i);
      out := out + [random(start + i)];
    }
  }

  /**
   * `grease_ech`: grows the payload field by field and wraps it as an
   * unknown extension of type encrypted_client_hello.
   */
  method GreaseEch(random: nat -> u8) returns (ext: Tls.ClientExtension)
    ensures ext == Tls.Unknown(Tls.ENCRYPTED_CLIENT_HELLO, Encode(GreasePayload(random)))
  {
    var payload: Tls.Bytes := [OUTER];
    payload := payload + BigEndian16(HKDF_SHA256);
    payload := payload + BigEndian16(AES_128_GCM);
    payload := payload + [random(0)];
    payload := payload + BigEndian16(ENC_LENGTH);
    payload := PushDraws(payload, random, 1, ENC_LENGTH as nat);
    payload := payload + BigEndian16(PAYLOAD_LENGTH);
    payload := PushDraws(payload, random, 1 + ENC_LENGTH as nat, PAYLOAD_LENGTH as nat);
    ext := Tls.Unknown(Tls.ENCRYPTED_CLIENT_HELLO, payload);
  }

  /** Where each field sits in the wire form. */
  lemma EncodeLayout(o: EchOuter)
    requires WellFormed(o)
    ensures var p, e := Encode(o), |o.enc|;
      && p[0] == OUTER && p[1..3] == BigEndian16(o.kdf) && p[3..5] == BigEndian16(o.aead)
      && p[5] == o.configId && p[6..8] == BigEndian16(e) && p[8..8 + e] == o.enc
      && p[8 + e..10 + e] == BigEndian16(|o.payload|) && p[10 + e..] == o.payload
  {
  }

  /** The two-byte forms of the HPKE ids and of the two lengths. */
  lemma LengthPrefixes()
    ensures BigEndian16(0x0001) == [0x00, 0x01]
    ensures BigEndian16(32) == [0x00, 0x20] && BigEndian16(144) == [0x00, 0x90]
  {
  }

  /**
   * The fixed bytes of the GREASE payload: 186 bytes; byte 0 is 0; bytes 1-2
   * and 3-4 the HPKE ids; byte 5 draw 0; bytes 6-7 the length 32 and bytes
   * 40-41 the length 144.
   */
  lemma GreasePayloadHeader(random: nat -> u8)
    ensures var p := Encode(GreasePayload(random));
      && |p| == 186
      && p[0] == 0
      && p[1..3] == BigEndian16(HKDF_SHA256) == [0x00, 0x01]
      && p[3..5] == BigEndian16(AES_128_GCM) == [0x00, 0x01]
      && p[5] == random(0)
      && p[6..8] == [0x00, 0x20]
      && p[40..42] == [0x00, 0x90]
  {
    var o := GreasePayload(random);
    EncodeLayout(o);
    LengthPrefixes();
    assert |o.enc| == 32 && |o.payload| == 144;
  }

  /** The random bytes of the GREASE payload: bytes 8..40 are draws 1..32 and bytes 42..186 draws 33..176. */
  lemma GreasePayloadDraws(random: nat -> u8)
    ensures var p := Encode(GreasePayload(random));
      && |p| == 186
      && (forall j :: 8 <= j < 40 ==> p[j] == random(j - 7))
      && (forall j :: 42 <= j < 186 ==> p[j] == random(j - 9))
  {
    var o := GreasePayload(random);
    EncodeLayout(o);
    var p := Encode(o);
    DrawsAt(p, 8, random, 1, 32);
    assert p[42..42 + 144] == p[42..];
    DrawsAt(p, 42, random, 33, 144);
  }

  /**
   * The extension carries type 65037, and its payload reads back as an outer
   * ECHClientHello with the two HPKE ids, draw 0 as config id and the two
   * runs of draws as enc and payload.
   */
  lemma GreaseEchReadsBack(random: nat -> u8)
    ensures var ext := Tls.Unknown(Tls.ENCRYPTED_CLIENT_HELLO, Encode(GreasePayload(random)));
      && Tls.ExtType(ext) == 65037
      && Parse(ext.payload) == Some(EchOuter(HKDF_SHA256, AES_128_GCM, random(0),
                                             Draws(random, 1, 32), Draws(random, 33, 144)))
  {
    ParseEncode(GreasePayload(random));
  }
}
