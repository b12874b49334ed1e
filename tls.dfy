/**
 * The TLS engine's ClientHello extension values, abstracted to a type code
 * and, where the fingerprint code looks inside, the list they carry. Wire
 * encoding belongs to the engine and is not modelled. Codes follow the IANA
 * TLS ExtensionType registry.
 */
module Tls {
  import opened Ints

  type Bytes = seq<u8>

  const SERVER_NAME: u16 := 0
  const STATUS_REQUEST: u16 := 5
  const SUPPORTED_GROUPS: u16 := 10
  const EC_POINT_FORMATS: u16 := 11
  const SIGNATURE_ALGORITHMS: u16 := 13
  const ALPN: u16 := 16
  const SIGNED_CERTIFICATE_TIMESTAMP: u16 := 18
  const PADDING: u16 := 21
  const EXTENDED_MASTER_SECRET: u16 := 23
  const COMPRESS_CERTIFICATE: u16 := 27
  const SESSION_TICKET: u16 := 35
  const SUPPORTED_VERSIONS: u16 := 43
  const PSK_KEY_EXCHANGE_MODES: u16 := 45
  const KEY_SHARE: u16 := 51
  const ENCRYPTED_CLIENT_HELLO: u16 := 65037
  const RENEGOTIATION_INFO: u16 := 65281

  /** ProtocolVersion codes (TLS 1.2 and TLS 1.3). */
  const TLS_V1_2: u16 := 0x0303
  const TLS_V1_3: u16 := 0x0304

  /** PSKKeyExchangeMode::PSK_DHE_KE and ECPointFormat::Uncompressed. */
  const PSK_DHE_KE: u8 := 1
  const UNCOMPRESSED: u8 := 0

  /** The client extensions the core builds, grafts or inspects. */
  datatype ClientExtension =
    | ServerName(serverNames: Bytes)
    | KeyShare(keyShares: Bytes)
    | NamedGroups(groups: seq<u16>)
    | SupportedVersions(versions: seq<u16>)
    | Protocols(protocols: seq<Bytes>)
    | SignatureAlgorithms(schemes: seq<u16>)
    | EcPointFormats(formats: seq<u8>)
    | CompressCertificate(algorithms: seq<u16>)
    | ExtendedMasterSecretRequest
    | RenegotiationInfo(renegotiatedConnection: Bytes)
    | CertificateStatusRequest
    | SignedCertificateTimestampRequest
    | Padding(padding: Bytes)
    | PresharedKeyModes(modes: seq<u8>)
    | SessionTicketRequest
    | Unknown(typ: u16, payload: Bytes)

  /** `get_ext_type()`: the registry code of an extension. */
  function ExtType(e: ClientExtension): u16
  {
    match e
    case ServerName(_) => SERVER_NAME
    case KeyShare(_) => KEY_SHARE
    case NamedGroups(_) => SUPPORTED_GROUPS
    case SupportedVersions(_) => SUPPORTED_VERSIONS
    case Protocols(_) => ALPN
    case SignatureAlgorithms(_) => SIGNATURE_ALGORITHMS
    case EcPointFormats(_) => EC_POINT_FORMATS
    case CompressCertificate(_) => COMPRESS_CERTIFICATE
    case ExtendedMasterSecretRequest => EXTENDED_MASTER_SECRET
    case RenegotiationInfo(_) => RENEGOTIATION_INFO
    case CertificateStatusRequest => STATUS_REQUEST
    case SignedCertificateTimestampRequest => SIGNED_CERTIFICATE_TIMESTAMP
    case Padding(_) => PADDING
    case PresharedKeyModes(_) => PSK_KEY_EXCHANGE_MODES
    case SessionTicketRequest => SESSION_TICKET
    case Unknown(t, _) => t
  }
}
