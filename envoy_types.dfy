/** The parts of Envoy's v3 configuration messages that the cluster builders
    fill in: Cluster, its load assignment, its transport socket and the
    upstream TLS context carried inside it. Protobuf packing (`Any`) is not
    modelled: a transport socket holds its TLS context as a plain value. */
module EnvoyTypes {

  datatype Option<+T> = None | Some(value: T)

  type Byte = bv8

  /** google.protobuf.Duration */
  datatype Duration = Duration(seconds: int, nanos: int)

  /** config.core.v3.Address, as the address builder returns it. */
  datatype Address = SocketAddress(address: string, portValue: int)

  /** config.core.v3.DataSource, in the two shapes the trust-anchor helpers
      produce: a reference to a file by name, or bytes that are handed to the
      proxy under a synthetic file name. */
  datatype DataSource =
    | Filename(filename: string)
    | InlineBytesAsFilename(name: string, bytes: seq<Byte>)

  /** type.matcher.v3.StringMatcher, in the one shape the builders use: an
      exact match. */
  datatype StringMatcher = Exact(exact: string)

  /** CertificateValidationContext.TrustChainVerification; the protobuf
      default is VERIFY_TRUST_CHAIN. */
  datatype TrustChainVerification = VerifyTrustChain | AcceptUntrusted

  datatype CertificateValidationContext = CertificateValidationContext(
    trustedCa: Option<DataSource>,
    matchSubjectAltNames: seq<StringMatcher>,
    trustChainVerification: TrustChainVerification)

  datatype TlsCertificate = TlsCertificate(certificateChain: DataSource, privateKey: DataSource)

  datatype CommonTlsContext = CommonTlsContext(
    tlsCertificates: seq<TlsCertificate>,
    validationContext: CertificateValidationContext,
    alpnProtocols: seq<string>)

  datatype UpstreamTlsContext = UpstreamTlsContext(commonTlsContext: CommonTlsContext, sni: string)

  /** config.core.v3.TransportSocket; `typedConfig` is absent for a socket
      that carries a name only. */
  datatype TransportSocket = TransportSocket(name: string, typedConfig: Option<UpstreamTlsContext>)

  datatype Http2ProtocolOptions = Http2ProtocolOptions(allowConnect: bool)

  /** Cluster.DiscoveryType, restricted to the two values the builders use. */
  datatype DiscoveryType = Static | LogicalDns

  datatype LbEndpoint = LbEndpoint(address: Address)

  datatype LocalityLbEndpoints = LocalityLbEndpoints(lbEndpoints: seq<LbEndpoint>)

  datatype ClusterLoadAssignment = ClusterLoadAssignment(clusterName: string, endpoints: seq<LocalityLbEndpoints>)

  datatype Cluster = Cluster(
    name: string,
    connectTimeout: Duration,
    loadAssignment: ClusterLoadAssignment,
    respectDnsTtl: bool,
    transportSocket: Option<TransportSocket>,
    http2ProtocolOptions: Option<Http2ProtocolOptions>,
    discoveryType: DiscoveryType)
}
