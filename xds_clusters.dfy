/** The cluster builders: three internal clusters for the control plane's own
    services, then one cluster per route policy when the proxy service runs. */
module XdsClusters {
  import opened EnvoyTypes
  import opened Config

  const GrpcClusterName := "pomerium-control-plane-grpc"
  const HttpClusterName := "pomerium-control-plane-http"
  const AuthzClusterName := "pomerium-authz"

  /** The names of the internal clusters, in the order they are emitted. */
  const InternalNames := [GrpcClusterName, HttpClusterName, AuthzClusterName]

  const ConnectTimeout := Duration(10, 0)
  const CustomCaName := "custom-ca.pem"
  const Http11 := "http/1.1"

  /** The SNI a policy's upstream connection uses: the server-name override
      when one is configured, else the destination's host name. */
  function EffectiveSni(env: Environment, p: Policy): string
  {
    if p.tlsServerName != "" then p.tlsServerName else env.hostname(p.destination.host)
  }

  /** The trust sources a policy could use, highest precedence first: the
      custom CA file, the inline custom CA, the system root bundle. A source
      that is not configured (or, for the root bundle, not found) is absent. */
  function TrustSources(env: Environment, p: Policy): seq<DataSource>
  {
    (if p.tlsCustomCAFile != "" then [Filename(p.tlsCustomCAFile)] else [])
    + (if p.tlsCustomCA != "" then [InlineBytesAsFilename(CustomCaName, env.decodeBase64(p.tlsCustomCA).bytes)] else [])
    + (match env.rootCertificateAuthority
       case Some(rootCA) => [Filename(rootCA)]
       case None => [])
  }

  /** What every emitted upstream TLS context looks like: ALPN offers only
      HTTP/1.1, at most one client certificate, and the peer's subject
      alternative name must match the SNI exactly. */
  predicate TlsContextInvariant(tls: UpstreamTlsContext)
  {
    && tls.commonTlsContext.alpnProtocols == [Http11]
    && |tls.commonTlsContext.tlsCertificates| <= 1
    && tls.commonTlsContext.validationContext.matchSubjectAltNames == [Exact(tls.sni)]
  }

  /** The fields every cluster shares, whatever socket it was given: its load
      assignment carries its name and one endpoint, the connect timeout is
      10 seconds, DNS TTLs are respected, and HTTP/2 options, when present,
      allow CONNECT. */
  predicate CommonFields(c: Cluster)
  {
    && c.loadAssignment.clusterName == c.name
    && |c.loadAssignment.endpoints| == 1
    && |c.loadAssignment.endpoints[0].lbEndpoints| == 1
    && c.connectTimeout == ConnectTimeout
    && c.respectDnsTtl
    && (c.http2ProtocolOptions.Some? ==> c.http2ProtocolOptions.value.allowConnect)
  }

  /** What every emitted cluster looks like, whatever its inputs. */
  predicate ClusterInvariant(c: Cluster)
  {
    && CommonFields(c)
    && (c.transportSocket.Some? && c.transportSocket.value.typedConfig.Some? ==>
          TlsContextInvariant(c.transportSocket.value.typedConfig.value))
  }

  /** The address a cluster built for `host` points at: the address builder's
      answer for that host with the default port `port`. */
  function SingleEndpoint(env: Environment, host: string, port: int): seq<LocalityLbEndpoints>
  {
    [LocalityLbEndpoints([LbEndpoint(env.buildAddress(host, port))])]
  }

  /** buildPolicyValidationContext: SAN matcher, trust anchor, verification mode. */
  function BuildPolicyValidationContext(env: Environment, p: Policy): (vc: CertificateValidationContext)
    ensures vc.matchSubjectAltNames == [Exact(EffectiveSni(env, p))]
    ensures vc.trustedCa.None? <==> TrustSources(env, p) == []
    ensures vc.trustedCa.Some? ==> vc.trustedCa.value == TrustSources(env, p)[0]
    ensures vc.trustChainVerification == AcceptUntrusted <==> p.tlsSkipVerify
  {
    var sni := if p.tlsServerName != "" then p.tlsServerName else env.hostname(p.destination.host);
    var vc := CertificateValidationContext(None, [Exact(sni)], VerifyTrustChain);
    var vc :=
      if p.tlsCustomCAFile != "" then
        vc.(trustedCa := Some(Filename(p.tlsCustomCAFile)))
      else if p.tlsCustomCA != "" then
        // a decoding error is reported, and the bytes are attached all the same
        var decoded := env.decodeBase64(p.tlsCustomCA);
        vc.(trustedCa := Some(InlineBytesAsFilename(CustomCaName, decoded.bytes)))
      else
        match env.rootCertificateAuthority
        case None => vc
        case Some(rootCA) => vc.(trustedCa := Some(Filename(rootCA)));
    if p.tlsSkipVerify then vc.(trustChainVerification := AcceptUntrusted) else vc
  }

  /** buildPolicyTransportSocket: no socket for a plain destination; for an
      https destination a "tls" socket carrying the upstream TLS context. */
  function BuildPolicyTransportSocket(env: Environment, p: Policy): (ts: Option<TransportSocket>)
    ensures ts.None? <==> p.destination.scheme != "https"
    ensures ts.Some? ==> ts.value.name == "tls" && ts.value.typedConfig.Some?
    ensures ts.Some? ==>
      var tls := ts.value.typedConfig.value;
      && tls.sni == EffectiveSni(env, p)
      && tls.commonTlsContext.alpnProtocols == [Http11]
      && tls.commonTlsContext.validationContext == BuildPolicyValidationContext(env, p)
      && |tls.commonTlsContext.tlsCertificates| == (if p.clientCertificate.Some? then 1 else 0)
      && (forall cert :: cert in tls.commonTlsContext.tlsCertificates ==>
            cert == env.envoyTlsCertificate(p.clientCertificate.value))
    ensures ts.Some? ==> TlsContextInvariant(ts.value.typedConfig.value)
  {
    if p.destination.scheme != "https" then None
    else
      var sni := if p.tlsServerName != "" then p.tlsServerName else env.hostname(p.destination.host);
      var tlsContext := UpstreamTlsContext(
        CommonTlsContext([], BuildPolicyValidationContext(env, p), [Http11]),
        sni);
      var tlsContext :=
        match p.clientCertificate
        case None => tlsContext
        case Some(cert) =>
          tlsContext.(commonTlsContext := tlsContext.commonTlsContext.(
            tlsCertificates := tlsContext.commonTlsContext.tlsCertificates + [env.envoyTlsCertificate(cert)]));
      Some(TransportSocket("tls", Some(tlsContext)))
  }

  /** buildCluster: the fields every cluster shares, the default port chosen
      from the transport socket, HTTP/2 options on request, and the discovery
      type chosen from whether the host is an IP literal. */
  function BuildCluster(env: Environment, name: string, endpoint: URL, ts: Option<TransportSocket>, forceHttp2: bool): (c: Cluster)
    ensures CommonFields(c)
    ensures ClusterInvariant(c) <==>
      (ts.Some? && ts.value.typedConfig.Some? ==> TlsContextInvariant(ts.value.typedConfig.value))
    ensures c.name == name && c.transportSocket == ts
    ensures c.loadAssignment.endpoints ==
      SingleEndpoint(env, endpoint.host, if ts.Some? && ts.value.name == "tls" then 443 else 80)
    ensures c.http2ProtocolOptions.Some? <==> forceHttp2
    ensures c.discoveryType == Static <==> env.parseIP(env.stripPort(endpoint.host))
  {
    var defaultPort := if ts.Some? && ts.value.name == "tls" then 443 else 80;
    var cluster := Cluster(
      name,
      ConnectTimeout,
      ClusterLoadAssignment(name, [LocalityLbEndpoints([LbEndpoint(env.buildAddress(endpoint.host, defaultPort))])]),
      true,
      ts,
      None,
      LogicalDns);
    var cluster := if forceHttp2 then cluster.(http2ProtocolOptions := Some(Http2ProtocolOptions(true))) else cluster;
    if !env.parseIP(env.stripPort(endpoint.host)) then cluster.(discoveryType := LogicalDns)
    else cluster.(discoveryType := Static)
  }

  /** buildInternalCluster: a name-only "tls" socket exactly for https. */
  function BuildInternalCluster(env: Environment, name: string, endpoint: URL, forceHttp2: bool): (c: Cluster)
    ensures ClusterInvariant(c) && c.name == name
    ensures c.transportSocket.Some? <==> endpoint.scheme == "https"
    ensures c.transportSocket.Some? ==> c.transportSocket.value == TransportSocket("tls", None)
    ensures c.loadAssignment.endpoints ==
      SingleEndpoint(env, endpoint.host, if endpoint.scheme == "https" then 443 else 80)
    ensures c.http2ProtocolOptions.Some? <==> forceHttp2
    ensures c.discoveryType == Static <==> env.parseIP(env.stripPort(endpoint.host))
  {
    var ts := if endpoint.scheme == "https" then Some(TransportSocket("tls", None)) else None;
    BuildCluster(env, name, endpoint, ts, forceHttp2)
  }

  /** buildPolicyCluster: named by the naming collaborator, never forced to HTTP/2. */
  function BuildPolicyCluster(env: Environment, p: Policy): (c: Cluster)
    ensures ClusterInvariant(c)
    ensures c.name == env.policyName(p)
    ensures c.transportSocket == BuildPolicyTransportSocket(env, p)
    ensures c.loadAssignment.endpoints ==
      SingleEndpoint(env, p.destination.host, if p.destination.scheme == "https" then 443 else 80)
    ensures c.http2ProtocolOptions.None?
    ensures c.discoveryType == Static <==> env.parseIP(env.stripPort(p.destination.host))
  {
    BuildCluster(env, env.policyName(p), p.destination, BuildPolicyTransportSocket(env, p), false)
  }

  /** The internal clusters, in their fixed order: gRPC and HTTP listeners
      (plain http), then the authorization service. */
  function InternalClusters(env: Environment, grpcListenerAddr: string, httpListenerAddr: string, authorizeURL: URL): (cs: seq<Cluster>)
    ensures |cs| == 3
    ensures cs[0] == BuildInternalCluster(env, GrpcClusterName, URL("http", grpcListenerAddr), true)
    ensures cs[1] == BuildInternalCluster(env, HttpClusterName, URL("http", httpListenerAddr), false)
    ensures cs[2] == BuildInternalCluster(env, AuthzClusterName, URL(authorizeURL.scheme, authorizeURL.host), true)
    ensures forall i :: 0 <= i < 3 ==> cs[i].name == InternalNames[i] && ClusterInvariant(cs[i])
    ensures cs[0].transportSocket.None? && cs[1].transportSocket.None?
    ensures cs[2].transportSocket.Some? <==> authorizeURL.scheme == "https"
    ensures cs[0].http2ProtocolOptions.Some? && cs[1].http2ProtocolOptions.None? && cs[2].http2ProtocolOptions.Some?
  {
    [ BuildInternalCluster(env, GrpcClusterName, URL("http", grpcListenerAddr), true),
      BuildInternalCluster(env, HttpClusterName, URL("http", httpListenerAddr), false),
      BuildInternalCluster(env, AuthzClusterName, URL(authorizeURL.scheme, authorizeURL.host), true) ]
  }

  /** One cluster per policy, in policy order. */
  function PolicyClusters(env: Environment, policies: seq<Policy>): (cs: seq<Cluster>)
    ensures |cs| == |policies|
    ensures forall i :: 0 <= i < |policies| ==> cs[i] == BuildPolicyCluster(env, policies[i])
  {
    if policies == [] then []
    else [BuildPolicyCluster(env, policies[0])] + PolicyClusters(env, policies[1..])
  }

  /** The cluster list buildClusters returns, as a value. */
  function ClusterSet(env: Environment, grpcListenerAddr: string, httpListenerAddr: string, options: Options): (cs: seq<Cluster>)
    ensures |cs| == 3 + (if env.isProxy(options.services) then |options.policies| else 0)
    ensures cs[..3] == InternalClusters(env, grpcListenerAddr, httpListenerAddr, options.authorizeURL)
    ensures env.isProxy(options.services) ==>
      forall i :: 0 <= i < |options.policies| ==> cs[3 + i] == BuildPolicyCluster(env, options.policies[i])
  {
    InternalClusters(env, grpcListenerAddr, httpListenerAddr, options.authorizeURL)
    + (if env.isProxy(options.services) then PolicyClusters(env, options.policies) else [])
  }

  /** buildClusters: the internal clusters, then, when the proxy service
      runs, one cluster appended per policy. */
  method BuildClusters(env: Environment, grpcListenerAddr: string, httpListenerAddr: string, options: Options)
    returns (clusters: seq<Cluster>)
    ensures clusters == ClusterSet(env, grpcListenerAddr, httpListenerAddr, options)
  {
    var grpcURL := URL("http", grpcListenerAddr);
    var httpURL := URL("http", httpListenerAddr);
    var authzURL := URL(options.authorizeURL.scheme, options.authorizeURL.host);
    clusters := [
      BuildInternalCluster(env, GrpcClusterName, grpcURL, true),
      BuildInternalCluster(env, HttpClusterName, httpURL, false),
      BuildInternalCluster(env, AuthzClusterName, authzURL, true)
    ];
    ghost var internal := clusters;
    if env.isProxy(options.services) {
      for i := 0 to |options.policies|
        invariant clusters == internal + PolicyClusters(env, options.policies[..i])
      {
        PolicyClustersAppend(env, options.policies[..i], options.policies[i]);
        assert options.policies[..i + 1] == options.policies[..i] + [options.policies[i]];
        clusters := clusters + [BuildPolicyCluster(env, options.policies[i])];
      }
      assert options.policies[..|options.policies|] == options.policies;
    }
  }

  /** Adding a policy at the end of the list adds exactly its cluster at the
      end of the policy clusters, and changes none before it. */
  lemma {:induction false} PolicyClustersAppend(env: Environment, policies: seq<Policy>, p: Policy)
    ensures PolicyClusters(env, policies + [p]) == PolicyClusters(env, policies) + [BuildPolicyCluster(env, p)]
  {
    if policies != [] {
      assert (policies + [p])[1..] == policies[1..] + [p];
      PolicyClustersAppend(env, policies[1..], p);
    } else {
      assert policies + [p] == [p];
    }
  }
}
