# Envoy cluster synthesis for the Pomerium control plane

This project models how Pomerium's control plane builds the Envoy `Cluster`
descriptors that it serves over xDS (`internal/controlplane/xds_clusters.go`).
The control plane always emits three internal clusters first, in a fixed
order: `pomerium-control-plane-grpc`, `pomerium-control-plane-http` and
`pomerium-authz`. When the proxy service runs, it then emits one cluster per
route policy, in policy order. Each cluster has a name, a 10-second connect
timeout, a load assignment with one endpoint, and DNS TTLs respected. HTTP/2
with CONNECT is on only when the cluster forces HTTP/2. Discovery is `STATIC`
when the host (port stripped) is an IP literal and `LOGICAL_DNS` otherwise.
The default port is 443 when a "tls" transport socket is attached and 80
otherwise. A policy with an https destination gets an upstream TLS context.
That context offers ALPN `http/1.1` and carries an SNI: the server-name
override if one is set, else the destination's host name. It holds zero or
one client certificate. Its validation context requires that same SNI as the
exact subject alternative name. Its trust anchor is taken from, in order of
precedence: the custom CA file, the inline base64 custom CA (named
`custom-ca.pem`), or the system root bundle. Skip-verify accepts untrusted
chains.

Files:

- `envoy_types.dfy` (module `EnvoyTypes`): the Envoy v3 messages as datatypes.
- `config.dfy` (module `Config`): policies, options, and the `Environment`
  datatype. `Environment` holds the collaborators whose behaviour lies outside
  this file. Port stripping, IP parsing, URL host name, the address builder,
  base64 decoding, policy naming, the proxy-service test and
  client-certificate conversion are function values. The root-CA lookup is
  one `Option<string>` value.
- `xds_clusters.dfy` (module `XdsClusters`): the builders. Each one is a
  function, and `BuildClusters` is a method with the source's loop.
- `cluster_properties.dfy` (module `ClusterProperties`): lemmas about the
  whole cluster list and about each policy's cluster.

Points where the code behaves differently from what a reader might expect:

- An inline custom CA that fails to decode is still attached, as whatever
  bytes the decoder returned, under `custom-ca.pem`. The error is only
  logged. The cluster is not left without a trust anchor. See
  `DecodeFailureKeepsTrustAnchor`.
- The gRPC internal cluster uses scheme `http`, so it has no TLS socket and
  defaults to port 80, even though it carries control-plane traffic and
  forces HTTP/2.
- The authorization cluster's socket, when present, carries a name only and
  no TLS context.
- Cluster names are not checked for uniqueness. `ClusterNamesDistinct` states
  exactly when they are unique.
- `buildAddress` returns an address and no error. How it treats an empty
  host or a bad port is outside this file.

## Model

| member | source | states |
|---|---|---|
| XdsClusters.BuildClusters | internal/controlplane/xds_clusters.go:21-48 | the slice grown by the loop equals `ClusterSet` of the same inputs |
| XdsClusters.ClusterSet | internal/controlplane/xds_clusters.go:35-47 | length is 3 plus the policy count when the proxy runs, else 3; the first three are the internal clusters; cluster 3+i is policy i's cluster |
| XdsClusters.InternalClusters | internal/controlplane/xds_clusters.go:22-39 | the grpc, http and authz clusters in that order, each the internal-cluster build of its listener or authorize URL (scheme http for grpc and http); the grpc and http ones have no socket; authz has one iff its URL is https; grpc and authz force HTTP/2, http does not |
| XdsClusters.PolicyClusters | internal/controlplane/xds_clusters.go:41-45 | one cluster per policy, in policy order |
| XdsClusters.BuildInternalCluster | internal/controlplane/xds_clusters.go:50-58 | a name-only "tls" socket iff the scheme is https; port 443 iff https, else 80; HTTP/2 iff forced; keeps the cluster invariant |
| XdsClusters.BuildPolicyCluster | internal/controlplane/xds_clusters.go:60-63 | named by the naming collaborator; never forces HTTP/2; port 443 iff the destination is https; carries the policy's transport socket |
| XdsClusters.BuildPolicyTransportSocket | internal/controlplane/xds_clusters.go:65-95 | no socket iff the scheme is not https; otherwise a "tls" socket whose context has ALPN exactly ["http/1.1"], the effective SNI, the policy's validation context, and one certificate iff a client certificate is set |
| XdsClusters.BuildPolicyValidationContext | internal/controlplane/xds_clusters.go:97-131 | exactly one exact SAN matcher, equal to the effective SNI; the trust anchor is the first available source in precedence order, and is absent iff no source is available; ACCEPT_UNTRUSTED iff skip-verify |
| XdsClusters.BuildCluster | internal/controlplane/xds_clusters.go:133-176 | name and socket as given; one endpoint at port 443 iff the socket is named "tls", else 80; HTTP/2 options iff forced; STATIC iff the stripped host parses as an IP; the shared fields (load-assignment name, one endpoint, 10 s timeout, DNS TTLs, CONNECT) hold for any socket; the full cluster invariant holds iff the socket's TLS context keeps its own |
| XdsClusters.PolicyClustersAppend | internal/controlplane/xds_clusters.go:42-44 | appending a policy appends exactly its cluster |
| ClusterProperties.ClusterSetNames | internal/controlplane/xds_clusters.go:35-45 | the emitted names are the three internal names in fixed order, then the policy names in policy order when the proxy runs |
| ClusterProperties.ClusterNamesDistinct | internal/controlplane/xds_clusters.go:35-45 | names are unique iff the proxy is off, or the policy names are pairwise distinct and none equals an internal name |
| ClusterProperties.NameCollisionRepeatsName | internal/controlplane/xds_clusters.go:60-63 | two policies with the same name give a repeated cluster name |
| ClusterProperties.InternalPrefixStable | internal/controlplane/xds_clusters.go:30-39 | the first three clusters depend only on the listeners and the authorize URL, not on services or policies |
| ClusterProperties.AppendPolicyAppendsCluster | internal/controlplane/xds_clusters.go:41-45 | with the proxy running, one more policy gives one more cluster at the end, with all earlier clusters unchanged |
| ClusterProperties.EveryClusterKeepsInvariant | internal/controlplane/xds_clusters.go:144-167 | every emitted cluster has its own name in its load assignment, one endpoint, a 10 s timeout and DNS TTLs respected; CONNECT is allowed when HTTP/2 options are present; any TLS context offers ALPN http/1.1, has at most one certificate, and matches the SAN to the SNI |
| ClusterProperties.InternalClusterDefaults | internal/controlplane/xds_clusters.go:22-57 | the grpc and http clusters have no socket and default to port 80; authz defaults to 443 iff its URL is https, and its socket, when present, is name-only; grpc and authz have HTTP/2 with CONNECT, http has none; each is STATIC iff its stripped host is an IP literal |
| ClusterProperties.SniMatchesSubjectAltName | internal/controlplane/xds_clusters.go:70-108 | for an https policy, the SNI is the override when set, else the host name, and the SAN matcher is exactly that SNI |
| ClusterProperties.SkipVerifyKeepsSubjectAltName | internal/controlplane/xds_clusters.go:65-128 | in the TLS context of an https policy's cluster, skip-verify gives ACCEPT_UNTRUSTED and the SAN matcher stays equal to that context's SNI; otherwise the mode is VERIFY_TRUST_CHAIN |
| ClusterProperties.TrustAnchorPrecedence | internal/controlplane/xds_clusters.go:109-124 | CA file, else inline CA bytes named custom-ca.pem, else the root CA file if the lookup succeeds, else no trust anchor |
| ClusterProperties.DecodeFailureKeepsTrustAnchor | internal/controlplane/xds_clusters.go:111-116 | an inline CA that fails to decode still yields the trust anchor custom-ca.pem holding the decoder's bytes, whatever they are; the decoder's error flag never changes the validation context |
| ClusterProperties.PolicyClusterDiscoveryAndPort | internal/controlplane/xds_clusters.go:139-173 | a policy cluster is STATIC iff its stripped host is an IP literal; its default port is 443 iff the destination is https; it has a socket iff the destination is https |

## Left out

- Protobuf packing of the TLS context into `Any`, and the error it ignores: the socket holds the TLS context as a plain value.
- Logging of a bad inline CA and of a missing root bundle: these calls have no effect on the output.
- Listener sockets: the gRPC and HTTP listener addresses are given as host strings.
- Helpers outside this file are collaborator values in `Environment`, with no behaviour assumed beyond being a function of their arguments: `buildAddress`, `urlutil.StripPort`, `net.ParseIP`, `url.URL.Hostname`, base64 decoding, `getRootCertificateAuthority`, `getPolicyName`, `config.IsProxy` and `envoyTLSCertificateFromGoTLSCertificate`.
- `inlineFilename` and `inlineBytesAsFilename` are the two `DataSource` constructors. Whatever file writing they do is not modelled.
- URL parsing: a URL is its scheme and host, and any other part is dropped.
- Policy fields that only the naming function reads (the route's matching rules and the like) are one opaque `route` string in `Policy`. Two policies with the same destination and TLS settings can therefore still get different names.
- Missing URLs: the authorize URL and every policy destination are always present. The Go code dereferences both without a nil check (lines 31 and 62).
- The root-CA lookup is one `Option<string>` for the whole run, so every policy sees the same answer. A lookup whose answer changes between policies is not modelled.
- `time.Duration`: the connect timeout is the constant `Duration(10, 0)`.
