/** Properties of the cluster list as a whole: its order, the stability of
    its internal prefix, when its names are distinct, and what each policy's
    cluster carries. */
module ClusterProperties {
  import opened EnvoyTypes
  import opened Config
  import opened XdsClusters

  function ClusterNames(cs: seq<Cluster>): (names: seq<string>)
  {
    seq(|cs|, i requires 0 <= i < |cs| => cs[i].name)
  }

  function PolicyNames(env: Environment, policies: seq<Policy>): (names: seq<string>)
  {
    seq(|policies|, i requires 0 <= i < |policies| => env.policyName(policies[i]))
  }

  predicate Distinct(s: seq<string>)
  {
    forall i, j :: 0 <= i < j < |s| ==> s[i] != s[j]
  }

  /** The names of the emitted clusters are the three internal names, in
      their fixed order, followed (when the proxy service runs) by the
      policies' names in policy order. */
  lemma ClusterSetNames(env: Environment, grpcListenerAddr: string, httpListenerAddr: string, options: Options)
    ensures ClusterNames(ClusterSet(env, grpcListenerAddr, httpListenerAddr, options)) ==
      InternalNames + (if env.isProxy(options.services) then PolicyNames(env, options.policies) else [])
  {
    var internal := InternalClusters(env, grpcListenerAddr, httpListenerAddr, options.authorizeURL);
    var policyClusters := if env.isProxy(options.services) then PolicyClusters(env, options.policies) else [];
    ClusterNamesConcat(internal, policyClusters);
    InternalClusterNames(env, grpcListenerAddr, httpListenerAddr, options.authorizeURL);
    PolicyClusterNames(env, options.policies);
    assert ClusterNames([]) == [];
  }

  /** Names of a concatenation are the concatenated names. */
  lemma ClusterNamesConcat(a: seq<Cluster>, b: seq<Cluster>)
    ensures ClusterNames(a + b) == ClusterNames(a) + ClusterNames(b)
  {
    assert forall i :: 0 <= i < |a + b| ==> ClusterNames(a + b)[i] == (ClusterNames(a) + ClusterNames(b))[i];
  }

  /** The internal clusters carry the internal names, in order. */
  lemma InternalClusterNames(env: Environment, grpcListenerAddr: string, httpListenerAddr: string, authorizeURL: URL)
    ensures ClusterNames(InternalClusters(env, grpcListenerAddr, httpListenerAddr, authorizeURL)) == InternalNames
  {
    var internal := InternalClusters(env, grpcListenerAddr, httpListenerAddr, authorizeURL);
    assert forall i :: 0 <= i < 3 ==> ClusterNames(internal)[i] == internal[i].name == InternalNames[i];
  }

  /** The policy clusters carry the policies' names, in policy order. */
  lemma PolicyClusterNames(env: Environment, policies: seq<Policy>)
    ensures ClusterNames(PolicyClusters(env, policies)) == PolicyNames(env, policies)
  {
    var cs := PolicyClusters(env, policies);
    forall i | 0 <= i < |policies| ensures ClusterNames(cs)[i] == PolicyNames(env, policies)[i] {
      assert cs[i] == BuildPolicyCluster(env, policies[i]);
    }
  }

  /** A concatenation has distinct elements exactly when both parts do and
      no element of the second part occurs in the first. */
  lemma DistinctConcat(a: seq<string>, b: seq<string>)
    ensures Distinct(a + b) <==> Distinct(a) && Distinct(b) && forall j :: 0 <= j < |b| ==> b[j] !in a
  {
    var ab := a + b;
    if Distinct(ab) {
      forall i, j | 0 <= i < j < |a| ensures a[i] != a[j] {
        assert ab[i] == a[i] && ab[j] == a[j];
      }
      forall i, j | 0 <= i < j < |b| ensures b[i] != b[j] {
        assert ab[|a| + i] == b[i] && ab[|a| + j] == b[j];
      }
      forall i, j | 0 <= i < |a| && 0 <= j < |b| ensures a[i] != b[j] {
        assert ab[i] == a[i] && ab[|a| + j] == b[j];
      }
    }
    if Distinct(a) && Distinct(b) && forall j :: 0 <= j < |b| ==> b[j] !in a {
      forall i, j | 0 <= i < j < |ab| ensures ab[i] != ab[j] {
        if j < |a| {
          assert ab[i] == a[i] && ab[j] == a[j];
        } else if i < |a| {
          assert ab[i] == a[i] && ab[j] == b[j - |a|];
        } else {
          assert ab[i] == b[i - |a|] && ab[j] == b[j - |a|];
        }
      }
    }
  }

  /** Cluster names are unique exactly when the proxy service is off, or the
      policies' names are pairwise distinct and none of them reuses an
      internal cluster's name. The builders do not check this themselves. */
  lemma ClusterNamesDistinct(env: Environment, grpcListenerAddr: string, httpListenerAddr: string, options: Options)
    ensures Distinct(ClusterNames(ClusterSet(env, grpcListenerAddr, httpListenerAddr, options))) <==>
      (env.isProxy(options.services) ==>
        && Distinct(PolicyNames(env, options.policies))
        && forall j :: 0 <= j < |options.policies| ==> env.policyName(options.policies[j]) !in InternalNames)
  {
    ClusterSetNames(env, grpcListenerAddr, httpListenerAddr, options);
    if env.isProxy(options.services) {
      PolicyNamesAfterInternal(env, options.policies);
    } else {
      assert InternalNames + [] == InternalNames;
      assert Distinct(InternalNames);
    }
  }

  /** The internal names followed by the policies' names are distinct exactly
      when the policies' names are, and none of them is an internal name. */
  lemma PolicyNamesAfterInternal(env: Environment, policies: seq<Policy>)
    ensures Distinct(InternalNames + PolicyNames(env, policies)) <==>
      && Distinct(PolicyNames(env, policies))
      && forall j :: 0 <= j < |policies| ==> env.policyName(policies[j]) !in InternalNames
  {
    var policyNames := PolicyNames(env, policies);
    DistinctConcat(InternalNames, policyNames);
    assert Distinct(InternalNames);
    forall j | 0 <= j < |policies| ensures policyNames[j] == env.policyName(policies[j]) { }
  }

  /** Two policies whose names collide make the emitted names repeat. */
  lemma NameCollisionRepeatsName(env: Environment, grpcListenerAddr: string, httpListenerAddr: string, options: Options, j: nat, k: nat)
    requires env.isProxy(options.services)
    requires j < k < |options.policies|
    requires env.policyName(options.policies[j]) == env.policyName(options.policies[k])
    ensures !Distinct(ClusterNames(ClusterSet(env, grpcListenerAddr, httpListenerAddr, options)))
  {
    ClusterNamesDistinct(env, grpcListenerAddr, httpListenerAddr, options);
    var policyNames := PolicyNames(env, options.policies);
    assert policyNames[j] == policyNames[k];
    assert !Distinct(policyNames);
  }

  /** The internal clusters do not depend on the services or the policies,
      so they keep their positions and contents from one configuration to
      the next as long as the listeners and the authorize URL stay the same. */
  lemma InternalPrefixStable(env: Environment, grpcListenerAddr: string, httpListenerAddr: string, o1: Options, o2: Options)
    requires o1.authorizeURL == o2.authorizeURL
    ensures ClusterSet(env, grpcListenerAddr, httpListenerAddr, o1)[..3] ==
            ClusterSet(env, grpcListenerAddr, httpListenerAddr, o2)[..3]
  {
  }

  /** Adding a policy at the end of the configuration (with the proxy
      service running) appends exactly its cluster and leaves every earlier
      cluster where it was. */
  lemma AppendPolicyAppendsCluster(env: Environment, grpcListenerAddr: string, httpListenerAddr: string, options: Options, p: Policy)
    requires env.isProxy(options.services)
    ensures ClusterSet(env, grpcListenerAddr, httpListenerAddr, options.(policies := options.policies + [p])) ==
      ClusterSet(env, grpcListenerAddr, httpListenerAddr, options) + [BuildPolicyCluster(env, p)]
  {
    PolicyClustersAppend(env, options.policies, p);
  }

  /** Every emitted cluster keeps the cluster invariant: its load assignment
      names it and holds one endpoint, a 10-second connect timeout, DNS TTLs
      respected, CONNECT allowed when HTTP/2 is forced, and a TLS context
      whose SAN matcher is its SNI. */
  lemma EveryClusterKeepsInvariant(env: Environment, grpcListenerAddr: string, httpListenerAddr: string, options: Options)
    ensures forall c :: c in ClusterSet(env, grpcListenerAddr, httpListenerAddr, options) ==> ClusterInvariant(c)
  {
    var cs := ClusterSet(env, grpcListenerAddr, httpListenerAddr, options);
    var internal := InternalClusters(env, grpcListenerAddr, httpListenerAddr, options.authorizeURL);
    forall i | 0 <= i < |cs| ensures ClusterInvariant(cs[i]) {
      if i < 3 {
        assert cs[i] == cs[..3][i] == internal[i];
      } else {
        assert cs[i] == BuildPolicyCluster(env, options.policies[i - 3]);
      }
    }
  }

  /** The gRPC and HTTP listener clusters are plain, so they default to port
      80; the authorization cluster defaults to 443 exactly when the
      authorize URL is https. Only the gRPC and authorization clusters force
      HTTP/2. The gRPC and HTTP clusters never carry a socket, and the
      authorization cluster's socket, when present, has a name and no TLS
      context. Each is discovered statically exactly when its host is an IP
      literal. */
  lemma InternalClusterDefaults(env: Environment, grpcListenerAddr: string, httpListenerAddr: string, options: Options)
    ensures var cs := ClusterSet(env, grpcListenerAddr, httpListenerAddr, options);
      && cs[0].loadAssignment.endpoints == SingleEndpoint(env, grpcListenerAddr, 80)
      && cs[1].loadAssignment.endpoints == SingleEndpoint(env, httpListenerAddr, 80)
      && cs[2].loadAssignment.endpoints ==
           SingleEndpoint(env, options.authorizeURL.host, if options.authorizeURL.scheme == "https" then 443 else 80)
      && cs[0].http2ProtocolOptions == Some(Http2ProtocolOptions(true))
      && cs[1].http2ProtocolOptions.None?
      && cs[2].http2ProtocolOptions == Some(Http2ProtocolOptions(true))
      && cs[0].transportSocket.None? && cs[1].transportSocket.None?
      && (cs[2].transportSocket.Some? ==> cs[2].transportSocket.value == TransportSocket("tls", None))
      && (cs[0].discoveryType == Static <==> env.parseIP(env.stripPort(grpcListenerAddr)))
      && (cs[1].discoveryType == Static <==> env.parseIP(env.stripPort(httpListenerAddr)))
      && (cs[2].discoveryType == Static <==> env.parseIP(env.stripPort(options.authorizeURL.host)))
  {
    var cs := ClusterSet(env, grpcListenerAddr, httpListenerAddr, options);
    assert cs[0] == cs[..3][0] && cs[1] == cs[..3][1] && cs[2] == cs[..3][2];
  }

  /** The SNI sent to a policy's upstream and the name its certificate must
      carry are one and the same: the server-name override when set, else the
      destination's host name. */
  lemma SniMatchesSubjectAltName(env: Environment, p: Policy)
    requires p.destination.scheme == "https"
    ensures var ts := BuildPolicyCluster(env, p).transportSocket;
      && ts.Some? && ts.value.typedConfig.Some?
      && var tls := ts.value.typedConfig.value;
      && tls.sni == (if p.tlsServerName != "" then p.tlsServerName else env.hostname(p.destination.host))
      && tls.commonTlsContext.validationContext.matchSubjectAltNames == [Exact(tls.sni)]
  {
  }

  /** In the TLS context an https policy's cluster carries, skipping
      verification accepts untrusted chains and leaves the SAN matcher equal
      to that context's own SNI; without it the chain is verified. */
  lemma SkipVerifyKeepsSubjectAltName(env: Environment, p: Policy)
    requires p.destination.scheme == "https"
    ensures var ts := BuildPolicyCluster(env, p).transportSocket;
      && ts.Some? && ts.value.typedConfig.Some?
      && var tls := ts.value.typedConfig.value;
      && tls.commonTlsContext.validationContext.matchSubjectAltNames == [Exact(tls.sni)]
      && tls.commonTlsContext.validationContext.trustChainVerification ==
           (if p.tlsSkipVerify then AcceptUntrusted else VerifyTrustChain)
  {
  }

  /** Trust-anchor precedence, case by case: the custom CA file, else the
      inline custom CA under the name "custom-ca.pem" (whether or not it
      decoded), else the system root bundle if one is found, else none. */
  lemma TrustAnchorPrecedence(env: Environment, p: Policy)
    ensures var ca := BuildPolicyValidationContext(env, p).trustedCa;
      if p.tlsCustomCAFile != "" then ca == Some(Filename(p.tlsCustomCAFile))
      else if p.tlsCustomCA != "" then
        ca == Some(InlineBytesAsFilename(CustomCaName, env.decodeBase64(p.tlsCustomCA).bytes))
      else if env.rootCertificateAuthority.Some? then ca == Some(Filename(env.rootCertificateAuthority.value))
      else ca.None?
  {
  }

  /** An inline custom CA that fails to decode still yields a trust anchor:
      whatever bytes the decoder returned, under "custom-ca.pem". The
      decoder's error flag never changes the validation context: reporting
      success with the same bytes gives the same result. */
  lemma DecodeFailureKeepsTrustAnchor(env: Environment, p: Policy)
    requires p.tlsCustomCAFile == "" && p.tlsCustomCA != ""
    requires env.decodeBase64(p.tlsCustomCA).failed
    ensures BuildPolicyValidationContext(env, p).trustedCa ==
      Some(InlineBytesAsFilename(CustomCaName, env.decodeBase64(p.tlsCustomCA).bytes))
    ensures var succeeding := env.(decodeBase64 := s => Decoded(env.decodeBase64(s).bytes, false));
      BuildPolicyValidationContext(succeeding, p) == BuildPolicyValidationContext(env, p)
  {
  }

  /** A policy cluster is discovered statically exactly when its host, with
      any port stripped, is an IP literal; it defaults to port 443 exactly
      when the destination is https. */
  lemma PolicyClusterDiscoveryAndPort(env: Environment, grpcListenerAddr: string, httpListenerAddr: string, options: Options, i: nat)
    requires env.isProxy(options.services) && i < |options.policies|
    ensures var c := ClusterSet(env, grpcListenerAddr, httpListenerAddr, options)[3 + i];
      var dest := options.policies[i].destination;
      && (c.discoveryType == Static <==> env.parseIP(env.stripPort(dest.host)))
      && c.loadAssignment.endpoints == SingleEndpoint(env, dest.host, if dest.scheme == "https" then 443 else 80)
      && (c.transportSocket.Some? <==> dest.scheme == "https")
  {
  }
}
