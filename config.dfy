/** The configuration the cluster builders read (a route policy and the
    options that hold the list of policies), and the collaborators they call
    whose behaviour lies outside the builders: these are given as values. */
module Config {
  import opened EnvoyTypes

  /** The two parts of a parsed URL that the builders read. */
  datatype URL = URL(scheme: string, host: string)

  /** A client certificate and its private key, as loaded from configuration. */
  datatype ClientCertificate = ClientCertificate(chain: seq<seq<Byte>>, privateKey: seq<Byte>)

  /** A route policy: the fields that decide its cluster's contents, and
      `route`, which stands for every other field of the policy (the route's
      matching rules and the like); only the naming collaborator reads it.
      Empty strings stand for "not configured", as in the configuration. */
  datatype Policy = Policy(
    route: string,
    destination: URL,
    tlsServerName: string,
    tlsCustomCA: string,
    tlsCustomCAFile: string,
    tlsSkipVerify: bool,
    clientCertificate: Option<ClientCertificate>)

  datatype Options = Options(services: string, authorizeURL: URL, policies: seq<Policy>)

  /** Outcome of standard base64 decoding: the bytes decoded and whether an
      error was reported (the bytes are returned either way). */
  datatype Decoded = Decoded(bytes: seq<Byte>, failed: bool)

  /** The collaborators of the builders:
      - stripPort: removes a trailing port from a host;
      - parseIP: whether a string parses as an IPv4 or IPv6 literal;
      - hostname: the host name of a URL, given its host part;
      - buildAddress: the endpoint address for a host and a default port;
      - decodeBase64: standard base64 decoding;
      - rootCertificateAuthority: the system root bundle's file, if one is found;
      - policyName: the cluster name of a policy;
      - isProxy: whether the configured services include the proxy;
      - envoyTlsCertificate: conversion of a client certificate to Envoy's form. */
  datatype Environment = Environment(
    stripPort: string -> string,
    parseIP: string -> bool,
    hostname: string -> string,
    buildAddress: (string, int) -> Address,
    decodeBase64: string -> Decoded,
    rootCertificateAuthority: Option<string>,
    policyName: Policy -> string,
    isProxy: string -> bool,
    envoyTlsCertificate: ClientCertificate -> TlsCertificate)
}
