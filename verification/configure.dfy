/** How `Gateway.Open` turns the gateway's options into the torrent
    client's configuration (pkg/server/gateway.go). */
module Configure {
  import opened Results
  import opened Errors

  /** The transport switches of the client configuration. */
  datatype Transports = Transports(disableTCP: bool, disableUTP: bool)

  /** The client-configuration fields `Open` decides. `dataDir` is the
      directory file storage is rooted at. */
  datatype ClientConfig = ClientConfig(
    debug: bool,
    dataDir: string,
    listenPort: int,
    establishedConnsPerTorrent: int,
    noDHT: bool,
    noDefaultPortForwarding: bool,
    transports: Transports)

  /** The gateway's own settings, as given to NewGateway. */
  datatype Options = Options(
    storage: string,
    debug: bool,
    maxPeers: int,
    dht: bool,
    upnp: bool,
    protocols: seq<string>,
    downloadDir: string)

  /** What `Open` did: the directory it asked to create (if any), the
      configuration it handed to the client constructor (if it got that
      far) and the error it returned. */
  datatype Opening = Opening(
    mkdir: Option<string>,
    config: Option<ClientConfig>,
    result: Option<Error>)

  /** One iteration of the protocol switch: "tcp" and "utp" enable their
      transport, anything else is skipped. */
  function Enable(t: Transports, protocol: string): Transports
  {
    match protocol
    case "tcp" => t.(disableTCP := false)
    case "utp" => t.(disableUTP := false)
    case _ => t
  }

  /** The loop over the protocol list, in order. */
  function EnableAll(t: Transports, protocols: seq<string>): Transports
    decreases |protocols|
  {
    if protocols == [] then t else EnableAll(Enable(t, protocols[0]), protocols[1..])
  }

  /** The transport flags `Open` sets: the defaults for an empty list;
      otherwise start from both disabled, enable what the list names, and
      enable both when nothing was recognised. */
  function ResolveTransports(protocols: seq<string>, defaults: Transports): (r: Transports)
    ensures |protocols| == 0 ==> r == defaults
    ensures |protocols| > 0 ==> !(r.disableTCP && r.disableUTP)
  {
    if |protocols| > 0 then
      var t := EnableAll(Transports(true, true), protocols);
      if t.disableTCP && t.disableUTP then Transports(false, false) else t
    else
      defaults
  }

  /** The loop disables a transport exactly when it started disabled and
      the list never names it. */
  lemma {:induction false} EnableAllNames(t: Transports, protocols: seq<string>)
    ensures EnableAll(t, protocols).disableTCP == (t.disableTCP && "tcp" !in protocols)
    ensures EnableAll(t, protocols).disableUTP == (t.disableUTP && "utp" !in protocols)
    decreases |protocols|
  {
    if protocols != [] {
      EnableAllNames(Enable(t, protocols[0]), protocols[1..]);
      assert protocols == [protocols[0]] + protocols[1..];
    }
  }

  /** Whether the list names a supported protocol. */
  predicate Recognised(protocols: seq<string>)
  {
    "tcp" in protocols || "utp" in protocols
  }

  /** Reference description of the transport flags, by membership alone. */
  function ExpectedTransports(protocols: seq<string>, defaults: Transports): Transports
  {
    if protocols == [] then defaults
    else Transports(
      !("tcp" in protocols || !Recognised(protocols)),
      !("utp" in protocols || !Recognised(protocols)))
  }

  /** For a non-empty list, TCP is enabled iff "tcp" is listed or nothing is
      recognised, and likewise uTP with "utp". */
  lemma ResolveTransportsExpected(protocols: seq<string>, defaults: Transports)
    ensures ResolveTransports(protocols, defaults) == ExpectedTransports(protocols, defaults)
  {
    EnableAllNames(Transports(true, true), protocols);
  }

  /** Order and repetition in the list do not matter: two lists naming the
      same protocols give the same flags. */
  lemma ResolveTransportsByMembership(ps: seq<string>, qs: seq<string>, defaults: Transports)
    requires forall p :: p in ps <==> p in qs
    ensures ResolveTransports(ps, defaults) == ResolveTransports(qs, defaults)
  {
    ResolveTransportsExpected(ps, defaults);
    ResolveTransportsExpected(qs, defaults);
    if ps != [] {
      assert ps[0] in qs;
    }
    if qs != [] {
      assert qs[0] in ps;
    }
  }

  /** The directory downloads are stored in: the download directory when
      one is set, the storage directory otherwise. */
  function DownloadBaseDir(o: Options): string
  {
    if o.downloadDir == "" then o.storage else o.downloadDir
  }

  /** Gateway.Open up to the client constructor. `defaults` is the engine's
      default configuration, `port` the free port found for it, `mkdirErr`
      what creating the download directory would return and `clientErr`
      what constructing the client would return. */
  function Open(o: Options, defaults: ClientConfig, port: int, mkdirErr: Option<Error>, clientErr: Option<Error>): (r: Opening)
    ensures r.mkdir == (if o.downloadDir == "" then None else Some(o.downloadDir))
    ensures r.config.None? <==> o.downloadDir != "" && mkdirErr.Some?
    ensures r.config.None? ==> r.result == mkdirErr
    ensures r.config.Some? ==> r.result == clientErr
    ensures r.config.Some? ==>
      var c := r.config.value;
      && c.debug == o.debug
      && c.listenPort == port
      && c.dataDir == (if o.downloadDir != "" then o.downloadDir else o.storage)
      && c.establishedConnsPerTorrent == (if o.maxPeers > 0 then o.maxPeers else defaults.establishedConnsPerTorrent)
      && c.noDHT == !o.dht
      && c.noDefaultPortForwarding == !o.upnp
      && c.transports == ExpectedTransports(o.protocols, defaults.transports)
      && (o.protocols != [] ==> !(c.transports.disableTCP && c.transports.disableUTP))
  {
    var mkdir := if o.downloadDir == "" then None else Some(o.downloadDir);
    if o.downloadDir != "" && mkdirErr.Some? then
      Opening(mkdir, None, mkdirErr)
    else
      ResolveTransportsExpected(o.protocols, defaults.transports);
      var config := ClientConfig(
        o.debug,
        DownloadBaseDir(o),
        port,
        if o.maxPeers > 0 then o.maxPeers else defaults.establishedConnsPerTorrent,
        !o.dht,
        !o.upnp,
        ResolveTransports(o.protocols, defaults.transports));
      Opening(mkdir, Some(config), clientErr)
  }
}
