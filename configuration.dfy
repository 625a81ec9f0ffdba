/**
 * The proxy configuration record, its assembly from the option values, and
 * the external key each field is written under.
 */
module Configuration {
  import opened Wrappers
  import opened AssocLists
  import Strings
  import ServerList
  import ForcedHosts
  import opened Cli

  datatype Advanced = Advanced(
    compressionThreshold: Int32,
    compressionLevel: Int32,
    loginRateLimit: Int32,
    connectionTimeout: Int32,
    readTimeout: Int32,
    haproxyProtocol: bool,
    tcpFastOpen: bool,
    bungeePluginMessageChannel: bool,
    showPingRequests: bool,
    failoverOnUnexpectedServerDisconnect: bool,
    announceProxyCommands: bool,
    logCommandExecutions: bool
  )

  /** `map` is a keyword here; the field is `mapName`. */
  datatype Query = Query(enabled: bool, port: Int32, mapName: string, showPlugins: bool)

  datatype VelocityConfiguration = VelocityConfiguration(
    configVersion: string,
    bind: string,
    motd: string,
    showMaxPlayers: Int32,
    onlineMode: bool,
    preventClientProxyConnections: bool,
    playerInfoForwardingMode: string,
    forwardingSecret: string,
    announceForge: bool,
    kickExistingPlayers: bool,
    pingPassthrough: string,
    servers: AssocList<string, string>,
    tryServers: seq<string>,
    forcedHosts: ForcedHosts.ForcedHostMap,
    advanced: Advanced,
    query: Query
  )

  const ConfigVersion: string := "2.5"

  /** The `try` list: the option split on every `,`, empty pieces kept. */
  function TryOrder(s: string): (order: seq<string>)
    ensures |order| == Strings.Count(s, ',') + 1
    ensures Strings.Join(order, ',') == s
  {
    Strings.SplitLength(s, ',');
    Strings.JoinSplit(s, ',');
    Strings.Split(s, ',')
  }

  /** Every list of names free of `,`, empty ones included, is exactly what its `,`-join splits back to. */
  lemma TryOrderRoundTrip(names: seq<string>)
    requires |names| >= 1 && forall k :: 0 <= k < |names| ==> ',' !in names[k]
    ensures TryOrder(Strings.Join(names, ',')) == names
  {
    Strings.SplitJoin(names, ',');
  }

  /**
   * The record built from the option values: fixed version, the options as
   * given, the two parsed maps and the split `try` list. Parsing the forced
   * hosts is the one step that can fail.
   */
  function Assemble(f: Flags): (r: Result<VelocityConfiguration, ForcedHosts.ForcedHostsError>)
    ensures r.Failure? <==> ForcedHosts.ParseForcedHosts(f.forcedHosts).Failure?
    ensures r.Failure? ==> r.error == ForcedHosts.ParseForcedHosts(f.forcedHosts).error
    ensures r.Success? ==>
      && r.value.configVersion == ConfigVersion
      && r.value.servers == ServerList.ParseServers(f.servers)
      && r.value.tryServers == TryOrder(f.tryServers)
      && r.value.forcedHosts == ForcedHosts.ParseForcedHosts(f.forcedHosts).value
  {
    match ForcedHosts.ParseForcedHosts(f.forcedHosts)
    case Failure(e) => Failure(e)
    case Success(forcedHosts) =>
      Success(VelocityConfiguration(
        configVersion := ConfigVersion,
        bind := f.bind,
        motd := f.motd,
        showMaxPlayers := f.showMaxPlayers,
        onlineMode := f.onlineMode,
        preventClientProxyConnections := f.preventClientProxyConnections,
        playerInfoForwardingMode := f.playerInfoForwardingMode,
        forwardingSecret := f.forwardingSecret,
        announceForge := f.announceForge,
        kickExistingPlayers := f.kickExistingPlayers,
        pingPassthrough := f.pingPassthrough,
        servers := ServerList.ParseServers(f.servers),
        tryServers := TryOrder(f.tryServers),
        forcedHosts := forcedHosts,
        advanced := Advanced(
          compressionThreshold := f.compressionThreshold,
          compressionLevel := f.compressionLevel,
          loginRateLimit := f.loginRateLimit,
          connectionTimeout := f.connectionTimeout,
          readTimeout := f.readTimeout,
          haproxyProtocol := f.haproxyProtocol,
          tcpFastOpen := f.tcpFastOpen,
          bungeePluginMessageChannel := f.bungeePluginMessageChannel,
          showPingRequests := f.showPingRequests,
          failoverOnUnexpectedServerDisconnect := f.failoverOnUnexpectedServerDisconnect,
          announceProxyCommands := f.announceProxyCommands,
          logCommandExecutions := f.logCommandExecutions
        ),
        query := Query(
          enabled := f.queryEnabled,
          port := f.queryPort,
          mapName := f.queryMap,
          showPlugins := f.queryShowPlugins
        )
      ))
  }

  // ---------------------------------------------------------------------------
  // External keys.

  /** A value as the serializer sees it: text, number, flag, list of text, or a table. */
  datatype Value =
    | Text(text: string)
    | Number(number: Int32)
    | Flag(flag: bool)
    | TextList(items: seq<string>)
    | Table(entries: seq<(string, Value)>)

  /** The keys of the top-level record, in declaration order. */
  const ConfigKeys: seq<string> := [
    "config-version", "bind", "motd", "show-max-players", "online-mode",
    "prevent-client-proxy-connections", "player-info-forwarding-mode",
    "forwarding-secret", "announce-forge", "kick-existing-players",
    "ping-passthrough", "servers", "try", "forced-hosts", "advanced", "query"
  ]

  /** The keys of the `advanced` table, in declaration order. */
  const AdvancedKeys: seq<string> := [
    "compression-threshold", "compression-level", "login-ratelimit",
    "connection-timeout", "read-timeout", "haproxy-protocol", "tcp-fast-open",
    "bungee-plugin-message-channel", "show-ping-requests",
    "failover-on-unexpected-server-disconnect", "announce-proxy-commands",
    "log-command-executions"
  ]

  /** The keys of the `query` table, in declaration order. */
  const QueryKeys: seq<string> := ["enabled", "port", "map", "show-plugins"]

  ghost predicate Distinct(ks: seq<string>) {
    forall i, j :: 0 <= i < j < |ks| ==> ks[i] != ks[j]
  }

  /** No two fields of the top-level record share a key. */
  lemma ConfigKeysDistinct()
    ensures |ConfigKeys| == 16 && Distinct(ConfigKeys)
  {
    // Keys of equal length differ in their first character.
    assert ConfigKeys[1][0] != ConfigKeys[2][0];
    assert ConfigKeys[0][0] != ConfigKeys[8][0];
    assert ConfigKeys[3][0] != ConfigKeys[10][0];
  }

  /** No two fields of `advanced` share a key. */
  lemma AdvancedKeysDistinct()
    ensures |AdvancedKeys| == 12 && Distinct(AdvancedKeys)
  {
    assert AdvancedKeys[3][0] != AdvancedKeys[8][0];
  }

  /** No two fields of `query` share a key. */
  lemma QueryKeysDistinct()
    ensures |QueryKeys| == 4 && Distinct(QueryKeys)
  {
  }

  /** The `advanced` table: each field under its key, in declaration order. */
  function EncodeAdvanced(a: Advanced): (t: seq<(string, Value)>)
    ensures Keys(t) == AdvancedKeys
  {
    [
      ("compression-threshold", Number(a.compressionThreshold)),
      ("compression-level", Number(a.compressionLevel)),
      ("login-ratelimit", Number(a.loginRateLimit)),
      ("connection-timeout", Number(a.connectionTimeout)),
      ("read-timeout", Number(a.readTimeout)),
      ("haproxy-protocol", Flag(a.haproxyProtocol)),
      ("tcp-fast-open", Flag(a.tcpFastOpen)),
      ("bungee-plugin-message-channel", Flag(a.bungeePluginMessageChannel)),
      ("show-ping-requests", Flag(a.showPingRequests)),
      ("failover-on-unexpected-server-disconnect", Flag(a.failoverOnUnexpectedServerDisconnect)),
      ("announce-proxy-commands", Flag(a.announceProxyCommands)),
      ("log-command-executions", Flag(a.logCommandExecutions))
    ]
  }

  /** The `query` table: each field under its key, in declaration order. */
  function EncodeQuery(q: Query): (t: seq<(string, Value)>)
    ensures Keys(t) == QueryKeys
  {
    [
      ("enabled", Flag(q.enabled)),
      ("port", Number(q.port)),
      ("map", Text(q.mapName)),
      ("show-plugins", Flag(q.showPlugins))
    ]
  }

  /** A map of text values as a table, in map order. */
  function EncodeServers(m: AssocList<string, string>): (t: seq<(string, Value)>)
    ensures Keys(t) == Keys(m)
  {
    seq(|m|, i requires 0 <= i < |m| => (m[i].0, Text(m[i].1)))
  }

  /** A map of text lists as a table, in map order. */
  function EncodeForcedHosts(m: ForcedHosts.ForcedHostMap): (t: seq<(string, Value)>)
    ensures Keys(t) == Keys(m)
  {
    seq(|m|, i requires 0 <= i < |m| => (m[i].0, TextList(m[i].1)))
  }

  /** The whole record: each field under its key, in declaration order. */
  function Encode(c: VelocityConfiguration): (t: seq<(string, Value)>)
    ensures Keys(t) == ConfigKeys
  {
    [
      ("config-version", Text(c.configVersion)),
      ("bind", Text(c.bind)),
      ("motd", Text(c.motd)),
      ("show-max-players", Number(c.showMaxPlayers)),
      ("online-mode", Flag(c.onlineMode)),
      ("prevent-client-proxy-connections", Flag(c.preventClientProxyConnections)),
      ("player-info-forwarding-mode", Text(c.playerInfoForwardingMode)),
      ("forwarding-secret", Text(c.forwardingSecret)),
      ("announce-forge", Flag(c.announceForge)),
      ("kick-existing-players", Flag(c.kickExistingPlayers)),
      ("ping-passthrough", Text(c.pingPassthrough)),
      ("servers", Table(EncodeServers(c.servers))),
      ("try", TextList(c.tryServers)),
      ("forced-hosts", Table(EncodeForcedHosts(c.forcedHosts))),
      ("advanced", Table(EncodeAdvanced(c.advanced))),
      ("query", Table(EncodeQuery(c.query)))
    ]
  }

  lemma EncodeServersInjective(m1: AssocList<string, string>, m2: AssocList<string, string>)
    requires EncodeServers(m1) == EncodeServers(m2)
    ensures m1 == m2
  {
    assert |m1| == |m2|;
    forall i | 0 <= i < |m1| ensures m1[i] == m2[i] {
      assert EncodeServers(m1)[i] == EncodeServers(m2)[i];
    }
  }

  lemma EncodeForcedHostsInjective(m1: ForcedHosts.ForcedHostMap, m2: ForcedHosts.ForcedHostMap)
    requires EncodeForcedHosts(m1) == EncodeForcedHosts(m2)
    ensures m1 == m2
  {
    assert |m1| == |m2|;
    forall i | 0 <= i < |m1| ensures m1[i] == m2[i] {
      assert EncodeForcedHosts(m1)[i] == EncodeForcedHosts(m2)[i];
    }
  }

  /** Nothing is lost in the encoding: two records that encode alike are the same record. */
  lemma EncodeInjective(c1: VelocityConfiguration, c2: VelocityConfiguration)
    requires Encode(c1) == Encode(c2)
    ensures c1 == c2
  {
    var t1, t2 := Encode(c1), Encode(c2);
    assert t1[11] == t2[11] && t1[13] == t2[13] && t1[14] == t2[14] && t1[15] == t2[15];
    EncodeServersInjective(c1.servers, c2.servers);
    EncodeForcedHostsInjective(c1.forcedHosts, c2.forcedHosts);
    assert EncodeAdvanced(c1.advanced)[..] == EncodeAdvanced(c2.advanced);
    assert EncodeQuery(c1.query) == EncodeQuery(c2.query);
  }

  // ---------------------------------------------------------------------------
  // Which value each key holds.

  /** The value at a dotted key path, such as `advanced.read-timeout`. */
  function Get(t: seq<(string, Value)>, path: seq<string>): Option<Value>
    requires |path| >= 1
    decreases |path|
  {
    match Lookup(t, path[0])
    case None => None
    case Some(v) =>
      if |path| == 1 then Some(v)
      else if v.Table? then Get(v.entries, path[1..])
      else None
  }

  /** In a table whose keys are pairwise distinct, key `i` looks up to entry `i`'s value. */
  lemma LookupKeyed<V>(t: seq<(string, V)>, ks: seq<string>, i: nat)
    requires Keys(t) == ks && Distinct(ks) && i < |ks|
    ensures Lookup(t, ks[i]) == Some(t[i].1)
  {
    forall j, k | 0 <= j < k < |t| ensures t[j].0 != t[k].0 {
      assert Keys(t)[j] == t[j].0 && Keys(t)[k] == t[k].0;
    }
    LookupEntry(t, i);
  }

  /** Each server name of the `servers` table holds that server's address from the map. */
  lemma EncodeServersLookup(m: AssocList<string, string>, k: string)
    ensures Lookup(EncodeServers(m), k) == if Lookup(m, k).Some? then Some(Text(Lookup(m, k).value)) else None
  {
    LookupFirst(EncodeServers(m), k);
    LookupFirst(m, k);
  }

  /** Each host of the `forced-hosts` table holds that host's server list from the map. */
  lemma EncodeForcedHostsLookup(m: ForcedHosts.ForcedHostMap, k: string)
    ensures Lookup(EncodeForcedHosts(m), k) == if Lookup(m, k).Some? then Some(TextList(Lookup(m, k).value)) else None
  {
    LookupFirst(EncodeForcedHosts(m), k);
    LookupFirst(m, k);
  }

  /** Each key of the record holds its own field. */
  lemma EncodeLookup(c: VelocityConfiguration)
    ensures Lookup(Encode(c), "config-version") == Some(Text(c.configVersion))
    ensures Lookup(Encode(c), "bind") == Some(Text(c.bind))
    ensures Lookup(Encode(c), "motd") == Some(Text(c.motd))
    ensures Lookup(Encode(c), "show-max-players") == Some(Number(c.showMaxPlayers))
    ensures Lookup(Encode(c), "online-mode") == Some(Flag(c.onlineMode))
    ensures Lookup(Encode(c), "prevent-client-proxy-connections") == Some(Flag(c.preventClientProxyConnections))
    ensures Lookup(Encode(c), "player-info-forwarding-mode") == Some(Text(c.playerInfoForwardingMode))
    ensures Lookup(Encode(c), "forwarding-secret") == Some(Text(c.forwardingSecret))
    ensures Lookup(Encode(c), "announce-forge") == Some(Flag(c.announceForge))
    ensures Lookup(Encode(c), "kick-existing-players") == Some(Flag(c.kickExistingPlayers))
    ensures Lookup(Encode(c), "ping-passthrough") == Some(Text(c.pingPassthrough))
    ensures Lookup(Encode(c), "servers") == Some(Table(EncodeServers(c.servers)))
    ensures Lookup(Encode(c), "try") == Some(TextList(c.tryServers))
    ensures Lookup(Encode(c), "forced-hosts") == Some(Table(EncodeForcedHosts(c.forcedHosts)))
    ensures Lookup(Encode(c), "advanced") == Some(Table(EncodeAdvanced(c.advanced)))
    ensures Lookup(Encode(c), "query") == Some(Table(EncodeQuery(c.query)))
  {
    var t := Encode(c);
    ConfigKeysDistinct();
    LookupKeyed(t, ConfigKeys, 0);
    LookupKeyed(t, ConfigKeys, 1);
    LookupKeyed(t, ConfigKeys, 2);
    LookupKeyed(t, ConfigKeys, 3);
    LookupKeyed(t, ConfigKeys, 4);
    LookupKeyed(t, ConfigKeys, 5);
    LookupKeyed(t, ConfigKeys, 6);
    LookupKeyed(t, ConfigKeys, 7);
    LookupKeyed(t, ConfigKeys, 8);
    LookupKeyed(t, ConfigKeys, 9);
    LookupKeyed(t, ConfigKeys, 10);
    LookupKeyed(t, ConfigKeys, 11);
    LookupKeyed(t, ConfigKeys, 12);
    LookupKeyed(t, ConfigKeys, 13);
    LookupKeyed(t, ConfigKeys, 14);
    LookupKeyed(t, ConfigKeys, 15);
  }

  /** Each key of `advanced` holds its own field. */
  lemma EncodeAdvancedLookup(a: Advanced)
    ensures Lookup(EncodeAdvanced(a), "compression-threshold") == Some(Number(a.compressionThreshold))
    ensures Lookup(EncodeAdvanced(a), "compression-level") == Some(Number(a.compressionLevel))
    ensures Lookup(EncodeAdvanced(a), "login-ratelimit") == Some(Number(a.loginRateLimit))
    ensures Lookup(EncodeAdvanced(a), "connection-timeout") == Some(Number(a.connectionTimeout))
    ensures Lookup(EncodeAdvanced(a), "read-timeout") == Some(Number(a.readTimeout))
    ensures Lookup(EncodeAdvanced(a), "haproxy-protocol") == Some(Flag(a.haproxyProtocol))
    ensures Lookup(EncodeAdvanced(a), "tcp-fast-open") == Some(Flag(a.tcpFastOpen))
    ensures Lookup(EncodeAdvanced(a), "bungee-plugin-message-channel") == Some(Flag(a.bungeePluginMessageChannel))
    ensures Lookup(EncodeAdvanced(a), "show-ping-requests") == Some(Flag(a.showPingRequests))
    ensures Lookup(EncodeAdvanced(a), "failover-on-unexpected-server-disconnect") == Some(Flag(a.failoverOnUnexpectedServerDisconnect))
    ensures Lookup(EncodeAdvanced(a), "announce-proxy-commands") == Some(Flag(a.announceProxyCommands))
    ensures Lookup(EncodeAdvanced(a), "log-command-executions") == Some(Flag(a.logCommandExecutions))
  {
    var t := EncodeAdvanced(a);
    AdvancedKeysDistinct();
    LookupKeyed(t, AdvancedKeys, 0);
    LookupKeyed(t, AdvancedKeys, 1);
    LookupKeyed(t, AdvancedKeys, 2);
    LookupKeyed(t, AdvancedKeys, 3);
    LookupKeyed(t, AdvancedKeys, 4);
    LookupKeyed(t, AdvancedKeys, 5);
    LookupKeyed(t, AdvancedKeys, 6);
    LookupKeyed(t, AdvancedKeys, 7);
    LookupKeyed(t, AdvancedKeys, 8);
    LookupKeyed(t, AdvancedKeys, 9);
    LookupKeyed(t, AdvancedKeys, 10);
    LookupKeyed(t, AdvancedKeys, 11);
  }

  /** Each key of `query` holds its own field. */
  lemma EncodeQueryLookup(q: Query)
    ensures Lookup(EncodeQuery(q), "enabled") == Some(Flag(q.enabled))
    ensures Lookup(EncodeQuery(q), "port") == Some(Number(q.port))
    ensures Lookup(EncodeQuery(q), "map") == Some(Text(q.mapName))
    ensures Lookup(EncodeQuery(q), "show-plugins") == Some(Flag(q.showPlugins))
  {
    var t := EncodeQuery(q);
    QueryKeysDistinct();
    LookupKeyed(t, QueryKeys, 0);
    LookupKeyed(t, QueryKeys, 1);
    LookupKeyed(t, QueryKeys, 2);
    LookupKeyed(t, QueryKeys, 3);
  }

  /** Every top-level key of the assembled record holds the value of its option. */
  lemma AssembleEncoded(f: Flags)
    requires Assemble(f).Success?
    ensures Get(Encode(Assemble(f).value), ["config-version"]) == Some(Text("2.5"))
    ensures Get(Encode(Assemble(f).value), ["bind"]) == Some(Text(f.bind))
    ensures Get(Encode(Assemble(f).value), ["motd"]) == Some(Text(f.motd))
    ensures Get(Encode(Assemble(f).value), ["show-max-players"]) == Some(Number(f.showMaxPlayers))
    ensures Get(Encode(Assemble(f).value), ["online-mode"]) == Some(Flag(f.onlineMode))
    ensures Get(Encode(Assemble(f).value), ["prevent-client-proxy-connections"]) == Some(Flag(f.preventClientProxyConnections))
    ensures Get(Encode(Assemble(f).value), ["player-info-forwarding-mode"]) == Some(Text(f.playerInfoForwardingMode))
    ensures Get(Encode(Assemble(f).value), ["forwarding-secret"]) == Some(Text(f.forwardingSecret))
    ensures Get(Encode(Assemble(f).value), ["announce-forge"]) == Some(Flag(f.announceForge))
    ensures Get(Encode(Assemble(f).value), ["kick-existing-players"]) == Some(Flag(f.kickExistingPlayers))
    ensures Get(Encode(Assemble(f).value), ["ping-passthrough"]) == Some(Text(f.pingPassthrough))
    ensures Get(Encode(Assemble(f).value), ["servers"]) == Some(Table(EncodeServers(ServerList.ParseServers(f.servers))))
    ensures Get(Encode(Assemble(f).value), ["try"]) == Some(TextList(TryOrder(f.tryServers)))
    ensures Get(Encode(Assemble(f).value), ["forced-hosts"])
         == Some(Table(EncodeForcedHosts(ForcedHosts.ParseForcedHosts(f.forcedHosts).value)))
  {
    EncodeLookup(Assemble(f).value);
  }

  /** Every number of the assembled `advanced` table holds the value of its option. */
  lemma AssembleEncodedAdvanced(f: Flags)
    requires Assemble(f).Success?
    ensures Get(Encode(Assemble(f).value), ["advanced", "compression-threshold"]) == Some(Number(f.compressionThreshold))
    ensures Get(Encode(Assemble(f).value), ["advanced", "compression-level"]) == Some(Number(f.compressionLevel))
    ensures Get(Encode(Assemble(f).value), ["advanced", "login-ratelimit"]) == Some(Number(f.loginRateLimit))
    ensures Get(Encode(Assemble(f).value), ["advanced", "connection-timeout"]) == Some(Number(f.connectionTimeout))
    ensures Get(Encode(Assemble(f).value), ["advanced", "read-timeout"]) == Some(Number(f.readTimeout))
  {
    var c := Assemble(f).value;
    ConfigKeysDistinct();
    LookupKeyed(Encode(c), ConfigKeys, 14);
    EncodeAdvancedLookup(c.advanced);
  }

  /** Every switch of the assembled `advanced` table holds the value of its option. */
  lemma AssembleEncodedAdvancedFlags(f: Flags)
    requires Assemble(f).Success?
    ensures Get(Encode(Assemble(f).value), ["advanced", "haproxy-protocol"]) == Some(Flag(f.haproxyProtocol))
    ensures Get(Encode(Assemble(f).value), ["advanced", "tcp-fast-open"]) == Some(Flag(f.tcpFastOpen))
    ensures Get(Encode(Assemble(f).value), ["advanced", "bungee-plugin-message-channel"]) == Some(Flag(f.bungeePluginMessageChannel))
    ensures Get(Encode(Assemble(f).value), ["advanced", "show-ping-requests"]) == Some(Flag(f.showPingRequests))
    ensures Get(Encode(Assemble(f).value), ["advanced", "failover-on-unexpected-server-disconnect"])
         == Some(Flag(f.failoverOnUnexpectedServerDisconnect))
    ensures Get(Encode(Assemble(f).value), ["advanced", "announce-proxy-commands"]) == Some(Flag(f.announceProxyCommands))
    ensures Get(Encode(Assemble(f).value), ["advanced", "log-command-executions"]) == Some(Flag(f.logCommandExecutions))
  {
    var c := Assemble(f).value;
    ConfigKeysDistinct();
    LookupKeyed(Encode(c), ConfigKeys, 14);
    EncodeAdvancedLookup(c.advanced);
  }

  /** Every key of the assembled `query` table holds the value of its option. */
  lemma AssembleEncodedQuery(f: Flags)
    requires Assemble(f).Success?
    ensures Get(Encode(Assemble(f).value), ["query", "enabled"]) == Some(Flag(f.queryEnabled))
    ensures Get(Encode(Assemble(f).value), ["query", "port"]) == Some(Number(f.queryPort))
    ensures Get(Encode(Assemble(f).value), ["query", "map"]) == Some(Text(f.queryMap))
    ensures Get(Encode(Assemble(f).value), ["query", "show-plugins"]) == Some(Flag(f.queryShowPlugins))
  {
    var c := Assemble(f).value;
    ConfigKeysDistinct();
    LookupKeyed(Encode(c), ConfigKeys, 15);
    EncodeQueryLookup(c.query);
  }

  // ---------------------------------------------------------------------------
  // The configuration written when no option is given.

  /** The default server list, as entries. */
  const DefaultServerEntries: seq<ServerList.ServerEntry> := [
    ServerList.ServerEntry("lobby", "127.0.0.1", "25566"),
    ServerList.ServerEntry("factions", "127.0.0.1", "25577")
  ]

  /*
   * The default texts are checked one literal step per lemma: string literals
   * are costly for the solver, and a single proof of the whole chain exceeds
   * its budget.
   */

  /** The default `--servers` text is the rendering of the default entries. */
  lemma DefaultServersText()
    ensures ServerList.Render(DefaultServerEntries) == Defaults.servers
  {
    var es := DefaultServerEntries;
    assert ServerList.Render(es) == ServerList.Segment(es[0]) + ("," + ServerList.Segment(es[1])) by {
      assert es[1..][1..] == [];
    }
    DefaultSegments();
    DefaultServersLiteral();
  }

  lemma DefaultSegments()
    ensures ServerList.Segment(DefaultServerEntries[0]) == "lobby=127.0.0.1:25566"
    ensures ServerList.Segment(DefaultServerEntries[1]) == "factions=127.0.0.1:25577"
  {
    DefaultAddresses();
  }

  lemma DefaultAddresses()
    ensures ServerList.Address(DefaultServerEntries[0]) == "127.0.0.1:25566"
    ensures ServerList.Address(DefaultServerEntries[1]) == "127.0.0.1:25577"
  {
  }

  lemma DefaultServersLiteral()
    ensures "lobby=127.0.0.1:25566" + ("," + "factions=127.0.0.1:25577") == Defaults.servers
  {
    var text := "lobby=127.0.0.1:25566,factions=127.0.0.1:25577";
    DefaultServersConst();
    DefaultServersConcat();
    assert Defaults.servers == text;
  }

  lemma DefaultServersConst()
    ensures Defaults.servers == "lobby=127.0.0.1:25566,factions=127.0.0.1:25577"
  {
  }

  lemma DefaultServersConcat()
    ensures "lobby=127.0.0.1:25566" + ("," + "factions=127.0.0.1:25577") == "lobby=127.0.0.1:25566,factions=127.0.0.1:25577"
  {
    FactionsSegmentConcat();
    LobbySegmentConcat();
  }

  lemma FactionsSegmentConcat()
    ensures "," + "factions=127.0.0.1:25577" == ",factions=127.0.0.1:25577"
  {
  }

  lemma LobbySegmentConcat()
    ensures "lobby=127.0.0.1:25566" + ",factions=127.0.0.1:25577" == "lobby=127.0.0.1:25566,factions=127.0.0.1:25577"
  {
  }

  lemma DefaultServerEntriesWellFormed()
    ensures forall i :: 0 <= i < |DefaultServerEntries| ==> ServerList.WellFormedEntry(DefaultServerEntries[i])
  {
    LobbyEntryWellFormed();
    FactionsEntryWellFormed();
  }

  lemma LobbyEntryWellFormed()
    ensures ServerList.WellFormedEntry(DefaultServerEntries[0])
  {
  }

  lemma FactionsEntryWellFormed()
    ensures ServerList.WellFormedEntry(DefaultServerEntries[1])
  {
  }

  lemma DefaultPairs()
    ensures ServerList.Pairs(DefaultServerEntries) == [("lobby", "127.0.0.1:25566"), ("factions", "127.0.0.1:25577")]
    ensures Associate(ServerList.Pairs(DefaultServerEntries)) == ServerList.Pairs(DefaultServerEntries)
  {
    DefaultAddresses();
    AssociateDistinct(ServerList.Pairs(DefaultServerEntries));
  }

  lemma DefaultServers()
    ensures ServerList.ParseServers(Defaults.servers) == [("lobby", "127.0.0.1:25566"), ("factions", "127.0.0.1:25577")]
  {
    var es := DefaultServerEntries;
    DefaultServerEntriesWellFormed();
    DefaultServersText();
    ServerList.ParseServersRendered(es);
    DefaultPairs();
  }

  /** The default forced hosts, as entries. */
  const DefaultForcedHostEntries: seq<(string, seq<string>)> := [("lobby.example.com", ["lobby"])]

  lemma DefaultForcedHostsText()
    ensures ForcedHosts.Render(DefaultForcedHostEntries) == Defaults.forcedHosts
  {
    var es := DefaultForcedHostEntries;
    assert ForcedHosts.RenderSegments(es) == [ForcedHosts.RenderEntry(es[0])];
    assert Strings.Join(["lobby"], '+') == "lobby";
    DefaultForcedHostsConcat();
  }

  lemma DefaultForcedHostsConcat()
    ensures "lobby.example.com" + "=" + "lobby" == Defaults.forcedHosts
  {
  }

  lemma DefaultForcedHostEntriesWellFormed()
    ensures forall i :: 0 <= i < |DefaultForcedHostEntries| ==> ForcedHosts.WellFormedEntry(DefaultForcedHostEntries[i])
  {
    assert ForcedHosts.WellFormedEntry(DefaultForcedHostEntries[0]);
  }

  lemma DefaultForcedHosts()
    ensures ForcedHosts.ParseForcedHosts(Defaults.forcedHosts) == Success([("lobby.example.com", ["lobby"])])
  {
    var es := DefaultForcedHostEntries;
    DefaultForcedHostEntriesWellFormed();
    DefaultForcedHostsText();
    ForcedHosts.ParseForcedHostsRendered(es);
    AssociateDistinct(es);
  }

  lemma DefaultTry()
    ensures TryOrder(Defaults.tryServers) == ["lobby"]
  {
    assert ',' !in Defaults.tryServers;
  }

  /** With every option at its default, the assembled record is exactly this one. */
  lemma DefaultConfiguration()
    ensures Assemble(Defaults) == Success(VelocityConfiguration(
      configVersion := "2.5",
      bind := "0.0.0.0:25577",
      motd := "&#09add3A Velocity Server",
      showMaxPlayers := 500,
      onlineMode := true,
      preventClientProxyConnections := false,
      playerInfoForwardingMode := "none",
      forwardingSecret := "",
      announceForge := false,
      kickExistingPlayers := false,
      pingPassthrough := "DISABLED",
      servers := [("lobby", "127.0.0.1:25566"), ("factions", "127.0.0.1:25577")],
      tryServers := ["lobby"],
      forcedHosts := [("lobby.example.com", ["lobby"])],
      advanced := Advanced(256, 6, 3000, 5000, 30000, false, false, true, false, true, true, false),
      query := Query(enabled := true, port := 25577, mapName := "Velocity", showPlugins := false)
    ))
  {
    DefaultServers();
    DefaultForcedHosts();
    DefaultTry();
  }

  /** The default maps give each default name its default value. */
  lemma DefaultMapLookups()
    ensures Lookup([("lobby", "127.0.0.1:25566"), ("factions", "127.0.0.1:25577")], "lobby") == Some("127.0.0.1:25566")
    ensures Lookup([("lobby", "127.0.0.1:25566"), ("factions", "127.0.0.1:25577")], "factions") == Some("127.0.0.1:25577")
    ensures Lookup([("lobby.example.com", ["lobby"])], "lobby.example.com") == Some(["lobby"])
  {
  }

  /** A record with the default servers and forced hosts holds each under its name in the tree. */
  lemma DefaultTables(c: VelocityConfiguration)
    requires c.servers == [("lobby", "127.0.0.1:25566"), ("factions", "127.0.0.1:25577")]
    requires c.forcedHosts == [("lobby.example.com", ["lobby"])]
    ensures Get(Encode(c), ["servers", "lobby"]) == Some(Text("127.0.0.1:25566"))
    ensures Get(Encode(c), ["servers", "factions"]) == Some(Text("127.0.0.1:25577"))
    ensures Get(Encode(c), ["forced-hosts", "lobby.example.com"]) == Some(TextList(["lobby"]))
  {
    DefaultMapLookups();
    ConfigKeysDistinct();
    LookupKeyed(Encode(c), ConfigKeys, 11);
    LookupKeyed(Encode(c), ConfigKeys, 13);
    EncodeServersLookup(c.servers, "lobby");
    EncodeServersLookup(c.servers, "factions");
    EncodeForcedHostsLookup(c.forcedHosts, "lobby.example.com");
  }

  /** In the default tree, each default server and forced host holds its default value. */
  lemma DefaultTree(c: VelocityConfiguration)
    requires Assemble(Defaults) == Success(c)
    ensures Get(Encode(c), ["servers", "lobby"]) == Some(Text("127.0.0.1:25566"))
    ensures Get(Encode(c), ["servers", "factions"]) == Some(Text("127.0.0.1:25577"))
    ensures Get(Encode(c), ["forced-hosts", "lobby.example.com"]) == Some(TextList(["lobby"]))
  {
    DefaultConfiguration();
    DefaultTables(c);
  }

}
