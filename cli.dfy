/**
 * The command-line side of the builder: the conversion behind the boolean
 * options, and the value every option takes when it is not given.
 */
module Cli {
  import opened Wrappers

  /** Kotlin's `Int`: a 32-bit two's-complement integer. */
  type Int32 = x: int | -0x8000_0000 <= x < 0x8000_0000

  /** `String.toBooleanStrictOrNull`: case-sensitive, nothing but the two literals. */
  function ToBooleanStrictOrNull(s: string): (r: Option<bool>)
    ensures r.Some? ==> s == BooleanText(r.value)
    ensures r.None? ==> s != BooleanText(true) && s != BooleanText(false)
  {
    if s == "true" then Some(true) else if s == "false" then Some(false) else None
  }

  /** `Boolean.toString`. */
  function BooleanText(b: bool): string {
    if b then "true" else "false"
  }

  /** What `Boolean.toString` writes converts back to the same value. */
  lemma ToBooleanStrictOrNullRoundTrip(b: bool)
    ensures ToBooleanStrictOrNull(BooleanText(b)) == Some(b)
  {
  }

  /**
   * The conversion the boolean options use: the strict conversion, and `true`
   * whenever that fails. Only the exact text `false` gives `false`.
   */
  function ExplicitBoolean(s: string): (b: bool)
    ensures !b <==> s == "false"
  {
    ToBooleanStrictOrNull(s).GetOr(true)
  }

  /** Case matters, and texts that are not a literal count as `true`. */
  lemma ExplicitBooleanExamples()
    ensures ExplicitBoolean("true") && !ExplicitBoolean("false")
    ensures ExplicitBoolean("True") && ExplicitBoolean("FALSE") && ExplicitBoolean("yes") && ExplicitBoolean("")
  {
  }

  /** The value of every option once the command line is parsed. */
  datatype Flags = Flags(
    bind: string,
    motd: string,
    showMaxPlayers: Int32,
    onlineMode: bool,
    preventClientProxyConnections: bool,
    playerInfoForwardingMode: string,
    forwardingSecret: string,
    announceForge: bool,
    kickExistingPlayers: bool,
    pingPassthrough: string,
    servers: string,
    tryServers: string,
    forcedHosts: string,
    compressionThreshold: Int32,
    compressionLevel: Int32,
    loginRateLimit: Int32,
    connectionTimeout: Int32,
    readTimeout: Int32,
    haproxyProtocol: bool,
    tcpFastOpen: bool,
    bungeePluginMessageChannel: bool,
    showPingRequests: bool,
    failoverOnUnexpectedServerDisconnect: bool,
    announceProxyCommands: bool,
    logCommandExecutions: bool,
    queryEnabled: bool,
    queryPort: Int32,
    queryMap: string,
    queryShowPlugins: bool
  )

  /** The value each option takes when it is not given. */
  const Defaults: Flags := Flags(
    bind := "0.0.0.0:25577",
    motd := "&#09add3A Velocity Server",
    showMaxPlayers := 500,
    onlineMode := true,
    preventClientProxyConnections := false,
    playerInfoForwardingMode := "none",
    forwardingSecret := "",
    announceForge := false,
    kickExistingPlayers := false,
    pingPassthrough := "DISABLED",
    servers := "lobby=127.0.0.1:25566,factions=127.0.0.1:25577",
    tryServers := "lobby",
    forcedHosts := "lobby.example.com=lobby",
    compressionThreshold := 256,
    compressionLevel := 6,
    loginRateLimit := 3000,
    connectionTimeout := 5000,
    readTimeout := 30000,
    haproxyProtocol := false,
    tcpFastOpen := false,
    bungeePluginMessageChannel := true,
    showPingRequests := false,
    failoverOnUnexpectedServerDisconnect := true,
    announceProxyCommands := true,
    logCommandExecutions := false,
    queryEnabled := true,
    queryPort := 25577,
    queryMap := "Velocity",
    queryShowPlugins := false
  )
}
