/** Reading the node configuration from a parsed JSON object: fixed
    defaults, each overridden only when its key is present. */
module ConfigReader {
  import opened Types

  /** The JSON values the configuration uses: strings, integers and objects. */
  datatype JsonValue =
    | JString(str: string)
    | JInt(num: int)
    | JObject(members: map<string, JsonValue>)

  type JsonObject = map<string, JsonValue>

  // Configuration keys (ConfigProps).
  const CLIENT_MODE: string := "CLIENT_MODE"
  const ENVIRONMENT: string := "ENVIRONMENT"
  const DATA_PATH: string := "DATA_PATH"
  const P2P: string := "P2P"
  const MAX_PEERS: string := "MAX_PEERS"
  const MIN_PEERS: string := "MIN_PEERS"
  const DANDELION: string := "DANDELION"
  const RELAY_SECS: string := "RELAY_SECS"
  const EMBARGO_SECS: string := "EMBARGO_SECS"
  const PATIENCE_SECS: string := "PATIENCE_SECS"
  const STEM_PROBABILITY: string := "STEM_PROBABILITY"

  const INT32_MIN: int := -0x8000_0000
  const INT32_MAX: int := 0x7FFF_FFFF

  predicate IsDigit(c: char)
  {
    '0' <= c <= '9'
  }

  /** The number a string of decimal digits denotes. */
  function DigitsValue(s: string): nat
    requires forall i :: 0 <= i < |s| ==> IsDigit(s[i])
  {
    if s == [] then 0
    else
      assert IsDigit(s[|s| - 1]);
      DigitsValue(s[..|s| - 1]) * 10 + (s[|s| - 1] as int - '0' as int)
  }

  /** The number a decimal spelling denotes, with an optional leading '-'. */
  function DecimalValue(s: string): int
    requires |s| > 0
    requires IsDigit(s[0]) || s[0] == '-'
    requires forall i :: 0 < i < |s| ==> IsDigit(s[i])
  {
    if s[0] == '-' then -(DigitsValue(s[1..]) as int) else DigitsValue(s)
  }

  /** The decimal rendering of an integer: a '-' for a negative value,
      then the digits of its magnitude. */
  function Decimal(n: int): (s: string)
    ensures |s| > 0
    ensures IsDigit(s[0]) || s[0] == '-'
    ensures forall i :: 0 < i < |s| ==> IsDigit(s[i])
    ensures n < 0 <==> s[0] == '-'
    ensures DecimalValue(s) == n
  {
    if n < 0 then
      var digits := Digits(-n);
      assert ("-" + digits)[1..] == digits;
      "-" + digits
    else Digits(n)
  }

  /** The decimal digits of a natural number, most significant first,
      without leading zeros. */
  function Digits(n: nat): (s: string)
    ensures |s| > 0
    ensures forall i :: 0 <= i < |s| ==> IsDigit(s[i])
    ensures DigitsValue(s) == n
    ensures |s| > 1 ==> s[0] != '0'
    decreases n
  {
    var d := ('0' as int + n % 10) as char;
    if n < 10 then [d]
    else
      var high := Digits(n / 10);
      assert (high + [d])[..|high|] == high;
      high + [d]
  }

  /** Value::asString: a string as is, an integer in decimal; an object
      cannot be converted (None: the reader throws). */
  function AsString(v: JsonValue): (r: Option<string>)
    ensures r.None? <==> v.JObject?
    ensures v.JString? ==> r == Some(v.str)
    ensures v.JInt? ==> r.Some? && |r.value| > 0 && (IsDigit(r.value[0]) || r.value[0] == '-')
                        && (forall i :: 0 < i < |r.value| ==> IsDigit(r.value[i]))
                        && DecimalValue(r.value) == v.num
  {
    match v
    case JString(s) => Some(s)
    case JInt(n) => Some(Decimal(n))
    case JObject(_) => None
  }

  /** Value::asInt: an integer within int32; anything else throws. */
  function AsInt(v: JsonValue): (r: Option<int>)
    ensures r.Some? <==> v.JInt? && INT32_MIN <= v.num <= INT32_MAX
    ensures r.Some? ==> r.value == v.num
  {
    if v.JInt? && INT32_MIN <= v.num <= INT32_MAX then Some(v.num) else None
  }

  /** Value::asUInt: an integer within uint32; anything else throws. */
  function AsUInt(v: JsonValue): (r: Option<nat>)
    ensures r.Some? <==> v.JInt? && 0 <= v.num < U32_LIMIT
    ensures r.Some? ==> r.value == v.num
  {
    if v.JInt? && 0 <= v.num < U32_LIMIT then Some(v.num) else None
  }

  datatype ClientMode = FastSync | LightClient | FullHistory

  datatype EnvironmentType = Mainnet | Floonet

  /** Which genesis block the environment carries (its contents are not modelled). */
  datatype Genesis = MainnetGenesis | FloonetGenesis

  /** A version number as the four bytes given to BitUtil::ConvertToU32. */
  datatype VersionBytes = VersionBytes(b0: byte, b1: byte, b2: byte, b3: byte)

  datatype Environment = Environment(
    environmentType: EnvironmentType,
    genesis: Genesis,
    magicBytes: seq<byte>,
    port: nat,
    privateVersion: VersionBytes,
    publicVersion: VersionBytes)

  datatype P2PConfig = P2PConfig(maxPeers: int, minPeers: int)

  datatype DandelionConfig = DandelionConfig(
    relaySeconds: nat, embargoSeconds: nat, patienceSeconds: nat, stemProbability: nat)

  datatype Config = Config(
    clientMode: ClientMode,
    environment: Environment,
    dataPath: string,
    dandelion: DandelionConfig,
    p2p: P2PConfig)

  const MAINNET_PORT: nat := 3414
  const MAINNET_MAGIC: seq<byte> := [97, 61]
  const FLOONET_PORT: nat := 13414
  const FLOONET_MAGIC: seq<byte> := [83, 59]
  const FLOONET_PRIVATE_VERSION: VersionBytes := VersionBytes(0x03, 0x3C, 0x04, 0xA4)
  const FLOONET_PUBLIC_VERSION: VersionBytes := VersionBytes(0x03, 0x3C, 0x08, 0xDF)

  const DEFAULT_MAX_PEERS: int := 30
  const DEFAULT_MIN_PEERS: int := 15
  const DEFAULT_RELAY_SECONDS: nat := 600
  const DEFAULT_EMBARGO_SECONDS: nat := 180
  const DEFAULT_PATIENCE_SECONDS: nat := 10
  const DEFAULT_STEM_PROBABILITY: nat := 90

  /** ConfigReader::ReadClientMode. None when the value cannot be read as
      a string. */
  function ReadClientMode(root: JsonObject): (r: Option<ClientMode>)
    ensures r.None? <==> CLIENT_MODE in root && root[CLIENT_MODE].JObject?
    ensures r == Some(LightClient) <==> CLIENT_MODE in root && root[CLIENT_MODE] == JString("LIGHT_CLIENT")
    ensures r == Some(FullHistory) <==> CLIENT_MODE in root && root[CLIENT_MODE] == JString("FULL_HISTORY")
    ensures CLIENT_MODE !in root ==> r == Some(FastSync)
  {
    if CLIENT_MODE in root then
      match AsString(root[CLIENT_MODE])
      case None => None
      case Some(mode) =>
        if mode == "FAST_SYNC" then Some(FastSync)
        else if mode == "LIGHT_CLIENT" then Some(LightClient)
        else if mode == "FULL_HISTORY" then Some(FullHistory)
        else Some(FastSync)
    else Some(FastSync)
  }

  function FloonetEnvironment(): Environment
  {
    Environment(Floonet, FloonetGenesis, FLOONET_MAGIC, FLOONET_PORT, FLOONET_PRIVATE_VERSION, FLOONET_PUBLIC_VERSION)
  }

  /** ConfigReader::ReadEnvironment. MAINNET (with the floonet version
      numbers, as yet unchanged for mainnet) only for the string
      "MAINNET"; floonet for anything else or no key. */
  function ReadEnvironment(root: JsonObject): (r: Option<Environment>)
    ensures r.None? <==> ENVIRONMENT in root && root[ENVIRONMENT].JObject?
    ensures r.Some? ==> r.value.privateVersion == FLOONET_PRIVATE_VERSION && r.value.publicVersion == FLOONET_PUBLIC_VERSION
    ensures r.Some? && r.value.environmentType == Mainnet <==>
              ENVIRONMENT in root && root[ENVIRONMENT] == JString("MAINNET")
    ensures r.Some? && r.value.environmentType == Mainnet ==>
              r.value.port == MAINNET_PORT && r.value.magicBytes == MAINNET_MAGIC && r.value.genesis == MainnetGenesis
    ensures r.Some? && r.value.environmentType == Floonet ==>
              r.value.port == FLOONET_PORT && r.value.magicBytes == FLOONET_MAGIC && r.value.genesis == FloonetGenesis
  {
    if ENVIRONMENT in root then
      match AsString(root[ENVIRONMENT])
      case None => None
      case Some(environment) =>
        if environment == "MAINNET" then
          Some(Environment(Mainnet, MainnetGenesis, MAINNET_MAGIC, MAINNET_PORT, FLOONET_PRIVATE_VERSION, FLOONET_PUBLIC_VERSION))
        else if environment == "FLOONET" then Some(FloonetEnvironment())
        else Some(FloonetEnvironment())
    else Some(FloonetEnvironment())
  }

  /** ConfigReader::ReadDataPath, with the working directory as a parameter. */
  function ReadDataPath(root: JsonObject, currentPath: string): (r: Option<string>)
    ensures DATA_PATH !in root ==> r == Some(currentPath + "/DATA/")
    ensures DATA_PATH in root ==> r == AsString(root[DATA_PATH])
  {
    var defaultPath := currentPath + "/DATA/";
    if DATA_PATH in root then AsString(root[DATA_PATH]) else Some(defaultPath)
  }

  /** The members of a nested section; None when the section is not an object. */
  function Section(root: JsonObject, key: string): (r: Option<JsonObject>)
    requires key in root
    ensures r.Some? <==> root[key].JObject?
  {
    if root[key].JObject? then Some(root[key].members) else None
  }

  /** ConfigReader::ReadP2P: 30 and 15 unless overridden, each value on its own. */
  function ReadP2P(root: JsonObject): (r: Option<P2PConfig>)
    ensures P2P !in root ==> r == Some(P2PConfig(DEFAULT_MAX_PEERS, DEFAULT_MIN_PEERS))
    ensures P2P in root && !root[P2P].JObject? ==> r.None?
    ensures r.Some? && P2P in root ==>
              root[P2P].JObject?
              && (MAX_PEERS !in root[P2P].members ==> r.value.maxPeers == DEFAULT_MAX_PEERS)
              && (MIN_PEERS !in root[P2P].members ==> r.value.minPeers == DEFAULT_MIN_PEERS)
              && (MAX_PEERS in root[P2P].members ==> AsInt(root[P2P].members[MAX_PEERS]) == Some(r.value.maxPeers))
              && (MIN_PEERS in root[P2P].members ==> AsInt(root[P2P].members[MIN_PEERS]) == Some(r.value.minPeers))
    ensures P2P in root && root[P2P].JObject? ==>
              (r.Some? <==> (MAX_PEERS !in root[P2P].members || AsInt(root[P2P].members[MAX_PEERS]).Some?)
                            && (MIN_PEERS !in root[P2P].members || AsInt(root[P2P].members[MIN_PEERS]).Some?))
  {
    if P2P in root then
      match Section(root, P2P)
      case None => None
      case Some(p2pRoot) =>
        var maxPeers := if MAX_PEERS in p2pRoot then AsInt(p2pRoot[MAX_PEERS]) else Some(DEFAULT_MAX_PEERS);
        var minPeers := if MIN_PEERS in p2pRoot then AsInt(p2pRoot[MIN_PEERS]) else Some(DEFAULT_MIN_PEERS);
        if maxPeers.None? || minPeers.None? then None
        else Some(P2PConfig(maxPeers.value, minPeers.value))
    else Some(P2PConfig(DEFAULT_MAX_PEERS, DEFAULT_MIN_PEERS))
  }

  /** One Dandelion value: the default, or the configured unsigned value
      truncated to `limit` (uint16 or uint8). */
  function ReadTruncated(section: JsonObject, key: string, default: nat, limit: nat): (r: Option<nat>)
    requires limit > 0
    ensures key !in section ==> r == Some(default)
    ensures key in section ==> (r.Some? <==> AsUInt(section[key]).Some?)
    ensures key in section && r.Some? ==> r.value == AsUInt(section[key]).value % limit && r.value < limit
  {
    if key in section then
      match AsUInt(section[key])
      case None => None
      case Some(n) => Some(n % limit)
    else Some(default)
  }

  /** ConfigReader::ReadDandelion: 600/180/10/90 unless overridden, each
      value on its own; overrides are truncated to uint16 (relay, embargo)
      and uint8 (patience, stem probability). */
  function ReadDandelion(root: JsonObject): (r: Option<DandelionConfig>)
    ensures DANDELION !in root ==>
              r == Some(DandelionConfig(DEFAULT_RELAY_SECONDS, DEFAULT_EMBARGO_SECONDS, DEFAULT_PATIENCE_SECONDS, DEFAULT_STEM_PROBABILITY))
    ensures r.Some? ==> r.value.relaySeconds < U16_LIMIT && r.value.embargoSeconds < U16_LIMIT
                        && r.value.patienceSeconds < U8_LIMIT && r.value.stemProbability < U8_LIMIT
    ensures DANDELION in root && !root[DANDELION].JObject? ==> r.None?
    ensures DANDELION in root && root[DANDELION].JObject? ==>
              var section := root[DANDELION].members;
              (r.Some? <==>
                 && ReadTruncated(section, RELAY_SECS, DEFAULT_RELAY_SECONDS, U16_LIMIT).Some?
                 && ReadTruncated(section, EMBARGO_SECS, DEFAULT_EMBARGO_SECONDS, U16_LIMIT).Some?
                 && ReadTruncated(section, PATIENCE_SECS, DEFAULT_PATIENCE_SECONDS, U8_LIMIT).Some?
                 && ReadTruncated(section, STEM_PROBABILITY, DEFAULT_STEM_PROBABILITY, U8_LIMIT).Some?)
    ensures r.Some? && DANDELION in root ==>
              var section := root[DANDELION];
              && section.JObject?
              && ReadTruncated(section.members, RELAY_SECS, DEFAULT_RELAY_SECONDS, U16_LIMIT) == Some(r.value.relaySeconds)
              && ReadTruncated(section.members, EMBARGO_SECS, DEFAULT_EMBARGO_SECONDS, U16_LIMIT) == Some(r.value.embargoSeconds)
              && ReadTruncated(section.members, PATIENCE_SECS, DEFAULT_PATIENCE_SECONDS, U8_LIMIT) == Some(r.value.patienceSeconds)
              && ReadTruncated(section.members, STEM_PROBABILITY, DEFAULT_STEM_PROBABILITY, U8_LIMIT) == Some(r.value.stemProbability)
  {
    if DANDELION in root then
      match Section(root, DANDELION)
      case None => None
      case Some(section) =>
        var relay := ReadTruncated(section, RELAY_SECS, DEFAULT_RELAY_SECONDS, U16_LIMIT);
        var embargo := ReadTruncated(section, EMBARGO_SECS, DEFAULT_EMBARGO_SECONDS, U16_LIMIT);
        var patience := ReadTruncated(section, PATIENCE_SECS, DEFAULT_PATIENCE_SECONDS, U8_LIMIT);
        var stem := ReadTruncated(section, STEM_PROBABILITY, DEFAULT_STEM_PROBABILITY, U8_LIMIT);
        if relay.None? || embargo.None? || patience.None? || stem.None? then None
        else Some(DandelionConfig(relay.value, embargo.value, patience.value, stem.value))
    else Some(DandelionConfig(DEFAULT_RELAY_SECONDS, DEFAULT_EMBARGO_SECONDS, DEFAULT_PATIENCE_SECONDS, DEFAULT_STEM_PROBABILITY))
  }

  /** ConfigReader::ReadConfig: the five readers, composed; None when any
      of them cannot read its value. */
  function ReadConfig(root: JsonObject, currentPath: string): (r: Option<Config>)
    ensures r.Some? <==>
      ReadClientMode(root).Some? && ReadEnvironment(root).Some? && ReadDataPath(root, currentPath).Some?
      && ReadP2P(root).Some? && ReadDandelion(root).Some?
    ensures r.Some? ==>
      r.value == Config(ReadClientMode(root).value, ReadEnvironment(root).value, ReadDataPath(root, currentPath).value,
                        ReadDandelion(root).value, ReadP2P(root).value)
  {
    var clientMode := ReadClientMode(root);
    var environment := ReadEnvironment(root);
    var dataPath := ReadDataPath(root, currentPath);
    var p2pConfig := ReadP2P(root);
    var dandelionConfig := ReadDandelion(root);
    if clientMode.None? || environment.None? || dataPath.None? || p2pConfig.None? || dandelionConfig.None? then None
    else Some(Config(clientMode.value, environment.value, dataPath.value, dandelionConfig.value, p2pConfig.value))
  }

  /** An empty configuration object gives every default. */
  lemma EmptyConfigDefaults(currentPath: string)
    ensures ReadConfig(map[], currentPath) == Some(Config(
      FastSync, FloonetEnvironment(), currentPath + "/DATA/",
      DandelionConfig(DEFAULT_RELAY_SECONDS, DEFAULT_EMBARGO_SECONDS, DEFAULT_PATIENCE_SECONDS, DEFAULT_STEM_PROBABILITY),
      P2PConfig(DEFAULT_MAX_PEERS, DEFAULT_MIN_PEERS)))
  {
  }
}
