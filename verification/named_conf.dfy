/** The parser for the part of `named.conf` the SDK reads: a recursive descent over tokens that skips what it does
    not know. */
module NamedConf {
  import opened Bytes
  import opened Domain
  import opened Records
  import Decimal
  import Tsig

  datatype Token = Word(text: Text) | Quoted(text: Text) | Open | Close | Semi | Bang

  type Tokens = seq<Token>

  datatype ConfError = ConfError

  // Keywords, as lower-case bytes.
  const ZONE: Text := Ascii("zone")
  const KEY: Text := Ascii("key")
  const ACL: Text := Ascii("acl")
  const OPTIONS: Text := Ascii("options")
  const CONTROLS: Text := Ascii("controls")
  const STATISTICS: Text := Ascii("statistics-channels")
  const TYPE: Text := Ascii("type")
  const FILE: Text := Ascii("file")
  const ALLOW_TRANSFER: Text := Ascii("allow-transfer")
  const ALGORITHM: Text := Ascii("algorithm")
  const SECRET: Text := Ascii("secret")
  const DIRECTORY: Text := Ascii("directory")
  const ALLOW_RECURSION: Text := Ascii("allow-recursion")
  const INET: Text := Ascii("inet")
  const PORT: Text := Ascii("port")
  const ALLOW: Text := Ascii("allow")
  const KEYS: Text := Ascii("keys")

  // Values.
  const PRIMARY: Text := Ascii("primary")
  const MASTER: Text := Ascii("master")
  const SECONDARY: Text := Ascii("secondary")
  const SLAVE: Text := Ascii("slave")
  const STUB: Text := Ascii("stub")
  const FORWARD: Text := Ascii("forward")
  const HMAC_SHA256: Text := Ascii("hmac-sha256")
  const HMAC_SHA512: Text := Ascii("hmac-sha512")
  const HMAC_SHA1: Text := Ascii("hmac-sha1")
  const ANY: Text := Ascii("any")
  const NONE: Text := Ascii("none")
  const LOCALHOST: Text := Ascii("localhost")
  const LOCALNETS: Text := Ascii("localnets")
  const STAR: Text := Ascii("*")

  // ---- The parsed configuration --------------------------------------------

  datatype AclElement =
    | AnyAddress
    | NoAddress
    | Localhost
    | Localnets
    | Address(address: seq<Byte>)
    | Network(address: seq<Byte>, prefix: nat)
    | KeyName(name: DomainName)
    | Named(text: Text)
    | Negated(element: AclElement)

  type Acl = seq<AclElement>

  datatype NamedAcl = NamedAcl(name: Text, acl: Acl)

  datatype ZoneType = Primary | Secondary | Stub | Forward

  datatype NamedZone = NamedZone(name: DomainName, zoneType: ZoneType, file: Option<Text>, allowTransfer: Option<Acl>)

  datatype NamedKey = NamedKey(name: DomainName, algorithm: Tsig.Algorithm, material: seq<Byte>)

  datatype ListenAddress = Wildcard | Ip(address: seq<Byte>)

  datatype ControlEndpoint = ControlEndpoint(address: ListenAddress, port: nat, allow: Option<Acl>, keys: seq<DomainName>)

  datatype StatisticsChannel = StatisticsChannel(address: ListenAddress, port: nat, allow: Option<Acl>)

  datatype NamedOptions = NamedOptions(directory: Option<Text>, allowRecursion: Option<Acl>)

  datatype NamedConf = NamedConf(zones: seq<NamedZone>, keys: seq<NamedKey>, acls: seq<NamedAcl>, options: NamedOptions,
                                 controls: seq<ControlEndpoint>, statistics: seq<StatisticsChannel>)

  const DEFAULT: NamedConf := NamedConf([], [], [], NamedOptions(None, None), [], [])

  /** Parsers from libraries: IP addresses (4 or 16 bytes) and base64 key material. */
  datatype Library = Library(ip: Text -> Option<seq<Byte>>, material: Text -> Option<seq<Byte>>)

  // ---- Specification -------------------------------------------------------

  /** A parsed value and the tokens left. */
  datatype Parsed<+T> = Done(value: T, rest: Tokens) | Fail

  function NextText(s: Tokens): (r: Parsed<Text>)
    ensures r.Done? ==> |r.rest| < |s|
  {
    if s != [] && (s[0].Word? || s[0].Quoted?) then Done(s[0].text, s[1..]) else Fail
  }

  function Expect(s: Tokens, k: Token): (r: Parsed<()>)
    ensures r.Done? ==> |r.rest| < |s|
  {
    if s != [] && s[0] == k then Done((), s[1..]) else Fail
  }

  /** A value, then a semicolon. */
  function Ended<T>(r: Parsed<T>): (e: Parsed<T>)
    ensures e.Done? ==> r.Done? && |e.rest| < |r.rest|
  {
    match r
    case Fail => Fail
    case Done(v, rest) => match Expect(rest, Semi) case Fail => Fail case Done(_, x) => Done(v, x)
  }

  /** `skip_statement`: to after the first semicolon outside braces; a closing brace that closes nothing is passed over. */
  function Skip(s: Tokens, depth: nat): (r: Parsed<()>)
    ensures r.Done? ==> |r.rest| < |s|
  {
    if s == [] then Fail
    else
      match s[0]
      case Open => Skip(s[1..], depth + 1)
      case Close => Skip(s[1..], if depth > 0 then depth - 1 else 0)
      case Semi => if depth == 0 then Done((), s[1..]) else Skip(s[1..], depth)
      case _ => Skip(s[1..], depth)
  }

  /** A directive that is not known: its state stays as it was. */
  function Skipped<S>(s: Tokens, st: S): (r: Parsed<S>)
    ensures r.Done? ==> |r.rest| < |s|
  {
    match Skip(s, 0)
    case Fail => Fail
    case Done(_, rest) => Done(st, rest)
  }

  /** Directives until a token that ends the block. */
  function Block<S>(end: Token, step: (Tokens, S) -> Parsed<S>, s: Tokens, st: S): (r: Parsed<S>)
    ensures r.Done? ==> |r.rest| < |s|
    decreases |s|
  {
    if s != [] && s[0] == end then Done(st, s[1..])
    else
      match step(s, st)
      case Fail => Fail
      case Done(next, rest) => if |rest| < |s| then Block(end, step, rest, next) else Fail
  }

  function Port(s: Tokens): (r: Parsed<nat>)
    ensures r.Done? ==> |r.rest| < |s|
  {
    match NextText(s)
    case Fail => Fail
    case Done(t, rest) =>
      match Decimal.Parse(t, 0xFFFF)
      case None => Fail
      case Some(n) => Done(n, rest)
  }

  function NextName(s: Tokens): (r: Parsed<DomainName>)
    ensures r.Done? ==> |r.rest| < |s|
  {
    match NextText(s)
    case Fail => Fail
    case Done(t, rest) =>
      match ParseName(t)
      case Err(_) => Fail
      case Ok(n) => Done(n, rest)
  }

  // -- Address-match lists

  const SLASH: Byte := 47

  /** Index of the first slash, or the length. */
  function SlashAt(s: Text): (n: nat)
    ensures n <= |s|
  {
    if s == [] || s[0] == SLASH then 0 else 1 + SlashAt(s[1..])
  }

  /** `parse_acl_element`. */
  function ParseAclElement(lib: Library, value: Text): Option<AclElement> {
    var lower := LowerAll(value);
    if lower == ANY then Some(AnyAddress)
    else if lower == NONE then Some(NoAddress)
    else if lower == LOCALHOST then Some(Localhost)
    else if lower == LOCALNETS then Some(Localnets)
    else if SlashAt(value) < |value| then
      match (lib.ip(value[..SlashAt(value)]), Decimal.Parse(value[SlashAt(value) + 1..], 255))
      case (Some(a), Some(n)) => if n > (if |a| == 4 then 32 else 128) then None else Some(Network(a, n))
      case _ => None
    else
      match lib.ip(value)
      case Some(a) => Some(Address(a))
      case None => Some(Named(value))
  }

  function AclEntry(lib: Library, s: Tokens, acl: Acl): (r: Parsed<Acl>)
    ensures r.Done? ==> |r.rest| < |s|
  {
    var negated := s != [] && s[0] == Bang;
    match Ended(AclItem(lib, if negated then s[1..] else s))
    case Fail => Fail
    case Done(e, rest) => Done(acl + [if negated then Negated(e) else e], rest)
  }

  function AclItem(lib: Library, s: Tokens): (r: Parsed<AclElement>)
    ensures r.Done? ==> |r.rest| < |s|
  {
    match NextText(s)
    case Fail => Fail
    case Done(t, rest) =>
      if LowerAll(t) == KEY then
        match NextName(rest) case Fail => Fail case Done(n, x) => Done(KeyName(n), x)
      else
        match ParseAclElement(lib, t) case None => Fail case Some(e) => Done(e, rest)
  }

  function AclStep(lib: Library): (Tokens, Acl) -> Parsed<Acl> { (s, acl) => AclEntry(lib, s, acl) }

  function ParseAcl(lib: Library, s: Tokens): (r: Parsed<Acl>)
    ensures r.Done? ==> |r.rest| < |s|
  {
    match Expect(s, Open)
    case Fail => Fail
    case Done(_, rest) => Block(Close, AclStep(lib), rest, [])
  }

  function KeyEntry(s: Tokens, keys: seq<DomainName>): (r: Parsed<seq<DomainName>>)
    ensures r.Done? ==> |r.rest| < |s|
  {
    match Ended(NextName(s))
    case Fail => Fail
    case Done(n, rest) => Done(keys + [n], rest)
  }

  function KeyStep(): (Tokens, seq<DomainName>) -> Parsed<seq<DomainName>> { (s, keys) => KeyEntry(s, keys) }

  function KeyNames(s: Tokens): (r: Parsed<seq<DomainName>>)
    ensures r.Done? ==> |r.rest| < |s|
  {
    match Expect(s, Open)
    case Fail => Fail
    case Done(_, rest) => Block(Close, KeyStep(), rest, [])
  }

  // -- Zones

  datatype ZoneFields = ZoneFields(zoneType: Option<ZoneType>, file: Option<Text>, allowTransfer: Option<Acl>)

  function ZoneTypeOf(value: Text): Option<ZoneType> {
    var v := LowerAll(value);
    if v == PRIMARY || v == MASTER then Some(Primary)
    else if v == SECONDARY || v == SLAVE then Some(Secondary)
    else if v == STUB then Some(Stub)
    else if v == FORWARD then Some(Forward)
    else None
  }

  function ZoneDirective(lib: Library, s: Tokens, f: ZoneFields): (r: Parsed<ZoneFields>)
    ensures r.Done? ==> |r.rest| < |s|
  {
    match NextText(s)
    case Fail => Fail
    case Done(t, rest) =>
      var keyword := LowerAll(t);
      if keyword == TYPE then
        match NextText(rest)
        case Fail => Fail
        case Done(v, x) =>
          if ZoneTypeOf(v).None? then Fail else Ended(Done(f.(zoneType := ZoneTypeOf(v)), x))
      else if keyword == FILE then
        match NextText(rest) case Fail => Fail case Done(v, x) => Ended(Done(f.(file := Some(v)), x))
      else if keyword == ALLOW_TRANSFER then
        match ParseAcl(lib, rest) case Fail => Fail case Done(acl, x) => Ended(Done(f.(allowTransfer := Some(acl)), x))
      else Skipped(rest, f)
  }

  function ZoneStep(lib: Library): (Tokens, ZoneFields) -> Parsed<ZoneFields> { (s, f) => ZoneDirective(lib, s, f) }

  function ParseZone(lib: Library, s: Tokens): (r: Parsed<NamedZone>)
    ensures r.Done? ==> |r.rest| < |s|
  {
    match NextName(s)
    case Fail => Fail
    case Done(name, afterName) =>
      match Expect(afterName, Open)
      case Fail => Fail
      case Done(_, body) =>
        match Ended(Block(Close, ZoneStep(lib), body, ZoneFields(None, None, None)))
        case Fail => Fail
        case Done(f, rest) =>
          if f.zoneType.None? then Fail else Done(NamedZone(name, f.zoneType.value, f.file, f.allowTransfer), rest)
  }

  // -- Keys

  datatype KeyFields = KeyFields(algorithm: Option<Tsig.Algorithm>, secret: Option<Text>)

  function TrimDots(s: Text): Text
    decreases |s|
  {
    if s != [] && s[|s| - 1] == DOT then TrimDots(s[..|s| - 1]) else s
  }

  function AlgorithmOf(value: Text): Option<Tsig.Algorithm> {
    var v := TrimDots(LowerAll(value));
    if v == HMAC_SHA256 then Some(Tsig.HmacSha256)
    else if v == HMAC_SHA512 then Some(Tsig.HmacSha512)
    else if v == HMAC_SHA1 then Some(Tsig.HmacSha1)
    else None
  }

  function KeyDirective(s: Tokens, f: KeyFields): (r: Parsed<KeyFields>)
    ensures r.Done? ==> |r.rest| < |s|
  {
    match NextText(s)
    case Fail => Fail
    case Done(t, rest) =>
      var keyword := LowerAll(t);
      if keyword == ALGORITHM then
        match NextText(rest)
        case Fail => Fail
        case Done(v, x) =>
          if AlgorithmOf(v).None? then Fail else Ended(Done(f.(algorithm := AlgorithmOf(v)), x))
      else if keyword == SECRET then
        match NextText(rest) case Fail => Fail case Done(v, x) => Ended(Done(f.(secret := Some(v)), x))
      else Skipped(rest, f)
  }

  function KeyDirectiveStep(): (Tokens, KeyFields) -> Parsed<KeyFields> { (s, f) => KeyDirective(s, f) }

  function ParseKey(lib: Library, s: Tokens): (r: Parsed<NamedKey>)
    ensures r.Done? ==> |r.rest| < |s|
  {
    match NextName(s)
    case Fail => Fail
    case Done(name, afterName) =>
      match Expect(afterName, Open)
      case Fail => Fail
      case Done(_, body) =>
        match Ended(Block(Close, KeyDirectiveStep(), body, KeyFields(None, None)))
        case Fail => Fail
        case Done(f, rest) =>
          if f.algorithm.None? || f.secret.None? || lib.material(f.secret.value).None? then Fail
          else Done(NamedKey(name, f.algorithm.value, lib.material(f.secret.value).value), rest)
  }

  // -- Listeners

  function ParseListen(lib: Library, value: Text): Option<ListenAddress> {
    if value == STAR || LowerAll(value) == ANY then Some(Wildcard)
    else match lib.ip(value) case Some(a) => Some(Ip(a)) case None => None
  }

  function EndpointOption(lib: Library, s: Tokens, e: ControlEndpoint): (r: Parsed<ControlEndpoint>)
    ensures r.Done? ==> |r.rest| < |s|
  {
    match NextText(s)
    case Fail => Fail
    case Done(t, rest) =>
      var keyword := LowerAll(t);
      if keyword == PORT then
        match Port(rest) case Fail => Fail case Done(n, x) => Done(e.(port := n), x)
      else if keyword == ALLOW then
        match ParseAcl(lib, rest) case Fail => Fail case Done(acl, x) => Done(e.(allow := Some(acl)), x)
      else if keyword == KEYS then
        match KeyNames(rest) case Fail => Fail case Done(ks, x) => Done(e.(keys := ks), x)
      else Skipped(rest, e)
  }

  function EndpointStep(lib: Library): (Tokens, ControlEndpoint) -> Parsed<ControlEndpoint> {
    (s, e) => EndpointOption(lib, s, e)
  }

  function ControlDirective(lib: Library, s: Tokens, es: seq<ControlEndpoint>): (r: Parsed<seq<ControlEndpoint>>)
    ensures r.Done? ==> |r.rest| < |s|
  {
    match NextText(s)
    case Fail => Fail
    case Done(t, rest) =>
      if LowerAll(t) != INET then Skipped(rest, es)
      else
        match NextText(rest)
        case Fail => Fail
        case Done(v, x) =>
          match ParseListen(lib, v)
          case None => Fail
          case Some(address) =>
            match Block(Semi, EndpointStep(lib), x, ControlEndpoint(address, 953, None, []))
            case Fail => Fail
            case Done(e, y) => Done(es + [e], y)
  }

  function ControlStep(lib: Library): (Tokens, seq<ControlEndpoint>) -> Parsed<seq<ControlEndpoint>> {
    (s, es) => ControlDirective(lib, s, es)
  }

  function ParseControls(lib: Library, s: Tokens): (r: Parsed<seq<ControlEndpoint>>)
    ensures r.Done? ==> |r.rest| < |s|
  {
    match Expect(s, Open)
    case Fail => Fail
    case Done(_, rest) => Ended(Block(Close, ControlStep(lib), rest, []))
  }

  function ChannelOption(lib: Library, s: Tokens, c: StatisticsChannel): (r: Parsed<StatisticsChannel>)
    ensures r.Done? ==> |r.rest| < |s|
  {
    match NextText(s)
    case Fail => Fail
    case Done(t, rest) =>
      var keyword := LowerAll(t);
      if keyword == PORT then
        match Port(rest) case Fail => Fail case Done(n, x) => Done(c.(port := n), x)
      else if keyword == ALLOW then
        match ParseAcl(lib, rest) case Fail => Fail case Done(acl, x) => Done(c.(allow := Some(acl)), x)
      else Skipped(rest, c)
  }

  function ChannelStep(lib: Library): (Tokens, StatisticsChannel) -> Parsed<StatisticsChannel> {
    (s, c) => ChannelOption(lib, s, c)
  }

  function ChannelDirective(lib: Library, s: Tokens, cs: seq<StatisticsChannel>): (r: Parsed<seq<StatisticsChannel>>)
    ensures r.Done? ==> |r.rest| < |s|
  {
    match NextText(s)
    case Fail => Fail
    case Done(t, rest) =>
      if LowerAll(t) != INET then Skipped(rest, cs)
      else
        match NextText(rest)
        case Fail => Fail
        case Done(v, x) =>
          match ParseListen(lib, v)
          case None => Fail
          case Some(address) =>
            match Block(Semi, ChannelStep(lib), x, StatisticsChannel(address, 80, None))
            case Fail => Fail
            case Done(c, y) => Done(cs + [c], y)
  }

  function ChannelsStep(lib: Library): (Tokens, seq<StatisticsChannel>) -> Parsed<seq<StatisticsChannel>> {
    (s, cs) => ChannelDirective(lib, s, cs)
  }

  function ParseStatistics(lib: Library, s: Tokens): (r: Parsed<seq<StatisticsChannel>>)
    ensures r.Done? ==> |r.rest| < |s|
  {
    match Expect(s, Open)
    case Fail => Fail
    case Done(_, rest) => Ended(Block(Close, ChannelsStep(lib), rest, []))
  }

  // -- Options and the top level

  function OptionDirective(lib: Library, s: Tokens, conf: NamedConf): (r: Parsed<NamedConf>)
    ensures r.Done? ==> |r.rest| < |s|
  {
    match NextText(s)
    case Fail => Fail
    case Done(t, rest) =>
      var keyword := LowerAll(t);
      if keyword == DIRECTORY then
        match NextText(rest)
        case Fail => Fail
        case Done(v, x) => Ended(Done(conf.(options := conf.options.(directory := Some(v))), x))
      else if keyword == ALLOW_RECURSION then
        match ParseAcl(lib, rest)
        case Fail => Fail
        case Done(acl, x) => Ended(Done(conf.(options := conf.options.(allowRecursion := Some(acl))), x))
      else if keyword == STATISTICS then
        match ParseStatistics(lib, rest)
        case Fail => Fail
        case Done(cs, x) => Done(conf.(statistics := conf.statistics + cs), x)
      else Skipped(rest, conf)
  }

  function OptionStep(lib: Library): (Tokens, NamedConf) -> Parsed<NamedConf> { (s, conf) => OptionDirective(lib, s, conf) }

  function ParseOptions(lib: Library, s: Tokens, conf: NamedConf): (r: Parsed<NamedConf>)
    ensures r.Done? ==> |r.rest| < |s|
  {
    match Expect(s, Open)
    case Fail => Fail
    case Done(_, rest) => Ended(Block(Close, OptionStep(lib), rest, conf))
  }

  /** One top-level statement. */
  function Statement(lib: Library, s: Tokens, conf: NamedConf): (r: Parsed<NamedConf>)
    ensures r.Done? ==> |r.rest| < |s|
  {
    match NextText(s)
    case Fail => Fail
    case Done(t, rest) =>
      var keyword := LowerAll(t);
      if keyword == ZONE then
        match ParseZone(lib, rest) case Fail => Fail case Done(z, x) => Done(conf.(zones := conf.zones + [z]), x)
      else if keyword == KEY then
        match ParseKey(lib, rest) case Fail => Fail case Done(k, x) => Done(conf.(keys := conf.keys + [k]), x)
      else if keyword == ACL then
        match NextText(rest)
        case Fail => Fail
        case Done(name, x) =>
          match Ended(ParseAcl(lib, x))
          case Fail => Fail
          case Done(acl, y) => Done(conf.(acls := conf.acls + [NamedAcl(name, acl)]), y)
      else if keyword == OPTIONS then ParseOptions(lib, rest, conf)
      else if keyword == CONTROLS then
        match ParseControls(lib, rest) case Fail => Fail case Done(es, x) => Done(conf.(controls := conf.controls + es), x)
      else if keyword == STATISTICS then
        match ParseStatistics(lib, rest)
        case Fail => Fail
        case Done(cs, x) => Done(conf.(statistics := conf.statistics + cs), x)
      else Skipped(rest, conf)
  }

  /** All statements up to the end of the tokens. */
  function Statements(lib: Library, s: Tokens, conf: NamedConf): Result<NamedConf, ConfError>
    decreases |s|
  {
    if s == [] then Ok(conf)
    else
      match Statement(lib, s, conf)
      case Fail => Err(ConfError)
      case Done(next, rest) => Statements(lib, rest, next)
  }

  function Parse(lib: Library, tokens: Tokens): Result<NamedConf, ConfError> { Statements(lib, tokens, DEFAULT) }
}
