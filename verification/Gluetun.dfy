/**
 * The variables of the Gluetun container: which are set and to what, and that their text can
 * serve as a change detector.
 */
module Gluetun {
  import opened Common
  import opened Env

  datatype Server = Server(regions: seq<string>, countries: seq<string>, cities: seq<string>, hostnames: seq<string>)
  datatype Firewall = Firewall(vpnInputPorts: seq<int>, inputPorts: seq<int>, outboundSubnets: seq<string>, debug: bool)
  datatype Dns = Dns(overTLS: bool, plaintextAddress: string, keepNameserver: bool)

  datatype Input = Input(provider: string, vpnType: string, username: string, password: string, privateKey: string,
                         server: Option<Server>, firewall: Option<Firewall>, killSwitch: Option<bool>, dns: Option<Dns>,
                         ipv6: Option<bool>, logLevel: Option<string>)

  function Join(parts: seq<string>): string {
    if parts == [] then "" else if |parts| == 1 then parts[0] else parts[0] + "," + Join(parts[1..])
  }

  function Digits(n: nat): string {
    if n < 10 then [('0' as int + n) as char] else Digits(n / 10) + [('0' as int + n % 10) as char]
  }

  function Decimal(n: int): string {
    if n < 0 then "-" + Digits(-n) else Digits(n)
  }

  function JoinInts(ns: seq<int>): string {
    Join(seq(|ns|, i requires 0 <= i < |ns| => Decimal(ns[i])))
  }

  function OnOff(on: bool): string { if on then "on" else "off" }

  function IfGiven(value: string): Option<string> { if value == "" then None else Some(value) }

  function IfAny(parts: seq<string>): Option<string> { if parts == [] then None else Some(Join(parts)) }

  function IfPorts(ports: seq<int>): Option<string> { if ports == [] then None else Some(JoinInts(ports)) }

  datatype Variable = VpnServiceProvider | VpnType | WireguardPrivateKey | OpenvpnUser | OpenvpnPassword
    | ServerRegions | ServerCountries | ServerCities | ServerHostnames
    | FirewallVpnInputPorts | FirewallInputPorts | FirewallOutboundSubnets | FirewallDebug
    | BlockWithoutVpn | Dot | DnsPlaintextAddress | DnsKeepNameserver | OpenvpnIpv6 | LogLevel

  function Name(v: Variable): string {
    match v
    case VpnServiceProvider => "VPN_SERVICE_PROVIDER"
    case VpnType => "VPN_TYPE"
    case WireguardPrivateKey => "WIREGUARD_PRIVATE_KEY"
    case OpenvpnUser => "OPENVPN_USER"
    case OpenvpnPassword => "OPENVPN_PASSWORD"
    case ServerRegions => "SERVER_REGIONS"
    case ServerCountries => "SERVER_COUNTRIES"
    case ServerCities => "SERVER_CITIES"
    case ServerHostnames => "SERVER_HOSTNAMES"
    case FirewallVpnInputPorts => "FIREWALL_VPN_INPUT_PORTS"
    case FirewallInputPorts => "FIREWALL_INPUT_PORTS"
    case FirewallOutboundSubnets => "FIREWALL_OUTBOUND_SUBNETS"
    case FirewallDebug => "FIREWALL_DEBUG"
    case BlockWithoutVpn => "BLOCK_WITHOUT_VPN"
    case Dot => "DOT"
    case DnsPlaintextAddress => "DNS_PLAINTEXT_ADDRESS"
    case DnsKeepNameserver => "DNS_KEEP_NAMESERVER"
    case OpenvpnIpv6 => "OPENVPN_IPV6"
    case LogLevel => "LOG_LEVEL"
  }

  /** The value a variable takes, if it is set at all. */
  function Value(i: Input, v: Variable): Option<string> {
    var wireguard := i.vpnType == "wireguard";
    match v
    case VpnServiceProvider => Some(i.provider)
    case VpnType => Some(i.vpnType)
    case WireguardPrivateKey => if wireguard then IfGiven(i.privateKey) else None
    case OpenvpnUser => if wireguard then None else IfGiven(i.username)
    case OpenvpnPassword => if wireguard then None else IfGiven(i.password)
    case ServerRegions => if i.server.Some? then IfAny(i.server.value.regions) else None
    case ServerCountries => if i.server.Some? then IfAny(i.server.value.countries) else None
    case ServerCities => if i.server.Some? then IfAny(i.server.value.cities) else None
    case ServerHostnames => if i.server.Some? then IfAny(i.server.value.hostnames) else None
    case FirewallVpnInputPorts => if i.firewall.Some? then IfPorts(i.firewall.value.vpnInputPorts) else None
    case FirewallInputPorts => if i.firewall.Some? then IfPorts(i.firewall.value.inputPorts) else None
    case FirewallOutboundSubnets => if i.firewall.Some? then IfAny(i.firewall.value.outboundSubnets) else None
    case FirewallDebug => if i.firewall.Some? && i.firewall.value.debug then Some("on") else None
    case BlockWithoutVpn => if i.killSwitch.Some? then Some(OnOff(i.killSwitch.value)) else None
    case Dot => if i.dns.Some? then Some(OnOff(i.dns.value.overTLS)) else None
    case DnsPlaintextAddress => if i.dns.Some? then IfGiven(i.dns.value.plaintextAddress) else None
    case DnsKeepNameserver => if i.dns.Some? && i.dns.value.keepNameserver then Some("on") else None
    case OpenvpnIpv6 => if i.ipv6.Some? then Some(OnOff(i.ipv6.value)) else None
    case LogLevel => if i.logLevel.Some? then IfGiven(i.logLevel.value) else None
  }

  function Section(v: Variable): nat {
    match v
    case VpnServiceProvider | VpnType | WireguardPrivateKey | OpenvpnUser | OpenvpnPassword => 0
    case ServerRegions | ServerCountries | ServerCities | ServerHostnames => 1
    case FirewallVpnInputPorts | FirewallInputPorts | FirewallOutboundSubnets | FirewallDebug => 2
    case BlockWithoutVpn | Dot | DnsPlaintextAddress | DnsKeepNameserver => 3
    case OpenvpnIpv6 | LogLevel => 4
  }

  /** The variables of the first `n` sections have the value meant for them. */
  ghost predicate Filled(i: Input, env: map<Variable, string>, n: nat) {
    forall v :: if Section(v) < n && Value(i, v).Some? then v in env && env[v] == Value(i, v).value else v !in env
  }

  /** Every variable has the value meant for it. */
  ghost predicate IsGluetunEnv(i: Input, env: map<Variable, string>) {
    forall v :: if Value(i, v).Some? then v in env && env[v] == Value(i, v).value else v !in env
  }

  method GenerateGluetunEnv(i: Input) returns (env: map<Variable, string>)
    ensures IsGluetunEnv(i, env)
  {
    env := ProviderEnv(i);
    if i.server.Some? { env := ServerEnv(i, env); } else { SkipSection(i, env, 1); }
    if i.firewall.Some? { env := FirewallEnv(i, env); } else { SkipSection(i, env, 2); }
    env := SwitchesEnv(i, env);
    env := LoggingEnv(i, env);
  }

  lemma SkipSection(i: Input, env: map<Variable, string>, n: nat)
    requires Filled(i, env, n) && forall v :: Section(v) == n ==> Value(i, v).None?
    ensures Filled(i, env, n + 1)
  {
  }

  method LoggingEnv(i: Input, before: map<Variable, string>) returns (env: map<Variable, string>)
    requires Filled(i, before, 4)
    ensures IsGluetunEnv(i, env)
  {
    env := before;
    if i.ipv6.Some? {
      if !i.ipv6.value { env := env[OpenvpnIpv6 := "off"]; } else { env := env[OpenvpnIpv6 := "on"]; }
    }
    if i.logLevel.Some? && i.logLevel.value != "" { env := env[LogLevel := i.logLevel.value]; }
  }

  method ProviderEnv(i: Input) returns (env: map<Variable, string>)
    ensures Filled(i, env, 1)
  {
    env := map[VpnServiceProvider := i.provider, VpnType := i.vpnType];
    if i.vpnType == "wireguard" {
      if i.privateKey != "" { env := env[WireguardPrivateKey := i.privateKey]; }
    } else {
      if i.username != "" { env := env[OpenvpnUser := i.username]; }
      if i.password != "" { env := env[OpenvpnPassword := i.password]; }
    }
  }

  method ServerEnv(i: Input, before: map<Variable, string>) returns (env: map<Variable, string>)
    requires Filled(i, before, 1) && i.server.Some?
    ensures Filled(i, env, 2)
  {
    env := before;
    var s := i.server.value;
    if s.regions != [] { env := env[ServerRegions := Join(s.regions)]; }
    if s.countries != [] { env := env[ServerCountries := Join(s.countries)]; }
    if s.cities != [] { env := env[ServerCities := Join(s.cities)]; }
    if s.hostnames != [] { env := env[ServerHostnames := Join(s.hostnames)]; }
  }

  method FirewallEnv(i: Input, before: map<Variable, string>) returns (env: map<Variable, string>)
    requires Filled(i, before, 2) && i.firewall.Some?
    ensures Filled(i, env, 3)
  {
    env := before;
    var f := i.firewall.value;
    if f.vpnInputPorts != [] { env := env[FirewallVpnInputPorts := JoinInts(f.vpnInputPorts)]; }
    if f.inputPorts != [] { env := env[FirewallInputPorts := JoinInts(f.inputPorts)]; }
    FirewallHalf(i, before, env);
    ghost var half := env;
    if f.outboundSubnets != [] { env := env[FirewallOutboundSubnets := Join(f.outboundSubnets)]; }
    if f.debug { env := env[FirewallDebug := "on"]; }
    FirewallRest(i, half, env);
  }

  /** The ports are filled in, the rest of the section is not. */
  ghost predicate PortsFilled(i: Input, env: map<Variable, string>) {
    forall v :: if (Section(v) < 2 || v.FirewallVpnInputPorts? || v.FirewallInputPorts?) && Value(i, v).Some?
                then v in env && env[v] == Value(i, v).value else v !in env
  }

  lemma FirewallHalf(i: Input, before: map<Variable, string>, env: map<Variable, string>)
    requires Filled(i, before, 2) && i.firewall.Some?
    requires var f := i.firewall.value;
             var one := if f.vpnInputPorts != [] then before[FirewallVpnInputPorts := JoinInts(f.vpnInputPorts)]
                 else before;
             env == if f.inputPorts != [] then one[FirewallInputPorts := JoinInts(f.inputPorts)] else one
    ensures PortsFilled(i, env)
  {
  }

  lemma FirewallRest(i: Input, half: map<Variable, string>, env: map<Variable, string>)
    requires PortsFilled(i, half) && i.firewall.Some?
    requires var f := i.firewall.value;
             var one := if f.outboundSubnets != [] then half[FirewallOutboundSubnets := Join(f.outboundSubnets)]
                 else half;
             env == if f.debug then one[FirewallDebug := "on"] else one
    ensures Filled(i, env, 3)
  {
  }

  method SwitchesEnv(i: Input, before: map<Variable, string>) returns (env: map<Variable, string>)
    requires Filled(i, before, 3)
    ensures Filled(i, env, 4)
  {
    env := before;
    if i.killSwitch.Some? {
      if i.killSwitch.value { env := env[BlockWithoutVpn := "on"]; } else { env := env[BlockWithoutVpn := "off"]; }
    }
    if i.dns.Some? {
      var d := i.dns.value;
      if d.overTLS { env := env[Dot := "on"]; } else { env := env[Dot := "off"]; }
      if d.plaintextAddress != "" { env := env[DnsPlaintextAddress := d.plaintextAddress]; }
      if d.keepNameserver { env := env[DnsKeepNameserver := "on"]; }
    }
  }

  // ----- Names -----

  /** `env` with its variables spelled out. */
  ghost predicate Spells(env: map<Variable, string>, spelled: Env) {
    SpellsBy(Name, env, spelled)
  }

  predicate IsName(s: string) {
    forall k :: 0 <= k < |s| ==> 'A' <= s[k] <= 'Z' || s[k] == '_' || s[k] == '6'
  }

  /** The length of a name and its third character from the end tell it from all others. */
  function Fingerprint(s: string): int {
    if |s| < 3 then 0 else 1000 * |s| + s[|s| - 3] as int
  }

  function Code(v: Variable): int {
    match v
    case VpnServiceProvider => 20068
    case VpnType => 8089
    case WireguardPrivateKey => 21075
    case OpenvpnUser => 12083
    case OpenvpnPassword => 16079
    case ServerRegions => 14079
    case ServerCountries => 16073
    case ServerCities => 13073
    case ServerHostnames => 16077
    case FirewallVpnInputPorts => 24082
    case FirewallInputPorts => 20082
    case FirewallOutboundSubnets => 25069
    case FirewallDebug => 14066
    case BlockWithoutVpn => 17086
    case Dot => 3068
    case DnsPlaintextAddress => 21069
    case DnsKeepNameserver => 19086
    case OpenvpnIpv6 => 12080
    case LogLevel => 9086
  }

  predicate WellNamed(v: Variable) {
    IsName(Name(v)) && Fingerprint(Name(v)) == Code(v)
  }

  lemma Names1(v: Variable)
    requires v.VpnServiceProvider? || v.VpnType? || v.WireguardPrivateKey? || v.OpenvpnUser?
    ensures WellNamed(v)
  {
  }

  lemma Names2(v: Variable)
    requires v.OpenvpnPassword? || v.ServerRegions? || v.ServerCountries? || v.ServerCities?
    ensures WellNamed(v)
  {
  }

  lemma Names3(v: Variable)
    requires v.ServerHostnames? || v.FirewallVpnInputPorts? || v.FirewallInputPorts?
    ensures WellNamed(v)
  {
  }

  lemma Names4(v: Variable)
    requires v.FirewallOutboundSubnets? || v.FirewallDebug? || v.BlockWithoutVpn? || v.Dot?
    ensures WellNamed(v)
  {
  }

  lemma Names5(v: Variable)
    requires v.DnsPlaintextAddress? || v.DnsKeepNameserver? || v.OpenvpnIpv6? || v.LogLevel?
    ensures WellNamed(v)
  {
  }

  lemma AllWellNamed(v: Variable)
    ensures WellNamed(v)
  {
    match v
    case VpnServiceProvider | VpnType | WireguardPrivateKey | OpenvpnUser => Names1(v);
    case OpenvpnPassword | ServerRegions | ServerCountries | ServerCities => Names2(v);
    case ServerHostnames | FirewallVpnInputPorts | FirewallInputPorts => Names3(v);
    case FirewallOutboundSubnets | FirewallDebug | BlockWithoutVpn | Dot => Names4(v);
    case DnsPlaintextAddress | DnsKeepNameserver | OpenvpnIpv6 | LogLevel => Names5(v);
  }

  /** Two variables never share a name. */
  lemma NamesAreDistinct(v: Variable, w: Variable)
    ensures Name(v) == Name(w) ==> v == w
  {
    AllWellNamed(v);
    AllWellNamed(w);
    CodesAreDistinct(v, w);
  }

  lemma CodesAreDistinct(v: Variable, w: Variable)
    ensures Code(v) == Code(w) ==> v == w
  {
  }

  predicate NewlineFreeAll(parts: seq<string>) {
    forall k :: 0 <= k < |parts| ==> '\n' !in parts[k]
  }

  predicate NewlineFree(i: Input) {
    && '\n' !in i.provider && '\n' !in i.vpnType && '\n' !in i.username && '\n' !in i.password && '\n' !in i.privateKey
    && (i.server.Some? ==>
          && NewlineFreeAll(i.server.value.regions) && NewlineFreeAll(i.server.value.countries)
          && NewlineFreeAll(i.server.value.cities) && NewlineFreeAll(i.server.value.hostnames))
    && (i.firewall.Some? ==> NewlineFreeAll(i.firewall.value.outboundSubnets))
    && (i.dns.Some? ==> '\n' !in i.dns.value.plaintextAddress)
    && (i.logLevel.Some? ==> '\n' !in i.logLevel.value)
  }

  lemma {:induction false} JoinIsNewlineFree(parts: seq<string>)
    requires NewlineFreeAll(parts)
    ensures '\n' !in Join(parts)
  {
    if |parts| > 1 { JoinIsNewlineFree(parts[1..]); }
  }

  lemma {:induction false} DigitsAreNewlineFree(n: nat)
    ensures '\n' !in Digits(n)
  {
    if n >= 10 { DigitsAreNewlineFree(n / 10); }
  }

  lemma JoinIntsIsNewlineFree(ns: seq<int>)
    ensures '\n' !in JoinInts(ns)
  {
    var parts := seq(|ns|, i requires 0 <= i < |ns| => Decimal(ns[i]));
    forall k | 0 <= k < |parts| ensures '\n' !in parts[k] {
      DigitsAreNewlineFree(if ns[k] < 0 then -ns[k] else ns[k]);
    }
    JoinIsNewlineFree(parts);
  }

  lemma ValuesAreSafe(i: Input, v: Variable)
    requires NewlineFree(i) && Value(i, v).Some?
    ensures '\n' !in Value(i, v).value
  {
    if i.server.Some? {
      JoinIsNewlineFree(i.server.value.regions);
      JoinIsNewlineFree(i.server.value.countries);
      JoinIsNewlineFree(i.server.value.cities);
      JoinIsNewlineFree(i.server.value.hostnames);
    }
    if i.firewall.Some? {
      JoinIntsIsNewlineFree(i.firewall.value.vpnInputPorts);
      JoinIntsIsNewlineFree(i.firewall.value.inputPorts);
      JoinIsNewlineFree(i.firewall.value.outboundSubnets);
    }
  }

  /** Whatever the input the names print safely, and if the input holds no newline so do the values. */
  lemma GluetunEnvIsSafe(i: Input, env: map<Variable, string>, spelled: Env)
    requires IsGluetunEnv(i, env) && Spells(env, spelled)
    ensures SafeKeys(spelled) && (NewlineFree(i) ==> SafeValues(spelled))
  {
    forall k | k in spelled ensures '=' !in k && '\n' !in k && (NewlineFree(i) ==> '\n' !in spelled[k]) {
      var v :| v in env && Name(v) == k;
      AllWellNamed(v);
      if NewlineFree(i) { ValuesAreSafe(i, v); }
    }
  }

  /**
   * The change detector: for inputs without a newline the hashed text changes exactly when the value of some
   * variable does.
   */
  lemma HashedTextTracksVariables(i: Input, j: Input, envI: map<Variable, string>, envJ: map<Variable, string>,
                                  spelledI: Env, spelledJ: Env, textI: string, textJ: string)
    requires NewlineFree(i) && NewlineFree(j) && IsGluetunEnv(i, envI) && IsGluetunEnv(j, envJ)
    requires Spells(envI, spelledI) && Spells(envJ, spelledJ) && IsText(spelledI, textI) && IsText(spelledJ, textJ)
    ensures textI == textJ <==> forall v :: Value(i, v) == Value(j, v)
  {
    GluetunEnvIsSafe(i, envI, spelledI);
    GluetunEnvIsSafe(j, envJ, spelledJ);
    TextDecidesEquality(spelledI, spelledJ, textI, textJ);
    SpellingKeeps(envI, envJ, spelledI, spelledJ);
    assert envI == envJ <==> forall v :: Value(i, v) == Value(j, v) by {
      SameVariables(i, j, envI, envJ);
    }
  }

  lemma SpellingKeeps(a: map<Variable, string>, b: map<Variable, string>, spelledA: Env, spelledB: Env)
    requires Spells(a, spelledA) && Spells(b, spelledB)
    ensures spelledA == spelledB <==> a == b
  {
    if spelledA == spelledB {
      forall v ensures (v in a <==> v in b) && (v in a ==> a[v] == b[v]) {
        SpelledOnce(a, spelledA, v);
        SpelledOnce(b, spelledB, v);
      }
    } else if a == b {
      forall k ensures (k in spelledA <==> k in spelledB) && (k in spelledA ==> spelledA[k] == spelledB[k]) {}
      assert false;
    }
  }

  lemma SpelledOnce(env: map<Variable, string>, spelled: Env, v: Variable)
    requires Spells(env, spelled)
    ensures v in env <==> Name(v) in spelled
    ensures v in env ==> env[v] == spelled[Name(v)]
  {
    if Name(v) in spelled {
      var w :| w in env && Name(w) == Name(v);
      NamesAreDistinct(v, w);
    }
  }

  lemma SameVariables(i: Input, j: Input, envI: map<Variable, string>, envJ: map<Variable, string>)
    requires IsGluetunEnv(i, envI) && IsGluetunEnv(j, envJ)
    ensures envI == envJ <==> forall v :: Value(i, v) == Value(j, v)
  {
    if envI == envJ {
      forall v ensures Value(i, v) == Value(j, v) {}
    }
    if forall v :: Value(i, v) == Value(j, v) {
      forall v ensures (v in envI <==> v in envJ) && (v in envI ==> envI[v] == envJ[v]) {
        assert Value(i, v) == Value(j, v);
      }
    }
  }

  // ----- What is set, in the container's own terms -----

  ghost predicate Sets(spelled: Env, name: string, value: Option<string>) {
    if value.Some? then name in spelled && spelled[name] == value.value else name !in spelled
  }

  /** The parts with a comma between one and the next. */
  ghost predicate IsCommaList(text: string, parts: seq<string>)
    decreases parts
  {
    if parts == [] then text == ""
    else if |parts| == 1 then text == parts[0]
    else parts[0] + "," <= text && IsCommaList(text[|parts[0]| + 1..], parts[1..])
  }

  lemma {:induction false} JoinIsCommaList(parts: seq<string>)
    ensures IsCommaList(Join(parts), parts)
  {
    if |parts| > 1 {
      JoinIsCommaList(parts[1..]);
      assert Join(parts)[..|parts[0]| + 1] == parts[0] + ",";
      assert Join(parts)[|parts[0]| + 1..] == Join(parts[1..]);
    }
  }

  /** Reading decimal digits, most significant first. */
  function Numeral(s: string): int {
    if s == "" then 0 else 10 * Numeral(s[..|s| - 1]) + (s[|s| - 1] as int - '0' as int)
  }

  /** The shortest decimal numeral of `n`. */
  ghost predicate IsDecimal(s: string, n: int) {
    if n < 0 then s != "" && s[0] == '-' && IsDecimal(s[1..], -n)
    else
      && s != "" && Numeral(s) == n && (|s| > 1 ==> s[0] != '0')
      && forall k :: 0 <= k < |s| ==> '0' <= s[k] <= '9'
  }

  lemma {:induction false} DigitsReadBack(n: nat)
    ensures IsDecimal(Digits(n), n) && (n > 0 ==> Digits(n)[0] != '0')
  {
    if n >= 10 {
      DigitsReadBack(n / 10);
      assert Digits(n)[..|Digits(n)| - 1] == Digits(n / 10);
    } else {
      assert Digits(n)[..0] == "";
    }
  }

  lemma DecimalReadsBack(n: int)
    ensures IsDecimal(Decimal(n), n)
  {
    DigitsReadBack(if n < 0 then -n else n);
    if n < 0 { assert Decimal(n)[1..] == Digits(-n); }
  }

  /** The decimal numerals of the ports with a comma between one and the next. */
  ghost predicate IsPortList(text: string, ports: seq<int>) {
    exists parts: seq<string> :: |parts| == |ports| && IsCommaList(text, parts)
                                 && forall k :: 0 <= k < |ports| ==> IsDecimal(parts[k], ports[k])
  }

  lemma JoinIntsIsPortList(ports: seq<int>)
    ensures IsPortList(JoinInts(ports), ports)
  {
    var parts := seq(|ports|, i requires 0 <= i < |ports| => Decimal(ports[i]));
    JoinIsCommaList(parts);
    forall k | 0 <= k < |ports| ensures IsDecimal(parts[k], ports[k]) { DecimalReadsBack(ports[k]); }
  }

  lemma SetsByName(i: Input, env: map<Variable, string>, spelled: Env, v: Variable)
    requires IsGluetunEnv(i, env) && Spells(env, spelled)
    ensures Sets(spelled, Name(v), Value(i, v))
  {
    SpelledOnce(env, spelled, v);
  }

  /** Provider, credentials and logging: a WireGuard connection has a key, any other one a user name and a password. */
  lemma CredentialsInFull(i: Input, env: map<Variable, string>, spelled: Env)
    requires IsGluetunEnv(i, env) && Spells(env, spelled)
    ensures Sets(spelled, "VPN_SERVICE_PROVIDER", Some(i.provider)) && Sets(spelled, "VPN_TYPE", Some(i.vpnType))
    ensures i.vpnType == "wireguard" ==>
              && Sets(spelled, "WIREGUARD_PRIVATE_KEY", if i.privateKey == "" then None else Some(i.privateKey))
              && Sets(spelled, "OPENVPN_USER", None) && Sets(spelled, "OPENVPN_PASSWORD", None)
    ensures i.vpnType != "wireguard" ==>
              && Sets(spelled, "WIREGUARD_PRIVATE_KEY", None)
              && Sets(spelled, "OPENVPN_USER", if i.username == "" then None else Some(i.username))
              && Sets(spelled, "OPENVPN_PASSWORD", if i.password == "" then None else Some(i.password))
    ensures Sets(spelled, "LOG_LEVEL", if i.logLevel == Some("") then None else i.logLevel)
  {
    SetsByName(i, env, spelled, VpnServiceProvider);
    SetsByName(i, env, spelled, VpnType);
    SetsByName(i, env, spelled, WireguardPrivateKey);
    SetsByName(i, env, spelled, OpenvpnUser);
    SetsByName(i, env, spelled, OpenvpnPassword);
    SetsByName(i, env, spelled, LogLevel);
  }

  /** The switches: some are "on" or "off" if given, others "on" or not set. */
  lemma SwitchesInFull(i: Input, env: map<Variable, string>, spelled: Env)
    requires IsGluetunEnv(i, env) && Spells(env, spelled)
    ensures Sets(spelled, "BLOCK_WITHOUT_VPN",
                 if i.killSwitch == Some(true) then Some("on") else if i.killSwitch == Some(false) then Some("off")
                 else None)
    ensures Sets(spelled, "OPENVPN_IPV6",
                 if i.ipv6 == Some(true) then Some("on") else if i.ipv6 == Some(false) then Some("off") else None)
    ensures Sets(spelled, "FIREWALL_DEBUG", if i.firewall.Some? && i.firewall.value.debug then Some("on") else None)
  {
    SetsByName(i, env, spelled, BlockWithoutVpn);
    SetsByName(i, env, spelled, OpenvpnIpv6);
    SetsByName(i, env, spelled, FirewallDebug);
  }

  lemma DnsInFull(i: Input, env: map<Variable, string>, spelled: Env)
    requires IsGluetunEnv(i, env) && Spells(env, spelled)
    ensures Sets(spelled, "DOT",
                 if i.dns.None? then None else if i.dns.value.overTLS then Some("on") else Some("off"))
    ensures Sets(spelled, "DNS_PLAINTEXT_ADDRESS",
                 if i.dns.None? || i.dns.value.plaintextAddress == "" then None
                 else Some(i.dns.value.plaintextAddress))
    ensures Sets(spelled, "DNS_KEEP_NAMESERVER",
                 if i.dns.Some? && i.dns.value.keepNameserver then Some("on") else None)
  {
    SetsByName(i, env, spelled, Dot);
    SetsByName(i, env, spelled, DnsPlaintextAddress);
    SetsByName(i, env, spelled, DnsKeepNameserver);
  }

  ghost predicate SetsList(spelled: Env, name: string, parts: seq<string>) {
    if parts == [] then name !in spelled else name in spelled && IsCommaList(spelled[name], parts)
  }

  ghost predicate SetsPorts(spelled: Env, name: string, ports: seq<int>) {
    if ports == [] then name !in spelled else name in spelled && IsPortList(spelled[name], ports)
  }

  lemma ListByName(i: Input, env: map<Variable, string>, spelled: Env, v: Variable, parts: seq<string>)
    requires IsGluetunEnv(i, env) && Spells(env, spelled) && Value(i, v) == IfAny(parts)
    ensures SetsList(spelled, Name(v), parts)
  {
    SetsByName(i, env, spelled, v);
    JoinIsCommaList(parts);
  }

  lemma PortsByName(i: Input, env: map<Variable, string>, spelled: Env, v: Variable, ports: seq<int>)
    requires IsGluetunEnv(i, env) && Spells(env, spelled) && Value(i, v) == IfPorts(ports)
    ensures SetsPorts(spelled, Name(v), ports)
  {
    SetsByName(i, env, spelled, v);
    JoinIntsIsPortList(ports);
  }

  /** The lists: comma-separated if there is anything to list, and not set otherwise. */
  lemma ServerInFull(i: Input, env: map<Variable, string>, spelled: Env)
    requires IsGluetunEnv(i, env) && Spells(env, spelled)
    ensures SetsList(spelled, "SERVER_REGIONS", if i.server.Some? then i.server.value.regions else [])
    ensures SetsList(spelled, "SERVER_COUNTRIES", if i.server.Some? then i.server.value.countries else [])
    ensures SetsList(spelled, "SERVER_CITIES", if i.server.Some? then i.server.value.cities else [])
    ensures SetsList(spelled, "SERVER_HOSTNAMES", if i.server.Some? then i.server.value.hostnames else [])
  {
    ListByName(i, env, spelled, ServerRegions, if i.server.Some? then i.server.value.regions else []);
    ListByName(i, env, spelled, ServerCountries, if i.server.Some? then i.server.value.countries else []);
    ListByName(i, env, spelled, ServerCities, if i.server.Some? then i.server.value.cities else []);
    ListByName(i, env, spelled, ServerHostnames, if i.server.Some? then i.server.value.hostnames else []);
  }

  lemma FirewallInFull(i: Input, env: map<Variable, string>, spelled: Env)
    requires IsGluetunEnv(i, env) && Spells(env, spelled)
    ensures SetsList(spelled, "FIREWALL_OUTBOUND_SUBNETS",
                     if i.firewall.Some? then i.firewall.value.outboundSubnets else [])
    ensures SetsPorts(spelled, "FIREWALL_VPN_INPUT_PORTS",
                      if i.firewall.Some? then i.firewall.value.vpnInputPorts else [])
    ensures SetsPorts(spelled, "FIREWALL_INPUT_PORTS", if i.firewall.Some? then i.firewall.value.inputPorts else [])
  {
    ListByName(i, env, spelled, FirewallOutboundSubnets,
               if i.firewall.Some? then i.firewall.value.outboundSubnets else []);
    PortsByName(i, env, spelled, FirewallVpnInputPorts,
                if i.firewall.Some? then i.firewall.value.vpnInputPorts else []);
    PortsByName(i, env, spelled, FirewallInputPorts, if i.firewall.Some? then i.firewall.value.inputPorts else []);
  }

  // ----- From input to text -----

  /** The text that is hashed for an input. */
  ghost predicate IsTextOf(i: Input, text: string) {
    exists env, spelled :: IsGluetunEnv(i, env) && Spells(env, spelled) && IsText(spelled, text)
  }

  method SpellOut(env: map<Variable, string>) returns (spelled: Env)
    ensures Spells(env, spelled)
  {
    spelled := map[];
    var todo := env.Keys;
    while todo != {}
      invariant todo <= env.Keys
      invariant forall v :: v in env && v !in todo ==> Name(v) in spelled && spelled[Name(v)] == env[v]
      invariant forall k :: k in spelled ==> exists v :: v in env && Name(v) == k
    {
      var v := Pick(todo);
      forall w | w in env && w !in todo ensures Name(w) != Name(v) {
        NamesAreDistinct(w, v);
      }
      spelled := spelled[Name(v) := env[v]];
      todo := todo - {v};
    }
  }

  /** Generating, spelling out and printing: every input has a text, in whatever order the maps are walked. */
  method TextOf(i: Input) returns (text: string)
    ensures IsTextOf(i, text)
  {
    var env := GenerateGluetunEnv(i);
    var spelled := SpellOut(env);
    text := HashText(spelled);
  }

  /** For inputs without a newline the texts agree exactly if all variables do. */
  lemma TextsAgreeIff(i: Input, j: Input, textI: string, textJ: string)
    requires NewlineFree(i) && NewlineFree(j) && IsTextOf(i, textI) && IsTextOf(j, textJ)
    ensures textI == textJ <==> forall v :: Value(i, v) == Value(j, v)
  {
    var envI, spelledI :| IsGluetunEnv(i, envI) && Spells(envI, spelledI) && IsText(spelledI, textI);
    var envJ, spelledJ :| IsGluetunEnv(j, envJ) && Spells(envJ, spelledJ) && IsText(spelledJ, textJ);
    HashedTextTracksVariables(i, j, envI, envJ, spelledI, spelledJ, textI, textJ);
  }

  // ----- A change that goes unnoticed -----

  /** The password that swallows the line of the user name. */
  function Sneaky(i: Input): Input {
    i.(username := "", password := i.password + "\n" + Name(OpenvpnUser) + "=" + i.username)
  }

  lemma NameStarts(v: Variable)
    ensures Name(v) != "" && (Name(v)[0] == 'O' <==> v.OpenvpnUser? || v.OpenvpnPassword? || v.OpenvpnIpv6?)
  {
  }

  lemma OpenvpnNames()
    ensures Less("OPENVPN_IPV6", "OPENVPN_PASSWORD") && Less("OPENVPN_PASSWORD", "OPENVPN_USER")
  {
    assert "OPENVPN_IPV6" == "OPENVPN_" + "IPV6" && "OPENVPN_PASSWORD" == "OPENVPN_" + "PASSWORD" &&
        "OPENVPN_USER" == "OPENVPN_" + "USER";
    LessAfterPrefix("OPENVPN_", "IPV6", "PASSWORD");
    LessAfterPrefix("OPENVPN_", "PASSWORD", "USER");
    assert Less("IPV6", "PASSWORD") && Less("PASSWORD", "USER");
  }

  /** No variable comes between the password and the user name. */
  lemma NothingBetween(v: Variable)
    ensures !(Less(Name(OpenvpnPassword), Name(v)) && Less(Name(v), Name(OpenvpnUser)))
  {
    NameStarts(v);
    OpenvpnNames();
    LessTotal(Name(v), Name(OpenvpnPassword));
    LessTotal(Name(v), Name(OpenvpnUser));
    if Name(v)[0] != 'O' {
      NameStarts(OpenvpnPassword);
      NameStarts(OpenvpnUser);
    } else if v.OpenvpnIpv6? {
      assert Name(v) == "OPENVPN_IPV6";
    }
  }

  lemma SneakyEnv(i: Input, env: map<Variable, string>)
    requires i.vpnType != "wireguard" && i.username != "" && i.password != "" && IsGluetunEnv(i, env)
    ensures OpenvpnPassword in env && OpenvpnUser in env
    ensures IsGluetunEnv(Sneaky(i), MergedBy(Name, env, OpenvpnPassword, OpenvpnUser))
  {
    assert Value(i, OpenvpnPassword) == Some(i.password) && Value(i, OpenvpnUser) == Some(i.username);
    assert Sneaky(i).password != "";
    forall v | v != OpenvpnPassword && v != OpenvpnUser ensures Value(Sneaky(i), v) == Value(i, v) {}
  }

  lemma SneakyDiffers(i: Input)
    requires i.vpnType != "wireguard" && i.username != ""
    ensures Value(Sneaky(i), OpenvpnUser) == None && Value(i, OpenvpnUser) == Some(i.username)
  {
  }

  lemma PasswordNextToUser()
    ensures Neighbours(Name, OpenvpnPassword, OpenvpnUser)
  {
    forall v, w ensures Name(v) == Name(w) ==> v == w { NamesAreDistinct(v, w); }
    forall u ensures !(Less(Name(OpenvpnPassword), Name(u)) && Less(Name(u), Name(OpenvpnUser))) { NothingBetween(u); }
    OpenvpnNames();
  }

  lemma MergerHasText(env: map<Variable, string>, spelled: Env, text: string)
    requires OpenvpnPassword in env && OpenvpnUser in env && Spells(env, spelled) && IsText(spelled, text)
    ensures exists smaller ::
              Spells(MergedBy(Name, env, OpenvpnPassword, OpenvpnUser), smaller) && IsText(smaller, text)
  {
    PasswordNextToUser();
    MergeGoesUnnoticed(Name, env, spelled, OpenvpnPassword, OpenvpnUser, text);
  }

  lemma IsTextOfFrom(i: Input, env: map<Variable, string>, text: string)
    requires IsGluetunEnv(i, env) && exists spelled :: Spells(env, spelled) && IsText(spelled, text)
    ensures IsTextOf(i, text)
  {
  }

  /**
   * For every OpenVPN input with a user name and a password there is one without a user name, whose password
   * contains a newline, that has the very same text: switching between the two restarts nothing.
   */
  lemma PasswordHidesUser(i: Input, text: string)
    requires i.vpnType != "wireguard" && i.username != "" && i.password != "" && IsTextOf(i, text)
    ensures IsTextOf(Sneaky(i), text) && Value(Sneaky(i), OpenvpnUser) != Value(i, OpenvpnUser)
  {
    var env, spelled :| IsGluetunEnv(i, env) && Spells(env, spelled) && IsText(spelled, text);
    SneakyEnv(i, env);
    SneakyDiffers(i);
    MergerHasText(env, spelled, text);
    IsTextOfFrom(Sneaky(i), MergedBy(Name, env, OpenvpnPassword, OpenvpnUser), text);
  }
}
