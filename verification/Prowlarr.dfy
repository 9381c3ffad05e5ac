/**
 * The four resource types of the Prowlarr adapter: how a desired value is written as API
 * fields, how the fields are read back, and which values survive the round trip as far as
 * the adapter's comparer can see. Those that do not are asked for as an update for ever.
 */
module Prowlarr {
  import opened Common
  import opened Sync
  import Env

  datatype RType = Indexer | Proxy | Application | DownloadClient

  // ----- Field lists -----

  datatype Value = Text(text: string) | Number(number: int) | Flag(flag: bool) | Numbers(numbers: seq<int>)
  datatype Field = Field(name: string, value: Value)
  datatype VType = TText | TNumber | TFlag | TNumbers

  function TypeOf(v: Value): VType {
    match v
    case Text(_) => TText
    case Number(_) => TNumber
    case Flag(_) => TFlag
    case Numbers(_) => TNumbers
  }

  /** What reading the fields in order leaves for a name: the last value of the expected type. */
  function Last(fields: seq<Field>, name: string, ty: VType): (v: Option<Value>)
    ensures v.Some? ==> TypeOf(v.value) == ty
  {
    if fields == [] then None
    else
      var f := fields[|fields| - 1];
      if f.name == name && TypeOf(f.value) == ty then Some(f.value)
      else Last(fields[..|fields| - 1], name, ty)
  }

  function TextIn(fields: seq<Field>, name: string): string {
    var v := Last(fields, name, TText);
    if v.Some? then v.value.text else ""
  }

  function NumberIn(fields: seq<Field>, name: string): int {
    var v := Last(fields, name, TNumber);
    if v.Some? then v.value.number else 0
  }

  function FlagIn(fields: seq<Field>, name: string): bool {
    var v := Last(fields, name, TFlag);
    v.Some? && v.value.flag
  }

  function NumbersIn(fields: seq<Field>, name: string): seq<int> {
    var v := Last(fields, name, TNumbers);
    if v.Some? then v.value.numbers else []
  }

  predicate Special(name: string) {
    name == "baseUrl" || name == "apiKey"
  }

  /** The text fields an indexer keeps as settings: all but its base URL and API key. */
  function SettingsIn(fields: seq<Field>): map<string, string> {
    if fields == [] then map[]
    else
      var f, before := fields[|fields| - 1], SettingsIn(fields[..|fields| - 1]);
      if f.value.Text? && !Special(f.name) then before[f.name := f.value.text] else before
  }

  /** The fields in order, leaving out those that have no value to write. */
  function Collect(items: seq<(string, Option<Value>)>): seq<Field> {
    if items == [] then []
    else
      var (name, v), front := items[|items| - 1], Collect(items[..|items| - 1]);
      if v.Some? then front + [Field(name, v.value)] else front
  }

  function NonEmpty(text: string): Option<Value> {
    if text != "" then Some(Text(text)) else None
  }

  function Positive(n: int): Option<Value> {
    if n > 0 then Some(Number(n)) else None
  }

  predicate Once(items: seq<(string, Option<Value>)>, i: nat) {
    i < |items| && forall j :: 0 <= j < |items| && j != i ==> items[j].0 != items[i].0
  }

  /** A name written once is read back with its value. */
  lemma {:induction false} CollectedOnce(items: seq<(string, Option<Value>)>, i: nat, ty: VType)
    requires Once(items, i) && (items[i].1.Some? ==> TypeOf(items[i].1.value) == ty)
    ensures Last(Collect(items), items[i].0, ty) == items[i].1
  {
    var front := items[..|items| - 1];
    if i < |front| {
      CollectedOnce(front, i, ty);
      assert front[i] == items[i];
    } else {
      NotCollected(front, items[i].0, ty);
    }
    LastOfCollect(items, items[i].0, ty);
  }

  lemma {:induction false} NotCollected(items: seq<(string, Option<Value>)>, name: string, ty: VType)
    requires forall j :: 0 <= j < |items| ==> items[j].0 != name
    ensures Last(Collect(items), name, ty) == None
  {
    if items != [] {
      NotCollected(items[..|items| - 1], name, ty);
      LastOfCollect(items, name, ty);
    }
  }

  lemma LastOfCollect(items: seq<(string, Option<Value>)>, name: string, ty: VType)
    requires items != []
    ensures var item := items[|items| - 1];
            Last(Collect(items), name, ty) ==
            if item.0 == name && item.1.Some? && TypeOf(item.1.value) == ty then item.1
            else Last(Collect(items[..|items| - 1]), name, ty)
  {
    var front := Collect(items[..|items| - 1]);
    if items[|items| - 1].1.Some? {
      assert Collect(items)[..|Collect(items)| - 1] == front;
    }
  }

  // ----- Values and stored bodies -----

  datatype IR =
    | IndexerIR(definition: string, enable: bool, priority: int, baseURL: string, apiKey: string,
                settings: map<string, string>)
    | ProxyIR(ptype: string, host: string, port: int, username: string, password: string, timeout: int)
    | ApplicationIR(atype: string, prowlarrURL: string, url: string, appKey: string, syncLevel: string,
                    categories: seq<int>)
    | ClientIR(protocol: string, implementation: string, on: bool, rank: int, chost: string, cport: int, useTLS: bool,
               user: string, pass: string, category: string, directory: string)

  datatype Body =
    | IndexerBody(definitionName: string, enable: bool, priority: int, fields: seq<Field>)
    | ProxyBody(implementation: string, fields: seq<Field>)
    | ApplicationBody(implementation: string, syncLevel: string, fields: seq<Field>)
    | ClientBody(implementation: string, protocol: string, enable: bool, priority: int, fields: seq<Field>)

  predicate HasDefaults(atype: string) {
    atype == "radarr" || atype == "sonarr" || atype == "lidarr" || atype == "readarr"
  }

  function DefaultSyncCategories(atype: string): (r: seq<int>)
    ensures r != [] <==> HasDefaults(atype)
  {
    if atype == "radarr" then [2000, 2010, 2020, 2030, 2040, 2045, 2050, 2060]
    else if atype == "sonarr" then [5000, 5010, 5020, 5030, 5040, 5045, 5050]
    else if atype == "lidarr" then [3000, 3010, 3020, 3030, 3040]
    else if atype == "readarr" then [7000, 7010, 7020, 7030, 8000, 8010]
    else []
  }

  /** The categories written: those given, or the default ones of the type. */
  function Effective(categories: seq<int>, atype: string): seq<int> {
    if categories == [] then DefaultSyncCategories(atype) else categories
  }

  function AppTypeToImpl(t: string): string {
    match t
    case "radarr" => "Radarr"
    case "sonarr" => "Sonarr"
    case "lidarr" => "Lidarr"
    case "readarr" => "Readarr"
    case _ => t
  }

  function ImplToAppType(impl: string): string {
    match impl
    case "Radarr" => "radarr"
    case "Sonarr" => "sonarr"
    case "Lidarr" => "lidarr"
    case "Readarr" => "readarr"
    case _ => impl
  }

  function ProxyTypeToImpl(t: string): string {
    match t
    case "flaresolverr" => "FlareSolverr"
    case "http" => "HttpIndexerProxy"
    case "socks4" => "Socks4IndexerProxy"
    case "socks5" => "Socks5IndexerProxy"
    case _ => t
  }

  function ImplToProxyType(impl: string): string {
    match impl
    case "FlareSolverr" => "flaresolverr"
    case "HttpIndexerProxy" => "http"
    case "Socks4IndexerProxy" => "socks4"
    case "Socks5IndexerProxy" => "socks5"
    case _ => impl
  }

  function LowerChar(c: char): char {
    if 'A' <= c <= 'Z' then (c as int + 32) as char else c
  }

  function Lower(s: string): string {
    seq(|s|, i requires 0 <= i < |s| => LowerChar(s[i]))
  }

  function ImplFromClientType(t: string): string {
    match Lower(t)
    case "qbittorrent" => "QBittorrent"
    case "transmission" => "Transmission"
    case "deluge" => "Deluge"
    case "rtorrent" => "RTorrent"
    case "sabnzbd" => "Sabnzbd"
    case "nzbget" => "NzbGet"
    case _ => t
  }

  // ----- Writing -----

  /** The settings in the order `order` walks the map. */
  function SettingItems(settings: map<string, string>, order: seq<string>): seq<(string, Option<Value>)>
    requires forall k :: k in order ==> k in settings
  {
    if order == [] then []
    else
      var k := order[|order| - 1];
      SettingItems(settings, order[..|order| - 1]) + [(k, Some(Text(settings[k])))]
  }

  function IndexerItems(ir: IR, order: seq<string>): seq<(string, Option<Value>)>
    requires ir.IndexerIR? && forall k :: k in order ==> k in ir.settings
  {
    [("baseUrl", NonEmpty(ir.baseURL)), ("apiKey", NonEmpty(ir.apiKey))] + SettingItems(ir.settings, order)
  }

  function ProxyItems(ir: IR): seq<(string, Option<Value>)>
    requires ir.ProxyIR?
  {
    if ir.ptype == "flaresolverr" then
      [("host", Some(Text(ir.host))), ("requestTimeout", Positive(ir.timeout))]
    else
      [("host", NonEmpty(ir.host)), ("port", Positive(ir.port)), ("username", NonEmpty(ir.username)),
       ("password", NonEmpty(ir.password))]
  }

  function ApplicationItems(ir: IR): seq<(string, Option<Value>)>
    requires ir.ApplicationIR?
  {
    var categories := Effective(ir.categories, ir.atype);
    [("prowlarrUrl", NonEmpty(ir.prowlarrURL)), ("baseUrl", NonEmpty(ir.url)), ("apiKey", NonEmpty(ir.appKey)),
     ("syncCategories", if categories != [] then Some(Numbers(categories)) else None)]
  }

  function ClientItems(ir: IR): seq<(string, Option<Value>)>
    requires ir.ClientIR?
  {
    [("host", NonEmpty(ir.chost)), ("port", Positive(ir.cport)), ("useSsl", Some(Flag(ir.useTLS))),
     ("username", NonEmpty(ir.user)), ("password", NonEmpty(ir.pass)), ("category", NonEmpty(ir.category)),
     ("directory", NonEmpty(ir.directory))]
  }

  function BuildIndexer(ir: IR, order: seq<string>): Body
    requires ir.IndexerIR? && forall k :: k in order ==> k in ir.settings
  {
    IndexerBody(ir.definition, ir.enable, ir.priority, Collect(IndexerItems(ir, order)))
  }

  /** Only an indexer is written by walking a map. */
  function SettingKeys(ir: IR): set<string> {
    if ir.IndexerIR? then ir.settings.Keys else {}
  }

  function BuildInOrder(ir: IR, order: seq<string>): Body
    requires forall k :: k in order ==> k in SettingKeys(ir)
  {
    match ir
    case IndexerIR(_, _, _, _, _, settings) =>
      assert forall k :: k in SettingKeys(ir) ==> k in settings;
      BuildIndexer(ir, order)
    case ProxyIR(_, _, _, _, _, _) => ProxyBody(ProxyTypeToImpl(ir.ptype), Collect(ProxyItems(ir)))
    case ApplicationIR(_, _, _, _, _, _) => ApplicationBody(AppTypeToImpl(ir.atype), ir.syncLevel,
                                                            Collect(ApplicationItems(ir)))
    case ClientIR(_, _, _, _, _, _, _, _, _, _, _) =>
      ClientBody(ImplFromClientType(ir.implementation), ir.protocol, ir.on, ir.rank, Collect(ClientItems(ir)))
  }

  ghost function Build(ir: IR): Body {
    BuildInOrder(ir, SomeOrder(SettingKeys(ir)))
  }

  // ----- Reading back -----

  function Read(body: Body): IR {
    match body
    case IndexerBody(definition, enable, priority, fields) =>
      IndexerIR(definition, enable, priority, TextIn(fields, "baseUrl"), TextIn(fields, "apiKey"), SettingsIn(fields))
    case ProxyBody(impl, fields) =>
      ProxyIR(ImplToProxyType(impl), TextIn(fields, "host"), NumberIn(fields, "port"),
              TextIn(fields, "username"), TextIn(fields, "password"), NumberIn(fields, "requestTimeout"))
    case ApplicationBody(impl, syncLevel, fields) =>
      ApplicationIR(ImplToAppType(impl), TextIn(fields, "prowlarrUrl"), TextIn(fields, "baseUrl"),
                    TextIn(fields, "apiKey"), syncLevel, NumbersIn(fields, "syncCategories"))
    case ClientBody(impl, protocol, enable, priority, fields) =>
      ClientIR(protocol, Lower(impl), enable, priority, TextIn(fields, "host"), NumberIn(fields, "port"),
               FlagIn(fields, "useSsl"),
               TextIn(fields, "username"), TextIn(fields, "password"), TextIn(fields, "category"),
                   TextIn(fields, "directory"))
  }

  // ----- Comparing -----

  function At(m: map<string, string>, k: string): string {
    if k in m then m[k] else ""
  }

  predicate SameIndexer(a: IR, b: IR)
    requires a.IndexerIR? && b.IndexerIR?
  {
    && a.definition == b.definition && a.enable == b.enable && a.priority == b.priority && a.baseURL == b.baseURL
    && |a.settings| == |b.settings|
    && forall k :: k in a.settings ==> At(b.settings, k) == a.settings[k]
  }

  predicate SameApplication(a: IR, b: IR)
    requires a.ApplicationIR? && b.ApplicationIR?
  {
    && a.atype == b.atype && a.url == b.url && a.prowlarrURL == b.prowlarrURL && a.syncLevel == b.syncLevel
    && |a.categories| == |b.categories|
    && forall c :: c in b.categories ==> c in a.categories
  }

  predicate SameProxy(a: IR, b: IR)
    requires a.ProxyIR? && b.ProxyIR?
  {
    a.ptype == b.ptype && a.host == b.host && a.port == b.port && a.username == b.username && a.timeout == b.timeout
  }

  predicate SameClient(a: IR, b: IR)
    requires a.ClientIR? && b.ClientIR?
  {
    && a.protocol == b.protocol && a.implementation == b.implementation && a.on == b.on && a.rank == b.rank
    && a.chost == b.chost && a.cport == b.cport && a.useTLS == b.useTLS
    && a.user == b.user && a.category == b.category && a.directory == b.directory
  }

  predicate Same(current: IR, desired: IR) {
    match (current, desired)
    case (IndexerIR(_, _, _, _, _, _), IndexerIR(_, _, _, _, _, _)) => SameIndexer(current, desired)
    case (ProxyIR(_, _, _, _, _, _), ProxyIR(_, _, _, _, _, _)) => SameProxy(current, desired)
    case (ApplicationIR(_, _, _, _, _, _), ApplicationIR(_, _, _, _, _, _)) => SameApplication(current, desired)
    case (ClientIR(_, _, _, _, _, _, _, _, _, _, _), ClientIR(_, _, _, _, _, _, _, _, _, _, _)) => SameClient(current,
                                                                                                              desired)
    case _ => false
  }

  ghost function ProwlarrKind(): Kind<RType, IR, Body> {
    Kind(Build, Read, Same, (r: RType) => true)
  }

  /** The kind of an adapter that walks the settings in the order of their names. */
  function SortedKind(): Kind<RType, IR, Body> {
    Kind((p: IR) => BuildInOrder(p, Env.InOrder(SettingKeys(p))), Read, Same, (r: RType) => true)
  }

  // ----- Which values are stable -----

  predicate IsStable(ir: IR) {
    match ir
    case IndexerIR(_, _, _, _, _, settings) => "baseUrl" !in settings && "apiKey" !in settings
    case ProxyIR(t, _, port, username, _, timeout) =>
      && t !in {"FlareSolverr", "HttpIndexerProxy", "Socks4IndexerProxy", "Socks5IndexerProxy"}
      && if t == "flaresolverr" then port == 0 && username == "" && timeout >= 0 else port >= 0 && timeout == 0
    case ApplicationIR(t, _, _, _, _, categories) =>
      t !in {"Radarr", "Sonarr", "Lidarr", "Readarr"} && (categories != [] || !HasDefaults(t))
    case ClientIR(_, impl, _, _, _, port, _, _, _, _, _) => impl == Lower(impl) && port >= 0
  }

  lemma {:induction false} TextReadBack(head: seq<(string, Option<Value>)>, settings: map<string, string>,
                                        order: seq<string>, n: string)
    requires forall k :: k in order ==> k in settings
    ensures Last(Collect(head + SettingItems(settings, order)), n, TText) ==
            (if n in order then Some(Text(settings[n])) else Last(Collect(head), n, TText))
  {
    var items := head + SettingItems(settings, order);
    if order == [] {
      assert items == head;
    } else {
      TextReadBack(head, settings, order[..|order| - 1], n);
      assert items[..|items| - 1] == head + SettingItems(settings, order[..|order| - 1]);
      LastOfCollect(items, n, TText);
    }
  }

  lemma SettingsOfCollect(items: seq<(string, Option<Value>)>, front: seq<(string, Option<Value>)>, k: string,
                          v: string)
    requires items == front + [(k, Some(Text(v)))]
    ensures SettingsIn(Collect(items)) == if Special(k) then SettingsIn(Collect(front))
            else SettingsIn(Collect(front))[k := v]
  {
    assert items[..|items| - 1] == front;
    assert Collect(items) == Collect(front) + [Field(k, Text(v))];
    assert Collect(items)[..|Collect(items)| - 1] == Collect(front);
  }

  lemma {:induction false} SettingReadBack(head: seq<(string, Option<Value>)>, settings: map<string, string>,
                                           order: seq<string>, n: string)
    requires n !in SettingsIn(Collect(head)) && forall k :: k in order ==> k in settings
    ensures var read := SettingsIn(Collect(head + SettingItems(settings, order)));
            (n in read <==> n in order && !Special(n)) && (n in read ==> read[n] == settings[n])
  {
    var items := head + SettingItems(settings, order);
    if order == [] {
      assert items == head;
    } else {
      var front, k := order[..|order| - 1], order[|order| - 1];
      SettingReadBack(head, settings, front, n);
      assert items == (head + SettingItems(settings, front)) + [(k, Some(Text(settings[k])))];
      SettingsOfCollect(items, head + SettingItems(settings, front), k, settings[k]);
      assert n in order <==> n in front || n == k;
    }
  }

  lemma IndexerHead(ir: IR)
    requires ir.IndexerIR?
    ensures var head := [("baseUrl", NonEmpty(ir.baseURL)), ("apiKey", NonEmpty(ir.apiKey))];
            && SettingsIn(Collect(head)) == map[]
            && Last(Collect(head), "baseUrl", TText) == NonEmpty(ir.baseURL)
            && Last(Collect(head), "apiKey", TText) == NonEmpty(ir.apiKey)
  {
    var head := [("baseUrl", NonEmpty(ir.baseURL)), ("apiKey", NonEmpty(ir.apiKey))];
    CollectedOnce(head, 0, TText);
    CollectedOnce(head, 1, TText);
    IndexerHeadFields(ir);
    NothingSpecialKept(Collect(head));
  }

  lemma IndexerHeadFields(ir: IR)
    requires ir.IndexerIR?
    ensures Collect([("baseUrl", NonEmpty(ir.baseURL)), ("apiKey", NonEmpty(ir.apiKey))]) ==
            (if ir.baseURL != "" then [Field("baseUrl", Text(ir.baseURL))] else []) +
            (if ir.apiKey != "" then [Field("apiKey", Text(ir.apiKey))] else [])
  {
    var head := [("baseUrl", NonEmpty(ir.baseURL)), ("apiKey", NonEmpty(ir.apiKey))];
    var one := head[..1];
    assert one[..0] == [] && Collect(one) == if ir.baseURL != "" then [] + [Field("baseUrl", Text(ir.baseURL))] else [];
    assert Collect(head) == if ir.apiKey != "" then Collect(one) + [Field("apiKey", Text(ir.apiKey))] else Collect(one);
  }

  lemma {:induction false} NothingSpecialKept(fields: seq<Field>)
    requires forall i :: 0 <= i < |fields| ==> Special(fields[i].name)
    ensures SettingsIn(fields) == map[]
  {
    if fields != [] { NothingSpecialKept(fields[..|fields| - 1]); }
  }

  /** The two special names: a setting under one of them is written later, so it wins. */
  lemma IndexerTexts(ir: IR, order: seq<string>)
    requires ir.IndexerIR? && forall k :: k in order <==> k in ir.settings
    ensures var fields := Collect(IndexerItems(ir, order));
            && TextIn(fields, "baseUrl") == (if "baseUrl" in ir.settings then ir.settings["baseUrl"] else ir.baseURL)
            && TextIn(fields, "apiKey") == (if "apiKey" in ir.settings then ir.settings["apiKey"] else ir.apiKey)
  {
    IndexerHead(ir);
    var head := [("baseUrl", NonEmpty(ir.baseURL)), ("apiKey", NonEmpty(ir.apiKey))];
    TextReadBack(head, ir.settings, order, "baseUrl");
    TextReadBack(head, ir.settings, order, "apiKey");
  }

  lemma IndexerSettings(ir: IR, order: seq<string>)
    requires ir.IndexerIR? && forall k :: k in order <==> k in ir.settings
    ensures SettingsIn(Collect(IndexerItems(ir, order))) == ir.settings - {"baseUrl", "apiKey"}
  {
    IndexerHead(ir);
    var head := [("baseUrl", NonEmpty(ir.baseURL)), ("apiKey", NonEmpty(ir.apiKey))];
    var read, kept := SettingsIn(Collect(head + SettingItems(ir.settings, order))), ir.settings - {"baseUrl", "apiKey"};
    forall n ensures n in read <==> n in kept ensures n in read ==> read[n] == kept[n] {
      SettingReadBack(head, ir.settings, order, n);
    }
    assert read == kept;
  }

  lemma SameMembers(order: seq<string>, keys: set<string>)
    requires Elements(order) == keys
    ensures forall k :: k in order <==> k in keys
  {
    forall k ensures k in order <==> k in keys {
      assert k in order <==> k in Elements(order);
    }
  }

  /** What an indexer reads back as: settings under a special name have moved into its base URL or key. */
  lemma IndexerReadBack(ir: IR, order: seq<string>)
    requires ir.IndexerIR? && Elements(order) == ir.settings.Keys
    ensures forall k :: k in order <==> k in ir.settings
    ensures Read(BuildIndexer(ir, order)) ==
            ir.(baseURL := if "baseUrl" in ir.settings then ir.settings["baseUrl"] else ir.baseURL,
                apiKey := if "apiKey" in ir.settings then ir.settings["apiKey"] else ir.apiKey,
                settings := ir.settings - {"baseUrl", "apiKey"})
  {
    SameMembers(order, ir.settings.Keys);
    IndexerTexts(ir, order);
    IndexerSettings(ir, order);
  }

  lemma BuildOrderIrrelevant(ir: IR, order: seq<string>)
    requires ir.IndexerIR? && Elements(order) == ir.settings.Keys
    ensures forall k :: k in order ==> k in ir.settings
    ensures Read(BuildIndexer(ir, order)) == Back(ProwlarrKind(), ir)
  {
    IndexerReadBack(ir, order);
    IndexerReadBack(ir, SomeOrder(ir.settings.Keys));
  }

  lemma SortedKindIsAlike()
    ensures Alike(SortedKind(), ProwlarrKind())
  {
    forall p ensures Back(SortedKind(), p) == Back(ProwlarrKind(), p) {
      if p.IndexerIR? { BuildOrderIrrelevant(p, Env.InOrder(p.settings.Keys)); }
    }
  }

  lemma LowerImpl(t: string)
    ensures Lower(ImplFromClientType(t)) == Lower(t)
  {
    assert Lower("QBittorrent") == "qbittorrent" && Lower("Transmission") == "transmission" &&
        Lower("Deluge") == "deluge";
    assert Lower("RTorrent") == "rtorrent" && Lower("Sabnzbd") == "sabnzbd" && Lower("NzbGet") == "nzbget";
  }

  lemma IndexerStableIff(ir: IR)
    requires ir.IndexerIR?
    ensures Stable(ProwlarrKind(), ir) <==> IsStable(ir)
  {
    IndexerReadBack(ir, SomeOrder(ir.settings.Keys));
    DroppedSettings(ir.settings);
  }

  lemma DroppedSettings(settings: map<string, string>)
    ensures var kept := settings - {"baseUrl", "apiKey"};
            if "baseUrl" in settings || "apiKey" in settings then |kept| < |settings| else kept == settings
  {
    var kept := settings - {"baseUrl", "apiKey"};
    var dropped := settings.Keys * {"baseUrl", "apiKey"};
    assert settings.Keys == kept.Keys + dropped && kept.Keys !! dropped;
    assert |settings.Keys| == |kept.Keys| + |dropped|;
    assert "baseUrl" in settings || "apiKey" in settings ==> dropped != {};
  }

  lemma SolverItems(ir: IR)
    requires ir.ProxyIR? && ir.ptype == "flaresolverr"
    ensures var fields := Collect(ProxyItems(ir));
            Last(fields, "host", TText) == Some(Text(ir.host)) &&
                Last(fields, "requestTimeout", TNumber) == Positive(ir.timeout)
  {
    CollectedOnce(ProxyItems(ir), 0, TText);
    CollectedOnce(ProxyItems(ir), 1, TNumber);
  }

  lemma SolverLacks(ir: IR, name: string, ty: VType)
    requires ir.ProxyIR? && ir.ptype == "flaresolverr" && name != "host" && name != "requestTimeout"
    ensures Last(Collect(ProxyItems(ir)), name, ty) == None
  {
    NotCollected(ProxyItems(ir), name, ty);
  }

  lemma SolverReadBack(ir: IR)
    requires ir.ProxyIR? && ir.ptype == "flaresolverr"
    ensures var fields := Collect(ProxyItems(ir));
            && TextIn(fields, "host") == ir.host &&
                NumberIn(fields, "requestTimeout") == (if ir.timeout > 0 then ir.timeout else 0)
            && NumberIn(fields, "port") == 0 && TextIn(fields, "username") == "" && TextIn(fields, "password") == ""
  {
    SolverItems(ir);
    assert "port"[0] != "host"[0] && |"username"| == |"password"| == 8;
    SolverLacks(ir, "port", TNumber);
    SolverLacks(ir, "username", TText);
    SolverLacks(ir, "password", TText);
  }

  lemma PlainProxyReadBack(ir: IR)
    requires ir.ProxyIR? && ir.ptype != "flaresolverr"
    ensures var fields := Collect(ProxyItems(ir));
            && TextIn(fields, "host") == ir.host && NumberIn(fields, "port") == (if ir.port > 0 then ir.port else 0)
            && TextIn(fields, "username") == ir.username && TextIn(fields, "password") == ir.password
            && NumberIn(fields, "requestTimeout") == 0
  {
    var items := ProxyItems(ir);
    CollectedOnce(items, 0, TText);
    CollectedOnce(items, 1, TNumber);
    CollectedOnce(items, 2, TText);
    CollectedOnce(items, 3, TText);
    NotCollected(items, "requestTimeout", TNumber);
  }

  lemma ProxyReadBack(ir: IR)
    requires ir.ProxyIR?
    ensures Back(ProwlarrKind(), ir) ==
            ir.(ptype := ImplToProxyType(ProxyTypeToImpl(ir.ptype)),
                port := if ir.ptype != "flaresolverr" && ir.port > 0 then ir.port else 0,
                username := if ir.ptype != "flaresolverr" then ir.username else "",
                password := if ir.ptype != "flaresolverr" then ir.password else "",
                timeout := if ir.ptype == "flaresolverr" && ir.timeout > 0 then ir.timeout else 0)
  {
    if ir.ptype == "flaresolverr" { SolverReadBack(ir); } else { PlainProxyReadBack(ir); }
  }

  lemma ProxyStableIff(ir: IR)
    requires ir.ProxyIR?
    ensures Stable(ProwlarrKind(), ir) <==> IsStable(ir)
  {
    ProxyReadBack(ir);
  }

  lemma ApplicationFields(ir: IR)
    requires ir.ApplicationIR?
    ensures var fields := Collect(ApplicationItems(ir));
            && TextIn(fields, "prowlarrUrl") == ir.prowlarrURL && TextIn(fields, "baseUrl") == ir.url &&
                TextIn(fields, "apiKey") == ir.appKey
            && NumbersIn(fields, "syncCategories") == Effective(ir.categories, ir.atype)
  {
    var items := ApplicationItems(ir);
    ItemOfFour(items, 0, TText);
    ItemOfFour(items, 1, TText);
    ItemOfFour(items, 2, TText);
    ItemOfFour(items, 3, TNumbers);
  }

  /** Of four items with distinct names each is read back. */
  lemma ItemOfFour(items: seq<(string, Option<Value>)>, i: nat, ty: VType)
    requires |items| == 4 && i < 4 && (items[i].1.Some? ==> TypeOf(items[i].1.value) == ty)
    requires forall j, k :: 0 <= j < k < 4 ==> items[j].0 != items[k].0
    ensures Last(Collect(items), items[i].0, ty) == items[i].1
  {
    CollectedOnce(items, i, ty);
  }

  lemma ApplicationReadBack(ir: IR)
    requires ir.ApplicationIR?
    ensures Back(ProwlarrKind(), ir) ==
            ir.(atype := ImplToAppType(AppTypeToImpl(ir.atype)), categories := Effective(ir.categories, ir.atype))
  {
    ApplicationFields(ir);
  }

  lemma ApplicationStableIff(ir: IR)
    requires ir.ApplicationIR?
    ensures Stable(ProwlarrKind(), ir) <==> IsStable(ir)
  {
    ApplicationReadBack(ir);
  }

  lemma ClientConnectionReadBack(ir: IR)
    requires ir.ClientIR?
    ensures var fields := Collect(ClientItems(ir));
            && TextIn(fields, "host") == ir.chost && NumberIn(fields, "port") == (if ir.cport > 0 then ir.cport else 0)
            && FlagIn(fields, "useSsl") == ir.useTLS
  {
    var items := ClientItems(ir);
    CollectedOnce(items, 0, TText);
    CollectedOnce(items, 1, TNumber);
    CollectedOnce(items, 2, TFlag);
  }

  lemma ClientOptionsReadBack(ir: IR)
    requires ir.ClientIR?
    ensures var fields := Collect(ClientItems(ir));
            && TextIn(fields, "username") == ir.user && TextIn(fields, "password") == ir.pass
            && TextIn(fields, "category") == ir.category && TextIn(fields, "directory") == ir.directory
  {
    var items := ClientItems(ir);
    CollectedOnce(items, 3, TText);
    CollectedOnce(items, 4, TText);
    CollectedOnce(items, 5, TText);
    CollectedOnce(items, 6, TText);
  }

  lemma ClientReadBack(ir: IR)
    requires ir.ClientIR?
    ensures Back(ProwlarrKind(), ir) ==
            ir.(implementation := Lower(ir.implementation), cport := if ir.cport > 0 then ir.cport else 0)
  {
    ClientConnectionReadBack(ir);
    ClientOptionsReadBack(ir);
    LowerImpl(ir.implementation);
  }

  lemma ClientStableIff(ir: IR)
    requires ir.ClientIR?
    ensures Stable(ProwlarrKind(), ir) <==> IsStable(ir)
  {
    ClientReadBack(ir);
  }

  /** Exactly these values survive: for any other, every later reconcile asks for the same update again. */
  lemma StableIff(ir: IR)
    ensures Stable(ProwlarrKind(), ir) <==> IsStable(ir)
  {
    match ir
    case IndexerIR(_, _, _, _, _, _) => IndexerStableIff(ir);
    case ProxyIR(_, _, _, _, _, _) => ProxyStableIff(ir);
    case ApplicationIR(_, _, _, _, _, _) => ApplicationStableIff(ir);
    case ClientIR(_, _, _, _, _, _, _, _, _, _, _) => ClientStableIff(ir);
  }

  /** createIndexer and updateIndexer walk the settings in whatever order the map yields; it makes no difference. */
  method WriteIndexer(ir: IR) returns (body: Body)
    requires ir.IndexerIR?
    ensures Read(body) == Back(ProwlarrKind(), ir)
  {
    var fields: seq<Field> := [];
    if ir.baseURL != "" { fields := fields + [Field("baseUrl", Text(ir.baseURL))]; }
    if ir.apiKey != "" { fields := fields + [Field("apiKey", Text(ir.apiKey))]; }
    ghost var head := [("baseUrl", NonEmpty(ir.baseURL)), ("apiKey", NonEmpty(ir.apiKey))];
    ghost var order: seq<string> := [];
    IndexerHeadFields(ir);
    assert head + SettingItems(ir.settings, order) == head;
    var todo := ir.settings.Keys;
    while todo != {}
      invariant todo <= ir.settings.Keys && Elements(order) == ir.settings.Keys - todo
      invariant forall k :: k in order ==> k in Elements(order)
      invariant fields == Collect(head + SettingItems(ir.settings, order))
    {
      var k :| k in todo;
      fields := fields + [Field(k, Text(ir.settings[k]))];
      todo := todo - {k};
      ghost var longer := order + [k];
      assert longer[..|order|] == order;
      assert Elements(longer) == Elements(order) + {k};
      ghost var items := head + SettingItems(ir.settings, longer);
      assert items[..|items| - 1] == head + SettingItems(ir.settings, order);
      order := longer;
    }
    body := IndexerBody(ir.definition, ir.enable, ir.priority, fields);
    BuildOrderIrrelevant(ir, order);
  }

  /** getManagedIndexers, for one resource: later fields overwrite what earlier ones set. */
  method ReadIndexer(body: Body) returns (ir: IR)
    requires body.IndexerBody?
    ensures ir == Read(body)
  {
    var baseURL, apiKey, settings: map<string, string> := "", "", map[];
    for i := 0 to |body.fields|
      invariant baseURL == TextIn(body.fields[..i], "baseUrl") && apiKey == TextIn(body.fields[..i], "apiKey")
      invariant settings == SettingsIn(body.fields[..i])
    {
      var field := body.fields[i];
      assert body.fields[..i + 1][..i] == body.fields[..i];
      if field.value.Text? {
        match field.name
        case "baseUrl" => baseURL := field.value.text;
        case "apiKey" => apiKey := field.value.text;
        case _ => settings := settings[field.name := field.value.text];
      }
    }
    assert body.fields[..|body.fields|] == body.fields;
    ir := IndexerIR(body.definitionName, body.enable, body.priority, baseURL, apiKey, settings);
  }

  /** After a fully successful reconcile the next diff is empty exactly if every value it wrote is stable. */
  lemma ProwlarrConverges<K>(current: map<K, IR>, desired: map<K, IR>)
    ensures var kd := ProwlarrKind();
            Pending(kd, Target(kd, current, desired, Pending(kd, current, desired)), desired) == {} <==>
            forall k :: k in Pending(kd, current, desired) && k in desired ==> IsStable(desired[k])
  {
    ConvergesIffStable(ProwlarrKind(), current, desired);
    forall k | k in desired ensures Stable(ProwlarrKind(), desired[k]) <==> IsStable(desired[k]) {
      StableIff(desired[k]);
    }
  }

  // ----- What is written, in full -----

  lemma ApplicationInFull(ir: IR)
    requires ir.ApplicationIR?
    ensures var body, t := Build(ir), ir.atype;
            && body.ApplicationBody? && body.syncLevel == ir.syncLevel
            && body.implementation == (if t == "radarr" then "Radarr" else if t == "sonarr" then "Sonarr"
                                       else if t == "lidarr" then "Lidarr" else if t == "readarr" then "Readarr" else t)
            && TextIn(body.fields, "prowlarrUrl") == ir.prowlarrURL && TextIn(body.fields, "baseUrl") == ir.url
            && TextIn(body.fields, "apiKey") == ir.appKey
            && NumbersIn(body.fields, "syncCategories") ==
               if ir.categories != [] then ir.categories
               else if t == "radarr" then [2000, 2010, 2020, 2030, 2040, 2045, 2050, 2060]
               else if t == "sonarr" then [5000, 5010, 5020, 5030, 5040, 5045, 5050]
               else if t == "lidarr" then [3000, 3010, 3020, 3030, 3040]
               else if t == "readarr" then [7000, 7010, 7020, 7030, 8000, 8010] else []
  {
    ApplicationFields(ir);
  }

  lemma ProxyInFull(ir: IR)
    requires ir.ProxyIR?
    ensures var body, t := Build(ir), ir.ptype;
            && body.ProxyBody? && TextIn(body.fields, "host") == ir.host
            && body.implementation == (if t == "flaresolverr" then "FlareSolverr"
                                       else if t == "http" then "HttpIndexerProxy"
                                       else if t == "socks4" then "Socks4IndexerProxy"
                                       else if t == "socks5" then "Socks5IndexerProxy" else t)
            && (t == "flaresolverr" && ir.timeout > 0 ==> NumberIn(body.fields, "requestTimeout") == ir.timeout)
            && (t != "flaresolverr" ==>
                  && (ir.port > 0 ==> NumberIn(body.fields, "port") == ir.port)
                  && TextIn(body.fields, "username") == ir.username && TextIn(body.fields, "password") == ir.password)
  {
    if ir.ptype == "flaresolverr" { SolverReadBack(ir); } else { PlainProxyReadBack(ir); }
  }

  lemma ClientInFull(ir: IR)
    requires ir.ClientIR?
    ensures var body, t := Build(ir), Lower(ir.implementation);
            && body.ClientBody? && body.protocol == ir.protocol && body.enable == ir.on && body.priority == ir.rank
            && body.implementation == (if t == "qbittorrent" then "QBittorrent"
                                       else if t == "transmission" then "Transmission"
                                       else if t == "deluge" then "Deluge" else if t == "rtorrent" then "RTorrent"
                                       else if t == "sabnzbd" then "Sabnzbd" else if t == "nzbget" then "NzbGet"
                                       else ir.implementation)
            && TextIn(body.fields, "host") == ir.chost && (ir.cport > 0 ==> NumberIn(body.fields, "port") == ir.cport)
            && FlagIn(body.fields, "useSsl") == ir.useTLS && TextIn(body.fields, "username") == ir.user
            && TextIn(body.fields, "password") == ir.pass && TextIn(body.fields, "category") == ir.category
            && TextIn(body.fields, "directory") == ir.directory
  {
    ClientConnectionReadBack(ir);
    ClientOptionsReadBack(ir);
  }

  lemma IndexerInFull(ir: IR)
    requires ir.IndexerIR? && "baseUrl" !in ir.settings && "apiKey" !in ir.settings
    ensures var body := Build(ir);
            && body.IndexerBody? && body.definitionName == ir.definition && body.enable == ir.enable
            && body.priority == ir.priority
            && TextIn(body.fields, "baseUrl") == ir.baseURL && TextIn(body.fields, "apiKey") == ir.apiKey
            && forall k :: k in ir.settings ==> TextIn(body.fields, k) == ir.settings[k]
  {
    var order := SomeOrder(SettingKeys(ir));
    assert forall k :: k in order <==> k in ir.settings;
    IndexerReadBack(ir, order);
    var head := [("baseUrl", NonEmpty(ir.baseURL)), ("apiKey", NonEmpty(ir.apiKey))];
    forall k | k in ir.settings ensures TextIn(Build(ir).fields, k) == ir.settings[k] {
      TextReadBack(head, ir.settings, order, k);
    }
  }

  // ----- What the compiler feeds in -----

  function KnownOnly(categories: seq<string>, known: string -> Option<int>): seq<int> {
    if categories == [] then []
    else
      var id := known(categories[|categories| - 1]);
      KnownOnly(categories[..|categories| - 1], known) + if id.Some? then [id.value] else []
  }

  /** `known` stands for parsing a number or finding a category name in the table; anything else is dropped. */
  method ConvertCategories(categories: seq<string>, atype: string, known: string -> Option<int>) returns (ids: seq<int>)
    ensures categories == [] ==> ids == DefaultSyncCategories(atype)
    ensures categories != [] ==> ids == KnownOnly(categories, known)
  {
    if categories == [] {
      return DefaultSyncCategories(atype);
    }
    ids := [];
    for i := 0 to |categories|
      invariant ids == KnownOnly(categories[..i], known)
    {
      assert categories[..i + 1][..i] == categories[..i];
      var id := known(categories[i]);
      if id.Some? { ids := ids + [id.value]; }
    }
    assert categories[..|categories|] == categories;
  }

  /** Exactly the known categories are kept. */
  lemma {:induction false} KnownOnlyMembers(categories: seq<string>, known: string -> Option<int>, x: int)
    ensures x in KnownOnly(categories, known) <==>
            exists i :: 0 <= i < |categories| && known(categories[i]) == Some(x)
  {
    if categories != [] {
      var front, last := categories[..|categories| - 1], categories[|categories| - 1];
      KnownOnlyMembers(front, known, x);
      if i :| 0 <= i < |front| && known(front[i]) == Some(x) { assert known(categories[i]) == Some(x); }
      assert KnownOnly(categories, known) ==
             KnownOnly(front, known) + if known(last).Some? then [known(last).value] else [];
    }
  }

  /** And in the order given. */
  lemma {:induction false} KnownOnlyInOrder(categories: seq<string>, known: string -> Option<int>)
    requires forall i :: 0 <= i < |categories| ==> known(categories[i]).Some?
    ensures |KnownOnly(categories, known)| == |categories|
    ensures forall i :: 0 <= i < |categories| ==> known(categories[i]) == Some(KnownOnly(categories, known)[i])
  {
    if categories != [] {
      KnownOnlyInOrder(categories[..|categories| - 1], known);
    }
  }

  /** An application of an enumerated type converges unless its categories were given and all of them are unknown. */
  lemma {:induction false} CompiledApplicationStable(ir: IR, categories: seq<string>, known: string -> Option<int>)
    requires ir.ApplicationIR? && HasDefaults(ir.atype)
    requires ir.categories == if categories == [] then DefaultSyncCategories(ir.atype) else KnownOnly(categories, known)
    ensures IsStable(ir) <==> categories == [] || exists i :: 0 <= i < |categories| && known(categories[i]).Some?
  {
    KnownOnlyEmpty(categories, known);
  }

  lemma {:induction false} KnownOnlyEmpty(categories: seq<string>, known: string -> Option<int>)
    ensures KnownOnly(categories, known) == [] <==> forall i :: 0 <= i < |categories| ==> known(categories[i]).None?
  {
    if categories != [] {
      var front := categories[..|categories| - 1];
      KnownOnlyEmpty(front, known);
      assert forall i :: 0 <= i < |front| ==> front[i] == categories[i];
    }
  }

  lemma LowerTwice(s: string)
    ensures Lower(Lower(s)) == Lower(s)
  {
  }

  /** A compiled download client: its type is lower-cased, and its port comes from a URL. */
  function CompiledClient(ir: IR, clientType: string, port: nat): IR
    requires ir.ClientIR?
  {
    ir.(implementation := Lower(clientType), cport := port)
  }

  /** A compiled download client always converges. */
  lemma CompiledClientStable(ir: IR, clientType: string, port: nat)
    requires ir.ClientIR?
    ensures IsStable(CompiledClient(ir, clientType, port))
    ensures Stable(ProwlarrKind(), CompiledClient(ir, clientType, port))
  {
    LowerTwice(clientType);
    StableIff(CompiledClient(ir, clientType, port));
  }

  const DEFAULT_TIMEOUT := 60

  predicate IsProxyType(t: string) {
    t == "flaresolverr" || t == "http" || t == "socks4" || t == "socks5"
  }

  /**
   * A proxy as admitted to the cluster and then compiled: admission fills in a timeout that is not given, whatever
   * the type, and compilation one that is 0, for FlareSolverr.
   */
  function CompiledProxy(ir: IR, timeout: Option<int>): IR
    requires ir.ProxyIR?
  {
    var admitted := if timeout.Some? then timeout.value else DEFAULT_TIMEOUT;
    ir.(timeout := if ir.ptype == "flaresolverr" && admitted == 0 then DEFAULT_TIMEOUT else admitted)
  }

  /** Exactly which proxies converge; so none of type http or socks does unless its timeout is given as 0. */
  lemma CompiledProxyStableIff(ir: IR, timeout: Option<int>)
    requires ir.ProxyIR? && ir.ptype in {"flaresolverr", "http", "socks4", "socks5"}
    ensures Stable(ProwlarrKind(), CompiledProxy(ir, timeout)) <==>
            if ir.ptype == "flaresolverr" then ir.port == 0 && ir.username == "" &&
                (timeout.Some? ==> timeout.value >= 0)
            else ir.port >= 0 && timeout == Some(0)
  {
    StableIff(CompiledProxy(ir, timeout));
    ProxyTypesDiffer(ir.ptype);
  }

  lemma ProxyTypesDiffer(t: string)
    requires IsProxyType(t)
    ensures t !in {"FlareSolverr", "HttpIndexerProxy", "Socks4IndexerProxy", "Socks5IndexerProxy"}
  {
    assert t[0] in "fhs" && "FlareSolverr"[0] == 'F' && "HttpIndexerProxy"[0] == 'H' && "Socks4IndexerProxy"[0] == 'S';
    assert "Socks5IndexerProxy"[0] == 'S';
  }
}
