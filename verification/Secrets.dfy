/**
 * Secrets travel from the resolver, which reads them from the cluster, to the compiler, which
 * uses them, in one flat map keyed by secret name, slash, key.
 */
module Secrets {
  import opened Common

  /** The secrets of a namespace, by name and then by key. */
  type Cluster = map<string, map<string, string>>

  // ----- Paths -----

  function Path(name: string, key: string): string { name + "/" + key }

  predicate SlashFree(s: string) { '/' !in s }

  lemma PathsDiffer(n: string, k: string, m: string, j: string)
    requires SlashFree(m)
    ensures |n| < |m| ==> Path(n, k) != Path(m, j)
  {
    if |n| < |m| {
      assert Path(m, j)[|n|] == m[|n|] && Path(n, k)[|n|] == '/';
    }
  }

  lemma PathIsInjective(n: string, k: string, m: string, j: string)
    requires SlashFree(n) && SlashFree(m) && Path(n, k) == Path(m, j)
    ensures n == m && k == j
  {
    PathsDiffer(n, k, m, j);
    PathsDiffer(m, j, n, k);
    assert n == Path(n, k)[..|n|] && m == Path(m, j)[..|m|];
    assert k == Path(n, k)[|n| + 1..] && j == Path(m, j)[|m| + 1..];
  }

  /** A shorter name that shares a path with `n`. */
  ghost predicate Clashes(n: string, m: string) {
    |m| < |n| && exists k, j :: Path(n, k) == Path(m, j)
  }

  /** Slash-free names are exactly those that share a path with no shorter name. */
  lemma ClashIffSlash(n: string)
    ensures !SlashFree(n) <==> exists m :: Clashes(n, m)
  {
    if !SlashFree(n) {
      var i :| 0 <= i < |n| && n[i] == '/';
      var m, rest := n[..i], n[i + 1..];
      assert n == m + "/" + rest;
      assert Path(n, "") == Path(m, rest + "/");
      assert Clashes(n, m);
    } else if m :| Clashes(n, m) {
      var k, j :| Path(n, k) == Path(m, j);
      PathsDiffer(m, j, n, k);
    }
  }

  ghost predicate Named(cluster: Cluster) {
    forall n :: n in cluster ==> SlashFree(n)
  }

  ghost predicate Has(cluster: Cluster, name: string, key: string) {
    name in cluster && key in cluster[name]
  }

  /** Whatever the map holds for a secret is what the cluster holds for it. */
  ghost predicate PartialView(resolved: map<string, string>, cluster: Cluster) {
    forall n, k :: SlashFree(n) && Path(n, k) in resolved ==>
        Has(cluster, n, k) && resolved[Path(n, k)] == cluster[n][k]
  }

  /** The map holds the key of the secret, rightly. */
  ghost predicate Holds(resolved: map<string, string>, cluster: Cluster, name: string, key: string) {
    Has(cluster, name, key) && Path(name, key) in resolved && resolved[Path(name, key)] == cluster[name][key]
  }

  lemma AddPath(resolved: map<string, string>, cluster: Cluster, name: string, key: string)
    requires Named(cluster) && PartialView(resolved, cluster) && Has(cluster, name, key)
    ensures PartialView(resolved[Path(name, key) := cluster[name][key]], cluster)
    ensures Holds(resolved[Path(name, key) := cluster[name][key]], cluster, name, key)
    ensures forall n, k :: Holds(resolved, cluster, n, k) ==>
              Holds(resolved[Path(name, key) := cluster[name][key]], cluster, n, k)
  {
    forall n, k | SlashFree(n) && Path(n, k) == Path(name, key) ensures n == name && k == key {
      PathIsInjective(n, k, name, key);
    }
  }

  // ----- References -----

  function OrDefault(key: string, default: string): string { if key == "" then default else key }

  datatype CredentialsRef = CredentialsRef(name: string, usernameKey: string, passwordKey: string) {
    function Username(): string { OrDefault(usernameKey, "username") }
    function Password(): string { OrDefault(passwordKey, "password") }
  }

  datatype KeyRef = KeyRef(name: string, key: string) {
    function ApiKey(): string { OrDefault(key, "apiKey") }
    function Password(): string { OrDefault(key, "password") }
  }

  datatype ImportList = ImportList(settings: map<string, string>, secret: Option<string>)

  datatype Spec = Spec(connection: Option<KeyRef>, clients: seq<Option<CredentialsRef>>, prowlarr: bool,
                       direct: seq<Option<KeyRef>>,
                       lists: seq<ImportList>, auth: Option<KeyRef>)

  /** What later loops and the compiler rely on: nothing the map holds is lost. */
  ghost predicate Keeps(before: map<string, string>, after: map<string, string>, cluster: Cluster) {
    forall n, k :: Holds(before, cluster, n, k) ==> Holds(after, cluster, n, k)
  }

  /** The key of the connection, which alone has no secret's name before it, is as before. */
  ghost predicate KeepsKey(before: map<string, string>, after: map<string, string>) {
    ("apiKey" in after <==> "apiKey" in before) && ("apiKey" in after ==> after["apiKey"] == before["apiKey"])
  }

  lemma NoPathIsApiKey()
    ensures forall n, k :: Path(n, k) != "apiKey"
  {
    forall n, k ensures Path(n, k) != "apiKey" {
      assert Path(n, k)[|n|] == '/' && '/' !in "apiKey";
    }
  }

  ghost predicate HoldsCredentials(resolved: map<string, string>, cluster: Cluster, ref: Option<CredentialsRef>) {
    ref.Some? ==>
      && Holds(resolved, cluster, ref.value.name, ref.value.Username())
      && Holds(resolved, cluster, ref.value.name, ref.value.Password())
  }

  ghost predicate HoldsApiKey(resolved: map<string, string>, cluster: Cluster, ref: Option<KeyRef>) {
    ref.Some? ==> Holds(resolved, cluster, ref.value.name, ref.value.ApiKey())
  }

  ghost predicate HoldsConnectionKey(resolved: map<string, string>, cluster: Cluster, ref: KeyRef) {
    && Has(cluster, ref.name, ref.ApiKey())
    && "apiKey" in resolved && resolved["apiKey"] == cluster[ref.name][ref.ApiKey()]
  }

  ghost predicate HoldsSecret(resolved: map<string, string>, cluster: Cluster, list: ImportList) {
    list.secret.Some? ==> list.secret.value in cluster && forall k :: k in cluster[list.secret.value] ==>
        Holds(resolved, cluster, list.secret.value, k)
  }

  /** Everything the spec refers to has been resolved. */
  ghost predicate Resolved(resolved: map<string, string>, cluster: Cluster, spec: Spec) {
    && (forall i :: 0 <= i < |spec.clients| ==> HoldsCredentials(resolved, cluster, spec.clients[i]))
    && (forall i :: 0 <= i < |spec.direct| ==> HoldsApiKey(resolved, cluster, spec.direct[i]))
    && (forall i :: 0 <= i < |spec.lists| ==> HoldsSecret(resolved, cluster, spec.lists[i]))
    && (spec.auth.Some? ==> Holds(resolved, cluster, spec.auth.value.name, spec.auth.value.Password()))
  }

  // ----- The resolver -----

  /** The cluster holds the key of the secret, and `answers` when it is read. */
  ghost predicate Obtainable(cluster: Cluster, answers: string -> bool, name: string, key: string) {
    answers(name) && Has(cluster, name, key)
  }

  ghost predicate CredentialsThere(cluster: Cluster, answers: string -> bool, ref: Option<CredentialsRef>) {
    ref.Some? ==>
      && Obtainable(cluster, answers, ref.value.name, ref.value.Username())
      && Obtainable(cluster, answers, ref.value.name, ref.value.Password())
  }

  ghost predicate ApiKeyThere(cluster: Cluster, answers: string -> bool, ref: Option<KeyRef>) {
    ref.Some? ==> Obtainable(cluster, answers, ref.value.name, ref.value.ApiKey())
  }

  ghost predicate SecretThere(cluster: Cluster, answers: string -> bool, list: ImportList) {
    list.secret.Some? ==> answers(list.secret.value) && list.secret.value in cluster
  }

  /** Everything the spec refers to can be obtained. */
  ghost predicate AllThere(cluster: Cluster, answers: string -> bool, spec: Spec) {
    && ApiKeyThere(cluster, answers, spec.connection)
    && (forall i :: 0 <= i < |spec.clients| ==> CredentialsThere(cluster, answers, spec.clients[i]))
    && (forall i :: 0 <= i < |spec.direct| ==> ApiKeyThere(cluster, answers, spec.direct[i]))
    && (forall i :: 0 <= i < |spec.lists| ==> SecretThere(cluster, answers, spec.lists[i]))
    && (spec.auth.Some? ==> Obtainable(cluster, answers, spec.auth.value.name, spec.auth.value.Password()))
  }

  class Resolver {
    const cluster: Cluster
    const answers: string -> bool  // whether reading the secret of that name goes through
    var resolved: map<string, string>

    constructor (cluster: Cluster, answers: string -> bool)
      ensures this.cluster == cluster && this.answers == answers && resolved == map[]
    {
      this.cluster, this.answers, this.resolved := cluster, answers, map[];
    }

    ghost predicate Valid() reads this { Named(cluster) && PartialView(resolved, cluster) }

    /** The read may fail even if the secret exists. */
    method ResolveSecretValue(name: string, key: string) returns (value: Option<string>)
      ensures value.Some? <==> Obtainable(cluster, answers, name, key)
      ensures value.Some? ==> value.value == cluster[name][key]
    {
      if !answers(name) || name !in cluster || key !in cluster[name] { return None; }
      value := Some(cluster[name][key]);
    }

    /** Reads one key of one secret into the map. */
    method Resolve(name: string, key: string) returns (ok: bool)
      requires Valid()
      modifies this
      ensures Valid() && Keeps(old(resolved), resolved, cluster) && KeepsKey(old(resolved), resolved)
      ensures ok <==> Obtainable(cluster, answers, name, key)
      ensures if ok then Holds(resolved, cluster, name, key) else resolved == old(resolved)
    {
      var value := ResolveSecretValue(name, key);
      if value.None? { return false; }
      AddPath(resolved, cluster, name, key);
      NoPathIsApiKey();
      resolved := resolved[name + "/" + key := value.value];
      ok := true;
    }

    method ResolveConnectionSecrets(ref: Option<KeyRef>) returns (ok: bool)
      requires Valid()
      modifies this
      ensures Valid() && Keeps(old(resolved), resolved, cluster)
      ensures ok <==> ApiKeyThere(cluster, answers, ref)
      ensures ok && ref.Some? ==>
                HoldsConnectionKey(resolved, cluster, ref.value)
      ensures ref.None? ==> resolved == old(resolved)
    {
      if ref.Some? {
        var value := ResolveSecretValue(ref.value.name, ref.value.ApiKey());
        if value.None? { return false; }
        NoPathIsApiKey();
        resolved := resolved["apiKey" := value.value];
      }
      ok := true;
    }

    /** Of download clients; the loop over proxies is the same. */
    method ResolveDownloadClientSecrets(clients: seq<Option<CredentialsRef>>) returns (ok: bool)
      requires Valid()
      modifies this
      ensures Valid() && Keeps(old(resolved), resolved, cluster) && KeepsKey(old(resolved), resolved)
      ensures ok <==> forall i :: 0 <= i < |clients| ==> CredentialsThere(cluster, answers, clients[i])
      ensures ok ==> forall i :: 0 <= i < |clients| ==> HoldsCredentials(resolved, cluster, clients[i])
    {
      for i := 0 to |clients|
        invariant Valid() && Keeps(old(resolved), resolved, cluster) && KeepsKey(old(resolved), resolved)
        invariant forall j :: 0 <= j < i ==>
                    CredentialsThere(cluster, answers, clients[j]) && HoldsCredentials(resolved, cluster, clients[j])
      {
        if clients[i].Some? {
          ok := Resolve(clients[i].value.name, clients[i].value.Username());
          if !ok { return; }
          ok := Resolve(clients[i].value.name, clients[i].value.Password());
          if !ok { return; }
        }
      }
      ok := true;
    }

    /** Of direct indexers; the loops over Prowlarr's indexers and applications are the same. */
    method ResolveIndexerSecrets(indexers: seq<Option<KeyRef>>) returns (ok: bool)
      requires Valid()
      modifies this
      ensures Valid() && Keeps(old(resolved), resolved, cluster) && KeepsKey(old(resolved), resolved)
      ensures ok <==> forall i :: 0 <= i < |indexers| ==> ApiKeyThere(cluster, answers, indexers[i])
      ensures ok ==> forall i :: 0 <= i < |indexers| ==> HoldsApiKey(resolved, cluster, indexers[i])
    {
      for i := 0 to |indexers|
        invariant Valid() && Keeps(old(resolved), resolved, cluster) && KeepsKey(old(resolved), resolved)
        invariant forall j :: 0 <= j < i ==>
                    ApiKeyThere(cluster, answers, indexers[j]) && HoldsApiKey(resolved, cluster, indexers[j])
      {
        if indexers[i].Some? {
          ok := Resolve(indexers[i].value.name, indexers[i].value.ApiKey());
          if !ok { return; }
        }
      }
      ok := true;
    }

    /** All keys of one secret, in any order. */
    method ResolveWholeSecret(name: string) returns (ok: bool)
      requires Valid()
      modifies this
      ensures Valid() && Keeps(old(resolved), resolved, cluster) && KeepsKey(old(resolved), resolved)
      ensures ok <==> answers(name) && name in cluster
      ensures ok ==> name in cluster && forall k :: k in cluster[name] ==> Holds(resolved, cluster, name, k)
    {
      if !answers(name) || name !in cluster { return false; }
      var todo := cluster[name].Keys;
      while todo != {}
        invariant todo <= cluster[name].Keys && Valid() && Keeps(old(resolved), resolved, cluster)
        invariant KeepsKey(old(resolved), resolved)
        invariant forall k :: k in cluster[name] && k !in todo ==> Holds(resolved, cluster, name, k)
      {
        var key := Pick(todo);
        AddPath(resolved, cluster, name, key);
        NoPathIsApiKey();
        resolved := resolved[name + "/" + key := cluster[name][key]];
        todo := todo - {key};
      }
      ok := true;
    }

    method ResolveImportListSecrets(lists: seq<ImportList>) returns (ok: bool)
      requires Valid()
      modifies this
      ensures Valid() && Keeps(old(resolved), resolved, cluster) && KeepsKey(old(resolved), resolved)
      ensures ok <==> forall i :: 0 <= i < |lists| ==> SecretThere(cluster, answers, lists[i])
      ensures ok ==> forall i :: 0 <= i < |lists| ==> HoldsSecret(resolved, cluster, lists[i])
    {
      for i := 0 to |lists|
        invariant Valid() && Keeps(old(resolved), resolved, cluster) && KeepsKey(old(resolved), resolved)
        invariant forall j :: 0 <= j < i ==>
                    SecretThere(cluster, answers, lists[j]) && HoldsSecret(resolved, cluster, lists[j])
      {
        if lists[i].secret.Some? {
          ok := ResolveWholeSecret(lists[i].secret.value);
          if !ok { return; }
        }
      }
      ok := true;
    }

    /** All loops in the controller's order, each stopping the rest. Even a failed run leaves a partial view. */
    method ResolveAll(spec: Spec) returns (ok: bool)
      requires Valid()
      modifies this
      ensures Valid() && (ok ==> Resolved(resolved, cluster, spec))
      ensures ok <==> AllThere(cluster, answers, spec)
      ensures ok ==> if spec.connection.Some? then HoldsConnectionKey(resolved, cluster, spec.connection.value)
                     else KeepsKey(old(resolved), resolved)
    {
      ok := ResolveConnectionSecrets(spec.connection);
      if !ok { return; }
      ok := ResolveDownloadClientSecrets(spec.clients);
      if !ok { return; }
      ok := ResolveIndexerSecrets(spec.direct);
      if !ok { return; }
      ok := ResolveImportListSecrets(spec.lists);
      if !ok { return; }
      if spec.auth.Some? {
        ok := Resolve(spec.auth.value.name, spec.auth.value.Password());
      }
    }
  }

  // ----- The compiler -----

  function Lookup(resolved: map<string, string>, path: string): string {
    if path in resolved then resolved[path] else ""
  }

  method ConvertDownloadClients(clients: seq<Option<CredentialsRef>>, resolved: map<string, string>)
    returns (credentials: seq<(string, string)>)
    ensures |credentials| == |clients|
    ensures forall i :: 0 <= i < |clients| ==> credentials[i] == if clients[i].None? then ("", "") else
              (Lookup(resolved, Path(clients[i].value.name, clients[i].value.Username())),
               Lookup(resolved, Path(clients[i].value.name, clients[i].value.Password())))
  {
    credentials := [];
    for i := 0 to |clients|
      invariant |credentials| == i
      invariant forall j :: 0 <= j < i ==> credentials[j] == if clients[j].None? then ("", "") else
                  (Lookup(resolved, Path(clients[j].value.name, clients[j].value.Username())),
                   Lookup(resolved, Path(clients[j].value.name, clients[j].value.Password())))
    {
      var username, password := "", "";
      if clients[i].Some? {
        var prefix := clients[i].value.name + "/";
        var ref := clients[i].value;
        if prefix + ref.Username() in resolved { username := resolved[prefix + ref.Username()]; }
        if prefix + ref.Password() in resolved { password := resolved[prefix + ref.Password()]; }
      }
      credentials := credentials + [(username, password)];
    }
  }

  method ConvertIndexers(prowlarr: bool, direct: seq<Option<KeyRef>>,
                         resolved: map<string, string>) returns (apiKeys: seq<string>)
    ensures |apiKeys| == if prowlarr then 0 else |direct|
    ensures forall i :: 0 <= i < |apiKeys| ==>
              apiKeys[i] == if direct[i].None? then ""
                  else Lookup(resolved, Path(direct[i].value.name, direct[i].value.ApiKey()))
  {
    apiKeys := [];
    if prowlarr { return; }
    for i := 0 to |direct|
      invariant |apiKeys| == i
      invariant forall j :: 0 <= j < i ==>
                  apiKeys[j] == if direct[j].None? then ""
                      else Lookup(resolved, Path(direct[j].value.name, direct[j].value.ApiKey()))
    {
      var apiKey := "";
      if direct[i].Some? {
        var path := direct[i].value.name + "/" + direct[i].value.ApiKey();
        if path in resolved { apiKey := resolved[path]; }
      }
      apiKeys := apiKeys + [apiKey];
    }
  }

  /** The settings of `list` overlaid by what the map holds under its secret's name. */
  ghost predicate Overlaid(settings: map<string, string>, list: ImportList, resolved: map<string, string>) {
    if list.secret.None? then settings == list.settings
    else
      && (forall k :: k in settings <==> k in list.settings || Path(list.secret.value, k) in resolved)
      && (forall k :: k in settings ==>
            settings[k] == if Path(list.secret.value, k) in resolved then resolved[Path(list.secret.value, k)]
                else list.settings[k])
  }

  method ConvertImportList(list: ImportList, resolved: map<string, string>) returns (settings: map<string, string>)
    ensures Overlaid(settings, list, resolved)
  {
    settings := list.settings;
    if list.secret.None? { return; }
    var prefix := list.secret.value + "/";
    var todo := resolved.Keys;
    while todo != {}
      invariant todo <= resolved.Keys
      invariant forall k :: k in settings <==> k in list.settings || (prefix + k in resolved && prefix + k !in todo)
      invariant forall k :: k in settings ==>
                  settings[k] == if prefix + k in resolved && prefix + k !in todo then resolved[prefix + k]
                      else list.settings[k]
    {
      var key := Pick(todo);
      if prefix <= key {
        var settingKey := key[|prefix|..];
        assert key == prefix + settingKey;
        forall k | prefix + k == key ensures k == settingKey {
          assert k == (prefix + k)[|prefix|..];
        }
        settings := settings[settingKey := resolved[key]];
      } else {
        forall k ensures prefix + k != key {
          assert prefix <= prefix + k;
        }
      }
      todo := todo - {key};
    }
    forall k ensures prefix + k == Path(list.secret.value, k) {}
  }

  // ----- Agreement -----

  /** Settings end up as the spec's overlaid by the whole secret, in whatever order the map is walked. */
  lemma SettingsAreOverlaid(settings: map<string, string>, list: ImportList, resolved: map<string, string>,
                            cluster: Cluster)
    requires Named(cluster) && PartialView(resolved, cluster) && HoldsSecret(resolved, cluster, list)
    requires Overlaid(settings, list, resolved)
    ensures settings == if list.secret.Some? then list.settings + cluster[list.secret.value] else list.settings
  {
    if list.secret.Some? {
      var name := list.secret.value;
      forall k ensures Path(name, k) in resolved <==> k in cluster[name] {
        if k in cluster[name] { assert Holds(resolved, cluster, name, k); }
      }
      forall k | k in cluster[name] ensures resolved[Path(name, k)] == cluster[name][k] {
        assert Holds(resolved, cluster, name, k);
      }
    }
  }

  /** The secret can be read and has that key. */
  ghost predicate CanRead(cluster: Cluster, answers: string -> bool, name: string, key: string) {
    answers(name) && name in cluster && key in cluster[name]
  }

  /** Every reference can be read, under the key given or the default one. */
  ghost predicate AllReadable(cluster: Cluster, answers: string -> bool, spec: Spec) {
    && (spec.connection.Some? ==>
          var ref := spec.connection.value;
          CanRead(cluster, answers, ref.name, if ref.key != "" then ref.key else "apiKey"))
    && (forall i :: 0 <= i < |spec.clients| && spec.clients[i].Some? ==>
          var ref := spec.clients[i].value;
          && CanRead(cluster, answers, ref.name, if ref.usernameKey != "" then ref.usernameKey else "username")
          && CanRead(cluster, answers, ref.name, if ref.passwordKey != "" then ref.passwordKey else "password"))
    && (forall i :: 0 <= i < |spec.direct| && spec.direct[i].Some? ==>
          var ref := spec.direct[i].value;
          CanRead(cluster, answers, ref.name, if ref.key != "" then ref.key else "apiKey"))
    && (forall i :: 0 <= i < |spec.lists| && spec.lists[i].secret.Some? ==>
          answers(spec.lists[i].secret.value) && spec.lists[i].secret.value in cluster)
    && (spec.auth.Some? ==>
          var ref := spec.auth.value;
          CanRead(cluster, answers, ref.name, if ref.key != "" then ref.key else "password"))
  }

  lemma AllThereIffReadable(cluster: Cluster, answers: string -> bool, spec: Spec)
    ensures AllThere(cluster, answers, spec) <==> AllReadable(cluster, answers, spec)
  {
  }

  /** Resolving and compiling together: no consumer ever sees another's secret. */
  method ResolveAndConvert(cluster: Cluster, answers: string -> bool, spec: Spec)
    returns (ok: bool, connectionKey: string, credentials: seq<(string, string)>, apiKeys: seq<string>,
             settings: seq<map<string, string>>, password: string)
    requires Named(cluster)
    ensures ok <==> AllReadable(cluster, answers, spec)
    ensures ok ==>
              |credentials| == |spec.clients| && |settings| == |spec.lists| && |apiKeys| == if spec.prowlarr then 0
                  else |spec.direct|
    // Then everybody gets what their reference names.
    ensures ok && spec.connection.Some? ==>
              var ref := spec.connection.value;
              connectionKey == cluster[ref.name][if ref.key != "" then ref.key else "apiKey"]
    ensures ok ==> forall i :: 0 <= i < |spec.clients| && spec.clients[i].Some? ==>
                     var ref := spec.clients[i].value;
                     var username := if ref.usernameKey != "" then ref.usernameKey else "username";
                     var password := if ref.passwordKey != "" then ref.passwordKey else "password";
                     credentials[i] == (cluster[ref.name][username], cluster[ref.name][password])
    ensures ok ==> forall i :: 0 <= i < |apiKeys| && spec.direct[i].Some? ==>
                     var ref := spec.direct[i].value;
                     apiKeys[i] == cluster[ref.name][if ref.key != "" then ref.key else "apiKey"]
    ensures ok ==> forall i :: 0 <= i < |spec.lists| ==>
                     var list := spec.lists[i];
                     if list.secret.None? then settings[i] == list.settings
                     else list.secret.value in cluster && settings[i] == list.settings + cluster[list.secret.value]
    ensures ok && spec.auth.Some? ==>
              var ref := spec.auth.value;
              password == cluster[ref.name][if ref.key != "" then ref.key else "password"]
    // Without a reference, or if anything could not be resolved, there is no secret.
    ensures spec.connection.None? ==> connectionKey == ""
    ensures ok ==> forall i :: 0 <= i < |spec.clients| && spec.clients[i].None? ==> credentials[i] == ("", "")
    ensures ok ==> forall i :: 0 <= i < |apiKeys| && spec.direct[i].None? ==> apiKeys[i] == ""
    ensures spec.auth.None? ==> password == ""
    ensures !ok ==> connectionKey == "" && credentials == [] && apiKeys == [] && settings == [] && password == ""
  {
    connectionKey, credentials, apiKeys, settings, password := "", [], [], [], "";
    var resolver := new Resolver(cluster, answers);
    ok := resolver.ResolveAll(spec);
    AllThereIffReadable(cluster, answers, spec);
    if !ok { return; }
    var resolved := resolver.resolved;
    if "apiKey" in resolved { connectionKey := resolved["apiKey"]; }
    credentials := ConvertDownloadClients(spec.clients, resolved);
    apiKeys := ConvertIndexers(spec.prowlarr, spec.direct, resolved);
    for i := 0 to |spec.lists|
      invariant |settings| == i
      invariant forall j :: 0 <= j < i ==> Overlaid(settings[j], spec.lists[j], resolved)
    {
      var s := ConvertImportList(spec.lists[i], resolved);
      settings := settings + [s];
    }
    forall i | 0 <= i < |spec.lists| ensures var list := spec.lists[i];
             if list.secret.None? then settings[i] == list.settings
             else list.secret.value in cluster && settings[i] == list.settings + cluster[list.secret.value]
    {
      assert HoldsSecret(resolved, cluster, spec.lists[i]);
      SettingsAreOverlaid(settings[i], spec.lists[i], resolved, cluster);
    }
    if spec.auth.Some? {
      var path := spec.auth.value.name + "/" + spec.auth.value.Password();
      if path in resolved { password := resolved[path]; }
      assert Holds(resolved, cluster, spec.auth.value.name, spec.auth.value.Password());
    }
    forall i | 0 <= i < |spec.clients| ensures HoldsCredentials(resolved, cluster, spec.clients[i]) {}
    forall i | 0 <= i < |spec.direct| ensures HoldsApiKey(resolved, cluster, spec.direct[i]) {}
  }
}
