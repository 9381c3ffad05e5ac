/**
 * Reconciles of Prowlarr and of Lidarr: the controller's theorems with the resource types, the
 * field lists and the comparers of one adapter filled in.
 */
module Instances {
  import opened Common
  import opened Sync
  import opened Remote
  import opened ChangeSets
  import opened Reconcile
  import Prowlarr
  import Lidarr
  import Comparers

  type ProwlarrController = Controller<Prowlarr.RType, Prowlarr.IR, Prowlarr.Body>
  type LidarrController = Controller<Lidarr.RType, Lidarr.IR, Lidarr.Body>

  /** The settings and fields may be walked in any order: the kind need only read back like the one of the theory. */
  ghost predicate IsProwlarr(c: ProwlarrController) {
    && Alike(c.adapter.kd, Prowlarr.ProwlarrKind()) && c.adapter.client.ownPart && !c.adapter.client.carriesIds
    && c.adapter.types == [Prowlarr.Indexer, Prowlarr.Proxy, Prowlarr.Application, Prowlarr.DownloadClient]
  }

  ghost predicate IsLidarr(c: LidarrController, w: Lidarr.Wire) {
    && Alike(c.adapter.kd, Lidarr.LidarrKind(w)) && !c.adapter.client.ownPart && c.adapter.client.carriesIds
    && c.adapter.types == [Lidarr.Notification, Lidarr.CustomFormat]
  }

  method NewProwlarr(baseURL: string, server: Server<Prowlarr.RType, Prowlarr.Body>, cache: IdCache<Prowlarr.RType>)
    returns (c: ProwlarrController)
    ensures IsProwlarr(c) && c.adapter.client.baseURL == baseURL
    ensures c.adapter.server == server && c.adapter.cache == cache
  {
    Prowlarr.SortedKindIsAlike();
    var types := [Prowlarr.Indexer, Prowlarr.Proxy, Prowlarr.Application, Prowlarr.DownloadClient];
    var adapter := new Adapter(Prowlarr.SortedKind(), Client(baseURL, false, true), server, cache, types);
    c := new Controller(adapter);
  }

  method NewLidarr(baseURL: string, w: Lidarr.Wire, server: Server<Lidarr.RType, Lidarr.Body>,
                   cache: IdCache<Lidarr.RType>)
    returns (c: LidarrController)
    ensures IsLidarr(c, w) && c.adapter.client.baseURL == baseURL
    ensures c.adapter.server == server && c.adapter.cache == cache
  {
    Lidarr.SortedKindIsAlike(w);
    var types := [Lidarr.Notification, Lidarr.CustomFormat];
    var adapter := new Adapter(Lidarr.SortedKind(w), Client(baseURL, true, false), server, cache, types);
    c := new Controller(adapter);
  }

  /** The types are read one after the other, and none is forgotten. */
  lemma AllTypesRead()
    ensures forall r: Prowlarr.RType :: r in [Prowlarr.Indexer, Prowlarr.Proxy, Prowlarr.Application,
                                              Prowlarr.DownloadClient]
    ensures forall r: Lidarr.RType :: r in [Lidarr.Notification, Lidarr.CustomFormat]
  {
    var ps := [Prowlarr.Indexer, Prowlarr.Proxy, Prowlarr.Application, Prowlarr.DownloadClient];
    assert ps[0] in ps && ps[1] in ps && ps[2] in ps && ps[3] in ps;
    var ls := [Lidarr.Notification, Lidarr.CustomFormat];
    assert ls[0] in ls && ls[1] in ls;
    forall r: Prowlarr.RType ensures r in ps {
      match r case Indexer => case Proxy => case Application => case DownloadClient =>
    }
    forall r: Lidarr.RType ensures r in ls {
      match r case Notification => case CustomFormat =>
    }
  }

  /**
   * What the convergence of an instance needs: a service that answers, and owned names that are unique, if there is
   * a tag.
   */
  ghost predicate Answering<R(!new), P, B>(kd: Kind<R, P, B>, tag: Option<int>, st: Store<R, B>, env: Env<R>,
                                           env': Env<R>) {
    && Undisturbed(env) && Serves(env.answers) && Ensurable(tag, env.tag) && Undisturbed(env') && Reads(env'.answers)
    && (tag.Some? ==> UniqueNames(kd, tag.value, st))
  }

  /**
   * Two reconciles of a Prowlarr that answers: the first one does everything that is pending; the second finds nothing
   * to do, and changes nothing, if and only if every value the first one wrote is of the stable sort.
   */
  method ReconcileProwlarrTwice(c: ProwlarrController, desired: seq<(Key<Prowlarr.RType>, Prowlarr.IR)>,
                                env: Env<Prowlarr.RType>, env': Env<Prowlarr.RType>, status: ConfigStatus)
    returns (first: Outcome, second: Outcome, ghost seen: map<Key<Prowlarr.RType>, Prowlarr.IR>,
             ghost between: Store<Prowlarr.RType, Prowlarr.Body>)
    requires IsProwlarr(c) && c.adapter.server.Valid()
    requires Answering(c.adapter.kd, c.adapter.server.tag, c.adapter.server.store, env, env')
    modifies c.adapter.server, c.adapter.cache, status
    ensures seen == if old(c.adapter.server.tag).Some? then View(c.adapter.kd, old(c.adapter.server.tag).value,
                                                                 old(c.adapter.server.store)) else map[]
    ensures first == Finished(true, |Pending(c.adapter.kd, seen, Index(desired))|, 0)
    ensures second == Finished(true, 0, 0) <==>
              forall k :: k in Pending(c.adapter.kd, seen, Index(desired)) && k in Index(desired) ==>
                  Prowlarr.IsStable(Index(desired)[k])
    ensures second == Finished(true, 0, 0) ==> c.adapter.server.store == between
  {
    AllTypesRead();
    first, second, seen, between := c.ReconcileTwice(IR(Some(desired), []), env, env', status);
    forall k | k in Index(desired)
      ensures Stable(c.adapter.kd, Index(desired)[k]) <==> Prowlarr.IsStable(Index(desired)[k])
    {
      Prowlarr.StableIff(Index(desired)[k]);
    }
  }

  /** A custom format that a reconcile without a tag does not see: only the list of a tag's resources is read. */
  ghost predicate Unseen(tag: Option<int>, st: Store<Lidarr.RType, Lidarr.Body>, l: Loc<Lidarr.RType>) {
    tag.None? && l in st && st[l].key.rtype.CustomFormat?
  }

  /**
   * The same for the notifications and custom formats of a Lidarr. On one that does not have the tag yet, and holds no
   * custom format of a desired name, the second reconcile moreover finds nothing only if there was no custom format at
   * all, or nothing is desired: the first one creates the tag, and the second one deletes what was there before.
   */
  method ReconcileLidarrTwice(c: LidarrController, ghost w: Lidarr.Wire, desired: seq<(Key<Lidarr.RType>, Lidarr.IR)>,
                              env: Env<Lidarr.RType>, env': Env<Lidarr.RType>, status: ConfigStatus)
    returns (first: Outcome, second: Outcome, ghost seen: map<Key<Lidarr.RType>, Lidarr.IR>,
             ghost between: Store<Lidarr.RType, Lidarr.Body>)
    requires IsLidarr(c, w) && c.adapter.server.Valid()
    requires Answering(c.adapter.kd, c.adapter.server.tag, c.adapter.server.store, env, env')
    modifies c.adapter.server, c.adapter.cache, status
    ensures seen == if old(c.adapter.server.tag).Some? then View(c.adapter.kd, old(c.adapter.server.tag).value,
                                                                 old(c.adapter.server.store)) else map[]
    ensures first == Finished(true, |Pending(c.adapter.kd, seen, Index(desired))|, 0)
    ensures var tag, st, des := old(c.adapter.server.tag), old(c.adapter.server.store), Index(desired);
            (forall l :: Unseen(tag, st, l) ==> st[l].key !in des) ==>
              (second == Finished(true, 0, 0) <==>
                 && (des == map[] || forall l :: !Unseen(tag, st, l))
                 && forall k :: k in Pending(c.adapter.kd, seen, des) && k in des ==> Lidarr.IsStable(w, des[k]))
    ensures var tag, st, des := old(c.adapter.server.tag), old(c.adapter.server.store), Index(desired);
            des != map[] ==>
              forall l :: Unseen(tag, st, l) && st[l].key !in des ==>
                && second != Finished(true, 0, 0)
                && (second.Finished? && AloneUnderName(st, l) && env'.answers.writes(st[l].key) ==>
                      l !in c.adapter.server.store)
    ensures second == Finished(true, 0, 0) ==> c.adapter.server.store == between
  {
    AllTypesRead();
    ghost var tag, st, des := c.adapter.server.tag, c.adapter.server.store, Index(desired);
    first, second, seen, between := c.ReconcileTwice(IR(None, desired), env, env', status);
    forall k | k in des ensures Stable(c.adapter.kd, des[k]) <==> Lidarr.IsStable(w, des[k]) {
      Lidarr.StableIff(w, des[k]);
    }
    forall l ensures Unseen(tag, st, l) <==> Hidden(c.adapter.kd, tag, st, l) {}
    forall l | Unseen(tag, st, l) && st[l].key !in des && AloneUnderName(st, l) && env'.answers.writes(st[l].key)
      ensures Condemned(c.adapter.kd, tag, st, des, env'.answers, l) {}
  }

  // ----- What an error-free reconcile leaves -----

  /** A value read back agrees with the desired one in all that the service keeps, field by field. */
  ghost predicate ClientAs(r: Prowlarr.IR, d: Prowlarr.IR)
    requires d.ClientIR?
  {
    && r.ClientIR? && r.protocol == d.protocol && r.on == d.on && r.rank == d.rank && r.chost == d.chost
    && r.useTLS == d.useTLS && r.user == d.user && r.category == d.category && r.directory == d.directory
    && (d.cport >= 0 ==> r.cport == d.cport)
    && (Prowlarr.Lower(d.implementation) == d.implementation ==> r.implementation == d.implementation)
  }

  /** FlareSolverr keeps no port and no user name, the other types no timeout. */
  ghost predicate ProxyAs(r: Prowlarr.IR, d: Prowlarr.IR)
    requires d.ProxyIR?
  {
    && r.ProxyIR? && r.host == d.host
    && (d.ptype == "flaresolverr" ==> r.ptype == d.ptype && (d.timeout >= 0 ==> r.timeout == d.timeout))
    && (d.ptype in {"http", "socks4", "socks5"} ==>
          r.ptype == d.ptype && r.username == d.username && (d.port >= 0 ==> r.port == d.port))
  }

  ghost predicate ApplicationAs(r: Prowlarr.IR, d: Prowlarr.IR)
    requires d.ApplicationIR?
  {
    && r.ApplicationIR? && r.url == d.url && r.prowlarrURL == d.prowlarrURL && r.syncLevel == d.syncLevel
    && (d.atype in {"radarr", "sonarr", "lidarr", "readarr"} ==> r.atype == d.atype)
    && (d.categories != [] ==> |r.categories| == |d.categories| && forall c :: c in d.categories ==> c in r.categories)
  }

  /** Settings named like the base URL or API key move there, and an empty setting may hide that one is missing. */
  ghost predicate IndexerAs(r: Prowlarr.IR, d: Prowlarr.IR)
    requires d.IndexerIR?
  {
    && r.IndexerIR? && r.definition == d.definition && r.enable == d.enable && r.priority == d.priority
    && ("baseUrl" !in d.settings ==> r.baseURL == d.baseURL)
    && ("baseUrl" !in d.settings && "apiKey" !in d.settings && (forall k :: k in r.settings ==> r.settings[k] != "") ==>
          r.settings == d.settings)
  }

  ghost predicate ProwlarrAs(r: Prowlarr.IR, d: Prowlarr.IR) {
    match d
    case ClientIR(_, _, _, _, _, _, _, _, _, _, _) => ClientAs(r, d)
    case ProxyIR(_, _, _, _, _, _) => ProxyAs(r, d)
    case ApplicationIR(_, _, _, _, _, _) => ApplicationAs(r, d)
    case IndexerIR(_, _, _, _, _, _) => IndexerAs(r, d)
  }

  lemma WrittenOrSame(r: Prowlarr.IR, d: Prowlarr.IR)
    requires Prowlarr.Same(r, d) || r == Back(Prowlarr.ProwlarrKind(), d)
    ensures ProwlarrAs(r, d)
  {
    Comparers.ProwlarrSameDecides(r, d);
    match d
    case ClientIR(_, _, _, _, _, _, _, _, _, _, _) => Prowlarr.ClientReadBack(d);
    case ProxyIR(_, _, _, _, _, _) => Prowlarr.ProxyReadBack(d);
    case ApplicationIR(_, _, _, _, _, _) => Prowlarr.ApplicationReadBack(d);
    case IndexerIR(_, _, _, _, _, _) => IndexerWrittenOrSame(r, d);
  }

  lemma IndexerWrittenOrSame(r: Prowlarr.IR, d: Prowlarr.IR)
    requires d.IndexerIR? && (Prowlarr.Same(r, d) || r == Back(Prowlarr.ProwlarrKind(), d))
    ensures IndexerAs(r, d)
  {
    if Prowlarr.Same(r, d) {
      Comparers.SettingsEqualIff(r, d);
    } else {
      Prowlarr.IndexerReadBack(d, SomeOrder(d.settings.Keys));
      Prowlarr.DroppedSettings(d.settings);
    }
  }

  /** What carries the tag is exactly what is desired, and reads back as it is desired to be. */
  ghost predicate ProwlarrInSync(kd: Kind<Prowlarr.RType, Prowlarr.IR, Prowlarr.Body>, t: int,
                                 st: Store<Prowlarr.RType, Prowlarr.Body>, des: map<Key<Prowlarr.RType>, Prowlarr.IR>) {
    && (forall k :: k in des ==> exists l :: l in st && st[l].key == k && t in st[l].tags)
    && (forall l :: l in st && t in st[l].tags ==>
          st[l].key in des && ProwlarrAs(kd.read(st[l].body), des[st[l].key]))
  }

  /** A reconcile of a Prowlarr that ends in sync after complete reads. */
  method ReconcileProwlarr(c: ProwlarrController, desired: seq<(Key<Prowlarr.RType>, Prowlarr.IR)>,
                           env: Env<Prowlarr.RType>, status: ConfigStatus)
    returns (outcome: Outcome)
    requires IsProwlarr(c) && c.adapter.server.Valid() && Reads(env.answers)
    requires c.adapter.server.tag.Some? ==>
               UniqueNames(c.adapter.kd, c.adapter.server.tag.value, c.adapter.server.store)
    modifies c.adapter.server, c.adapter.cache, status
    ensures outcome.Finished? && outcome.synced && desired != [] ==> c.adapter.server.tag.Some?
    ensures outcome.Finished? && outcome.synced && c.adapter.server.tag.Some? ==>
              ProwlarrInSync(c.adapter.kd, c.adapter.server.tag.value, c.adapter.server.store, Index(desired))
  {
    AllTypesRead();
    ghost var seen, failed, st0, tag0 := map[], {}, c.adapter.server.store, c.adapter.server.tag;
    outcome, seen, failed := c.ReconcileConfig(IR(Some(desired), []), env, status);
    if outcome.Finished? && outcome.synced {
      InSyncHasTag(c.adapter.kd, desired, env, tag0, st0, c.adapter.server.tag, c.adapter.server.store, outcome, seen,
                   failed);
      if c.adapter.server.tag.Some? {
        ghost var t := c.adapter.server.tag.value;
        UniqueUnder(c.adapter.kd, tag0, st0, t);
        ProwlarrSettled(c.adapter.kd, t, Index(desired), st0, c.adapter.server.store, outcome.applied);
      }
    }
  }

  lemma ProwlarrSettled(kd: Kind<Prowlarr.RType, Prowlarr.IR, Prowlarr.Body>, t: int,
                        des: map<Key<Prowlarr.RType>, Prowlarr.IR>, st0: Store<Prowlarr.RType, Prowlarr.Body>,
                        st: Store<Prowlarr.RType, Prowlarr.Body>, applied: nat)
    requires Alike(kd, Prowlarr.ProwlarrKind()) && Settles(kd, t, des, st0, st, applied, {})
    ensures ProwlarrInSync(kd, t, st, des)
  {
    EndState(kd, t, des, st0, st, applied);
    forall k | k in des ensures exists l :: l in st && st[l].key == k && t in st[l].tags {
      assert Holds(kd, t, st, Locate(kd, t, st, k), k);
    }
    forall l | l in st && t in st[l].tags
      ensures st[l].key in des && ProwlarrAs(kd.read(st[l].body), des[st[l].key])
    {
      assert Holds(kd, t, st, l, st[l].key);
      WrittenOrSame(kd.read(st[l].body), des[st[l].key]);
    }
  }

  /** A custom format reads back as it is; a notification in its implementation, events and the fields that survive. */
  ghost predicate LidarrAs(w: Lidarr.Wire, r: Lidarr.IR, d: Lidarr.IR) {
    match d
    case CustomFormatIR(_, _) => r == d
    case NotificationIR(implementation, _, events, fields) =>
      && r.NotificationIR? && r.implementation == implementation && r.events == events
      && (forall n :: n in r.fields ==> n in fields)
      && forall n :: n in fields && n != "" && fields[n].Str? ==>
           n in r.fields && Lidarr.Show(w, r.fields[n]) == fields[n].text
  }

  lemma LidarrWrittenOrSame(w: Lidarr.Wire, r: Lidarr.IR, d: Lidarr.IR)
    requires Lidarr.Same(w, r, d) || r == Back(Lidarr.LidarrKind(w), d)
    ensures LidarrAs(w, r, d)
  {
    Comparers.LidarrSameDecides(w, r, d);
    if d.CustomFormatIR? {
      Lidarr.StableIff(w, d);
      Comparers.LidarrSameDecides(w, Back(Lidarr.LidarrKind(w), d), d);
    } else if r == Back(Lidarr.LidarrKind(w), d) {
      var order := SomeOrder(d.fields.Keys);
      forall n
        ensures n in r.fields <==> n in d.fields && n != "" && d.fields[n] != Lidarr.Null
        ensures n in r.fields ==> r.fields[n] == Lidarr.Carry(w, d.fields[n])
      {
        Lidarr.FieldReadBack(w, d.fields, order, n);
      }
    }
  }

  /** The tagged notifications and all custom formats are exactly what is desired, and read back so. */
  ghost predicate LidarrInSync(kd: Kind<Lidarr.RType, Lidarr.IR, Lidarr.Body>, w: Lidarr.Wire, t: int,
                               st: Store<Lidarr.RType, Lidarr.Body>, des: map<Key<Lidarr.RType>, Lidarr.IR>) {
    && (forall k :: k in des ==>
          exists l :: l in st && st[l].key == k && (k.rtype.Notification? ==> t in st[l].tags))
    && (forall l :: l in st && (st[l].key.rtype.CustomFormat? || t in st[l].tags) ==>
          st[l].key in des && LidarrAs(w, kd.read(st[l].body), des[st[l].key]))
  }

  /** A reconcile of a Lidarr that ends in sync after complete reads, unless there was no tag but a custom format. */
  method ReconcileLidarr(c: LidarrController, ghost w: Lidarr.Wire, desired: seq<(Key<Lidarr.RType>, Lidarr.IR)>,
                         env: Env<Lidarr.RType>, status: ConfigStatus)
    returns (outcome: Outcome)
    requires IsLidarr(c, w) && c.adapter.server.Valid() && Reads(env.answers)
    requires c.adapter.server.tag.Some? ==>
               UniqueNames(c.adapter.kd, c.adapter.server.tag.value, c.adapter.server.store)
    modifies c.adapter.server, c.adapter.cache, status
    ensures outcome.Finished? && outcome.synced && desired != [] ==> c.adapter.server.tag.Some?
    ensures outcome.Finished? && outcome.synced && c.adapter.server.tag.Some? &&
            (forall l :: !Unseen(old(c.adapter.server.tag), old(c.adapter.server.store), l)) ==>
              LidarrInSync(c.adapter.kd, w, c.adapter.server.tag.value, c.adapter.server.store, Index(desired))
  {
    AllTypesRead();
    ghost var seen, failed, st0, tag0 := map[], {}, c.adapter.server.store, c.adapter.server.tag;
    outcome, seen, failed := c.ReconcileConfig(IR(None, desired), env, status);
    if outcome.Finished? && outcome.synced {
      InSyncHasTag(c.adapter.kd, desired, env, tag0, st0, c.adapter.server.tag, c.adapter.server.store, outcome, seen,
                   failed);
      if c.adapter.server.tag.Some? && forall l :: !Unseen(tag0, st0, l) {
        ghost var t := c.adapter.server.tag.value;
        SeesAllOfLidarr(c.adapter.kd, w, tag0, st0, t);
        LidarrSettled(c.adapter.kd, w, t, Index(desired), st0, c.adapter.server.store, outcome.applied);
      }
    }
  }

  lemma SeesAllOfLidarr(kd: Kind<Lidarr.RType, Lidarr.IR, Lidarr.Body>, w: Lidarr.Wire, tag: Option<int>,
                        st: Store<Lidarr.RType, Lidarr.Body>, t: int)
    requires Alike(kd, Lidarr.LidarrKind(w)) && forall l :: !Unseen(tag, st, l)
    requires if tag.Some? then tag.value == t && UniqueNames(kd, t, st) else forall l :: l in st ==> t !in st[l].tags
    ensures UniqueNames(kd, t, st) && (tag.None? ==> NoneHidden(kd, st))
  {
    if tag.None? {
      forall l | l in st ensures kd.filtered(st[l].key.rtype) { assert !Unseen(tag, st, l); }
    }
    UniqueUnder(kd, tag, st, t);
  }

  lemma OwnedByLidarr(kd: Kind<Lidarr.RType, Lidarr.IR, Lidarr.Body>, w: Lidarr.Wire, t: int,
                      r: Resource<Lidarr.RType, Lidarr.Body>)
    requires Alike(kd, Lidarr.LidarrKind(w))
    ensures Owned(kd, t, r) <==> r.key.rtype.CustomFormat? || t in r.tags
  {
  }

  lemma LidarrValue(kd: Kind<Lidarr.RType, Lidarr.IR, Lidarr.Body>, w: Lidarr.Wire, r: Lidarr.IR, d: Lidarr.IR)
    requires Alike(kd, Lidarr.LidarrKind(w)) && (kd.same(r, d) || r == Back(kd, d))
    ensures LidarrAs(w, r, d)
  {
    LidarrWrittenOrSame(w, r, d);
  }

  lemma LidarrSettled(kd: Kind<Lidarr.RType, Lidarr.IR, Lidarr.Body>, w: Lidarr.Wire, t: int,
                      des: map<Key<Lidarr.RType>, Lidarr.IR>, st0: Store<Lidarr.RType, Lidarr.Body>,
                      st: Store<Lidarr.RType, Lidarr.Body>, applied: nat)
    requires Alike(kd, Lidarr.LidarrKind(w)) && Settles(kd, t, des, st0, st, applied, {})
    ensures LidarrInSync(kd, w, t, st, des)
  {
    EndState(kd, t, des, st0, st, applied);
    forall k | k in des
      ensures exists l :: l in st && st[l].key == k && (k.rtype.Notification? ==> t in st[l].tags)
    {
      var l := Locate(kd, t, st, k);
      OwnedByLidarr(kd, w, t, st[l]);
    }
    forall l | l in st && (st[l].key.rtype.CustomFormat? || t in st[l].tags)
      ensures st[l].key in des && LidarrAs(w, kd.read(st[l].body), des[st[l].key])
    {
      OwnedByLidarr(kd, w, t, st[l]);
      assert Holds(kd, t, st, l, st[l].key);
      LidarrValue(kd, w, kd.read(st[l].body), des[st[l].key]);
    }
  }

  /** A service in sync has the tag, if anything is desired. */
  lemma InSyncHasTag<R(!new), P, B>(kd: Kind<R, P, B>, desired: seq<(Key<R>, P)>, env: Env<R>, tag: Option<int>,
                                    st: Store<R, B>, tag': Option<int>, st': Store<R, B>, outcome: Outcome,
                                    seen: map<Key<R>, P>, failed: set<Key<R>>)
    requires Reported(kd, Some(desired), env, tag, st, tag', st', outcome, seen, failed)
    requires outcome.Finished? && outcome.synced
    ensures desired != [] ==> tag'.Some?
    ensures failed == {}
  {
    if desired != [] {
      IndexMembers(desired);
      assert desired[0].0 in Index(desired);
      SyncedHasTag(kd, Some(desired), env, tag, st, tag', st', outcome, seen, failed);
    }
  }

  /** On deletion nothing is removed from a Prowlarr: the IR compared has no Prowlarr part. */
  method CleanUpProwlarr(c: ProwlarrController, e: TagEnv, a: Answers<Prowlarr.RType>) returns (cleaned: bool)
    requires IsProwlarr(c) && c.adapter.server.Valid()
    modifies c.adapter.server, c.adapter.cache
    ensures cleaned && c.adapter.server.store == old(c.adapter.server.store)
  {
    AllTypesRead();
    ghost var seen;
    cleaned, seen := c.CleanupManagedResources(e, a);
  }

  /**
   * After an error-free reconcile with complete reads, of the custom formats there were exactly the desired names
   * remain.
   */
  lemma CustomFormatRemainsIff(kd: Kind<Lidarr.RType, Lidarr.IR, Lidarr.Body>, t: int,
                               des: map<Key<Lidarr.RType>, Lidarr.IR>, st0: Store<Lidarr.RType, Lidarr.Body>,
                               st: Store<Lidarr.RType, Lidarr.Body>, applied: nat, l: Loc<Lidarr.RType>)
    requires !kd.filtered(Lidarr.CustomFormat) && Settles(kd, t, des, st0, st, applied, {})
    requires l in st0 && st0[l].key.rtype.CustomFormat?
    ensures (exists m :: m in st && st[m].key == st0[l].key) <==> st0[l].key in des
  {
    var k := st0[l].key;
    assert Holds(kd, t, st0, l, k);
    SettledTarget(kd, t, des, st0, st, applied);
    if k !in des { assert PendingOp(kd, View(kd, t, st0), des, k) == Some(Delete); }
    assert k in View(kd, t, st) <==> k in des;
    if m :| m in st && st[m].key == k {
      assert Holds(kd, t, st, m, k);
    }
    if k in des { assert Holds(kd, t, st, Locate(kd, t, st, k), k); }
  }
}
