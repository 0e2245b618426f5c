/** The service manager: start, stop, reload with rollback. Every method body holds the mutex from
    its first to its last statement, so its contract speaks about the states at lock release. */
module Service {
  import opened Options

  datatype Config = Config(
    geoIPDat: string, geoSiteDat: string,
    logFile: string, saveToFile: bool,
    autoCert: bool,
    dnsUDP: string, dnsTCP: string, dot: string, doq: string, doh: string)

  /** A database pair, loaded from these paths. */
  datatype Geo = Geo(ipPath: string, sitePath: string)

  datatype Kind = ACMEServer | DNSServer | DoTServer | DoQServer | DoHServer | Router | QueryLogger

  /** Anything the manager creates and has to stop or close later: what it is, and what it was
      built from. `id` tells apart two that were built alike. */
  datatype Component = Component(id: nat, kind: Kind, cfg: Config, geo: Option<Geo>,
                                 router: Option<Component>, log: Option<Component>)

  /** What the outside decides during one start: whether the databases and the certificates load,
      and whether each TLS server can be built. */
  datatype Env = Env(geoLoads: bool, certLoads: bool, dotBuilds: bool, doqBuilds: bool, dohBuilds: bool)

  function LogName(cfg: Config): string {
    if cfg.logFile == "" then "query.log" else cfg.logFile
  }

  function GeoOf(cfg: Config): Geo {
    Geo(cfg.geoIPDat, cfg.geoSiteDat)
  }

  /** The components the manager's fields hold. */
  datatype Fields = Fields(
    acme: Option<Component>, dns: Option<Component>, dot: Option<Component>, doq: Option<Component>,
    doh: Option<Component>, router: Option<Component>, queryLog: Option<Component>)

  const NOTHING := Fields(None, None, None, None, None, None, None)

  /** Every field holds its own kind. */
  predicate Typed(f: Fields) {
    && (f.acme.Some? ==> f.acme.value.kind == ACMEServer)
    && (f.dns.Some? ==> f.dns.value.kind == DNSServer)
    && (f.dot.Some? ==> f.dot.value.kind == DoTServer)
    && (f.doq.Some? ==> f.doq.value.kind == DoQServer)
    && (f.doh.Some? ==> f.doh.value.kind == DoHServer)
    && (f.router.Some? ==> f.router.value.kind == Router)
    && (f.queryLog.Some? ==> f.queryLog.value.kind == QueryLogger)
  }

  /** A server built from `cfg` that asks the router in the router field. */
  predicate Serves(f: Fields, c: Component, cfg: Config) {
    c.cfg == cfg && c.router == f.router
  }

  /** Exactly the servers `cfg` asks for and the outside lets be built. */
  predicate ServersBuilt(f: Fields, cfg: Config, env: Env, certs: bool) {
    && (f.acme.Some? <==> cfg.autoCert && certs)
    && (f.dns.Some? <==> cfg.dnsUDP != "" || cfg.dnsTCP != "")
    && (f.dot.Some? <==> cfg.dot != "" && env.dotBuilds)
    && (f.doq.Some? <==> cfg.doq != "" && env.doqBuilds)
    && (f.doh.Some? <==> cfg.doh != "" && env.dohBuilds)
    && (f.acme.Some? ==> f.acme.value.cfg == cfg && f.acme.value.kind == ACMEServer)
    && (f.dns.Some? ==> Serves(f, f.dns.value, cfg) && f.dns.value.kind == DNSServer)
    && (f.dot.Some? ==> Serves(f, f.dot.value, cfg) && f.dot.value.kind == DoTServer)
    && (f.doq.Some? ==> Serves(f, f.doq.value, cfg) && f.doq.value.kind == DoQServer)
    && (f.doh.Some? ==> Serves(f, f.doh.value, cfg) && f.doh.value.kind == DoHServer)
  }

  /** Wholly built from `cfg`: the logger, the router over it and over the databases of `cfg`,
      and exactly the servers that `cfg` asks for and `env` lets be built. */
  predicate Up(f: Fields, cfg: Config, geo: Option<Geo>, env: Env) {
    && geo == Some(GeoOf(cfg))
    && f.queryLog.Some? && f.queryLog.value.cfg == cfg
    && f.router.Some? && f.router.value.cfg == cfg && f.router.value.geo == geo && f.router.value.log == f.queryLog
    && ServersBuilt(f, cfg, env, env.certLoads)
  }

  lemma UpIs(f: Fields, cfg: Config, geo: Option<Geo>, env: Env)
    requires ServersBuilt(f, cfg, env, env.certLoads) && geo == Some(GeoOf(cfg))
    requires f.queryLog.Some? && f.queryLog.value.cfg == cfg
    requires f.router.Some? && f.router.value.cfg == cfg
    requires f.router.value.geo == geo && f.router.value.log == f.queryLog
    ensures Up(f, cfg, geo, env)
  {
  }

  predicate Holds(f: Fields, c: Component) {
    || f.acme == Some(c) || f.dns == Some(c) || f.dot == Some(c) || f.doq == Some(c) || f.doh == Some(c)
    || f.router == Some(c) || f.queryLog == Some(c)
  }

  /** Everything ever created, and what of it was stopped. */
  datatype History = History(created: set<Component>, stopped: set<Component>)

  ghost predicate Unused(h: History, id: nat) {
    forall c :: c in h.created ==> c.id < id
  }

  /** What runs is held by a field, and what a field holds runs: nothing leaks, and a later stop
      stops nothing twice. */
  ghost predicate Tracks(h: History, f: Fields) {
    && h.stopped <= h.created
    && (forall c :: c in h.created && c !in h.stopped ==> Holds(f, c))
    && (forall c :: Holds(f, c) ==> c in h.created && c !in h.stopped)
  }

  /** A field that held nothing now holds `c`. */
  predicate Placed(f: Fields, c: Component, g: Fields) {
    || (f.acme == None && g == f.(acme := Some(c)))
    || (f.dns == None && g == f.(dns := Some(c)))
    || (f.dot == None && g == f.(dot := Some(c)))
    || (f.doq == None && g == f.(doq := Some(c)))
    || (f.doh == None && g == f.(doh := Some(c)))
    || (f.router == None && g == f.(router := Some(c)))
    || (f.queryLog == None && g == f.(queryLog := Some(c)))
  }

  lemma TypedTwo(f: Fields, log: Component, router: Component)
    requires Typed(f) && log.kind == QueryLogger && router.kind == Router
    ensures Typed(f.(queryLog := Some(log), router := Some(router)))
  {
  }

  lemma TypedNothing(cfg: Config, geo: Option<Geo>, env: Env)
    ensures Typed(NOTHING) && !Up(NOTHING, cfg, geo, env)
  {
  }

  lemma PlacedHolds(f: Fields, c: Component, g: Fields)
    requires Placed(f, c, g)
    ensures forall d :: Holds(g, d) <==> Holds(f, d) || d == c
  {
  }

  ghost function Adding(h: History, c: Component): History {
    h.(created := h.created + {c})
  }

  lemma TracksNew(h: History, f: Fields, c: Component, g: Fields)
    requires Tracks(h, f) && c !in h.created && Placed(f, c, g)
    ensures Tracks(h.(created := h.created + {c}), g)
  {
    PlacedHolds(f, c, g);
    hide Holds, Placed;
  }

  lemma TracksLaunch(h: History, f: Fields, c: Option<Component>, g: Fields, h': History)
    requires Tracks(h, f)
    requires c == None ==> g == f && h' == h
    requires c.Some? ==> c.value !in h.created && h' == Adding(h, c.value)
    requires c.Some? ==>
      || (f.acme == None && g == f.(acme := c))
      || (f.dns == None && g == f.(dns := c))
      || (f.dot == None && g == f.(dot := c))
      || (f.doq == None && g == f.(doq := c))
      || (f.doh == None && g == f.(doh := c))
    ensures Tracks(h', g)
  {
    if c.Some? {
      TracksNew(h, f, c.value, g);
    }
  }

  /** The first two components of a start from nothing. */
  lemma TracksTwo(h: History, log: Component, router: Component)
    requires Tracks(h, NOTHING) && log !in h.created && router !in h.created + {log}
    ensures Tracks(h.(created := h.created + {log} + {router}), NOTHING.(queryLog := Some(log), router := Some(router)))
  {
    var f := NOTHING.(queryLog := Some(log));
    TracksNew(h, NOTHING, log, f);
    TracksNew(h.(created := h.created + {log}), f, router, f.(router := Some(router)));
  }

  /** One listener branch: which server, whether the configuration wants it, whether it can be
      built, what the field held before. */
  datatype Launch = Launch(kind: Kind, cfg: Config, wanted: bool, builds: bool,
                           router: Option<Component>, field: Option<Component>)

  ghost predicate Launched(h: History, h': History, l: Launch, c: Option<Component>) {
    if !l.wanted then c == l.field && h' == h
    else if !l.builds then c == None && h' == h
    else
      && c.Some? && c.value !in h.created && h' == Adding(h, c.value)
      && c.value.kind == l.kind && c.value.cfg == l.cfg && c.value.router == l.router
  }

  /** The five listener branches of a start, from fields `f` to fields `g`. */
  ghost predicate FiveLaunched(cfg: Config, env: Env, certs: bool, f: Fields, g: Fields,
                               h0: History, h1: History, h2: History, h3: History, h4: History, h5: History) {
    && g == Fields(g.acme, g.dns, g.dot, g.doq, g.doh, f.router, f.queryLog)
    && Launched(h0, h1, Launch(ACMEServer, cfg, cfg.autoCert && certs, true, None, f.acme), g.acme)
    && Launched(h1, h2, Launch(DNSServer, cfg, cfg.dnsUDP != "" || cfg.dnsTCP != "", true, f.router, f.dns), g.dns)
    && Launched(h2, h3, Launch(DoTServer, cfg, cfg.dot != "", env.dotBuilds, f.router, f.dot), g.dot)
    && Launched(h3, h4, Launch(DoQServer, cfg, cfg.doq != "", env.doqBuilds, f.router, f.doq), g.doq)
    && Launched(h4, h5, Launch(DoHServer, cfg, cfg.doh != "", env.dohBuilds, f.router, f.doh), g.doh)
  }

  lemma LaunchedGrows(h: History, h': History, l: Launch, c: Option<Component>)
    requires Launched(h, h', l, c)
    ensures h'.stopped == h.stopped && h.created <= h'.created
    ensures c.Some? && c != l.field ==> c.value.kind == l.kind
  {
  }

  lemma AllLaunched(cfg: Config, env: Env, certs: bool, f: Fields, g: Fields,
                    h0: History, h1: History, h2: History, h3: History, h4: History, h5: History)
    requires FiveLaunched(cfg, env, certs, f, g, h0, h1, h2, h3, h4, h5)
    requires Typed(f)
    ensures h5.stopped == h0.stopped && h0.created <= h5.created && Typed(g)
  {
    hide Launched;
    LaunchedGrows(h0, h1, Launch(ACMEServer, cfg, cfg.autoCert && certs, true, None, f.acme), g.acme);
    LaunchedGrows(h1, h2, Launch(DNSServer, cfg, cfg.dnsUDP != "" || cfg.dnsTCP != "", true, f.router, f.dns), g.dns);
    LaunchedGrows(h2, h3, Launch(DoTServer, cfg, cfg.dot != "", env.dotBuilds, f.router, f.dot), g.dot);
    LaunchedGrows(h3, h4, Launch(DoQServer, cfg, cfg.doq != "", env.doqBuilds, f.router, f.doq), g.doq);
    LaunchedGrows(h4, h5, Launch(DoHServer, cfg, cfg.doh != "", env.dohBuilds, f.router, f.doh), g.doh);
  }

  lemma AllTracked(cfg: Config, env: Env, certs: bool, f: Fields, g: Fields,
                   h0: History, h1: History, h2: History, h3: History, h4: History, h5: History)
    requires FiveLaunched(cfg, env, certs, f, g, h0, h1, h2, h3, h4, h5)
    requires Tracks(h0, f) && f == NOTHING.(router := f.router, queryLog := f.queryLog)
    ensures Tracks(h5, g) && ServersBuilt(g, cfg, env, certs)
  {
    hide Tracks;
    var f1 := f.(acme := g.acme);
    var f2 := f1.(dns := g.dns);
    var f3 := f2.(dot := g.dot);
    var f4 := f3.(doq := g.doq);
    TracksLaunch(h0, f, g.acme, f1, h1);
    TracksLaunch(h1, f1, g.dns, f2, h2);
    TracksLaunch(h2, f2, g.dot, f3, h3);
    TracksLaunch(h3, f3, g.doq, f4, h4);
    TracksLaunch(h4, f4, g.doh, g, h5);
  }

  ghost function StoppedIn(h: History, c: Option<Component>): History {
    if c.Some? then h.(stopped := h.stopped + {c.value}) else h
  }

  ghost function StoppedAll(h: History, f: Fields): History {
    StoppedIn(StoppedIn(StoppedIn(StoppedIn(StoppedIn(StoppedIn(StoppedIn(h, f.acme), f.dns), f.dot), f.doq), f.doh),
      f.router), f.queryLog)
  }

  function FirstError(firstErr: Option<Kind>, c: Option<Component>, failing: set<Kind>): Option<Kind> {
    if firstErr == None && c.Some? && c.value.kind in failing then Some(c.value.kind) else firstErr
  }

  function FirstOf(f: Fields, failing: set<Kind>): Option<Kind> {
    FirstError(FirstError(FirstError(FirstError(FirstError(FirstError(FirstError(None,
      f.acme, failing), f.dns, failing), f.dot, failing), f.doq, failing), f.doh, failing),
      f.router, failing), f.queryLog, failing)
  }

  lemma StoppedInGrows(h: History, c: Option<Component>)
    ensures StoppedIn(h, c).created == h.created && h.stopped <= StoppedIn(h, c).stopped
    ensures c == None ==> StoppedIn(h, c) == h
  {
  }

  lemma StoppedInHas(h: History, x: Option<Component>, c: Component)
    ensures c in StoppedIn(h, x).stopped <==> c in h.stopped || x == Some(c)
    ensures StoppedIn(h, x).created == h.created
  {
  }

  lemma StoppedAllHas(h: History, f: Fields, c: Component)
    ensures c in StoppedAll(h, f).stopped <==> c in h.stopped || Holds(f, c)
    ensures StoppedAll(h, f).created == h.created
  {
    hide StoppedIn;
    var h1 := StoppedIn(h, f.acme);
    var h2 := StoppedIn(h1, f.dns);
    var h3 := StoppedIn(h2, f.dot);
    var h4 := StoppedIn(h3, f.doq);
    var h5 := StoppedIn(h4, f.doh);
    var h6 := StoppedIn(h5, f.router);
    StoppedInHas(h, f.acme, c);
    StoppedInHas(h1, f.dns, c);
    StoppedInHas(h2, f.dot, c);
    StoppedInHas(h3, f.doq, c);
    StoppedInHas(h4, f.doh, c);
    StoppedInHas(h5, f.router, c);
    StoppedInHas(h6, f.queryLog, c);
  }

  /** Stopping the fields stops exactly what they hold; so nothing is left running, and nothing is
      stopped a second time. */
  lemma StoppedAllIs(h: History, f: Fields)
    requires Tracks(h, f)
    ensures StoppedAll(h, f) == History(h.created, h.created)
    ensures forall c :: Holds(f, c) ==> c !in h.stopped
    ensures Tracks(StoppedAll(h, f), NOTHING)
  {
    forall c
      ensures c in StoppedAll(h, f).stopped <==> c in h.created
    {
      StoppedAllHas(h, f, c);
    }
    StoppedAllHas(h, f, Component(0, Router, Config("", "", "", false, false, "", "", "", "", ""), None, None, None));
    hide StoppedAll;
  }

  predicate Fails(c: Option<Component>, failing: set<Kind>) {
    c.Some? && c.value.kind in failing
  }

  /** An error comes from a held component whose stop fails, and of several from the first in the
      order of the stops. */
  lemma FirstOfIff(f: Fields, failing: set<Kind>)
    ensures FirstOf(f, failing) == None <==> forall c :: Holds(f, c) ==> c.kind !in failing
    ensures FirstOf(f, failing) ==
            if Fails(f.acme, failing) then Some(f.acme.value.kind)
            else if Fails(f.dns, failing) then Some(f.dns.value.kind)
            else if Fails(f.dot, failing) then Some(f.dot.value.kind)
            else if Fails(f.doq, failing) then Some(f.doq.value.kind)
            else if Fails(f.doh, failing) then Some(f.doh.value.kind)
            else if Fails(f.router, failing) then Some(f.router.value.kind)
            else if Fails(f.queryLog, failing) then Some(f.queryLog.value.kind) else None
  {
  }

  ghost predicate Running(h: History, c: Component) {
    c in h.created && c !in h.stopped
  }

  /** The component of this kind is part of the service that `cfg` describes. */
  predicate Wanted(kind: Kind, cfg: Config, env: Env) {
    match kind
    case QueryLogger => true
    case Router => true
    case ACMEServer => cfg.autoCert && env.certLoads
    case DNSServer => cfg.dnsUDP != "" || cfg.dnsTCP != ""
    case DoTServer => cfg.dot != "" && env.dotBuilds
    case DoQServer => cfg.doq != "" && env.doqBuilds
    case DoHServer => cfg.doh != "" && env.dohBuilds
  }

  /** When the service is up, one component of each wanted kind runs and nothing else; all are of
      the configuration in force; the router uses the databases of its two paths and the logger
      that runs, and every DNS listener asks that router. */
  lemma RunningWhenUp(h: History, f: Fields, cfg: Config, geo: Option<Geo>, env: Env)
    requires Tracks(h, f) && Typed(f) && Up(f, cfg, geo, env)
    ensures forall kind :: Wanted(kind, cfg, env) <==> exists c :: Running(h, c) && c.kind == kind
    ensures forall c, d :: Running(h, c) && Running(h, d) && c.kind == d.kind ==> c == d
    ensures forall c :: Running(h, c) ==> c.cfg == cfg
    ensures forall c :: Running(h, c) && c.kind == Router ==>
              c.geo == Some(Geo(cfg.geoIPDat, cfg.geoSiteDat)) && c.log.Some? && Running(h, c.log.value)
              && c.log.value.kind == QueryLogger
    ensures forall c :: Running(h, c) && c.kind in {DNSServer, DoTServer, DoQServer, DoHServer} ==>
              c.router.Some? && Running(h, c.router.value) && c.router.value.kind == Router
  {
    forall c
      ensures Running(h, c) <==> FieldOf(f, c.kind) == Some(c)
    {
      RunningIsHeld(h, f, c);
    }
    forall kind
      ensures FieldOf(f, kind).Some? <==> Wanted(kind, cfg, env)
      ensures FieldOf(f, kind).Some? ==> FieldOf(f, kind).value.kind == kind && FieldOf(f, kind).value.cfg == cfg
    {
      FieldWanted(f, cfg, geo, env, kind);
    }
    LinksWhenUp(f, cfg, geo, env);
    hide Tracks, Running, Up, Typed, FieldOf, Wanted;
    forall kind
      ensures Wanted(kind, cfg, env) <==> exists c :: Running(h, c) && c.kind == kind
    {
      if Wanted(kind, cfg, env) {
        assert Running(h, FieldOf(f, kind).value);
      }
    }
  }

  lemma RunningIsHeld(h: History, f: Fields, c: Component)
    requires Tracks(h, f) && Typed(f)
    ensures Running(h, c) <==> FieldOf(f, c.kind) == Some(c)
  {
    assert Running(h, c) <==> Holds(f, c);
    hide Tracks;
  }

  lemma FieldWanted(f: Fields, cfg: Config, geo: Option<Geo>, env: Env, kind: Kind)
    requires Typed(f) && Up(f, cfg, geo, env)
    ensures FieldOf(f, kind).Some? <==> Wanted(kind, cfg, env)
    ensures FieldOf(f, kind).Some? ==> FieldOf(f, kind).value.kind == kind && FieldOf(f, kind).value.cfg == cfg
  {
  }

  lemma LinksWhenUp(f: Fields, cfg: Config, geo: Option<Geo>, env: Env)
    requires Up(f, cfg, geo, env)
    ensures var router := FieldOf(f, Router);
            && router.Some? && router.value.geo == Some(Geo(cfg.geoIPDat, cfg.geoSiteDat))
            && router.value.log == FieldOf(f, QueryLogger)
    ensures forall kind :: kind in {DNSServer, DoTServer, DoQServer, DoHServer} && FieldOf(f, kind).Some? ==>
              FieldOf(f, kind).value.router == FieldOf(f, Router)
  {
  }

  function FieldOf(f: Fields, kind: Kind): Option<Component> {
    match kind
    case QueryLogger => f.queryLog
    case Router => f.router
    case ACMEServer => f.acme
    case DNSServer => f.dns
    case DoTServer => f.dot
    case DoQServer => f.doq
    case DoHServer => f.doh
  }

  lemma NothingWhenDown(h: History, c: Component)
    requires Tracks(h, NOTHING)
    ensures !Running(h, c)
  {
  }

  /** After a start on top of a running service the old router still runs, but no field holds it. */
  lemma RouterLeaks(before: Fields, h: History, after: Fields, h': History, cfg: Config, geo: Option<Geo>, env: Env)
    requires Tracks(h, before) && Up(before, cfg, geo, env) && Typed(before) && Typed(after)
    requires h.created <= h'.created && h'.stopped == StoppedIn(h, before.queryLog).stopped
    requires after.router.Some? && after.router.value !in h.created
    ensures !Tracks(h', after)
  {
    var r := before.router.value;
    assert Holds(before, r);
  }

  class ServiceManager {
    var config: Config
    var geo: Option<Geo>
    var certManager: Option<Config>
    /** The server, router and logger fields. */
    var fields: Fields
    var stopRequested: bool
    /** Log files present on disk. */
    var files: set<string>
    ghost var history: History
    /** What the outside allowed at the last start that succeeded. */
    ghost var builtWith: Env
    var nextId: nat

    constructor (initial: Config, files: set<string>)
      ensures Valid() && fields == NOTHING && config == initial && geo == None
      ensures this.files == files && !stopRequested && history == History({}, {})
    {
      config, geo, certManager := initial, None, None;
      fields := NOTHING;
      stopRequested := false;
      this.files := files;
      history := History({}, {});
      builtWith := Env(false, false, false, false, false);
      nextId := 0;
    }

    /** A kept database was loaded from the paths of the configuration in force. */
    ghost predicate GeoCurrent()
      reads this
    {
      geo.Some? ==> geo == Some(GeoOf(config))
    }

    /** Holds at every lock release after a single start. */
    ghost predicate Valid()
      reads this
    {
      && Unused(history, nextId) && Tracks(history, fields) && Typed(fields)
      && GeoCurrent()
      && (fields == NOTHING || Up(fields, config, geo, builtWith))
    }

    // -------------------------------------------------------------- creating and stopping

    method New(kind: Kind, router: Option<Component>, log: Option<Component>) returns (c: Component)
      requires Unused(history, nextId)
      modifies this`nextId, this`history
      ensures Unused(history, nextId) && c !in old(history).created
      ensures history == old(history).(created := old(history).created + {c})
      ensures c.kind == kind && c.cfg == config && c.geo == geo && c.router == router && c.log == log
    {
      c := Component(nextId, kind, config, geo, router, log);
      nextId := nextId + 1;
      history := history.(created := history.created + {c});
    }

    /** Stops one component, if there is one; `failing` are the kinds whose stop reports an error. */
    method StopOne(c: Option<Component>, failing: set<Kind>, firstErr: Option<Kind>) returns (err: Option<Kind>)
      requires Unused(history, nextId)
      modifies this`history
      ensures history == StoppedIn(old(history), c) && Unused(history, nextId)
      ensures err == FirstError(firstErr, c, failing)
    {
      err := firstErr;
      if c.Some? {
        history := history.(stopped := history.stopped + {c.value});
        if c.value.kind in failing && err == None {
          err := Some(c.value.kind);
        }
      }
    }

    method StopInternal(failing: set<Kind>) returns (err: Option<Kind>)
      requires Unused(history, nextId)
      modifies this`fields, this`history
      ensures fields == NOTHING && Unused(history, nextId)
      ensures history == StoppedAll(old(history), old(fields))
      ensures err == FirstOf(old(fields), failing)
    {
      hide Unused, StoppedIn, FirstError;
      err := StopOne(fields.acme, failing, None);
      fields := fields.(acme := None);
      err := StopOne(fields.dns, failing, err);
      fields := fields.(dns := None);
      err := StopOne(fields.dot, failing, err);
      fields := fields.(dot := None);
      err := StopOne(fields.doq, failing, err);
      fields := fields.(doq := None);
      err := StopOne(fields.doh, failing, err);
      fields := fields.(doh := None);
      err := StopOne(fields.router, failing, err);
      fields := fields.(router := None);
      err := StopOne(fields.queryLog, failing, err);
      fields := fields.(queryLog := None);
    }

    // -------------------------------------------------------------- starting

    /** Databases that are kept need no loading. */
    method LoadDatabases(env: Env) returns (ok: bool)
      requires GeoCurrent()
      modifies `geo
      ensures ok <==> old(geo).Some? || env.geoLoads
      ensures geo == if ok then Some(GeoOf(config)) else None
    {
      ok := geo.Some? || env.geoLoads;
      if geo == None && ok {
        geo := Some(Geo(config.geoIPDat, config.geoSiteDat));
      }
    }

    /** Fails only when the databases do not load, and then changes nothing. From a service that
        is down it builds the whole service; a query logger still open is closed first. */
    method StartInternal(env: Env) returns (err: Option<string>)
      requires Unused(history, nextId) && GeoCurrent() && Typed(fields)
      modifies this
      ensures config == old(config) && stopRequested == old(stopRequested) && files == old(files)
      ensures Unused(history, nextId) && GeoCurrent() && Typed(fields)
      ensures err == None <==> old(geo).Some? || env.geoLoads
      ensures err.Some? ==> fields == old(fields) && history == old(history) && geo == None
      ensures err == None ==> geo == Some(GeoOf(config))
      ensures err == None && old(fields) == NOTHING && Tracks(old(history), NOTHING) ==>
                Up(fields, config, geo, env) && Tracks(history, fields)
      ensures builtWith == if err == None then env else old(builtWith)
      ensures err == None ==> history.stopped == StoppedIn(old(history), old(fields).queryLog).stopped
      ensures err == None ==> fields.router.Some? && fields.router.value !in old(history).created
      ensures old(history).created <= history.created && old(history).stopped <= history.stopped
    {
      hide Tracks, Unused, ServersBuilt, Up, Typed, StoppedIn;
      ghost var clean := fields == NOTHING && Tracks(history, fields);
      var loaded := LoadDatabases(env);
      if !loaded {
        return Some("databases not loaded");
      }
      CreateCore();
      certManager := if env.certLoads then Some(config) else None;
      StartServers(config, env, clean);
      if clean {
        UpIs(fields, config, geo, env);
      }
      builtWith := env;
      err := None;
    }

    /** A new query logger, after closing one still open, and a router over it. */
    method CreateCore()
      requires Unused(history, nextId) && Typed(fields)
      modifies `fields, `history, `nextId
      ensures Unused(history, nextId) && Typed(fields)
      ensures fields == old(fields).(queryLog := fields.queryLog, router := fields.router)
      ensures fields.queryLog.Some? && fields.queryLog.value.cfg == config
      ensures fields.router.Some? && fields.router.value !in old(history).created && fields.router.value.cfg == config
      ensures fields.router.value.geo == geo && fields.router.value.log == fields.queryLog
      ensures old(history).created <= history.created && old(history).stopped <= history.stopped
      ensures history.stopped == StoppedIn(old(history), old(fields).queryLog).stopped
      ensures old(fields) == NOTHING && Tracks(old(history), NOTHING) ==> Tracks(history, fields)
    {
      hide Tracks, Unused, Typed, StoppedIn;
      StoppedInGrows(history, fields.queryLog);
      if fields.queryLog.Some? {
        var _ := StopOne(fields.queryLog, {}, None);
      }
      var log := New(QueryLogger, None, None);
      var r := New(Router, None, Some(log));
      TypedTwo(fields, log, r);
      if fields == NOTHING && Tracks(old(history), NOTHING) {
        TracksTwo(old(history), log, r);
      }
      fields := fields.(queryLog := Some(log), router := Some(r));
    }

    /** One listener of the start: the new value of its field. */
    method LaunchServer(kind: Kind, wanted: bool, builds: bool, r: Option<Component>, field: Option<Component>)
        returns (c: Option<Component>)
      requires Unused(history, nextId)
      modifies this`nextId, this`history
      ensures Unused(history, nextId)
      ensures Launched(old(history), history, Launch(kind, config, wanted, builds, r, field), c)
    {
      c := field;
      if wanted {
        c := None;
        if builds {
          var server := New(kind, r, None);
          c := Some(server);
        }
      }
    }

    /** The listener part of the start. */
    method StartServers(cfg: Config, env: Env, ghost clean: bool)
      requires Unused(history, nextId) && cfg == config && Typed(fields)
      requires clean ==> Tracks(history, fields)
      requires clean ==> fields == NOTHING.(router := fields.router, queryLog := fields.queryLog)
      modifies this`fields, this`nextId, this`history
      ensures Unused(history, nextId)
      ensures history.stopped == old(history).stopped && old(history).created <= history.created
      ensures Typed(fields) && fields.router == old(fields).router && fields.queryLog == old(fields).queryLog
      ensures clean ==> Tracks(history, fields) && ServersBuilt(fields, config, env, certManager.Some?)
    {
      hide Tracks, Unused, Launched, ServersBuilt, Typed;
      ghost var f := fields;
      ghost var h0 := history;
      var acme := LaunchServer(ACMEServer, cfg.autoCert && certManager.Some?, true, None, fields.acme);
      ghost var h1 := history;
      var dns := LaunchServer(DNSServer, cfg.dnsUDP != "" || cfg.dnsTCP != "", true, fields.router, fields.dns);
      ghost var h2 := history;
      var dot := LaunchServer(DoTServer, cfg.dot != "", env.dotBuilds, fields.router, fields.dot);
      ghost var h3 := history;
      var doq := LaunchServer(DoQServer, cfg.doq != "", env.doqBuilds, fields.router, fields.doq);
      ghost var h4 := history;
      var doh := LaunchServer(DoHServer, cfg.doh != "", env.dohBuilds, fields.router, fields.doh);
      fields := Fields(acme, dns, dot, doq, doh, fields.router, fields.queryLog);
      AllLaunched(cfg, env, certManager.Some?, f, fields, h0, h1, h2, h3, h4, history);
      if clean {
        AllTracked(cfg, env, certManager.Some?, f, fields, h0, h1, h2, h3, h4, history);
      }
    }

    // -------------------------------------------------------------- operations under the mutex

    /** The first start, on a manager that is down, brings the whole service up or changes nothing.
        A start on top of a running service leaves its old router running and unreachable. */
    method Start(env: Env) returns (err: Option<string>)
      requires Valid()
      modifies this
      ensures config == old(config) && files == old(files)
      ensures err == None <==> old(geo).Some? || env.geoLoads
      ensures err.Some? ==> fields == old(fields) && history == old(history)
      ensures old(fields) == NOTHING ==> Valid()
      ensures old(fields) == NOTHING ==> if err == None then Up(fields, config, geo, env) else fields == NOTHING
      ensures err.Some? ==> geo == None
      ensures err == None ==> (Tracks(history, fields) <==> old(fields) == NOTHING)
    {
      hide Up, Typed, Tracks, Unused;
      TypedNothing(config, geo, builtWith);
      ghost var before, geoBefore, envBefore := fields, geo, builtWith;
      err := StartInternal(env);
      if err == None && before != NOTHING {
        RouterLeaks(before, old(history), fields, history, config, geoBefore, envBefore);
      }
    }

    method Stop(failing: set<Kind>) returns (err: Option<Kind>)
      requires Valid()
      modifies this
      ensures Valid() && fields == NOTHING && stopRequested
      ensures config == old(config) && geo == old(geo) && files == old(files)
      ensures history == History(old(history).created, old(history).created)
      ensures err == FirstOf(old(fields), failing)
    {
      hide Up, Typed, Tracks, Unused, FirstOf;
      TypedNothing(config, geo, builtWith);
      StoppedAllIs(history, fields);
      stopRequested := true;
      err := StopInternal(failing);
    }

    /** Replaces the configuration, or rolls back to the old one when the new one does not start.
        Either way everything that ran before is stopped, the service ends wholly up or wholly
        down, and no database of other paths is kept. The old log file is gone as soon as the new
        configuration stops persisting, even after a rollback. */
    method Reload(newCfg: Config, failing: set<Kind>, env: Env, rollback: Env) returns (err: Option<string>)
      requires Valid()
      modifies this
      ensures Valid()
      ensures config == if err == None then newCfg else old(config)
      ensures err == None ==> Up(fields, newCfg, geo, env)
      ensures err.Some? && rollback.geoLoads ==> Up(fields, config, geo, rollback)
      ensures err.Some? && !rollback.geoLoads ==> fields == NOTHING && geo == None
      ensures var kept := newCfg.geoIPDat == old(config).geoIPDat && newCfg.geoSiteDat == old(config).geoSiteDat;
              err == None <==> (old(geo).Some? && kept) || env.geoLoads
      ensures old(history).created <= history.stopped
      ensures files == if old(config).saveToFile && !newCfg.saveToFile
                       then old(files) - {if old(config).logFile == "" then "query.log" else old(config).logFile}
                       else old(files)
    {
      hide Up, Typed, Tracks, Unused, FirstOf, StoppedIn, StoppedAll;
      TypedNothing(config, None, builtWith);
      var geoChanged := config.geoIPDat != newCfg.geoIPDat || config.geoSiteDat != newCfg.geoSiteDat;
      if geoChanged {
        geo := None;
      }
      StoppedAllIs(history, fields);
      var _ := StopInternal(failing);
      if config.saveToFile && !newCfg.saveToFile {
        files := files - {LogName(config)};
      }
      var oldCfg := config;
      config := newCfg;
      err := StartInternal(env);
      if err.Some? {
        config := oldCfg;
        geo := None;
        StoppedAllIs(history, fields);
        var _ := StopInternal(failing);
        var rollbackErr := StartInternal(rollback);
        if rollbackErr.Some? {
          return Some("failed to restart services: " + err.value + " (rollback failed: " + rollbackErr.value + ")");
        }
        return Some("failed to restart services: " + err.value);
      }
    }

    /** Restarts under the configuration in force, with freshly loaded databases. */
    method ReloadCurrent(failing: set<Kind>, env: Env) returns (err: Option<string>)
      requires Valid()
      modifies this
      ensures Valid() && config == old(config) && files == old(files)
      ensures err == None <==> env.geoLoads
      ensures if err == None then Up(fields, config, geo, env) else fields == NOTHING && geo == None
      ensures old(history).created <= history.stopped
    {
      hide Up, Typed, Tracks, Unused, FirstOf, StoppedIn, StoppedAll;
      TypedNothing(config, None, builtWith);
      geo := None;
      StoppedAllIs(history, fields);
      var _ := StopInternal(failing);
      err := StartInternal(env);
    }
  }

  // ---------------------------------------------------------------- whole runs

  datatype Op =
    | ReloadOp(newCfg: Config, failing: set<Kind>, env: Env, rollback: Env)
    | ReloadCurrentOp(failing: set<Kind>, env: Env)
    | StopOp(failing: set<Kind>)

  /** All a client can tell: the configuration in force, whether its databases are loaded, and,
      while the service is up, what the outside allowed when it was built. */
  datatype Status = Status(config: Config, loaded: bool, up: Option<Env>)

  function AfterStart(cfg: Config, env: Env): Status {
    if env.geoLoads then Status(cfg, true, Some(env)) else Status(cfg, false, None)
  }

  /** A new configuration starts when its databases are those already loaded, or load now. */
  predicate Accepts(s: Status, newCfg: Config, env: Env) {
    (s.loaded && GeoOf(newCfg) == GeoOf(s.config)) || env.geoLoads
  }

  function AfterOp(s: Status, op: Op): Status {
    match op
    case ReloadOp(newCfg, _, env, rollback) =>
      if Accepts(s, newCfg, env) then Status(newCfg, true, Some(env)) else AfterStart(s.config, rollback)
    case ReloadCurrentOp(_, env) => AfterStart(s.config, env)
    case StopOp(_) => s.(up := None)
  }

  function After(initial: Config, start: Env, ops: seq<Op>): Status
    decreases |ops|
  {
    if ops == [] then AfterStart(initial, start)
    else AfterOp(After(initial, start, ops[..|ops| - 1]), ops[|ops| - 1])
  }

  ghost predicate Shows(m: ServiceManager, s: Status)
    reads m
  {
    && m.config == s.config && (m.geo.Some? <==> s.loaded)
    && if s.up == None then m.fields == NOTHING else Up(m.fields, m.config, m.geo, s.up.value)
  }

  /** The reload at index `i` returned no error. */
  predicate AcceptedAt(initial: Config, start: Env, ops: seq<Op>, i: nat)
    requires i < |ops|
  {
    ops[i].ReloadOp? && Accepts(After(initial, start, ops[..i]), ops[i].newCfg, ops[i].env)
  }

  lemma AfterSnoc(initial: Config, start: Env, ops: seq<Op>, i: nat)
    requires i < |ops|
    ensures After(initial, start, ops[..i + 1]) == AfterOp(After(initial, start, ops[..i]), ops[i])
  {
    assert ops[..i + 1][..i] == ops[..i];
  }

  /** Of the first `n` operations, `i` is the last reload that returned no error. */
  ghost predicate LastAccepted(initial: Config, start: Env, ops: seq<Op>, n: nat, i: nat)
    requires n <= |ops|
  {
    i < n && AcceptedAt(initial, start, ops, i) && forall j :: i < j < n ==> !AcceptedAt(initial, start, ops, j)
  }

  /** The configuration in force after a run is that of the last reload that returned no error. */
  lemma {:induction false} ConfigOfLastAccepted(initial: Config, start: Env, ops: seq<Op>, n: nat, i: nat)
    requires n <= |ops| && LastAccepted(initial, start, ops, n, i)
    ensures After(initial, start, ops[..n]).config == ops[i].newCfg
  {
    AfterSnoc(initial, start, ops, n - 1);
    if i < n - 1 {
      assert !AcceptedAt(initial, start, ops, n - 1);
      ConfigOfLastAccepted(initial, start, ops, n - 1, i);
    }
  }

  /** It is the initial one while no reload has succeeded. */
  lemma {:induction false} ConfigOfNoneAccepted(initial: Config, start: Env, ops: seq<Op>, n: nat)
    requires n <= |ops| && forall j :: 0 <= j < n ==> !AcceptedAt(initial, start, ops, j)
    ensures After(initial, start, ops[..n]).config == initial
  {
    if n > 0 {
      AfterSnoc(initial, start, ops, n - 1);
      assert !AcceptedAt(initial, start, ops, n - 1);
      ConfigOfNoneAccepted(initial, start, ops, n - 1);
    }
  }

  /** One start and any sequence of reloads and stops, failing or not: at every release of the lock
      what runs is exactly what the fields hold, and the service is wholly down, or wholly built
      from the configuration in force with exactly the servers the outside allowed. `succeeded`
      says which operations returned no error. */
  method Lifetime(initial: Config, files: set<string>, start: Env, ops: seq<Op>)
      returns (m: ServiceManager, succeeded: seq<bool>)
    ensures fresh(m) && m.Valid() && Shows(m, After(initial, start, ops))
    ensures |succeeded| == |ops|
    ensures forall i :: 0 <= i < |ops| && ops[i].ReloadOp? ==> (succeeded[i] <==> AcceptedAt(initial, start, ops, i))
    ensures forall i :: 0 <= i < |ops| && LastAccepted(initial, start, ops, |ops|, i) ==> m.config == ops[i].newCfg
  {
    hide Up, Tracks, Typed, Unused;
    m := new ServiceManager(initial, files);
    succeeded := [];
    var _ := m.Start(start);
    UpLoads(m);
    assert ops[..0] == [];
    for i := 0 to |ops|
      invariant fresh(m) && m.Valid() && Shows(m, After(initial, start, ops[..i]))
      invariant |succeeded| == i
      invariant forall j :: 0 <= j < i && ops[j].ReloadOp? ==> (succeeded[j] <==> AcceptedAt(initial, start, ops, j))
    {
      AfterSnoc(initial, start, ops, i);
      var ok := Perform(m, ops[i], After(initial, start, ops[..i]));
      succeeded := succeeded + [ok];
    }
    assert ops[..|ops|] == ops;
    forall i | 0 <= i < |ops| && LastAccepted(initial, start, ops, |ops|, i)
      ensures m.config == ops[i].newCfg
    {
      ConfigOfLastAccepted(initial, start, ops, |ops|, i);
    }
  }

  lemma UpLoads(m: ServiceManager)
    ensures forall env :: Up(m.fields, m.config, m.geo, env) ==> m.geo.Some?
  {
  }

  method Perform(m: ServiceManager, op: Op, ghost s: Status) returns (ok: bool)
    requires m.Valid() && Shows(m, s)
    modifies m
    ensures m.Valid() && Shows(m, AfterOp(s, op))
    ensures op.ReloadOp? ==> (ok <==> Accepts(s, op.newCfg, op.env))
  {
    hide Tracks, Typed, Unused, ServersBuilt, FirstOf;
    match op {
      case ReloadOp(newCfg, failing, env, rollback) =>
        var err := m.Reload(newCfg, failing, env, rollback);
        ok := err == None;
      case ReloadCurrentOp(failing, env) =>
        var err := m.ReloadCurrent(failing, env);
        ok := err == None;
      case StopOp(failing) =>
        var err := m.Stop(failing);
        ok := err == None;
    }
  }

  /** A reload that switches persistence off and names databases that do not load: it is rolled back
      to the old configuration, persistence included, but the log file is gone. */
  method RolledBackWithoutLog() returns (m: ServiceManager, err: Option<string>)
    ensures fresh(m) && m.Valid() && err.Some? && m.config.saveToFile && m.fields != NOTHING
    ensures m.files == {} && LogName(m.config) == "query.log"
  {
    hide Up, Tracks, Typed, Unused, GeoOf;
    var loads := Env(true, true, true, true, true);
    var cfg := Config("geoip.dat", "geosite.dat", "", true, false, ":53", "", "", "", "");
    m := new ServiceManager(cfg, {"query.log"});
    var _ := m.Start(loads);
    TypedNothing(cfg, m.geo, loads);
    OtherPaths(cfg);
    err := m.Reload(cfg.(geoIPDat := "missing.dat", saveToFile := false), {}, loads.(geoLoads := false), loads);
    TypedNothing(cfg, m.geo, loads);
  }

  lemma OtherPaths(cfg: Config)
    requires cfg.geoIPDat == "geoip.dat"
    ensures GeoOf(cfg.(geoIPDat := "missing.dat", saveToFile := false)) != GeoOf(cfg)
  {
    assert |cfg.geoIPDat| != |"missing.dat"|;
  }
}
