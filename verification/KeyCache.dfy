/**
 The write-token key cache: key sets cached per source, over issuer discovery cached per issuer.
 Each lock-protected cache access, each network answer and each reading of the clock is one step, and the steps of
 concurrent loads interleave in any order.  Time is in nanoseconds.
 */
module KeyCache {
  import opened Text

  datatype Config = Config(jwksCacheTtl: int, oidcCacheTtl: int)

  const MINUTE: int := 60_000_000_000

  function KeysTtl(cfg: Config): (ttl: int)
    ensures ttl > 0 && (cfg.jwksCacheTtl > 0 ==> ttl == cfg.jwksCacheTtl)
    ensures cfg.jwksCacheTtl <= 0 ==> ttl == 300_000_000_000
  {
    if cfg.jwksCacheTtl <= 0 then 5 * MINUTE else cfg.jwksCacheTtl
  }

  function UrlTtl(cfg: Config): (ttl: int)
    ensures ttl > 0 && (cfg.oidcCacheTtl > 0 ==> ttl == cfg.oidcCacheTtl)
    ensures cfg.oidcCacheTtl <= 0 ==> ttl == 600_000_000_000
  {
    if cfg.oidcCacheTtl <= 0 then 10 * MINUTE else cfg.oidcCacheTtl
  }

  datatype Source = Url(value: string) | Path(value: string) | Oidc(value: string)

  function CacheKey(source: Source): string {
    match source
    case Url(v) => "url:" + v
    case Path(v) => "path:" + v
    case Oidc(v) => "oidc:" + v
  }

  /** Sources of different kinds, or with different values, never share a cache entry. */
  lemma CacheKeyIdentifies(a: Source, b: Source)
    requires CacheKey(a) == CacheKey(b)
    ensures a == b
  {
    assert CacheKey(a)[0] == CacheKey(b)[0];
    var n := if a.Url? then 4 else 5;
    assert CacheKey(a)[n..] == a.value && CacheKey(b)[n..] == b.value;
  }

  function NormalizeIssuer(raw: string): string {
    var issuer := TrimSpace(raw);
    if issuer != [] && issuer[|issuer| - 1] == '/' then issuer[..|issuer| - 1] else issuer
  }

  predicate Https(url: string) {
    "https://" <= ToLower(TrimSpace(url))
  }

  /** An issuer is the same with and without padding and one slash at its end. */
  lemma IssuerSpelling(issuer: string, pre: string, post: string)
    requires IsTrimmed(issuer) && issuer != "" && issuer[|issuer| - 1] != '/' && AllSpace(pre) && AllSpace(post)
    ensures NormalizeIssuer(pre + issuer + post) == issuer
    ensures NormalizeIssuer(pre + (issuer + "/") + post) == issuer
  {
    TrimPadded(pre, issuer, post);
    TrimPadded(pre, issuer + "/", post);
    assert IsTrimmed(issuer + "/");
  }

  /** Only https will do: in any case, and not plain http. */
  lemma HttpsOnly(rest: string)
    ensures Https("https://" + rest) && Https("HTTPS://" + rest) && !Https("http://" + rest)
  {
    StartsLower("https://", rest);
    StartsLower("HTTPS://", rest);
    StartsLower("http://", rest);
    assert ToLower("https://") == "https://" && ToLower("HTTPS://") == "https://" && ToLower("http://") == "http://";
    assert ToLower(TrimSpace("http://" + rest))[4] == ':' != "https://"[4];
  }

  lemma StartsLower(start: string, rest: string)
    requires start != "" && !IsSpace(start[0]) && !IsSpace(start[|start| - 1])
    ensures ToLower(start) <= ToLower(TrimSpace(start + rest))
  {
    TrimKeepsStart(start, rest);
  }

  datatype Key = Key(kid: string, material: string)

  type Keys = seq<Key>

  datatype KeysEntry = KeysEntry(doc: Keys, expires: int)

  datatype UrlEntry = UrlEntry(url: string, expires: int)

  /** Where one load stands: `t0` is the load's clock reading, `t1` that of its discovery. */
  datatype Load =
    | Started(source: Source, force: bool, t0: int)
    | Missed(source: Source, force: bool, t0: int)
    | Resolving(source: Source, force: bool, t0: int, t1: int)
    | Discovering(source: Source, t0: int, t1: int)
    | Discovered(source: Source, t0: int, t1: int, url: string)
    | Located(source: Source, t0: int, location: string)
    | Fetched(source: Source, t0: int, doc: Keys)
    | Loaded(source: Source, t0: int, doc: Keys)
    | Failed

  /** What the network answered, and what was used of it. */
  datatype Event =
    | DiscoveryAnswered(at: int, document: DiscoveryDocument)
    | KeysFetched(at: int, source: Source, location: string, doc: Keys)
    | KeysUsed(now: int, source: Source, doc: Keys)

  datatype State = State(
    clock: int,
    keys: map<string, KeysEntry>,
    urls: map<string, UrlEntry>,
    loads: map<nat, Load>,
    log: seq<Event>)

  datatype DiscoveryDocument = DiscoveryDocument(issuer: string, jwksUri: string)

  datatype Step =
    | Tick(d: nat)
    | Begin(id: nat, source: Source, force: bool)
    | LookUpKeys(id: nat)
    | Resolve(id: nat)
    | LookUpUrl(id: nat)
    | Discover(id: nat, document: Option<DiscoveryDocument>)
    | StoreUrl(id: nat)
    | Fetch(id: nat, body: Option<Keys>)
    | StoreKeys(id: nat)

  const INITIAL := State(0, map[], map[], map[], [])

  function Goes(s: State, id: nat, load: Load): State {
    s.(loads := s.loads[id := load])
  }

  function Logs(s: State, e: Event): State {
    s.(log := s.log + [e])
  }

  // ---- The steps of a load ----

  function KeysLookedUp(s: State, id: nat, load: Load): State
    requires load.Started?
  {
    var key := CacheKey(load.source);
    if !load.force && key in s.keys && load.t0 < s.keys[key].expires then
      Logs(Goes(s, id, Loaded(load.source, load.t0, s.keys[key].doc)), KeysUsed(load.t0, load.source, s.keys[key].doc))
    else if load.source.Oidc? then Goes(s, id, Missed(load.source, load.force, load.t0))
    else Goes(s, id, Located(load.source, load.t0, load.source.value))
  }

  function Resolved(s: State, id: nat, load: Load): State
    requires load.Missed?
  {
    var issuer := NormalizeIssuer(load.source.value);
    if issuer == "" || !Https(issuer) then Goes(s, id, Failed)
    else Goes(s, id, Resolving(load.source, load.force, load.t0, s.clock))
  }

  function UrlLookedUp(s: State, id: nat, load: Load): State
    requires load.Resolving?
  {
    var issuer := NormalizeIssuer(load.source.value);
    if !load.force && issuer in s.urls && load.t1 < s.urls[issuer].expires then
      Goes(s, id, Located(load.source, load.t0, s.urls[issuer].url))
    else Goes(s, id, Discovering(load.source, load.t0, load.t1))
  }

  function DiscoveryRead(s: State, id: nat, load: Load, answer: Option<DiscoveryDocument>): State
    requires load.Discovering?
  {
    var issuer := NormalizeIssuer(load.source.value);
    if answer.None? || NormalizeIssuer(answer.value.issuer) == "" ||
      NormalizeIssuer(answer.value.issuer) != issuer then Goes(s, id, Failed)
    else
      var url := TrimSpace(answer.value.jwksUri);
      if !Https(url) then Goes(s, id, Failed)
      else Logs(Goes(s, id, Discovered(load.source, load.t0, load.t1, url)), DiscoveryAnswered(s.clock, answer.value))
  }

  function UrlStored(cfg: Config, s: State, id: nat, load: Load): State
    requires load.Discovered?
  {
    var issuer := NormalizeIssuer(load.source.value);
    var stored := s.(urls := s.urls[issuer := UrlEntry(load.url, load.t1 + UrlTtl(cfg))]);
    Goes(stored, id, Located(load.source, load.t0, load.url))
  }

  function KeysRead(s: State, id: nat, load: Load, answer: Option<Keys>): State
    requires load.Located?
  {
    if answer.None? || answer.value == [] || (!load.source.Path? && !Https(load.location)) then Goes(s, id, Failed)
    else
      Logs(Goes(s, id, Fetched(load.source, load.t0, answer.value)),
           KeysFetched(s.clock, load.source, load.location, answer.value))
  }

  function KeysStored(cfg: Config, s: State, id: nat, load: Load): State
    requires load.Fetched?
  {
    var stored := s.(keys := s.keys[CacheKey(load.source) := KeysEntry(load.doc, load.t0 + KeysTtl(cfg))]);
    Logs(Goes(stored, id, Loaded(load.source, load.t0, load.doc)), KeysUsed(load.t0, load.source, load.doc))
  }

  function Apply(cfg: Config, s: State, step: Step): State {
    match step
    case Tick(d) => s.(clock := s.clock + d)
    case Begin(id, source, force) => if id in s.loads then s else Goes(s, id, Started(source, force, s.clock))
    case LookUpKeys(id) => if id in s.loads && s.loads[id].Started? then KeysLookedUp(s, id, s.loads[id]) else s
    case Resolve(id) => if id in s.loads && s.loads[id].Missed? then Resolved(s, id, s.loads[id]) else s
    case LookUpUrl(id) => if id in s.loads && s.loads[id].Resolving? then UrlLookedUp(s, id, s.loads[id]) else s
    case Discover(id, a) => if id in s.loads &&
      s.loads[id].Discovering? then DiscoveryRead(s, id, s.loads[id], a) else s
    case StoreUrl(id) => if id in s.loads && s.loads[id].Discovered? then UrlStored(cfg, s, id, s.loads[id]) else s
    case Fetch(id, a) => if id in s.loads && s.loads[id].Located? then KeysRead(s, id, s.loads[id], a) else s
    case StoreKeys(id) => if id in s.loads && s.loads[id].Fetched? then KeysStored(cfg, s, id, s.loads[id]) else s
  }

  function After(cfg: Config, s: State, steps: seq<Step>): State
    decreases |steps|
  {
    if steps == [] then s else After(cfg, Apply(cfg, s, steps[0]), steps[1..])
  }

  // ---- Where a key set comes from ----

  /** An answer, at `since` or later, whose document names this issuer and this URL. */
  predicate IsDiscovery(e: Event, issuer: string, url: string, since: int) {
    && e.DiscoveryAnswered? && e.at >= since && Https(url)
    && NormalizeIssuer(e.document.issuer) == issuer && TrimSpace(e.document.jwksUri) == url
  }

  /** The issuer's own discovery document named `url`, at `since` or later. */
  ghost predicate Named(log: seq<Event>, issuer: string, url: string, since: int) {
    exists i: nat :: i < |log| && IsDiscovery(log[i], issuer, url, since)
  }

  /** `location` is where a load of `source` that began at `since` may fetch. */
  ghost predicate RightPlace(cfg: Config, log: seq<Event>, source: Source, location: string, since: int) {
    if source.Oidc? then Named(log, NormalizeIssuer(source.value), location, since - UrlTtl(cfg) + 1)
    else location == source.value
  }

  ghost predicate IsFetch(cfg: Config, log: seq<Event>, i: nat, source: Source, doc: Keys, since: int) {
    && i < |log|
    && log[i].KeysFetched? && log[i].source == source && log[i].doc == doc && log[i].at >= since
    && (!source.Path? ==> Https(log[i].location))
    && doc != []
    && RightPlace(cfg, log[..i], source, log[i].location, since)
  }

  /** `doc` was fetched for `source` at `since` or later, from the right place. */
  ghost predicate Backed(cfg: Config, log: seq<Event>, source: Source, doc: Keys, since: int) {
    exists i: nat :: IsFetch(cfg, log, i, source, doc, since)
  }

  lemma NamedLater(log: seq<Event>, e: Event, issuer: string, url: string, since: int, earlier: int)
    requires Named(log, issuer, url, since) && earlier <= since
    ensures Named(log, issuer, url, earlier)
    ensures Named(log + [e], issuer, url, earlier)
  {
    var i: nat :| i < |log| && IsDiscovery(log[i], issuer, url, since);
    assert IsDiscovery(log[i], issuer, url, earlier);
    assert (log + [e])[i] == log[i];
  }

  lemma RightPlaceLater(cfg: Config, log: seq<Event>, e: Event, source: Source, location: string, since: int,
      earlier: int)
    requires RightPlace(cfg, log, source, location, since) && earlier <= since
    ensures RightPlace(cfg, log, source, location, earlier)
    ensures RightPlace(cfg, log + [e], source, location, earlier)
  {
    if source.Oidc? {
      NamedLater(log, e, NormalizeIssuer(source.value), location, since - UrlTtl(cfg) + 1, earlier - UrlTtl(cfg) + 1);
    }
  }

  lemma BackedLater(cfg: Config, log: seq<Event>, e: Event, source: Source, doc: Keys, since: int, earlier: int)
    requires Backed(cfg, log, source, doc, since) && earlier <= since
    ensures Backed(cfg, log, source, doc, earlier)
    ensures Backed(cfg, log + [e], source, doc, earlier)
  {
    var i: nat :| IsFetch(cfg, log, i, source, doc, since);
    RightPlaceLater(cfg, log[..i], e, source, log[i].location, since, earlier);
    assert IsFetch(cfg, log, i, source, doc, earlier);
    assert (log + [e])[..i] == log[..i];
    assert IsFetch(cfg, log + [e], i, source, doc, earlier);
  }

  // ---- The invariant ----

  ghost predicate EntryOk(cfg: Config, keys: map<string, KeysEntry>, log: seq<Event>, source: Source) {
    CacheKey(source) in keys ==>
      Backed(cfg, log, source, keys[CacheKey(source)].doc, keys[CacheKey(source)].expires - KeysTtl(cfg))
  }

  ghost predicate KeysOk(cfg: Config, keys: map<string, KeysEntry>, log: seq<Event>) {
    forall source: Source :: EntryOk(cfg, keys, log, source)
  }

  ghost predicate UrlsOk(cfg: Config, urls: map<string, UrlEntry>, log: seq<Event>) {
    forall issuer | issuer in urls :: Named(log, issuer, urls[issuer].url, urls[issuer].expires - UrlTtl(cfg))
  }

  ghost predicate LoadOk(cfg: Config, clock: int, log: seq<Event>, load: Load) {
    match load
    case Started(_, _, t0) => t0 <= clock
    case Missed(source, _, t0) => t0 <= clock && source.Oidc?
    case Resolving(source, _, t0, t1) => t0 <= t1 <= clock && source.Oidc?
    case Discovering(source, t0, t1) => t0 <= t1 <= clock && source.Oidc?
    case Discovered(source, t0, t1, url) => t0 <= t1 <= clock && source.Oidc? &&
      Named(log, NormalizeIssuer(source.value), url, t1)
    case Located(source, t0, location) => t0 <= clock && RightPlace(cfg, log, source, location, t0)
    case Fetched(source, t0, doc) => t0 <= clock && Backed(cfg, log, source, doc, t0)
    case Loaded(source, t0, doc) => KeysUsed(t0, source, doc) in log
    case Failed => true
  }

  ghost predicate LoadsOk(cfg: Config, clock: int, log: seq<Event>, loads: map<nat, Load>) {
    forall id | id in loads :: LoadOk(cfg, clock, log, loads[id])
  }

  ghost predicate UseOk(cfg: Config, log: seq<Event>, m: nat)
    requires m < |log|
  {
    log[m].KeysUsed? ==> Backed(cfg, log[..m], log[m].source, log[m].doc, log[m].now - KeysTtl(cfg) + 1)
  }

  ghost predicate UsesOk(cfg: Config, log: seq<Event>) {
    forall m: nat | m < |log| :: UseOk(cfg, log, m)
  }

  ghost predicate Inv(cfg: Config, s: State) {
    && KeysOk(cfg, s.keys, s.log)
    && UrlsOk(cfg, s.urls, s.log)
    && LoadsOk(cfg, s.clock, s.log, s.loads)
    && UsesOk(cfg, s.log)
  }

  lemma KeysLater(cfg: Config, keys: map<string, KeysEntry>, log: seq<Event>, e: Event)
    requires KeysOk(cfg, keys, log)
    ensures KeysOk(cfg, keys, log + [e])
  {
    forall source: Source
      ensures EntryOk(cfg, keys, log + [e], source)
    {
      assert EntryOk(cfg, keys, log, source);
      if CacheKey(source) in keys {
        var since := keys[CacheKey(source)].expires - KeysTtl(cfg);
        BackedLater(cfg, log, e, source, keys[CacheKey(source)].doc, since, since);
      }
    }
  }

  lemma UrlsLater(cfg: Config, urls: map<string, UrlEntry>, log: seq<Event>, e: Event)
    requires UrlsOk(cfg, urls, log)
    ensures UrlsOk(cfg, urls, log + [e])
  {
    forall issuer | issuer in urls
      ensures Named(log + [e], issuer, urls[issuer].url, urls[issuer].expires - UrlTtl(cfg))
    {
      var since := urls[issuer].expires - UrlTtl(cfg);
      NamedLater(log, e, issuer, urls[issuer].url, since, since);
    }
  }

  lemma LoadLater(cfg: Config, clock: int, log: seq<Event>, e: Event, load: Load)
    requires LoadOk(cfg, clock, log, load)
    ensures LoadOk(cfg, clock, log + [e], load)
  {
    match load
    case Discovered(source, t0, t1, url) => NamedLater(log, e, NormalizeIssuer(source.value), url, t1, t1);
    case Located(source, t0, location) => RightPlaceLater(cfg, log, e, source, location, t0, t0);
    case Fetched(source, t0, doc) => BackedLater(cfg, log, e, source, doc, t0, t0);
    case _ =>
  }

  lemma UsesLater(cfg: Config, log: seq<Event>, e: Event)
    requires UsesOk(cfg, log)
    requires e.KeysUsed? ==> Backed(cfg, log, e.source, e.doc, e.now - KeysTtl(cfg) + 1)
    ensures UsesOk(cfg, log + [e])
  {
    forall m: nat | m < |log + [e]|
      ensures UseOk(cfg, log + [e], m)
    {
      if m < |log| {
        assert UseOk(cfg, log, m);
        assert (log + [e])[..m] == log[..m];
      } else {
        assert (log + [e])[..m] == log;
      }
    }
  }

  /** Appending to the history keeps everything said about it. */
  lemma LogKeepsInv(cfg: Config, s: State, e: Event)
    requires Inv(cfg, s)
    requires e.KeysUsed? ==> Backed(cfg, s.log, e.source, e.doc, e.now - KeysTtl(cfg) + 1)
    ensures Inv(cfg, Logs(s, e))
  {
    KeysLater(cfg, s.keys, s.log, e);
    UrlsLater(cfg, s.urls, s.log, e);
    forall id | id in s.loads
      ensures LoadOk(cfg, s.clock, s.log + [e], s.loads[id])
    {
      LoadLater(cfg, s.clock, s.log, e, s.loads[id]);
    }
    UsesLater(cfg, s.log, e);
  }

  lemma GoKeepsInv(cfg: Config, s: State, id: nat, load: Load)
    requires Inv(cfg, s) && LoadOk(cfg, s.clock, s.log, load)
    ensures Inv(cfg, Goes(s, id, load))
  {
  }

  lemma TickKeepsInv(cfg: Config, s: State, d: nat)
    requires Inv(cfg, s)
    ensures Inv(cfg, s.(clock := s.clock + d))
  {
    forall id | id in s.loads
      ensures LoadOk(cfg, s.clock + d, s.log, s.loads[id])
    {
      assert LoadOk(cfg, s.clock, s.log, s.loads[id]);
    }
  }

  lemma LookUpKeysKeepsInv(cfg: Config, s: State, id: nat, load: Load)
    requires Inv(cfg, s) && LoadOk(cfg, s.clock, s.log, load) && load.Started?
    ensures Inv(cfg, KeysLookedUp(s, id, load))
  {
    var key := CacheKey(load.source);
    assert EntryOk(cfg, s.keys, s.log, load.source);
    if !load.force && key in s.keys && load.t0 < s.keys[key].expires {
      var doc, since := s.keys[key].doc, s.keys[key].expires - KeysTtl(cfg);
      BackedLater(cfg, s.log, KeysUsed(load.t0, load.source, doc), load.source, doc, since, load.t0 - KeysTtl(cfg) + 1);
      var e := KeysUsed(load.t0, load.source, doc);
      LogKeepsInv(cfg, s, e);
      GoKeepsInv(cfg, Logs(s, e), id, Loaded(load.source, load.t0, doc));
    } else if load.source.Oidc? {
      GoKeepsInv(cfg, s, id, Missed(load.source, load.force, load.t0));
    } else {
      GoKeepsInv(cfg, s, id, Located(load.source, load.t0, load.source.value));
    }
  }

  lemma LookUpUrlKeepsInv(cfg: Config, s: State, id: nat, load: Load)
    requires Inv(cfg, s) && LoadOk(cfg, s.clock, s.log, load) && load.Resolving?
    ensures Inv(cfg, UrlLookedUp(s, id, load))
  {
    var issuer := NormalizeIssuer(load.source.value);
    if !load.force && issuer in s.urls && load.t1 < s.urls[issuer].expires {
      var url := s.urls[issuer].url;
      NamedLater(s.log, KeysUsed(0, load.source, []), issuer, url, s.urls[issuer].expires - UrlTtl(cfg),
        load.t0 - UrlTtl(cfg) + 1);
      GoKeepsInv(cfg, s, id, Located(load.source, load.t0, url));
    } else {
      GoKeepsInv(cfg, s, id, Discovering(load.source, load.t0, load.t1));
    }
  }

  lemma ResolveKeepsInv(cfg: Config, s: State, id: nat, load: Load)
    requires Inv(cfg, s) && LoadOk(cfg, s.clock, s.log, load) && load.Missed?
    ensures Inv(cfg, Resolved(s, id, load))
  {
    GoKeepsInv(cfg, s, id, Failed);
    GoKeepsInv(cfg, s, id, Resolving(load.source, load.force, load.t0, s.clock));
  }

  lemma DiscoverKeepsInv(cfg: Config, s: State, id: nat, load: Load, answer: Option<DiscoveryDocument>)
    requires Inv(cfg, s) && LoadOk(cfg, s.clock, s.log, load) && load.Discovering?
    ensures Inv(cfg, DiscoveryRead(s, id, load, answer))
  {
    GoKeepsInv(cfg, s, id, Failed);
    if answer.Some? {
      var issuer, url := NormalizeIssuer(load.source.value), TrimSpace(answer.value.jwksUri);
      if NormalizeIssuer(answer.value.issuer) == issuer && Https(url) {
        var e := DiscoveryAnswered(s.clock, answer.value);
        LogKeepsInv(cfg, s, e);
        assert IsDiscovery(Logs(s, e).log[|s.log|], issuer, url, load.t1);
        GoKeepsInv(cfg, Logs(s, e), id, Discovered(load.source, load.t0, load.t1, url));
      }
    }
  }

  lemma UrlEntered(cfg: Config, urls: map<string, UrlEntry>, log: seq<Event>, issuer: string, url: string, t1: int)
    requires UrlsOk(cfg, urls, log) && Named(log, issuer, url, t1)
    ensures UrlsOk(cfg, urls[issuer := UrlEntry(url, t1 + UrlTtl(cfg))], log)
  {
  }

  lemma UrlKeepsInv(cfg: Config, s: State, issuer: string, url: string, t1: int)
    requires Inv(cfg, s) && Named(s.log, issuer, url, t1)
    ensures Inv(cfg, s.(urls := s.urls[issuer := UrlEntry(url, t1 + UrlTtl(cfg))]))
  {
    UrlEntered(cfg, s.urls, s.log, issuer, url, t1);
  }

  lemma StoreUrlKeepsInv(cfg: Config, s: State, id: nat, load: Load)
    requires Inv(cfg, s) && LoadOk(cfg, s.clock, s.log, load) && load.Discovered?
    ensures Inv(cfg, UrlStored(cfg, s, id, load))
  {
    var issuer := NormalizeIssuer(load.source.value);
    NamedLater(s.log, KeysUsed(0, load.source, []), issuer, load.url, load.t1, load.t0 - UrlTtl(cfg) + 1);
    UrlKeepsInv(cfg, s, issuer, load.url, load.t1);
    var stored := s.(urls := s.urls[issuer := UrlEntry(load.url, load.t1 + UrlTtl(cfg))]);
    GoKeepsInv(cfg, stored, id, Located(load.source, load.t0, load.url));
  }

  lemma FetchKeepsInv(cfg: Config, s: State, id: nat, load: Load, answer: Option<Keys>)
    requires Inv(cfg, s) && LoadOk(cfg, s.clock, s.log, load) && load.Located?
    ensures Inv(cfg, KeysRead(s, id, load, answer))
  {
    GoKeepsInv(cfg, s, id, Failed);
    if answer.Some? && answer.value != [] && (load.source.Path? || Https(load.location)) {
      var e := KeysFetched(s.clock, load.source, load.location, answer.value);
      LogKeepsInv(cfg, s, e);
      assert Logs(s, e).log[..|s.log|] == s.log;
      assert IsFetch(cfg, Logs(s, e).log, |s.log|, load.source, answer.value, load.t0);
      GoKeepsInv(cfg, Logs(s, e), id, Fetched(load.source, load.t0, answer.value));
    }
  }

  lemma OneEntered(cfg: Config, keys: map<string, KeysEntry>, log: seq<Event>, source: Source, doc: Keys, t0: int,
                   other: Source)
    requires EntryOk(cfg, keys, log, other) && Backed(cfg, log, source, doc, t0)
    ensures EntryOk(cfg, keys[CacheKey(source) := KeysEntry(doc, t0 + KeysTtl(cfg))], log, other)
  {
    if CacheKey(other) == CacheKey(source) { CacheKeyIdentifies(other, source); }
  }

  lemma KeysEntered(cfg: Config, keys: map<string, KeysEntry>, log: seq<Event>, source: Source, doc: Keys, t0: int)
    requires KeysOk(cfg, keys, log) && Backed(cfg, log, source, doc, t0)
    ensures KeysOk(cfg, keys[CacheKey(source) := KeysEntry(doc, t0 + KeysTtl(cfg))], log)
  {
    var stored := keys[CacheKey(source) := KeysEntry(doc, t0 + KeysTtl(cfg))];
    forall other: Source
      ensures EntryOk(cfg, stored, log, other)
    {
      assert EntryOk(cfg, keys, log, other);
      OneEntered(cfg, keys, log, source, doc, t0, other);
    }
  }

  lemma EntryKeepsInv(cfg: Config, s: State, load: Load)
    requires Inv(cfg, s) && load.Fetched? && Backed(cfg, s.log, load.source, load.doc, load.t0)
    ensures Inv(cfg, s.(keys := s.keys[CacheKey(load.source) := KeysEntry(load.doc, load.t0 + KeysTtl(cfg))]))
  {
    KeysEntered(cfg, s.keys, s.log, load.source, load.doc, load.t0);
  }

  lemma StoreKeysKeepsInv(cfg: Config, s: State, id: nat, load: Load)
    requires Inv(cfg, s) && LoadOk(cfg, s.clock, s.log, load) && load.Fetched?
    ensures Inv(cfg, KeysStored(cfg, s, id, load))
  {
    EntryKeepsInv(cfg, s, load);
    var stored := s.(keys := s.keys[CacheKey(load.source) := KeysEntry(load.doc, load.t0 + KeysTtl(cfg))]);
    var e := KeysUsed(load.t0, load.source, load.doc);
    BackedLater(cfg, s.log, e, load.source, load.doc, load.t0, load.t0 - KeysTtl(cfg) + 1);
    LogKeepsInv(cfg, stored, e);
    GoKeepsInv(cfg, Logs(stored, e), id, Loaded(load.source, load.t0, load.doc));
    assert KeysStored(cfg, s, id, load) == Goes(Logs(stored, e), id, Loaded(load.source, load.t0, load.doc));
  }

  lemma StepKeepsInv(cfg: Config, s: State, step: Step)
    requires Inv(cfg, s)
    ensures Inv(cfg, Apply(cfg, s, step))
  {
    if step.Tick? {
      TickKeepsInv(cfg, s, step.d);
    } else if step.Begin? {
      GoKeepsInv(cfg, s, step.id, Started(step.source, step.force, s.clock));
    } else if step.id in s.loads {
      var load := s.loads[step.id];
      assert LoadOk(cfg, s.clock, s.log, load);
      match step
      case LookUpKeys(id) => if load.Started? { LookUpKeysKeepsInv(cfg, s, id, load); }
      case Resolve(id) => if load.Missed? { ResolveKeepsInv(cfg, s, id, load); }
      case LookUpUrl(id) => if load.Resolving? { LookUpUrlKeepsInv(cfg, s, id, load); }
      case Discover(id, a) => if load.Discovering? { DiscoverKeepsInv(cfg, s, id, load, a); }
      case StoreUrl(id) => if load.Discovered? { StoreUrlKeepsInv(cfg, s, id, load); }
      case Fetch(id, a) => if load.Located? { FetchKeepsInv(cfg, s, id, load, a); }
      case StoreKeys(id) => if load.Fetched? { StoreKeysKeepsInv(cfg, s, id, load); }
    }
  }

  lemma {:induction false} RunKeepsInv(cfg: Config, s: State, steps: seq<Step>)
    requires Inv(cfg, s)
    ensures Inv(cfg, After(cfg, s, steps))
    decreases |steps|
  {
    if steps != [] {
      StepKeepsInv(cfg, s, steps[0]);
      RunKeepsInv(cfg, Apply(cfg, s, steps[0]), steps[1..]);
    }
  }

  /**
   Use `m` of the history is within both lifetimes: its keys, not none, were fetched for the same source, by https
   unless it is a file, after `now - jwksTTL`; for an issuer from a URL the issuer's own document named after
   `now - jwksTTL - oidcTTL`; and both answers came before the use.
   */
  ghost predicate Traced(cfg: Config, log: seq<Event>, m: nat)
    requires m < |log| && log[m].KeysUsed?
  {
    exists i: nat | i < m ::
      && log[i].KeysFetched? && log[i].source == log[m].source && log[i].doc == log[m].doc
      && log[i].at > log[m].now - KeysTtl(cfg)
      && log[m].doc != [] && (!log[m].source.Path? ==> Https(log[i].location))
      && (if log[m].source.Oidc? then
          exists j: nat | j < i :: IsDiscovery(log[j], NormalizeIssuer(log[m].source.value), log[i].location,
                                               log[m].now - KeysTtl(cfg) - UrlTtl(cfg) + 2)
        else log[i].location == log[m].source.value)
  }

  /** The two staleness bounds add, for every use of every run. */
  lemma StalenessAdds(cfg: Config, steps: seq<Step>, m: nat)
    requires m < |After(cfg, INITIAL, steps).log| && After(cfg, INITIAL, steps).log[m].KeysUsed?
    ensures Traced(cfg, After(cfg, INITIAL, steps).log, m)
  {
    RunKeepsInv(cfg, INITIAL, steps);
    var log := After(cfg, INITIAL, steps).log;
    assert UseOk(cfg, log, m);
    UseTraced(cfg, log, m);
  }

  lemma UseTraced(cfg: Config, log: seq<Event>, m: nat)
    requires m < |log| && log[m].KeysUsed? && UseOk(cfg, log, m)
    ensures Traced(cfg, log, m)
  {
    var source, since := log[m].source, log[m].now - KeysTtl(cfg) + 1;
    var i: nat :| IsFetch(cfg, log[..m], i, source, log[m].doc, since);
    assert log[..m][i] == log[i] && log[..m][..i] == log[..i];
    if source.Oidc? {
      var j: nat :| j < i && IsDiscovery(log[..i][j], NormalizeIssuer(source.value), log[i].location,
        since - UrlTtl(cfg) + 1);
      assert log[..i][j] == log[j];
    }
  }

  /** So the keys of a load that has ended in any run were used within both lifetimes of its clock reading. */
  lemma LoadedIsTraced(cfg: Config, steps: seq<Step>, id: nat) returns (m: nat)
    requires var s := After(cfg, INITIAL, steps); id in s.loads && s.loads[id].Loaded?
    ensures var s := After(cfg, INITIAL, steps);
      && m < |s.log| && s.log[m] == KeysUsed(s.loads[id].t0, s.loads[id].source, s.loads[id].doc)
      && Traced(cfg, s.log, m)
  {
    var s := After(cfg, INITIAL, steps);
    RunKeepsInv(cfg, INITIAL, steps);
    assert LoadOk(cfg, s.clock, s.log, s.loads[id]);
    m :| m < |s.log| && s.log[m] == KeysUsed(s.loads[id].t0, s.loads[id].source, s.loads[id].doc);
    StalenessAdds(cfg, steps, m);
  }

  // ---- The sum of the bounds is reached ----

  lemma {:induction false} AfterConcat(cfg: Config, s: State, a: seq<Step>, b: seq<Step>)
    ensures After(cfg, s, a + b) == After(cfg, After(cfg, s, a), b)
    decreases |a|
  {
    if a == [] {
      assert a + b == b;
    } else {
      assert (a + b)[1..] == a[1..] + b;
      AfterConcat(cfg, Apply(cfg, s, a[0]), a[1..], b);
    }
  }

  lemma AfterTwo(cfg: Config, s: State, a: Step, b: Step)
    ensures After(cfg, s, [a, b]) == Apply(cfg, Apply(cfg, s, a), b)
  {
    assert [a, b][1..] == [b];
    assert After(cfg, Apply(cfg, s, a), [b]) == Apply(cfg, Apply(cfg, s, a), b);
  }

  lemma AfterFour(cfg: Config, s: State, a: Step, b: Step, c: Step, d: Step)
    ensures After(cfg, s, [a, b, c, d]) == Apply(cfg, Apply(cfg, Apply(cfg, Apply(cfg, s, a), b), c), d)
  {
    assert [a, b, c, d] == [a, b] + [c, d];
    AfterConcat(cfg, s, [a, b], [c, d]);
    AfterTwo(cfg, s, a, b);
    AfterTwo(cfg, Apply(cfg, Apply(cfg, s, a), b), c, d);
  }

  /** An issuer whose discovery document names itself and an https URL. */
  predicate Discoverable(source: Source, document: DiscoveryDocument) {
    var issuer := NormalizeIssuer(source.value);
    source.Oidc? && issuer != "" && Https(issuer) && NormalizeIssuer(document.issuer) == issuer &&
      Https(TrimSpace(document.jwksUri))
  }

  /** A load at time 0 that discovers the URL; its own fetch is still under way. */
  function DiscoverOnly(source: Source, document: DiscoveryDocument): seq<Step> {
    [Begin(1, source, false), LookUpKeys(1), Resolve(1), LookUpUrl(1)] + [Discover(1, Some(document)), StoreUrl(1)]
  }

  /** A load as the discovery entry is about to expire, which fetches from the cached URL. */
  function FetchCached(cfg: Config, source: Source, doc: Keys): seq<Step> {
    [Tick(UrlTtl(cfg) - 1), Begin(2, source, false), LookUpKeys(2), Resolve(2)] + [LookUpUrl(2), Fetch(2, Some(doc))]
  }

  /** A load as the stored keys are about to expire. */
  function UseCached(cfg: Config, source: Source): seq<Step> {
    [StoreKeys(2), Tick(KeysTtl(cfg) - 1), Begin(3, source, false), LookUpKeys(3)]
  }

  lemma DiscoverOnlyRuns(cfg: Config, source: Source, document: DiscoveryDocument)
    requires Discoverable(source, document)
    ensures After(cfg, INITIAL, DiscoverOnly(source, document))
         == DiscoveredState(cfg, source, document)
  {
    AfterConcat(cfg, INITIAL, DiscoverOnly(source, document)[..4], DiscoverOnly(source, document)[4..]);
    AfterFour(cfg, INITIAL, Begin(1, source, false), LookUpKeys(1), Resolve(1), LookUpUrl(1));
    var s := State(0, map[], map[], map[1 := Discovering(source, 0, 0)], []);
    assert After(cfg, INITIAL, DiscoverOnly(source, document)[..4]) == s;
    AfterTwo(cfg, s, Discover(1, Some(document)), StoreUrl(1));
  }

  function DiscoveredState(cfg: Config, source: Source, document: DiscoveryDocument): State {
    var issuer, url := NormalizeIssuer(source.value), TrimSpace(document.jwksUri);
    State(0, map[], map[issuer := UrlEntry(url, UrlTtl(cfg))], map[1 := Located(source, 0, url)],
      [DiscoveryAnswered(0, document)])
  }

  lemma SecondLoadMisses(cfg: Config, source: Source, document: DiscoveryDocument, t: nat)
    requires source.Oidc? && NormalizeIssuer(source.value) != "" && Https(NormalizeIssuer(source.value))
    ensures var s := DiscoveredState(cfg, source, document);
      After(cfg, s, [Tick(t), Begin(2, source, false), LookUpKeys(2), Resolve(2)]) ==
      s.(clock := t, loads := s.loads[2 := Resolving(source, false, t, t)])
  {
    var s := DiscoveredState(cfg, source, document);
    AfterFour(cfg, s, Tick(t), Begin(2, source, false), LookUpKeys(2), Resolve(2));
    var begun := s.(clock := t, loads := s.loads[2 := Started(source, false, t)]);
    assert Apply(cfg, Apply(cfg, s, Tick(t)), Begin(2, source, false)) == begun;
    var missed := s.(clock := t, loads := s.loads[2 := Missed(source, false, t)]);
    assert Apply(cfg, begun, LookUpKeys(2)) == missed;
    assert Apply(cfg, missed, Resolve(2)) == s.(clock := t, loads := s.loads[2 := Resolving(source, false, t, t)]);
  }

  lemma FetchCachedRuns(cfg: Config, source: Source, doc: Keys, document: DiscoveryDocument)
    requires Discoverable(source, document) && doc != []
    ensures var s, t, url := DiscoveredState(cfg, source, document), UrlTtl(cfg) - 1, TrimSpace(document.jwksUri);
      After(cfg, s, FetchCached(cfg, source, doc)) ==
      s.(clock := t, loads := s.loads[2 := Fetched(source, t, doc)], log := s.log + [KeysFetched(t, source, url, doc)])
  {
    var s, t, url := DiscoveredState(cfg, source, document), UrlTtl(cfg) - 1, TrimSpace(document.jwksUri);
    AfterConcat(cfg, s, [Tick(t), Begin(2, source, false), LookUpKeys(2), Resolve(2)],
                [LookUpUrl(2), Fetch(2, Some(doc))]);
    SecondLoadMisses(cfg, source, document, t);
    var resolving := s.(clock := t, loads := s.loads[2 := Resolving(source, false, t, t)]);
    AfterTwo(cfg, resolving, LookUpUrl(2), Fetch(2, Some(doc)));
    assert Apply(cfg, resolving, LookUpUrl(2)) == s.(clock := t, loads := s.loads[2 := Located(source, t, url)]);
  }

  lemma UseCachedRuns(cfg: Config, s: State, source: Source, doc: Keys)
    requires s.keys == map[] && 2 in s.loads && 3 !in s.loads && s.loads[2] == Fetched(source, s.clock, doc)
    ensures var now := s.clock + KeysTtl(cfg) - 1;
      After(cfg, s, UseCached(cfg, source)).log == s.log + [KeysUsed(s.clock, source, doc), KeysUsed(now, source, doc)]
  {
    AfterFour(cfg, s, StoreKeys(2), Tick(KeysTtl(cfg) - 1), Begin(3, source, false), LookUpKeys(3));
  }

  /**
   Neither bound can be lowered: for every issuer, document and key set there is a run whose only discovery is at
   time 0 and which uses the keys at `jwksTTL + oidcTTL - 2`.
   */
  lemma StalenessIsReached(cfg: Config, source: Source, document: DiscoveryDocument,
      doc: Keys) returns (steps: seq<Step>)
    requires Discoverable(source, document) && doc != []
    ensures var url, t := TrimSpace(document.jwksUri), UrlTtl(cfg) - 1;
      After(cfg, INITIAL, steps).log ==
      [DiscoveryAnswered(0, document), KeysFetched(t, source, url, doc), KeysUsed(t, source, doc),
        KeysUsed(t + KeysTtl(cfg) - 1, source, doc)]
  {
    var a, b, c := DiscoverOnly(source, document), FetchCached(cfg, source, doc), UseCached(cfg, source);
    steps := a + b + c;
    DiscoverOnlyRuns(cfg, source, document);
    FetchCachedRuns(cfg, source, doc, document);
    AfterConcat(cfg, INITIAL, a, b);
    AfterConcat(cfg, INITIAL, a + b, c);
    UseCachedRuns(cfg, After(cfg, INITIAL, a + b), source, doc);
  }
}
