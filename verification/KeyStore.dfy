/**
 The key cache as the code runs it: two maps updated in place.  A load that no other load interrupts computes exactly
 what its steps in `KeyCache` do, from any state and beside any other loads in it.
 */
module KeyStore {
  import opened Text
  import opened KeyCache

  function ResolveSteps(id: nat, document: Option<DiscoveryDocument>): seq<Step> {
    [Resolve(id), LookUpUrl(id), Discover(id, document), StoreUrl(id)]
  }

  function FetchSteps(id: nat, body: Option<Keys>): seq<Step> {
    [Fetch(id, body), StoreKeys(id)]
  }

  /** All steps a load can take, with `wait` time passing before its discovery; steps it has no use for do nothing. */
  function LoadSteps(id: nat, source: Source, force: bool, wait: nat, document: Option<DiscoveryDocument>,
      body: Option<Keys>): seq<Step> {
    [Begin(id, source, force), LookUpKeys(id)] + ([Tick(wait)] + (ResolveSteps(id, document) + FetchSteps(id, body)))
  }

  /** A step of the load `id`, or of the clock. */
  predicate StepOf(step: Step, id: nat) {
    step.Tick? || (!step.Begin? && step.id == id)
  }

  predicate Ended(load: Load) {
    load.Loaded? || load.Failed?
  }

  /** What one load leaves behind: the caches and its own place, the other loads as they were. */
  predicate Leaves(s: State, end: State, keys: map<string, KeysEntry>, urls: map<string, UrlEntry>, id: nat,
      load: Load) {
    end.keys == keys && end.urls == urls && end.loads == s.loads[id := load]
  }

  lemma {:induction false} EndedStays(cfg: Config, s: State, steps: seq<Step>, id: nat)
    requires id in s.loads && Ended(s.loads[id]) && forall i | 0 <= i < |steps| :: StepOf(steps[i], id)
    ensures Leaves(s, After(cfg, s, steps), s.keys, s.urls, id, s.loads[id])
    decreases |steps|
  {
    if steps != [] { EndedStays(cfg, Apply(cfg, s, steps[0]), steps[1..], id); }
  }

  type Urls = map<string, UrlEntry>

  /** The URL an issuer's document names, and the discovery cache after. */
  function Discovery(cfg: Config, urls: Urls, issuer: string, now: int, document: Option<DiscoveryDocument>): (Urls,
      Option<string>) {
    var clean := NormalizeIssuer(issuer);
    if document.None? || NormalizeIssuer(document.value.issuer) == "" ||
      NormalizeIssuer(document.value.issuer) != clean then (urls, None)
    else
      var url := TrimSpace(document.value.jwksUri);
      if !Https(url) then (urls, None) else (urls[clean := UrlEntry(url, now + UrlTtl(cfg))], Some(url))
  }

  /** The URL an issuer resolves to, and the discovery cache after. */
  function Resolution(cfg: Config, urls: Urls, issuer: string, force: bool, now: int,
      document: Option<DiscoveryDocument>): (Urls, Option<string>) {
    var clean := NormalizeIssuer(issuer);
    if clean == "" || !Https(clean) then (urls, None)
    else if !force && clean in urls && now < urls[clean].expires then (urls, Some(urls[clean].url))
    else Discovery(cfg, urls, issuer, now, document)
  }

  function Place(source: Source, t0: int, location: Option<string>): Load {
    if location.Some? then Located(source, t0, location.value) else Failed
  }

  lemma DiscoveryRuns(cfg: Config, s: State, id: nat, issuer: string, t0: int, document: Option<DiscoveryDocument>)
    requires id in s.loads && s.loads[id] == Discovering(Oidc(issuer), t0, s.clock)
    ensures var (urls, url) := Discovery(cfg, s.urls, issuer, s.clock, document);
      var end := Apply(cfg, Apply(cfg, s, Discover(id, document)), StoreUrl(id));
      end.clock == s.clock && Leaves(s, end, s.keys, urls, id, Place(Oidc(issuer), t0, url))
  {
    var read := Apply(cfg, s, Discover(id, document));
    assert read.loads[id].Failed? || read.loads[id].Discovered?;
  }

  /** From the lookup of the URL on. */
  lemma LookUpRuns(cfg: Config, s: State, id: nat, issuer: string, force: bool, t0: int,
      document: Option<DiscoveryDocument>)
    requires id in s.loads && s.loads[id] == Resolving(Oidc(issuer), force, t0, s.clock)
    requires NormalizeIssuer(issuer) != "" && Https(NormalizeIssuer(issuer))
    ensures var (urls, url) := Resolution(cfg, s.urls, issuer, force, s.clock, document);
      var end := Apply(cfg, Apply(cfg, Apply(cfg, s, LookUpUrl(id)), Discover(id, document)), StoreUrl(id));
      end.clock == s.clock && Leaves(s, end, s.keys, urls, id, Place(Oidc(issuer), t0, url))
  {
    var clean := NormalizeIssuer(issuer);
    var looked := Apply(cfg, s, LookUpUrl(id));
    if !force && clean in s.urls && s.clock < s.urls[clean].expires {
      assert looked == Goes(s, id, Located(Oidc(issuer), t0, s.urls[clean].url));
      assert Apply(cfg, looked, Discover(id, document)) == looked;
    } else {
      assert looked == Goes(s, id, Discovering(Oidc(issuer), t0, s.clock));
      DiscoveryRuns(cfg, looked, id, issuer, t0, document);
    }
  }

  lemma ResolveRuns(cfg: Config, s: State, id: nat, issuer: string, force: bool, t0: int,
      document: Option<DiscoveryDocument>)
    requires id in s.loads && s.loads[id] == Missed(Oidc(issuer), force, t0)
    ensures var (urls, url) := Resolution(cfg, s.urls, issuer, force, s.clock, document);
      var end := After(cfg, s, ResolveSteps(id, document));
      end.clock == s.clock && Leaves(s, end, s.keys, urls, id, Place(Oidc(issuer), t0, url))
  {
    AfterFour(cfg, s, Resolve(id), LookUpUrl(id), Discover(id, document), StoreUrl(id));
    var clean := NormalizeIssuer(issuer);
    var first := Apply(cfg, s, Resolve(id));
    if clean == "" || !Https(clean) {
      assert first == Goes(s, id, Failed);
    } else {
      assert first == Goes(s, id, Resolving(Oidc(issuer), force, t0, s.clock));
      LookUpRuns(cfg, first, id, issuer, force, t0, document);
    }
  }

  type KeysMap = map<string, KeysEntry>

  /** The keys read at a location, if there is one, and the key cache after. */
  function Fetching(cfg: Config, keys: KeysMap, source: Source, location: Option<string>, t0: int,
      body: Option<Keys>): (KeysMap, Option<Keys>) {
    if location.None? || body.None? || body.value == [] || (!source.Path? && !Https(location.value)) then (keys, None)
    else (keys[CacheKey(source) := KeysEntry(body.value, t0 + KeysTtl(cfg))], body)
  }

  function Ending(source: Source, t0: int, doc: Option<Keys>): Load {
    if doc.Some? then Loaded(source, t0, doc.value) else Failed
  }

  lemma FetchRuns(cfg: Config, s: State, id: nat, source: Source, location: Option<string>, t0: int, body: Option<Keys>)
    requires id in s.loads && s.loads[id] == Place(source, t0, location)
    ensures var (keys, doc) := Fetching(cfg, s.keys, source, location, t0, body);
      Leaves(s, After(cfg, s, FetchSteps(id, body)), keys, s.urls, id, Ending(source, t0, doc))
  {
    AfterTwo(cfg, s, Fetch(id, body), StoreKeys(id));
    var fetched := Apply(cfg, s, Fetch(id, body));
    if Fetching(cfg, s.keys, source, location, t0, body).1.None? {
      assert fetched.loads == s.loads[id := Failed];
      assert Apply(cfg, fetched, StoreKeys(id)) == fetched;
    } else {
      assert fetched.loads == s.loads[id := Fetched(source, t0, body.value)];
    }
  }

  lemma HitRuns(cfg: Config, s: State, id: nat, source: Source, wait: nat, document: Option<DiscoveryDocument>,
      body: Option<Keys>)
    requires id !in s.loads && CacheKey(source) in s.keys && s.clock < s.keys[CacheKey(source)].expires
    ensures Leaves(s, After(cfg, s, LoadSteps(id, source, false, wait, document, body)), s.keys, s.urls, id,
      Loaded(source, s.clock, s.keys[CacheKey(source)].doc))
  {
    var first := [Begin(id, source, false), LookUpKeys(id)];
    var rest := [Tick(wait)] + (ResolveSteps(id, document) + FetchSteps(id, body));
    AfterConcat(cfg, s, first, rest);
    AfterTwo(cfg, s, first[0], first[1]);
    EndedStays(cfg, After(cfg, s, first), rest, id);
  }

  lemma NothingToResolve(cfg: Config, s: State, id: nat, document: Option<DiscoveryDocument>)
    requires id in s.loads && s.loads[id].Located?
    ensures After(cfg, s, ResolveSteps(id, document)) == s
  {
    AfterFour(cfg, s, Resolve(id), LookUpUrl(id), Discover(id, document), StoreUrl(id));
  }

  /** Where a source's keys are, and the discovery cache after. */
  function Location(cfg: Config, urls: Urls, source: Source, force: bool, now: int,
      document: Option<DiscoveryDocument>): (Urls, Option<string>) {
    if source.Oidc? then Resolution(cfg, urls, source.value, force, now, document) else (urls, Some(source.value))
  }

  /** The keys a load returns, and both caches after. */
  function Loading(cfg: Config, keys: KeysMap, urls: Urls, source: Source, force: bool, now: int, wait: nat,
                   document: Option<DiscoveryDocument>, body: Option<Keys>): (KeysMap, Urls, Option<Keys>)
  {
    var key := CacheKey(source);
    if !force && key in keys && now < keys[key].expires then (keys, urls, Some(keys[key].doc))
    else
      var (after, location) := Location(cfg, urls, source, force, now + wait, document);
      var (stored, doc) := Fetching(cfg, keys, source, location, now, body);
      (stored, after, doc)
  }

  /** A forced load uses neither cache: what it returns depends on the network only. */
  lemma ForcedIgnoresCaches(cfg: Config, keys: KeysMap, urls: Urls, keys': KeysMap, urls': Urls, source: Source,
                            now: int, wait: nat, document: Option<DiscoveryDocument>, body: Option<Keys>)
    ensures Loading(cfg, keys, urls, source, true, now, wait, document, body).2
         == Loading(cfg, keys', urls', source, true, now, wait, document, body).2
  {
  }

  /** An issuer's document is accepted exactly when it names the issuer asked for and an https URL. */
  predicate Accepted(issuer: string, document: Option<DiscoveryDocument>) {
    && document.Some? && NormalizeIssuer(document.value.issuer) == NormalizeIssuer(issuer) != ""
    && Https(TrimSpace(document.value.jwksUri))
  }

  lemma DiscoveredExactly(cfg: Config, urls: Urls, issuer: string, now: int, document: Option<DiscoveryDocument>)
    ensures var (after, url) := Discovery(cfg, urls, issuer, now, document);
      && (url.Some? <==> Accepted(issuer, document))
      && (url.Some? ==> url.value == TrimSpace(document.value.jwksUri))
      && (url.None? ==> after == urls)
  {
  }

  /** An entry is fresh until it expires. */
  predicate FreshKeys(keys: KeysMap, source: Source, now: int) {
    CacheKey(source) in keys && now < keys[CacheKey(source)].expires
  }

  predicate FreshUrl(urls: Urls, issuer: string, now: int) {
    NormalizeIssuer(issuer) in urls && now < urls[NormalizeIssuer(issuer)].expires
  }

  /** Where keys can be fetched: any file, and otherwise https, for an issuer at the URL that is fresh or discovered. */
  predicate Reachable(urls: Urls, source: Source, force: bool, now: int, document: Option<DiscoveryDocument>) {
    match source
    case Path(_) => true
    case Url(value) => Https(value)
    case Oidc(issuer) =>
      && NormalizeIssuer(issuer) != "" && Https(NormalizeIssuer(issuer))
      && if !force && FreshUrl(urls, issuer, now) then Https(urls[NormalizeIssuer(issuer)].url)
         else Accepted(issuer, document)
  }

  /**
   A load returns the cached keys while they are fresh, unless it is forced. Otherwise it returns the keys of the
   answer, exactly when their place can be reached and the answer holds any; if not, it returns none and leaves the key
   cache as it was.
   */
  lemma LoadedExactly(cfg: Config, keys: KeysMap, urls: Urls, source: Source, force: bool, now: int, wait: nat,
                      document: Option<DiscoveryDocument>, body: Option<Keys>)
    ensures var (after, _, doc) := Loading(cfg, keys, urls, source, force, now, wait, document, body);
      if !force && FreshKeys(keys, source, now) then doc == Some(keys[CacheKey(source)].doc) && after == keys
      else
        && (doc.Some? <==> Reachable(urls, source, force, now + wait, document) && body.Some? && body.value != [])
        && (doc.Some? ==> doc == body && FreshKeys(after, source, now) && after[CacheKey(source)].doc == body.value)
        && (doc.None? ==> after == keys)
  {
    if source.Oidc? { DiscoveredExactly(cfg, urls, source.value, now + wait, document); }
  }

  /** The state in which a load that missed looks for the location. */
  function Searching(s: State, id: nat, source: Source, force: bool, wait: nat): State {
    var load := if source.Oidc? then Missed(source, force, s.clock) else Located(source, s.clock, source.value);
    Goes(s, id, load).(clock := s.clock + wait)
  }

  lemma MissRuns(cfg: Config, s: State, id: nat, source: Source, force: bool, wait: nat, rest: seq<Step>, end: State)
    requires id !in s.loads && (force || CacheKey(source) !in s.keys || s.clock >= s.keys[CacheKey(source)].expires)
    requires end == After(cfg, s, [Begin(id, source, force), LookUpKeys(id)] + ([Tick(wait)] + rest))
    ensures end == After(cfg, Searching(s, id, source, force, wait), rest)
  {
    var first := [Begin(id, source, force), LookUpKeys(id)];
    AfterConcat(cfg, s, first, [Tick(wait)] + rest);
    AfterTwo(cfg, s, first[0], first[1]);
    var missed := After(cfg, s, first);
    assert ([Tick(wait)] + rest)[1..] == rest;
    assert Apply(cfg, missed, Tick(wait)) == Searching(s, id, source, force, wait);
  }

  lemma LocateRuns(cfg: Config, s: State, searching: State, id: nat, source: Source, force: bool, wait: nat, now: int,
                   document: Option<DiscoveryDocument>)
    requires searching == Searching(s, id, source, force, wait) && now == searching.clock
    ensures var (urls, location) := Location(cfg, s.urls, source, force, now, document);
      Leaves(s, After(cfg, searching, ResolveSteps(id, document)), s.keys, urls, id, Place(source, s.clock, location))
  {
    if source.Oidc? {
      ResolveRuns(cfg, searching, id, source.value, force, s.clock, document);
    } else {
      NothingToResolve(cfg, searching, id, document);
    }
  }

  lemma Joined(cfg: Config, s: State, start: State, a: seq<Step>, b: seq<Step>, mid: State,
               keys: KeysMap, urls: Urls, id: nat, place: Load, keys': KeysMap, load: Load)
    requires mid == After(cfg, start, a) && Leaves(s, mid, keys, urls, id, place)
    requires Leaves(mid, After(cfg, mid, b), keys', urls, id, load)
    ensures Leaves(s, After(cfg, start, a + b), keys', urls, id, load)
  {
    AfterConcat(cfg, start, a, b);
  }

  lemma SearchRuns(cfg: Config, s: State, searching: State, id: nat, source: Source, force: bool, wait: nat, now: int,
                   document: Option<DiscoveryDocument>, body: Option<Keys>, end: State,
                   keys: KeysMap, urls: Urls, location: Option<string>, doc: Option<Keys>)
    requires searching == Searching(s, id, source, force, wait) && now == searching.clock
    requires end == After(cfg, searching, ResolveSteps(id, document) + FetchSteps(id, body))
    requires (urls, location) == Location(cfg, s.urls, source, force, now, document)
    requires (keys, doc) == Fetching(cfg, s.keys, source, location, s.clock, body)
    ensures Leaves(s, end, keys, urls, id, Ending(source, s.clock, doc))
  {
    LocateRuns(cfg, s, searching, id, source, force, wait, now, document);
    var mid := After(cfg, searching, ResolveSteps(id, document));
    FetchRuns(cfg, mid, id, source, location, s.clock, body);
    Joined(cfg, s, searching, ResolveSteps(id, document), FetchSteps(id, body), mid,
           s.keys, urls, id, Place(source, s.clock, location), keys, Ending(source, s.clock, doc));
  }

  lemma MissReaches(cfg: Config, s: State, searching: State, id: nat, source: Source, force: bool, wait: nat,
                    document: Option<DiscoveryDocument>, body: Option<Keys>, end: State)
    requires id !in s.loads && (force || CacheKey(source) !in s.keys || s.clock >= s.keys[CacheKey(source)].expires)
    requires searching == Searching(s, id, source, force, wait)
    requires end == After(cfg, s, LoadSteps(id, source, force, wait, document, body))
    ensures end == After(cfg, searching, ResolveSteps(id, document) + FetchSteps(id, body))
  {
    MissRuns(cfg, s, id, source, force, wait, ResolveSteps(id, document) + FetchSteps(id, body), end);
  }

  lemma LoadingMisses(cfg: Config, s: State, source: Source, force: bool, wait: nat, now: int,
                      document: Option<DiscoveryDocument>, body: Option<Keys>,
                      keys: KeysMap, urls: Urls, doc: Option<Keys>) returns (location: Option<string>)
    requires force || CacheKey(source) !in s.keys || s.clock >= s.keys[CacheKey(source)].expires
    requires (keys, urls, doc) == Loading(cfg, s.keys, s.urls, source, force, s.clock, wait, document, body)
    requires now == s.clock + wait
    ensures (urls, location) == Location(cfg, s.urls, source, force, now, document)
    ensures (keys, doc) == Fetching(cfg, s.keys, source, location, s.clock, body)
  {
    location := Location(cfg, s.urls, source, force, s.clock + wait, document).1;
  }

  lemma SearchIsLoading(cfg: Config, s: State, searching: State, id: nat, source: Source, force: bool, wait: nat,
                        document: Option<DiscoveryDocument>, body: Option<Keys>, end: State,
                        keys: KeysMap, urls: Urls, doc: Option<Keys>)
    requires force || CacheKey(source) !in s.keys || s.clock >= s.keys[CacheKey(source)].expires
    requires searching == Searching(s, id, source, force, wait)
    requires end == After(cfg, searching, ResolveSteps(id, document) + FetchSteps(id, body))
    requires (keys, urls, doc) == Loading(cfg, s.keys, s.urls, source, force, s.clock, wait, document, body)
    ensures Leaves(s, end, keys, urls, id, Ending(source, s.clock, doc))
  {
    var now := searching.clock;
    var location := LoadingMisses(cfg, s, source, force, wait, now, document, body, keys, urls, doc);
    SearchRuns(cfg, s, searching, id, source, force, wait, now, document, body, end, keys, urls, location, doc);
  }

  /**
   A load that runs undisturbed does what its steps do: from any state, beside any other loads, the steps leave the
   caches and the result that `Loading` gives.
   */
  lemma LoadRefinesSteps(cfg: Config, s: State, id: nat, source: Source, force: bool, wait: nat,
                         document: Option<DiscoveryDocument>, body: Option<Keys>, end: State, keys: KeysMap,
                           urls: Urls, doc: Option<Keys>)
    requires id !in s.loads && end == After(cfg, s, LoadSteps(id, source, force, wait, document, body))
    requires (keys, urls, doc) == Loading(cfg, s.keys, s.urls, source, force, s.clock, wait, document, body)
    ensures Leaves(s, end, keys, urls, id, Ending(source, s.clock, doc))
  {
    if !force && CacheKey(source) in s.keys && s.clock < s.keys[CacheKey(source)].expires {
      HitRuns(cfg, s, id, source, wait, document, body);
    } else {
      var searching := Searching(s, id, source, force, wait);
      MissReaches(cfg, s, searching, id, source, force, wait, document, body, end);
      SearchIsLoading(cfg, s, searching, id, source, force, wait, document, body, end, keys, urls, doc);
    }
  }

  class Store {
    var keys: map<string, KeysEntry>
    var urls: map<string, UrlEntry>

    constructor ()
      ensures keys == map[] && urls == map[]
    {
      keys, urls := map[], map[];
    }

    /** The URL of an issuer's keys, from the cache or its discovery document. */
    method ResolveUrl(cfg: Config, issuer: string, force: bool, now: int,
        document: Option<DiscoveryDocument>) returns (url: Option<string>)
      modifies this`urls
      ensures (urls, url) == Resolution(cfg, old(urls), issuer, force, now, document)
    {
      var clean := NormalizeIssuer(issuer);
      if clean == "" || !Https(clean) { return None; }
      if !force && clean in urls && now < urls[clean].expires { return Some(urls[clean].url); }
      if document.None? { return None; }
      var named := NormalizeIssuer(document.value.issuer);
      if named == "" || named != clean { return None; }
      var target := TrimSpace(document.value.jwksUri);
      if !Https(target) { return None; }
      urls := urls[clean := UrlEntry(target, now + UrlTtl(cfg))];
      return Some(target);
    }

    /** Reads and stores the keys at a location. */
    method FetchKeys(cfg: Config, source: Source, location: Option<string>, now: int,
        body: Option<Keys>) returns (doc: Option<Keys>)
      modifies this`keys
      ensures (keys, doc) == Fetching(cfg, old(keys), source, location, now, body)
    {
      if location.None? { return None; }
      if !source.Path? && !Https(location.value) { return None; }
      if body.None? || body.value == [] { return None; }
      keys := keys[CacheKey(source) := KeysEntry(body.value, now + KeysTtl(cfg))];
      doc := body;
    }

    /** Loads a source's keys at time `now`, with its discovery at `now + wait`. */
    method LoadKeys(cfg: Config, source: Source, force: bool, now: int, wait: nat,
        document: Option<DiscoveryDocument>, body: Option<Keys>)
      returns (doc: Option<Keys>)
      modifies this
      ensures (keys, urls, doc) == Loading(cfg, old(keys), old(urls), source, force, now, wait, document, body)
    {
      var key := CacheKey(source);
      if !force && key in keys && now < keys[key].expires { return Some(keys[key].doc); }
      var location := Some(source.value);
      if source.Oidc? { location := ResolveUrl(cfg, source.value, force, now + wait, document); }
      doc := FetchKeys(cfg, source, location, now, body);
    }
  }
}
