/**
 Forced key refreshes: the cooldown that admits them, per source of a configuration.
 */
module KeyRefresh {
  import opened Text
  import opened KeyCache

  // ---- The cooldown ----

  const COOLDOWN: int := 30_000_000_000

  type LastRefresh = map<string, int>

  predicate Grants(last: LastRefresh, key: string, now: int) {
    key in last ==> now - last[key] >= COOLDOWN
  }

  class RefreshGate {
    var last: LastRefresh

    constructor ()
      ensures last == map[]
    {
      last := map[];
    }

    /** One refresh per source and cooldown; a refused request changes nothing. */
    method Allowed(source: Source, now: int) returns (ok: bool)
      modifies this
      ensures ok == Grants(old(last), CacheKey(source), now)
      ensures last == if ok then old(last)[CacheKey(source) := now] else old(last)
    {
      var key := CacheKey(source);
      if key in last {
        if now - last[key] < COOLDOWN { return false; }
      }
      last := last[key := now];
      ok := true;
    }
  }

  datatype Request = Request(source: Source, now: int)

  function GateAfter(requests: seq<Request>): LastRefresh {
    if requests == [] then map[]
    else
      var n := |requests| - 1;
      var before, r := GateAfter(requests[..n]), requests[n];
      if Grants(before, CacheKey(r.source), r.now) then before[CacheKey(r.source) := r.now] else before
  }

  /** The clock readings of the granted refreshes of one source, in order. */
  function Granted(requests: seq<Request>, source: Source): seq<int> {
    if requests == [] then []
    else
      var n := |requests| - 1;
      var r := requests[n];
      Granted(requests[..n], source) + (if r.source == source &&
        Grants(GateAfter(requests[..n]), CacheKey(source), r.now) then [r.now] else [])
  }

  lemma SeparateKeys(a: Source, b: Source)
    ensures CacheKey(a) == CacheKey(b) <==> a == b
  {
    if CacheKey(a) == CacheKey(b) { CacheKeyIdentifies(a, b); }
  }

  predicate Remembers(gate: LastRefresh, key: string, granted: seq<int>) {
    if granted == [] then key !in gate else key in gate && gate[key] == granted[|granted| - 1]
  }

  lemma RequestRemembered(gate: LastRefresh, key: string, granted: seq<int>, asked: string, now: int)
    requires Remembers(gate, key, granted)
    ensures Remembers(if Grants(gate, asked, now) then gate[asked := now] else gate, key,
                      granted + (if asked == key && Grants(gate, key, now) then [now] else []))
  {
  }

  /** The gate remembers the last grant of each source, and nothing else. */
  lemma {:induction false} GateIsLastGrant(requests: seq<Request>, source: Source)
    ensures Remembers(GateAfter(requests), CacheKey(source), Granted(requests, source))
  {
    if requests != [] {
      var n := |requests| - 1;
      GateIsLastGrant(requests[..n], source);
      SeparateKeys(requests[n].source, source);
      RequestRemembered(GateAfter(requests[..n]), CacheKey(source), Granted(requests[..n], source),
        CacheKey(requests[n].source), requests[n].now);
    }
  }

  predicate Spaced(times: seq<int>) {
    forall i | 0 < i < |times| :: times[i] - times[i - 1] >= COOLDOWN
  }

  /** Successive grants of a source are a cooldown apart, whatever the clock does and whatever other sources ask. */
  lemma {:induction false} GrantsAreSpaced(requests: seq<Request>, source: Source)
    ensures Spaced(Granted(requests, source))
  {
    if requests != [] {
      var n := |requests| - 1;
      GrantsAreSpaced(requests[..n], source);
      GateIsLastGrant(requests[..n], source);
    }
  }

  function CountIn(times: seq<int>, lo: int, hi: int): nat {
    if times == [] then 0
    else
      var n := |times| - 1;
      CountIn(times[..n], lo, hi) + (if lo <= times[n] <= hi then 1 else 0)
  }

  lemma {:induction false} LastIsLargest(times: seq<int>, i: nat)
    requires Spaced(times) && i < |times|
    ensures i < |times| - 1 ==> times[i] <= times[|times| - 1] - COOLDOWN
    decreases |times| - i
  {
    if i < |times| - 2 { LastIsLargest(times, i + 1); }
    assert i < |times| - 1 ==> times[i + 1] - times[i + 1 - 1] >= COOLDOWN;
  }

  lemma {:induction false} CountUpTo(times: seq<int>, lo: int, hi: int, top: int)
    requires forall i | 0 <= i < |times| :: times[i] <= top
    requires top <= hi
    ensures CountIn(times, lo, hi) == CountIn(times, lo, top)
    ensures top < lo ==> CountIn(times, lo, hi) == 0
  {
    if times != [] { CountUpTo(times[..|times| - 1], lo, hi, top); }
  }

  /** So an interval of length `hi - lo` holds at most one more grant than it has whole cooldowns. */
  lemma {:induction false} SpacedCount(times: seq<int>, lo: int, hi: int)
    requires Spaced(times) && lo <= hi
    ensures CountIn(times, lo, hi) <= (hi - lo) / COOLDOWN + 1
  {
    if times != [] {
      var n := |times| - 1;
      if lo <= times[n] <= hi {
        var top := times[n] - COOLDOWN;
        forall i | 0 <= i < n
          ensures times[i] <= top
        {
          LastIsLargest(times, i);
        }
        CountUpTo(times[..n], lo, hi, top);
        if lo <= top { SpacedCount(times[..n], lo, top); }
      } else {
        SpacedCount(times[..n], lo, hi);
      }
    }
  }

  lemma RefreshRate(requests: seq<Request>, source: Source, lo: int, hi: int)
    requires lo <= hi
    ensures CountIn(Granted(requests, source), lo, hi) <= (hi - lo) / COOLDOWN + 1
  {
    GrantsAreSpaced(requests, source);
    SpacedCount(Granted(requests, source), lo, hi);
  }

  function Steady(source: Source, n: nat): seq<Request> {
    seq(n, i requires i >= 0 => Request(source, i * COOLDOWN))
  }

  lemma {:induction false} SteadyGranted(source: Source, n: nat)
    ensures |Granted(Steady(source, n), source)| == n
    ensures forall i | 0 <= i < n :: Granted(Steady(source, n), source)[i] == i * COOLDOWN
  {
    if n > 0 {
      assert Steady(source, n)[..n - 1] == Steady(source, n - 1);
      SteadyGranted(source, n - 1);
      GateIsLastGrant(Steady(source, n - 1), source);
    }
  }

  lemma {:induction false} AllCounted(times: seq<int>, lo: int, hi: int)
    requires forall i | 0 <= i < |times| :: lo <= times[i] <= hi
    ensures CountIn(times, lo, hi) == |times|
  {
    if times != [] { AllCounted(times[..|times| - 1], lo, hi); }
  }

  /** The rate is reached: a source asking at each whole cooldown is always granted. */
  lemma RefreshRateIsReached(source: Source, n: nat)
    requires n > 0
    ensures CountIn(Granted(Steady(source, n), source), 0, (n - 1) * COOLDOWN) == ((n - 1) * COOLDOWN) / COOLDOWN + 1
  {
    SteadyGranted(source, n);
    AllCounted(Granted(Steady(source, n), source), 0, (n - 1) * COOLDOWN);
  }

  // ---- The sources of a configuration ----

  datatype SourceConfig = SourceConfig(jwksUrl: string, jwksPath: string, oidcIssuerUrl: string)

  function SourcesOf(cfg: SourceConfig): seq<Source> {
    (if Blank(cfg.jwksUrl) then [] else [Url(TrimSpace(cfg.jwksUrl))])
    + (if Blank(cfg.jwksPath) then [] else [Path(TrimSpace(cfg.jwksPath))])
    + (if Blank(cfg.oidcIssuerUrl) then [] else [Oidc(TrimSpace(cfg.oidcIssuerUrl))])
  }

  /** A configuration has a source for each setting that is not blank, URL first, then file, then issuer. */
  lemma SourcesExactly(cfg: SourceConfig, s: Source)
    ensures s in SourcesOf(cfg) <==>
      && !Blank(s.value)
      && s.value == TrimSpace(match s case Url(_) => cfg.jwksUrl case Path(_) => cfg.jwksPath
                                      case Oidc(_) => cfg.oidcIssuerUrl)
    ensures forall i, j | 0 <= i < j < |SourcesOf(cfg)| ::
      !SourcesOf(cfg)[i].Oidc? && !SourcesOf(cfg)[j].Url? && (SourcesOf(cfg)[i].Path? ==> SourcesOf(cfg)[j].Oidc?)
  {
  }

  /** The sources of a configuration are clean, not empty, and have separate cache entries and cooldowns. */
  lemma SourcesAreSeparate(cfg: SourceConfig, i: nat, j: nat)
    requires i < j < |SourcesOf(cfg)|
    ensures CacheKey(SourcesOf(cfg)[i]) != CacheKey(SourcesOf(cfg)[j])
    ensures IsTrimmed(SourcesOf(cfg)[i].value) && SourcesOf(cfg)[i].value != ""
  {
    var sources := SourcesOf(cfg);
    assert sources[i] != sources[j];
    if CacheKey(sources[i]) == CacheKey(sources[j]) { CacheKeyIdentifies(sources[i], sources[j]); }
  }
}
