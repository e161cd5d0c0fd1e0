/**
 Runs of signature verifications, one after the other: how often a source is loaded afresh, and how old the keys are
 that a signature is accepted on.
 */
module KeyRuns {
  import opened Text
  import opened KeyCache
  import opened KeyStore
  import opened KeyRefresh
  import opened KeyVerify

  // ---- Loads one after the other ----

  datatype Call = Call(source: Source, force: bool, answers: Answers)

  /** When the last of the loads is done with its discovery. */
  function EndOf(loads: seq<Call>): int {
    if loads == [] then 0 else loads[|loads| - 1].answers.now + loads[|loads| - 1].answers.wait
  }

  /** Each load starts no earlier than the one before it ended. */
  predicate Ordered(loads: seq<Call>) {
    forall i | 0 <= i < |loads| :: EndOf(loads[..i]) <= loads[i].answers.now
  }

  function LoadingOf(cfg: Config, keys: KeysMap, urls: Urls, l: Call): (KeysMap, Urls, Option<Keys>) {
    var a := l.answers;
    Loading(cfg, keys, urls, l.source, l.force, a.now, a.wait, a.document, a.body)
  }

  /** Both caches after the loads, from empty ones. */
  function CachesAfter(cfg: Config, loads: seq<Call>): (KeysMap, Urls) {
    if loads == [] then (map[], map[])
    else
      var (keys, urls) := CachesAfter(cfg, loads[..|loads| - 1]);
      var r := LoadingOf(cfg, keys, urls, loads[|loads| - 1]);
      (r.0, r.1)
  }

  /** The keys the last of the loads returns. */
  function LastKeys(cfg: Config, loads: seq<Call>): Option<Keys>
    requires loads != []
  {
    var (keys, urls) := CachesAfter(cfg, loads[..|loads| - 1]);
    LoadingOf(cfg, keys, urls, loads[|loads| - 1]).2
  }

  /** The steps of the loads, with the time between them. */
  function StepsOf(loads: seq<Call>): seq<Step>
    requires Ordered(loads)
  {
    if loads == [] then []
    else
      var n := |loads| - 1;
      var init, l := loads[..n], loads[n];
      OrderedInit(loads);
      StepsOf(init) + ([Tick(l.answers.now - EndOf(init))] + OwnSteps(l, n))
  }

  function OwnSteps(l: Call, id: nat): seq<Step> {
    LoadSteps(id, l.source, l.force, l.answers.wait, l.answers.document, l.answers.body)
  }

  lemma OrderedInit(loads: seq<Call>)
    requires Ordered(loads) && loads != []
    ensures Ordered(loads[..|loads| - 1]) && EndOf(loads[..|loads| - 1]) <= loads[|loads| - 1].answers.now
  {
    var init := loads[..|loads| - 1];
    forall i | 0 <= i < |init|
      ensures EndOf(init[..i]) <= init[i].answers.now
    {
      assert init[..i] == loads[..i];
    }
  }

  // ---- The clock over the steps of a load ----

  lemma {:induction false} ClockStays(cfg: Config, s: State, steps: seq<Step>)
    requires forall i | 0 <= i < |steps| :: !steps[i].Tick?
    ensures After(cfg, s, steps).clock == s.clock
    decreases |steps|
  {
    if steps != [] { ClockStays(cfg, Apply(cfg, s, steps[0]), steps[1..]); }
  }

  lemma ClockOfLoad(cfg: Config, s: State, l: Call, id: nat)
    ensures After(cfg, s, OwnSteps(l, id)).clock == s.clock + l.answers.wait
  {
    var first := [Begin(id, l.source, l.force), LookUpKeys(id)];
    var rest := ResolveSteps(id, l.answers.document) + FetchSteps(id, l.answers.body);
    AfterConcat(cfg, s, first, [Tick(l.answers.wait)] + rest);
    ClockStays(cfg, s, first);
    var mid := After(cfg, s, first);
    assert ([Tick(l.answers.wait)] + rest)[1..] == rest;
    ClockStays(cfg, Apply(cfg, mid, Tick(l.answers.wait)), rest);
  }

  // ---- The steps of the loads give what the loads give ----

  ghost predicate Matches(cfg: Config, loads: seq<Call>, s: State) {
    && (s.keys, s.urls) == CachesAfter(cfg, loads)
    && s.clock == EndOf(loads)
    && (forall id | id in s.loads :: id < |loads|)
  }

  lemma LoadMatches(cfg: Config, loads: seq<Call>, before: State, s: State, n: nat)
    requires |loads| == n + 1 && Matches(cfg, loads[..n], before) && before.clock <= loads[n].answers.now
    requires s == After(cfg, before.(clock := loads[n].answers.now), OwnSteps(loads[n], n))
    ensures Matches(cfg, loads, s)
    ensures n in s.loads && s.loads[n] == Ending(loads[n].source, loads[n].answers.now, LastKeys(cfg, loads))
  {
    var l, start := loads[n], before.(clock := loads[n].answers.now);
    var (keys, urls, doc) := LoadingOf(cfg, start.keys, start.urls, l);
    var a := l.answers;
    LoadRefinesSteps(cfg, start, n, l.source, l.force, a.wait, a.document, a.body, s, keys, urls, doc);
    ClockOfLoad(cfg, start, l, n);
  }

  lemma {:induction false} RunMatches(cfg: Config, loads: seq<Call>)
    requires Ordered(loads)
    ensures var s := After(cfg, INITIAL, StepsOf(loads));
      && Matches(cfg, loads, s)
      && (loads != [] ==>
          var n := |loads| - 1;
          n in s.loads && s.loads[n] == Ending(loads[n].source, loads[n].answers.now, LastKeys(cfg, loads)))
  {
    if loads != [] {
      var n := |loads| - 1;
      var init, l := loads[..n], loads[n];
      OrderedInit(loads);
      RunMatches(cfg, init);
      var before := After(cfg, INITIAL, StepsOf(init));
      var wait := Tick(l.answers.now - EndOf(init));
      AfterConcat(cfg, INITIAL, StepsOf(init), [wait] + OwnSteps(l, n));
      assert ([wait] + OwnSteps(l, n))[1..] == OwnSteps(l, n);
      LoadMatches(cfg, loads, before, After(cfg, INITIAL, StepsOf(loads)), n);
    }
  }

  /** The keys any load of a sequence returns were fetched and located within both lifetimes of its clock reading. */
  lemma LoadedKeysAreTraced(cfg: Config, loads: seq<Call>) returns (m: nat)
    requires Ordered(loads) && loads != [] && LastKeys(cfg, loads).Some?
    ensures var log, l := After(cfg, INITIAL, StepsOf(loads)).log, loads[|loads| - 1];
      && m < |log| && log[m] == KeysUsed(l.answers.now, l.source, LastKeys(cfg, loads).value)
      && Traced(cfg, log, m)
  {
    RunMatches(cfg, loads);
    m := LoadedIsTraced(cfg, StepsOf(loads), |loads| - 1);
  }

  // ---- The loads and the gate's requests of visits one after the other ----

  datatype Try = Try(source: Source, visit: Visit, verifies: Keys -> bool)

  function Tried(cfg: Config, c: Caches, t: Try): (Caches, Option<Keys>) {
    TrySource(cfg, c, t.source, t.visit, t.verifies)
  }

  /** The visit finds keys that do not verify the signature, so it asks the gate. */
  predicate Asks(cfg: Config, c: Caches, t: Try) {
    var doc := LoadOf(cfg, c, t.source, false, t.visit.first).1;
    doc.Some? && !t.verifies(doc.value)
  }

  predicate Forces(cfg: Config, c: Caches, t: Try) {
    Asks(cfg, c, t) && Grants(c.last, CacheKey(t.source), t.visit.gateNow)
  }

  function CallsOf(cfg: Config, c: Caches, t: Try): seq<Call> {
    [Call(t.source, false, t.visit.first)] + if Forces(cfg, c, t) then [Call(t.source, true, t.visit.again)] else []
  }

  function RequestsOf(cfg: Config, c: Caches, t: Try): seq<Request> {
    if Asks(cfg, c, t) then [Request(t.source, t.visit.gateNow)] else []
  }

  /** The gate's clock reading, when the visit loads this source afresh. */
  function ForcedOf(cfg: Config, c: Caches, t: Try, source: Source): seq<int> {
    if t.source == source && Forces(cfg, c, t) then [t.visit.gateNow] else []
  }

  const EMPTY := Caches(map[], map[], map[])

  /** What the visits leave, and the keys the last of them accepts. */
  function AfterTries(cfg: Config, tries: seq<Try>): (Caches, Option<Keys>) {
    if |tries| == 0 then (EMPTY, None)
    else Tried(cfg, AfterTries(cfg, tries[..|tries| - 1]).0, tries[|tries| - 1])
  }

  function Calls(cfg: Config, tries: seq<Try>): seq<Call> {
    if |tries| == 0 then []
    else
      var init := tries[..|tries| - 1];
      Calls(cfg, init) + CallsOf(cfg, AfterTries(cfg, init).0, tries[|tries| - 1])
  }

  function Requests(cfg: Config, tries: seq<Try>): seq<Request> {
    if |tries| == 0 then []
    else
      var init := tries[..|tries| - 1];
      Requests(cfg, init) + RequestsOf(cfg, AfterTries(cfg, init).0, tries[|tries| - 1])
  }

  /** The gate's clock readings for the loads afresh of a source. */
  function Forced(cfg: Config, tries: seq<Try>, source: Source): seq<int> {
    if |tries| == 0 then []
    else
      var init := tries[..|tries| - 1];
      Forced(cfg, init, source) + ForcedOf(cfg, AfterTries(cfg, init).0, tries[|tries| - 1], source)
  }

  // ---- How often a source is loaded afresh ----

  lemma RequestsSnoc(asked: seq<Request>, r: Request, source: Source)
    ensures var gate, key := GateAfter(asked), CacheKey(r.source);
      && GateAfter(asked + [r]) == (if Grants(gate, key, r.now) then gate[key := r.now] else gate)
      && Granted(asked + [r], source)
         == Granted(asked, source) + (if r.source == source && Grants(gate, key, r.now) then [r.now] else [])
  {
    assert (asked + [r])[..|asked|] == asked;
  }

  lemma TryAsks(cfg: Config, c: Caches, t: Try, asked: seq<Request>, source: Source)
    requires c.last == GateAfter(asked)
    ensures Tried(cfg, c, t).0.last == GateAfter(asked + RequestsOf(cfg, c, t))
    ensures Granted(asked + RequestsOf(cfg, c, t), source) == Granted(asked, source) + ForcedOf(cfg, c, t, source)
  {
    if Asks(cfg, c, t) {
      RequestsSnoc(asked, Request(t.source, t.visit.gateNow), source);
    } else {
      assert asked + [] == asked;
    }
  }

  /** The gate grants exactly the loads afresh. */
  lemma {:induction false} ForcedAreGranted(cfg: Config, tries: seq<Try>, source: Source)
    ensures AfterTries(cfg, tries).0.last == GateAfter(Requests(cfg, tries))
    ensures Forced(cfg, tries, source) == Granted(Requests(cfg, tries), source)
  {
    if |tries| != 0 {
      var init := tries[..|tries| - 1];
      ForcedAreGranted(cfg, init, source);
      TryAsks(cfg, AfterTries(cfg, init).0, tries[|tries| - 1], Requests(cfg, init), source);
    }
  }

  function CountForced(loads: seq<Call>, source: Source): nat {
    if loads == [] then 0
    else
      var l := loads[|loads| - 1];
      CountForced(loads[..|loads| - 1], source) + if l.force && l.source == source then 1 else 0
  }

  lemma CountSnoc(loads: seq<Call>, l: Call, source: Source)
    ensures CountForced(loads + [l], source)
      == CountForced(loads, source) + if l.force && l.source == source then 1 else 0
  {
    assert (loads + [l])[..|loads|] == loads;
  }

  lemma TryForces(cfg: Config, c: Caches, t: Try, made: seq<Call>, source: Source)
    ensures CountForced(made + CallsOf(cfg, c, t), source)
      == CountForced(made, source) + |ForcedOf(cfg, c, t, source)|
  {
    var plain, again := Call(t.source, false, t.visit.first), Call(t.source, true, t.visit.again);
    CountSnoc(made, plain, source);
    if Forces(cfg, c, t) {
      CountSnoc(made + [plain], again, source);
      assert made + CallsOf(cfg, c, t) == made + [plain] + [again];
    }
  }

  /** Every load afresh has its gate reading. */
  lemma {:induction false} ForcedLoads(cfg: Config, tries: seq<Try>, source: Source)
    ensures CountForced(Calls(cfg, tries), source) == |Forced(cfg, tries, source)|
  {
    if |tries| != 0 {
      var init := tries[..|tries| - 1];
      ForcedLoads(cfg, init, source);
      TryForces(cfg, AfterTries(cfg, init).0, tries[|tries| - 1], Calls(cfg, init), source);
    }
  }

  // ---- How old the accepted keys are ----

  lemma CallsSnoc(cfg: Config, loads: seq<Call>, l: Call)
    ensures var (keys, urls) := CachesAfter(cfg, loads);
      && CachesAfter(cfg, loads + [l])
         == (LoadingOf(cfg, keys, urls, l).0, LoadingOf(cfg, keys, urls, l).1)
      && LastKeys(cfg, loads + [l]) == LoadingOf(cfg, keys, urls, l).2
  {
    assert (loads + [l])[..|loads|] == loads;
  }

  /** A visit leaves the caches its loads leave, and accepts what its last load returned. */
  lemma TryIsCalls(cfg: Config, loads: seq<Call>, c: Caches, t: Try)
    requires CachesAfter(cfg, loads) == (c.keys, c.urls)
    ensures var (after, accepted) := Tried(cfg, c, t);
      && CachesAfter(cfg, loads + CallsOf(cfg, c, t)) == (after.keys, after.urls)
      && (accepted.Some? ==> accepted == LastKeys(cfg, loads + CallsOf(cfg, c, t)))
  {
    var plain, again := Call(t.source, false, t.visit.first), Call(t.source, true, t.visit.again);
    CallsSnoc(cfg, loads, plain);
    if Forces(cfg, c, t) {
      CallsSnoc(cfg, loads + [plain], again);
      assert loads + CallsOf(cfg, c, t) == loads + [plain] + [again];
    } else {
      assert loads + CallsOf(cfg, c, t) == loads + [plain];
    }
  }

  lemma {:induction false} TriesAreCalls(cfg: Config, tries: seq<Try>)
    ensures var (after, accepted) := AfterTries(cfg, tries);
      && CachesAfter(cfg, Calls(cfg, tries)) == (after.keys, after.urls)
      && (accepted.Some? ==> Calls(cfg, tries) != [] && accepted == LastKeys(cfg, Calls(cfg, tries)))
  {
    if |tries| != 0 {
      var init := tries[..|tries| - 1];
      TriesAreCalls(cfg, init);
      TryIsCalls(cfg, Calls(cfg, init), AfterTries(cfg, init).0, tries[|tries| - 1]);
    }
  }

  // ---- Signatures one after the other ----

  /** The verification of one signature. */
  datatype Check = Check(sources: seq<Source>, visits: seq<Visit>, verifies: Keys -> bool)

  predicate Answered(checks: seq<Check>) {
    forall i | 0 <= i < |checks| :: |checks[i].sources| <= |checks[i].visits|
  }

  /** What the verifications leave, and the keys the last of them accepts. */
  function AfterChecks(cfg: Config, checks: seq<Check>): (Caches, Option<Keys>) {
    if |checks| == 0 then (EMPTY, None)
    else
      var k := checks[|checks| - 1];
      Verified(cfg, AfterChecks(cfg, checks[..|checks| - 1]).0, k.sources, k.visits, k.verifies, |k.sources|)
  }

  /** The visits a verification makes to its first `n` sources. */
  function Visited(cfg: Config, c: Caches, k: Check, n: nat): seq<Try>
    requires n <= |k.sources| <= |k.visits|
  {
    if n == 0 then []
    else if Verified(cfg, c, k.sources, k.visits, k.verifies, n - 1).1.Some? then Visited(cfg, c, k, n - 1)
    else Visited(cfg, c, k, n - 1) + [Try(k.sources[n - 1], k.visits[n - 1], k.verifies)]
  }

  function TriesOf(cfg: Config, checks: seq<Check>): seq<Try>
    requires Answered(checks)
  {
    if |checks| == 0 then []
    else
      var init, k := checks[..|checks| - 1], checks[|checks| - 1];
      TriesOf(cfg, init) + Visited(cfg, AfterChecks(cfg, init).0, k, |k.sources|)
  }

  lemma TriesSnoc(cfg: Config, tries: seq<Try>, t: Try)
    ensures AfterTries(cfg, tries + [t]) == Tried(cfg, AfterTries(cfg, tries).0, t)
  {
    assert (tries + [t])[..|tries|] == tries;
  }

  lemma VerifiedNext(cfg: Config, c: Caches, k: Check, n: nat)
    requires 0 < n <= |k.sources| <= |k.visits|
    ensures var (before, found) := Verified(cfg, c, k.sources, k.visits, k.verifies, n - 1);
      Verified(cfg, c, k.sources, k.visits, k.verifies, n)
      == if found.Some? then (before, found) else Tried(cfg, before, Try(k.sources[n - 1], k.visits[n - 1], k.verifies))
  {
  }

  /** The visits, after others, leave and accept what the loop over the sources does. */
  ghost predicate VisitsAgree(cfg: Config, tries: seq<Try>, visited: seq<Try>, result: (Caches, Option<Keys>)) {
    var after := AfterTries(cfg, tries + visited);
    after.0 == result.0 && (result.1.Some? ==> after.1 == result.1)
  }

  lemma OneMoreVisit(cfg: Config, tries: seq<Try>, visited: seq<Try>, before: Caches, t: Try)
    requires VisitsAgree(cfg, tries, visited, (before, None))
    ensures VisitsAgree(cfg, tries, visited + [t], Tried(cfg, before, t))
  {
    TriesSnoc(cfg, tries + visited, t);
    assert tries + (visited + [t]) == tries + visited + [t];
  }

  lemma {:induction false} VisitedIsVerified(cfg: Config, tries: seq<Try>, k: Check, c: Caches, n: nat)
    requires n <= |k.sources| <= |k.visits| && c == AfterTries(cfg, tries).0
    ensures VisitsAgree(cfg, tries, Visited(cfg, c, k, n), Verified(cfg, c, k.sources, k.visits, k.verifies, n))
  {
    if n == 0 {
      assert tries + [] == tries;
    } else {
      VisitedIsVerified(cfg, tries, k, c, n - 1);
      VerifiedNext(cfg, c, k, n);
      var (before, found) := Verified(cfg, c, k.sources, k.visits, k.verifies, n - 1);
      if found.None? {
        var t := Try(k.sources[n - 1], k.visits[n - 1], k.verifies);
        OneMoreVisit(cfg, tries, Visited(cfg, c, k, n - 1), before, t);
      }
    }
  }

  lemma {:induction false} ChecksAreTries(cfg: Config, checks: seq<Check>)
    requires Answered(checks)
    ensures var (after, accepted) := AfterChecks(cfg, checks);
      && AfterTries(cfg, TriesOf(cfg, checks)).0 == after
      && (accepted.Some? ==> AfterTries(cfg, TriesOf(cfg, checks)).1 == accepted)
  {
    if |checks| != 0 {
      var init, k := checks[..|checks| - 1], checks[|checks| - 1];
      ChecksAreTries(cfg, init);
      VisitedIsVerified(cfg, TriesOf(cfg, init), k, AfterChecks(cfg, init).0, |k.sources|);
    }
  }

  /**
   However many signatures are verified and whatever they ask, a source is loaded afresh at most once more than a period
   has whole cooldowns, by the gate's clock.
   */
  lemma ChecksKeepRate(cfg: Config, checks: seq<Check>, source: Source, lo: int, hi: int)
    requires Answered(checks) && lo <= hi
    ensures var tries := TriesOf(cfg, checks);
      && CountForced(Calls(cfg, tries), source) == |Forced(cfg, tries, source)|
      && CountIn(Forced(cfg, tries, source), lo, hi) <= (hi - lo) / COOLDOWN + 1
  {
    var tries := TriesOf(cfg, checks);
    ForcedLoads(cfg, tries, source);
    ForcedAreGranted(cfg, tries, source);
    RefreshRate(Requests(cfg, tries), source, lo, hi);
  }

  /**
   The keys a signature is accepted on were fetched within the keys' lifetime of the load that returned them, from a
   location found within its own lifetime of that fetch.
   */
  lemma AcceptedKeysAreTraced(cfg: Config, checks: seq<Check>) returns (m: nat)
    requires Answered(checks) && AfterChecks(cfg, checks).1.Some?
    requires Ordered(Calls(cfg, TriesOf(cfg, checks)))
    ensures var loads := Calls(cfg, TriesOf(cfg, checks));
      && loads != []
      && var log, l := After(cfg, INITIAL, StepsOf(loads)).log, loads[|loads| - 1];
      && m < |log| && log[m] == KeysUsed(l.answers.now, l.source, AfterChecks(cfg, checks).1.value)
      && Traced(cfg, log, m)
  {
    ChecksAreTries(cfg, checks);
    TriesAreCalls(cfg, TriesOf(cfg, checks));
    m := LoadedKeysAreTraced(cfg, Calls(cfg, TriesOf(cfg, checks)));
  }
}
