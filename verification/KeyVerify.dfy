/**
 Verifying a token's signature: a loop over the key sources that loads each one's keys and, when they do not verify the
 signature, asks the refresh gate whether it may load them afresh.
 */
module KeyVerify {
  import opened Text
  import opened KeyCache
  import opened KeyStore
  import opened KeyRefresh

  /** When a load happens and what the network answers it. */
  datatype Answers = Answers(now: int, wait: nat, document: Option<DiscoveryDocument>, body: Option<Keys>)

  /** A visit to one source: its load, the gate's clock reading, and its load afresh. */
  datatype Visit = Visit(first: Answers, gateNow: int, again: Answers)

  /** Both caches and the gate. */
  datatype Caches = Caches(keys: KeysMap, urls: Urls, last: LastRefresh)

  function LoadOf(cfg: Config, c: Caches, source: Source, force: bool, a: Answers): (Caches, Option<Keys>) {
    var (keys, urls, doc) := Loading(cfg, c.keys, c.urls, source, force, a.now, a.wait, a.document, a.body);
    (c.(keys := keys, urls := urls), doc)
  }

  /** The load afresh, once the gate has granted it. */
  function Afresh(cfg: Config, c: Caches, source: Source, v: Visit): (Caches, Option<Keys>) {
    LoadOf(cfg, c.(last := c.last[CacheKey(source) := v.gateNow]), source, true, v.again)
  }

  /** What a visit leaves, and the keys it accepts. */
  function TrySource(cfg: Config, c: Caches, source: Source, v: Visit, verifies: Keys -> bool): (Caches, Option<Keys>) {
    var (loaded, doc) := LoadOf(cfg, c, source, false, v.first);
    if doc.None? then (loaded, None)
    else if verifies(doc.value) then (loaded, doc)
    else if !Grants(loaded.last, CacheKey(source), v.gateNow) then (loaded, None)
    else
      var (after, again) := Afresh(cfg, loaded, source, v);
      (after, if again.Some? && verifies(again.value) then again else None)
  }

  // ---- Trying one thing after another ----

  /** After trying the first `n`, stopping at the first that succeeds. */
  function FirstSome<S, R>(s: S, attempt: (S, nat) -> (S, Option<R>), n: nat): (S, Option<R>) {
    if n == 0 then (s, None)
    else
      var (before, found) := FirstSome(s, attempt, n - 1);
      if found.Some? then (before, found) else attempt(before, n - 1)
  }

  lemma {:induction false} FoundStays<S, R>(s: S, attempt: (S, nat) -> (S, Option<R>), n: nat, m: nat)
    requires n <= m && FirstSome(s, attempt, n).1.Some?
    ensures FirstSome(s, attempt, m) == FirstSome(s, attempt, n)
  {
    if n < m { FoundStays(s, attempt, n, m - 1); }
  }

  /** The attempt `i` is made and succeeds with `r`. */
  predicate FoundAt<S, R(==)>(s: S, attempt: (S, nat) -> (S, Option<R>), i: nat, r: R) {
    var (before, found) := FirstSome(s, attempt, i);
    found.None? && attempt(before, i).1 == Some(r)
  }

  lemma {:induction false} FoundExactly<S, R>(s: S, attempt: (S, nat) -> (S, Option<R>), n: nat, r: R)
    ensures FirstSome(s, attempt, n).1 == Some(r) <==> exists i: nat :: i < n && FoundAt(s, attempt, i, r)
  {
    if n > 0 {
      var last: nat := n - 1;
      FoundExactly(s, attempt, last, r);
      assert FirstSome(s, attempt, n).1 == Some(r) <==>
        FirstSome(s, attempt, last).1 == Some(r) || FoundAt(s, attempt, last, r);
    }
  }

  // ---- The sources in turn ----

  function Trying(cfg: Config, sources: seq<Source>, visits: seq<Visit>, verifies: Keys -> bool): (Caches,
      nat) -> (Caches, Option<Keys>) {
    (c: Caches, i: nat) => if i < |sources| &&
      i < |visits| then TrySource(cfg, c, sources[i], visits[i], verifies) else (c, None)
  }

  /** After visiting the first `n` sources, stopping at the first that is accepted. */
  function Verified(cfg: Config, c: Caches, sources: seq<Source>, visits: seq<Visit>, verifies: Keys -> bool,
      n: nat): (Caches, Option<Keys>) {
    FirstSome(c, Trying(cfg, sources, visits, verifies), n)
  }

  /**
   The keys a source may be accepted on: those it loads or, when they fail and the gate grants it, those it loads
   afresh.
   */
  predicate Offers(cfg: Config, c: Caches, source: Source, v: Visit, verifies: Keys -> bool, keys: Keys) {
    var (loaded, doc) := LoadOf(cfg, c, source, false, v.first);
    && verifies(keys) && doc.Some?
    && if verifies(doc.value) then keys == doc.value
       else Grants(c.last, CacheKey(source), v.gateNow) && Afresh(cfg, loaded, source, v).1 == Some(keys)
  }

  lemma AcceptedIsOffered(cfg: Config, c: Caches, source: Source, v: Visit, verifies: Keys -> bool, keys: Keys)
    ensures TrySource(cfg, c, source, v, verifies).1 == Some(keys) <==> Offers(cfg, c, source, v, verifies, keys)
  {
  }

  /** The signature is accepted on `keys` exactly when a source offers them after every source before it was refused. */
  lemma AcceptedExactly(
    cfg: Config, c: Caches, sources: seq<Source>, visits: seq<Visit>, verifies: Keys -> bool, n: nat, keys: Keys)
    requires n <= |sources| <= |visits|
    ensures Verified(cfg, c, sources, visits, verifies, n).1 == Some(keys) <==>
      exists i: nat :: i < n && OffersAt(cfg, c, sources, visits, verifies, i, keys)
  {
    var attempt := Trying(cfg, sources, visits, verifies);
    FoundExactly(c, attempt, n, keys);
    forall i: nat | i < n
      ensures OffersAt(cfg, c, sources, visits, verifies, i, keys) <==> FoundAt(c, attempt, i, keys)
    {
      OffersIsFound(cfg, c, sources, visits, verifies, i, keys);
    }
  }

  lemma OffersIsFound(
    cfg: Config, c: Caches, sources: seq<Source>, visits: seq<Visit>, verifies: Keys -> bool, i: nat, keys: Keys)
    requires i < |sources| <= |visits|
    ensures OffersAt(cfg, c, sources, visits, verifies, i, keys) <==>
      FoundAt(c, Trying(cfg, sources, visits, verifies), i, keys)
  {
    AcceptedIsOffered(cfg, Verified(cfg, c, sources, visits, verifies, i).0, sources[i], visits[i], verifies, keys);
  }

  predicate OffersAt(
    cfg: Config, c: Caches, sources: seq<Source>, visits: seq<Visit>, verifies: Keys -> bool, i: nat, keys: Keys)
    requires i < |sources| <= |visits|
  {
    var (before, accepted) := Verified(cfg, c, sources, visits, verifies, i);
    accepted.None? && Offers(cfg, before, sources[i], visits[i], verifies, keys)
  }

  method VerifySource(store: Store, gate: RefreshGate, cfg: Config, source: Source, v: Visit, verifies: Keys -> bool)
    returns (accepted: Option<Keys>)
    modifies store, gate
    ensures (Caches(store.keys, store.urls, gate.last), accepted)
      == TrySource(cfg, old(Caches(store.keys, store.urls, gate.last)), source, v, verifies)
  {
    var doc := store.LoadKeys(cfg, source, false, v.first.now, v.first.wait, v.first.document, v.first.body);
    if doc.None? { return None; }
    if verifies(doc.value) { return doc; }
    var granted := gate.Allowed(source, v.gateNow);
    if !granted { return None; }
    var again := store.LoadKeys(cfg, source, true, v.again.now, v.again.wait, v.again.document, v.again.body);
    if again.Some? && verifies(again.value) { return again; }
    return None;
  }

  /** The loop over the sources: the first that is accepted ends it. */
  method VerifySignature(store: Store, gate: RefreshGate, cfg: Config, sources: seq<Source>, visits: seq<Visit>,
      verifies: Keys -> bool)
    returns (accepted: Option<Keys>)
    requires |sources| <= |visits|
    modifies store, gate
    ensures (Caches(store.keys, store.urls, gate.last), accepted)
      == Verified(cfg, old(Caches(store.keys, store.urls, gate.last)), sources, visits, verifies, |sources|)
  {
    ghost var start := Caches(store.keys, store.urls, gate.last);
    var i := 0;
    while i < |sources|
      invariant i <= |sources|
      invariant (Caches(store.keys, store.urls, gate.last), None) == Verified(cfg, start, sources, visits, verifies, i)
    {
      accepted := VerifySource(store, gate, cfg, sources[i], visits[i], verifies);
      i := i + 1;
      if accepted.Some? {
        FoundStays(start, Trying(cfg, sources, visits, verifies), i, |sources|);
        return;
      }
    }
    accepted := None;
  }
}
