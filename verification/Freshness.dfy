/**
 Freshness verdicts of the baseline table against the crawler inventory.
 */
module Freshness {
  import opened Text
  import opened KernelOrder

  datatype Baseline = Baseline(profile: string, kernel: string, recorded: string, note: string,
    crawler: Option<CrawlerRef>)

  datatype Status = Fresh | Stale | CoveredByFamily | Uncovered | NoEntries | NoKernel

  datatype Verdict = Verdict(profile: string, baseline: string, newest: string, status: Status, coveredBy: string)

  const DEFAULT_ARCH := "x86_64"

  const DERIVED := "-k"

  type Fetch = string -> Option<Inventory>

  function ArchOf(ref: CrawlerRef): string {
    if ref.arch == "" then DEFAULT_ARCH else ref.arch
  }

  // ---- Families ----

  /** `c` is a sweep profile `<base>-k<digit...>` that validated a kernel at least as new as `newest`. */
  predicate Reaches(c: Baseline, base: string, newest: string) {
    var prefix := base + DERIVED;
    && c.kernel != ""
    && HasPrefix(c.profile, prefix)
    && |c.profile| > |prefix| && IsDigit(c.profile[|prefix|])
    && Compare(c.kernel, newest) >= 0
  }

  /** The candidate named after the first entries: the least profile id in byte order. */
  function CoverIn(table: seq<Baseline>, base: string, newest: string): string {
    if table == [] then ""
    else
      var best := CoverIn(table[..|table| - 1], base, newest);
      var c := table[|table| - 1];
      if Reaches(c, base, newest) && (best == "" || LexLess(c.profile, best)) then c.profile else best
  }

  method FamilyCovers(table: seq<Baseline>, base: string, newest: string) returns (cover: string, ok: bool)
    ensures cover == CoverIn(table, base, newest) && ok == (cover != "")
  {
    cover := "";
    var i := 0;
    while i < |table|
      invariant 0 <= i <= |table|
      invariant cover == CoverIn(table[..i], base, newest)
    {
      assert table[..i + 1][..i] == table[..i];
      var c := table[i];
      if Reaches(c, base, newest) && (cover == "" || LexLess(c.profile, cover)) { cover := c.profile; }
      i := i + 1;
    }
    assert table[..i] == table;
    ok := cover != "";
  }

  /** A cover is named exactly when some sweep profile reaches the newest kernel, and it is the least such id. */
  lemma {:induction false} CoverIsLeast(table: seq<Baseline>, base: string, newest: string)
    ensures var cover := CoverIn(table, base, newest);
      && (cover != "" <==> exists c :: c in table && Reaches(c, base, newest))
      && (cover != "" ==> exists c :: c in table && Reaches(c, base, newest) && c.profile == cover)
      && (forall c | c in table && Reaches(c, base, newest) :: !LexLess(c.profile, cover))
  {
    if table != [] {
      var rest, last := table[..|table| - 1], table[|table| - 1];
      assert table == rest + [last];
      CoverIsLeast(rest, base, newest);
      assert last in table;
      var before := CoverIn(rest, base, newest);
      LexIrreflexive(last.profile);
      forall c | c in table && Reaches(c, base, newest)
        ensures !LexLess(c.profile, CoverIn(table, base, newest))
      {
        if Reaches(last, base, newest) && LexLess(last.profile, before) && LexLess(c.profile, last.profile) {
          LexTransitive(c.profile, last.profile, before);
        }
      }
    }
  }

  // ---- Verdicts ----

  predicate NeedsInventory(e: Baseline) {
    e.crawler.Some? && e.kernel != ""
  }

  /** The verdict for one entry, given the inventory of its architecture. */
  function VerdictWith(table: seq<Baseline>, e: Baseline, inv: Inventory): Verdict
    requires NeedsInventory(e)
  {
    var newest := NewestOf(inv, e.crawler.value);
    if newest == "" then Verdict(e.profile, e.kernel, "", NoEntries, "")
    else if Compare(newest, e.kernel) <= 0 then Verdict(e.profile, e.kernel, newest, Fresh, "")
    else
      var cover := CoverIn(table, e.profile, newest);
      if cover != "" then Verdict(e.profile, e.kernel, newest, CoveredByFamily, cover)
      else Verdict(e.profile, e.kernel, newest, Stale, "")
  }

  /** The verdict for one entry, fetching its inventory; `None` when the fetch fails. */
  function VerdictOf(table: seq<Baseline>, e: Baseline, fetch: Fetch): Option<Verdict> {
    if e.crawler.None? then Some(Verdict(e.profile, e.kernel, "", Uncovered, ""))
    else if e.kernel == "" then Some(Verdict(e.profile, e.kernel, "", NoKernel, ""))
    else match fetch(ArchOf(e.crawler.value))
      case None => None
      case Some(inv) => Some(VerdictWith(table, e, inv))
  }

  /** `r` holds the verdicts one gets by fetching for every entry. */
  ghost predicate EachFetched(table: seq<Baseline>, entries: seq<Baseline>, fetch: Fetch, r: seq<Verdict>) {
    |r| == |entries| && forall i | 0 <= i < |r| :: VerdictOf(table, entries[i], fetch) == Some(r[i])
  }

  type Memo = map<string, Inventory>

  /** The memo holds what the fetches made so far returned, each architecture fetched once. */
  ghost predicate Remembers(memo: Memo, fetched: seq<string>, fetch: Fetch) {
    && (forall arch: string :: arch in memo <==> arch in fetched)
    && (forall arch | arch in memo :: fetch(arch) == Some(memo[arch]))
    && Once(fetched)
  }

  ghost predicate Once(fetched: seq<string>) {
    forall i, j | 0 <= i < j < |fetched| :: fetched[i] != fetched[j]
  }

  /** The memoized fetch. */
  method Inspect(memo: Memo, fetched: seq<string>, fetch: Fetch, arch: string)
    returns (inv: Option<Inventory>, memo': Memo, fetched': seq<string>)
    requires Remembers(memo, fetched, fetch)
    ensures inv == fetch(arch) && Once(fetched')
    ensures fetched' == if arch in fetched then fetched else fetched + [arch]
    ensures inv.Some? ==> Remembers(memo', fetched', fetch)
  {
    memo', fetched' := memo, fetched;
    if arch in memo { return Some(memo[arch]), memo', fetched'; }
    fetched' := fetched + [arch];
    inv := fetch(arch);
    if inv.Some? { memo' := memo[arch := inv.value]; }
  }

  predicate Asks(e: Baseline, arch: string) {
    NeedsInventory(e) && ArchOf(e.crawler.value) == arch
  }

  /** Only architectures some entry asks for are fetched. */
  ghost predicate AllAsked(table: seq<Baseline>, fetched: seq<string>) {
    forall arch | arch in fetched :: exists e :: e in table && Asks(e, arch)
  }

  lemma AskedMore(table: seq<Baseline>, fetched: seq<string>, e: Baseline, arch: string)
    requires AllAsked(table, fetched) && e in table && Asks(e, arch)
    ensures AllAsked(table, fetched + [arch])
  {
  }

  /** One entry's verdict, with the inventory from the memoized fetch. */
  method EvaluateEntry(table: seq<Baseline>, e: Baseline, memo: Memo, fetched: seq<string>, fetch: Fetch)
    returns (v: Option<Verdict>, memo': Memo, fetched': seq<string>)
    requires Remembers(memo, fetched, fetch) && e in table && AllAsked(table, fetched)
    ensures v == VerdictOf(table, e, fetch)
    ensures Once(fetched') && AllAsked(table, fetched')
    ensures v.Some? ==> Remembers(memo', fetched', fetch) && (NeedsInventory(e) ==> ArchOf(e.crawler.value) in fetched')
    ensures forall arch | arch in fetched :: arch in fetched'
  {
    if !NeedsInventory(e) {
      return Some(Verdict(e.profile, e.kernel, "", if e.crawler.None? then Uncovered else NoKernel, "")), memo, fetched;
    }
    var inv;
    AskedMore(table, fetched, e, ArchOf(e.crawler.value));
    inv, memo', fetched' := Inspect(memo, fetched, fetch, ArchOf(e.crawler.value));
    if inv.None? { return None, memo', fetched'; }
    var verdict := VerdictFrom(table, e, inv.value);
    v := Some(verdict);
  }

  /**
   Evaluates every entry with one fetch per architecture. `fetched` is the list
   of fetch calls made.
   */
  method Evaluate(table: seq<Baseline>, fetch: Fetch) returns (r: Option<seq<Verdict>>, fetched: seq<string>)
    ensures r.Some? ==> EachFetched(table, table, fetch, r.value)
    ensures r.None? <==> exists e :: e in table && VerdictOf(table, e, fetch).None?
    ensures Once(fetched) && AllAsked(table, fetched)
    ensures r.Some? ==> forall e | e in table && NeedsInventory(e) :: ArchOf(e.crawler.value) in fetched
  {
    var memo: Memo := map[];
    var results: seq<Verdict> := [];
    fetched := [];
    var i := 0;
    while i < |table|
      invariant 0 <= i <= |table|
      invariant EachFetched(table, table[..i], fetch, results)
      invariant Remembers(memo, fetched, fetch) && AllAsked(table, fetched)
      invariant forall k | 0 <= k < i && NeedsInventory(table[k]) :: ArchOf(table[k].crawler.value) in fetched
    {
      var v;
      v, memo, fetched := EvaluateEntry(table, table[i], memo, fetched, fetch);
      if v.None? { return None, fetched; }
      results := results + [v.value];
      i := i + 1;
    }
    r := Some(results);
    assert table[..i] == table;
  }

  method VerdictFrom(table: seq<Baseline>, e: Baseline, inv: Inventory) returns (v: Verdict)
    requires NeedsInventory(e)
    ensures v == VerdictWith(table, e, inv)
  {
    var newest := Newest(inv, e.crawler.value);
    if newest == "" { return Verdict(e.profile, e.kernel, "", NoEntries, ""); }
    if Compare(newest, e.kernel) <= 0 { return Verdict(e.profile, e.kernel, newest, Fresh, ""); }
    var cover, ok := FamilyCovers(table, e.profile, newest);
    v := if ok then Verdict(e.profile, e.kernel, newest, CoveredByFamily, cover)
         else Verdict(e.profile, e.kernel, newest, Stale, "");
  }

  /**
   An entry is stale exactly when its series has a release newer than the
   recorded kernel and no sweep profile of its family reached the newest one.
   */
  lemma StaleExactly(table: seq<Baseline>, e: Baseline, inv: Inventory)
    requires NeedsInventory(e)
    ensures VerdictWith(table, e, inv).status == Stale <==>
      && NewestOf(inv, e.crawler.value) != ""
      && (exists x ::
          && x in EntriesOf(inv, e.crawler.value) && Matches(x, e.crawler.value)
          && x.release != "" && Compare(x.release, e.kernel) > 0)
      && !exists c :: c in table && Reaches(c, e.profile, NewestOf(inv, e.crawler.value))
  {
    var ref := e.crawler.value;
    var newest := NewestOf(inv, ref);
    CoverIsLeast(table, e.profile, newest);
    NewestIsMaximum(EntriesOf(inv, ref), ref);
    TotalPreorder(newest, e.kernel, e.kernel);
    forall x | x in EntriesOf(inv, ref) && Matches(x, ref) && Compare(x.release, e.kernel) > 0
      ensures Compare(newest, e.kernel) > 0
    {
      TotalPreorder(x.release, newest, e.kernel);
    }
  }

  /** A sweep profile of a base is named `<base>-k`, a digit, and anything. */
  predicate Sweeps(profile: string, base: string, digit: char, rest: string) {
    IsDigit(digit) && profile == base + "-k" + [digit] + rest
  }

  lemma ReachesExactly(c: Baseline, base: string, newest: string)
    ensures Reaches(c, base, newest) <==>
      && c.kernel != "" && Compare(c.kernel, newest) >= 0
      && exists digit, rest :: Sweeps(c.profile, base, digit, rest)
  {
    var n := |base + "-k"|;
    if Reaches(c, base, newest) {
      assert Sweeps(c.profile, base, c.profile[n], c.profile[n + 1..]);
    }
    if digit, rest :| Sweeps(c.profile, base, digit, rest) { assert c.profile[..n] == base + "-k"; }
  }

  /** The releases of a series. */
  function Series(inv: Inventory, ref: CrawlerRef): set<string> {
    set x | x in EntriesOf(inv, ref) && Matches(x, ref) && x.release != "" :: x.release
  }

  lemma NewestOfSeries(inv: Inventory, ref: CrawlerRef, kernel: string)
    ensures NewestOf(inv, ref) == "" <==> Series(inv, ref) == {}
    ensures NewestOf(inv, ref) != "" ==>
      (Compare(NewestOf(inv, ref), kernel) <= 0 <==>
       forall release | release in Series(inv, ref) :: Compare(release, kernel) <= 0)
  {
    var newest := NewestOf(inv, ref);
    NewestIsMaximum(EntriesOf(inv, ref), ref);
    if newest == "" {
      assert Series(inv, ref) == {};
    } else {
      assert newest in Series(inv, ref);
      forall release | release in Series(inv, ref)
        ensures Compare(newest, kernel) <= 0 ==> Compare(release, kernel) <= 0
      {
        TotalPreorder(release, newest, kernel);
      }
    }
  }

  /**
   The other verdicts: without entries when the series has no release; fresh when it has, none newer than the recorded
   kernel; covered when a sweep profile, the one named, reached the newest.
   */
  lemma VerdictExactly(table: seq<Baseline>, e: Baseline, inv: Inventory)
    requires NeedsInventory(e)
    ensures var v, ref := VerdictWith(table, e, inv), e.crawler.value;
      var series := Series(inv, ref);
      && v.profile == e.profile && v.baseline == e.kernel && v.newest == NewestOf(inv, ref)
      && (v.status == NoEntries <==> series == {})
      && (v.status == Fresh <==> series != {} && forall release | release in series :: Compare(release, e.kernel) <= 0)
      && (v.status == CoveredByFamily <==> v.coveredBy != "")
      && (v.coveredBy != "" ==> exists c :: c in table && c.profile == v.coveredBy && Reaches(c, e.profile, v.newest))
      && v.status in {NoEntries, Fresh, CoveredByFamily, Stale}
  {
    NewestOfSeries(inv, e.crawler.value, e.kernel);
    CoverIsLeast(table, e.profile, NewestOf(inv, e.crawler.value));
  }

  /** Entries without a crawler or a kernel get their verdict without a fetch; others from their architecture's. */
  lemma FetchedExactly(table: seq<Baseline>, e: Baseline, fetch: Fetch)
    ensures VerdictOf(table, e, fetch).None? <==>
      NeedsInventory(e) && fetch(if e.crawler.value.arch == "" then "x86_64" else e.crawler.value.arch).None?
    ensures VerdictOf(table, e, fetch).Some? ==>
      var v := VerdictOf(table, e, fetch).value;
      && v.profile == e.profile
      && (v.status == Uncovered <==> e.crawler.None?) && (v.status == NoKernel <==> e.crawler.Some? && e.kernel == "")
  {
  }

  method StaleCount(results: seq<Verdict>) returns (n: nat)
    ensures n == |set i | 0 <= i < |results| && results[i].status == Stale|
  {
    n := 0;
    var i := 0;
    ghost var found: set<int> := {};
    while i < |results|
      invariant 0 <= i <= |results|
      invariant found == set k | 0 <= k < i && results[k].status == Stale
      invariant n == |found|
    {
      if results[i].status == Stale {
        n, found := n + 1, found + {i};
      }
      i := i + 1;
    }
    assert found == set k | 0 <= k < |results| && results[k].status == Stale;
  }
}
