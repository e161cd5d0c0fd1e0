/**
 The diff of two compatibility reports: per-profile changes, counters over them, and how the counters balance.
 */
module ReportDiff {
  import opened Text
  import opened Listing
  import opened Sorting

  datatype Target = Target(id: string, required: bool, status: string, code: string)

  datatype Change = Added | Removed | Unchanged | ClassificationChanged | Improved | Regressed | Changed

  datatype ProfileDiff = ProfileDiff(
    id: string, required: bool, change: Change,
    baseStatus: string, headStatus: string, baseCode: string, headCode: string)

  datatype Summary = Summary(
    total: nat, changed: nat, improved: nat, regressed: nat,
    requiredRegressions: nat, baseRequiredFailed: nat, headRequiredFailed: nat)

  type Table = map<string, Target>

  /** A report's targets by profile; a later target replaces an earlier one of the same profile. */
  function ByProfile(targets: seq<Target>): Table {
    if targets == [] then map[]
    else
      var last := targets[|targets| - 1];
      ByProfile(targets[..|targets| - 1])[last.id := last]
  }

  function StatusScore(status: string): nat {
    if status == "pass" then 3 else if status == "fail" then 2 else if status == "infra_error" then 1 else 0
  }

  function InferChange(base: Target, head: Target): Change {
    if base.status == head.status then
      if TrimSpace(base.code) == TrimSpace(head.code) then Unchanged else ClassificationChanged
    else if StatusScore(head.status) > StatusScore(base.status) then Improved
    else if StatusScore(head.status) < StatusScore(base.status) then Regressed
    else Changed
  }

  /** The statuses from worst to best; all others are level, below an infrastructure error. */
  const RANKED := ["infra_error", "fail", "pass"]

  /**
   A profile is unchanged when status and classification are. Between different statuses, towards a better ranked one is
   an improvement, away from it a regression, and between two that are not ranked only a change.
   */
  lemma ChangeExactly(base: Target, head: Target)
    ensures base.status == head.status <==> InferChange(base, head) in {Unchanged, ClassificationChanged}
    ensures InferChange(base, head) == Unchanged <==>
      base.status == head.status && TrimSpace(base.code) == TrimSpace(head.code)
    ensures InferChange(base, head) == Improved <==>
      exists i | 0 <= i < 3 :: head.status == RANKED[i] && base.status !in RANKED[i..]
    ensures InferChange(base, head) == Regressed <==>
      exists i | 0 <= i < 3 :: base.status == RANKED[i] && head.status !in RANKED[i..]
    ensures InferChange(base, head) == Changed <==>
      base.status != head.status && base.status !in RANKED && head.status !in RANKED
  {
    assert RANKED[0..] == RANKED && RANKED[1..] == ["fail", "pass"] && RANKED[2..] == ["pass"];
    assert RANKED[0] == "infra_error" && RANKED[1] == "fail" && RANKED[2] == "pass";
  }

  function ChangeAt(base: Table, head: Table, id: string): Change
    requires id in base || id in head
  {
    if id !in base then Added else if id !in head then Removed else InferChange(base[id], head[id])
  }

  function DiffAt(base: Table, head: Table, id: string): ProfileDiff
    requires id in base || id in head
  {
    ProfileDiff(id,
      if id in head then head[id].required else base[id].required,
      ChangeAt(base, head, id),
      if id in base then base[id].status else "", if id in head then head[id].status else "",
      if id in base then base[id].code else "", if id in head then head[id].code else "")
  }

  /** One diff per profile of either report, in the order of the profile ids. */
  ghost predicate IsDiff(profiles: seq<ProfileDiff>, base: Table, head: Table) {
    && (forall i | 0 <= i < |profiles| ::
      profiles[i].id in base.Keys + head.Keys && profiles[i] == DiffAt(base, head, profiles[i].id))
    && (forall i, j | 0 <= i < j < |profiles| :: LexLess(profiles[i].id, profiles[j].id))
    && (forall id | id in base.Keys + head.Keys :: exists i | 0 <= i < |profiles| :: profiles[i].id == id)
  }

  method IndexTargets(targets: seq<Target>) returns (table: Table)
    ensures table == ByProfile(targets)
  {
    table := map[];
    for i := 0 to |targets|
      invariant table == ByProfile(targets[..i])
    {
      table := table[targets[i].id := targets[i]];
      assert targets[..i + 1][..i] == targets[..i];
    }
    assert targets[..|targets|] == targets;
  }

  lemma ListedDiff(profiles: seq<ProfileDiff>, ids: seq<string>, base: Table, head: Table)
    requires StrictlySorted(ids) && forall id :: id in ids <==> id in base.Keys + head.Keys
    requires |profiles| == |ids| && forall i | 0 <= i < |ids| ::
      ids[i] in ids && profiles[i] == DiffAt(base, head, ids[i])
    ensures IsDiff(profiles, base, head)
  {
    forall id | id in base.Keys + head.Keys
      ensures exists i | 0 <= i < |profiles| :: profiles[i].id == id
    {
      assert id in ids;
      var i :| 0 <= i < |ids| && ids[i] == id;
      assert profiles[i].id == id;
    }
  }

  method MakeDiffProfiles(base: seq<Target>, head: seq<Target>) returns (profiles: seq<ProfileDiff>)
    ensures IsDiff(profiles, ByProfile(base), ByProfile(head))
  {
    var baseTable := IndexTargets(base);
    var headTable := IndexTargets(head);
    var ids := SortedListing(baseTable.Keys + headTable.Keys);
    profiles := [];
    for i := 0 to |ids|
      invariant |profiles| == i
      invariant forall k | 0 <= k < i :: ids[k] in ids && profiles[k] == DiffAt(baseTable, headTable, ids[k])
    {
      assert ids[i] in ids;
      profiles := profiles + [DiffAt(baseTable, headTable, ids[i])];
    }
    ListedDiff(profiles, ids, baseTable, headTable);
  }

  // ---- Counters ----

  function Count<T>(xs: seq<T>, p: T -> bool): (n: nat)
    ensures n <= |xs|
  {
    if xs == [] then 0 else Count(xs[..|xs| - 1], p) + (if p(xs[|xs| - 1]) then 1 else 0)
  }

  predicate Failing(t: Target) {
    t.required && t.status != "pass"
  }

  predicate IsChanged(d: ProfileDiff) {
    d.change != Unchanged
  }

  predicate IsImproved(d: ProfileDiff) {
    d.change == Improved
  }

  predicate IsRegressed(d: ProfileDiff) {
    d.change == Regressed
  }

  predicate IsRequiredRegression(d: ProfileDiff) {
    d.change == Regressed && d.required
  }

  function SummaryOf(base: seq<Target>, head: seq<Target>, profiles: seq<ProfileDiff>): Summary {
    Summary(
      |profiles|,
      Count(profiles, IsChanged),
      Count(profiles, IsImproved),
      Count(profiles, IsRegressed),
      Count(profiles, IsRequiredRegression),
      Count(base, Failing),
      Count(head, Failing))
  }

  method CountFailing(targets: seq<Target>) returns (n: nat)
    ensures n == Count(targets, Failing)
  {
    n := 0;
    for i := 0 to |targets|
      invariant n == Count(targets[..i], Failing)
    {
      assert targets[..i + 1][..i] == targets[..i];
      if targets[i].required && targets[i].status != "pass" { n := n + 1; }
    }
    assert targets[..|targets|] == targets;
  }

  method Summarize(base: seq<Target>, head: seq<Target>, profiles: seq<ProfileDiff>) returns (s: Summary)
    ensures s == SummaryOf(base, head, profiles)
  {
    var changed, improved, regressed, requiredRegressions: nat := 0, 0, 0, 0;
    for i := 0 to |profiles|
      invariant changed == Count(profiles[..i], IsChanged)
      invariant improved == Count(profiles[..i], IsImproved)
      invariant regressed == Count(profiles[..i], IsRegressed)
      invariant requiredRegressions == Count(profiles[..i], IsRequiredRegression)
    {
      assert profiles[..i + 1][..i] == profiles[..i];
      var d := profiles[i];
      if d.change != Unchanged { changed := changed + 1; }
      if d.change == Improved { improved := improved + 1; }
      if d.change == Regressed {
        regressed := regressed + 1;
        if d.required { requiredRegressions := requiredRegressions + 1; }
      }
    }
    assert profiles[..|profiles|] == profiles;
    var baseFailed := CountFailing(base);
    var headFailed := CountFailing(head);
    s := Summary(|profiles|, changed, improved, regressed, requiredRegressions, baseFailed, headFailed);
  }

  // ---- Counters as sizes of sets of profiles ----

  function FailingIds(table: Table): set<string> {
    set id | id in table && Failing(table[id])
  }

  /** A later target has this profile. */
  predicate Later(rest: seq<Target>, id: string) {
    exists j :: 0 <= j < |rest| && rest[j].id == id
  }

  /** The failing targets that a later target of their profile replaces. */
  function Shadowed(targets: seq<Target>): nat {
    if targets == [] then 0
    else (if Failing(targets[0]) && Later(targets[1..], targets[0].id) then 1 else 0) + Shadowed(targets[1..])
  }

  lemma {:induction false} ByProfileFirst(t: Target, rest: seq<Target>)
    ensures ByProfile([t] + rest) == map[t.id := t] + ByProfile(rest)
  {
    var all := [t] + rest;
    if rest == [] {
      assert all == [t] && [t][..0] == [];
    } else {
      var n := |rest| - 1;
      assert all[..|all| - 1] == [t] + rest[..n] && all[|all| - 1] == rest[n];
      ByProfileFirst(t, rest[..n]);
    }
  }

  lemma {:induction false} IndexedIds(targets: seq<Target>, id: string)
    ensures id in ByProfile(targets) <==> Later(targets, id)
  {
    if targets != [] {
      var n := |targets| - 1;
      var init := targets[..n];
      IndexedIds(init, id);
      assert forall j | 0 <= j < n :: init[j] == targets[j];
      assert targets[n].id == id ==> Later(targets, id);
      if Later(init, id) {
        var j :| 0 <= j < n && init[j].id == id;
        assert targets[j].id == id;
      }
    }
  }

  lemma {:induction false} CountFirst<T>(x: T, rest: seq<T>, p: T -> bool)
    ensures Count([x] + rest, p) == (if p(x) then 1 else 0) + Count(rest, p)
  {
    var all := [x] + rest;
    if rest == [] {
      assert all == [x] && [x][..0] == [];
    } else {
      assert all[..|all| - 1] == [x] + rest[..|rest| - 1];
      CountFirst(x, rest[..|rest| - 1], p);
    }
  }

  lemma FailingIdsFirst(t: Target, table: Table)
    ensures |FailingIds(map[t.id := t] + table)|
         == |FailingIds(table)| + (if Failing(t) && t.id !in table then 1 else 0)
  {
    var more := if Failing(t) && t.id !in table then {t.id} else {};
    assert FailingIds(map[t.id := t] + table) == FailingIds(table) + more;
  }

  /** The failure counter of a report: its failing profiles, and the failing targets that were replaced. */
  lemma {:induction false} FailingCount(targets: seq<Target>)
    ensures Count(targets, Failing) == |FailingIds(ByProfile(targets))| + Shadowed(targets)
  {
    if targets != [] {
      var t, rest := targets[0], targets[1..];
      assert targets == [t] + rest;
      FailingCount(rest);
      ByProfileFirst(t, rest);
      IndexedIds(rest, t.id);
      CountFirst(t, rest, Failing);
      FailingIdsFirst(t, ByProfile(rest));
    }
  }

  /** No failing target comes before another of its profile. */
  ghost predicate FailuresLast(targets: seq<Target>) {
    forall i, j | 0 <= i < j < |targets| && targets[i].id == targets[j].id :: !Failing(targets[i])
  }

  lemma {:induction false} NoneShadowed(targets: seq<Target>)
    ensures Shadowed(targets) == 0 <==> FailuresLast(targets)
  {
    if targets != [] {
      var rest := targets[1..];
      NoneShadowed(rest);
      assert forall i | 0 <= i < |rest| :: rest[i] == targets[i + 1];
      if FailuresLast(targets) {
        assert FailuresLast(rest);
        assert forall j | 0 <= j < |rest| && rest[j].id == targets[0].id :: targets[0].id == targets[j + 1].id;
      } else {
        var i, j :| 0 <= i < j < |targets| && targets[i].id == targets[j].id && Failing(targets[i]);
        assert rest[j - 1] == targets[j];
        assert i > 0 ==> rest[i - 1] == targets[i];
      }
    }
  }

  /** The failure counter is the number of failing profiles exactly when no failing target is replaced. */
  lemma CounterIsProfilesExactly(targets: seq<Target>)
    ensures Count(targets, Failing) == |FailingIds(ByProfile(targets))| <==> FailuresLast(targets)
  {
    FailingCount(targets);
    NoneShadowed(targets);
  }

  function IdsWhere(profiles: seq<ProfileDiff>, p: ProfileDiff -> bool): set<string> {
    set i | 0 <= i < |profiles| && p(profiles[i]) :: profiles[i].id
  }

  lemma IdsWhereSnoc(profiles: seq<ProfileDiff>, last: ProfileDiff, p: ProfileDiff -> bool)
    ensures IdsWhere(profiles + [last], p) == IdsWhere(profiles, p) + (if p(last) then {last.id} else {})
  {
    var all := profiles + [last];
    forall id | id in IdsWhere(all, p)
      ensures id in IdsWhere(profiles, p) + (if p(last) then {last.id} else {})
    {
      var i :| 0 <= i < |all| && p(all[i]) && all[i].id == id;
      assert i < |profiles| ==> profiles[i] == all[i];
    }
    forall id | id in IdsWhere(profiles, p)
      ensures id in IdsWhere(all, p)
    {
      var i :| 0 <= i < |profiles| && p(profiles[i]) && profiles[i].id == id;
      assert all[i] == profiles[i];
    }
    assert p(last) ==> all[|profiles|].id in IdsWhere(all, p);
  }

  lemma {:induction false} ProfileCount(profiles: seq<ProfileDiff>, p: ProfileDiff -> bool)
    requires forall i, j | 0 <= i < j < |profiles| :: profiles[i].id != profiles[j].id
    ensures Count(profiles, p) == |IdsWhere(profiles, p)|
  {
    if profiles != [] {
      var n := |profiles| - 1;
      var init, last := profiles[..n], profiles[n];
      ProfileCount(init, p);
      assert profiles == init + [last];
      IdsWhereSnoc(init, last, p);
      assert last.id !in IdsWhere(init, p);
    }
  }

  /** In a diff of two reports the profiles with a property are those whose diff has it, each counted once. */
  lemma DiffCount(profiles: seq<ProfileDiff>, base: Table, head: Table, p: ProfileDiff -> bool, ids: set<string>)
    requires IsDiff(profiles, base, head)
    requires forall id :: id in ids <==> id in base.Keys + head.Keys && p(DiffAt(base, head, id))
    ensures Count(profiles, p) == |ids|
  {
    forall i, j | 0 <= i < j < |profiles|
      ensures profiles[i].id != profiles[j].id
    {
      LexIrreflexive(profiles[i].id);
    }
    ProfileCount(profiles, p);
    forall id | id in ids
      ensures id in IdsWhere(profiles, p)
    {
      var i :| 0 <= i < |profiles| && profiles[i].id == id;
      assert p(profiles[i]);
    }
    assert IdsWhere(profiles, p) == ids;
  }

  // ---- Conservation of required failures ----

  predicate InBoth(d: ProfileDiff) {
    d.change != Added && d.change != Removed
  }

  /** A required profile that failed before and passes now. */
  predicate IsFixed(d: ProfileDiff) {
    d.required && InBoth(d) && d.baseStatus != "pass" && d.headStatus == "pass"
  }

  /** A required profile that passed before and fails now. */
  predicate IsBroken(d: ProfileDiff) {
    d.required && InBoth(d) && d.baseStatus == "pass" && d.headStatus != "pass"
  }

  predicate IsAddedFailing(d: ProfileDiff) {
    d.required && d.change == Added && d.headStatus != "pass"
  }

  predicate IsRemovedFailing(d: ProfileDiff) {
    d.required && d.change == Removed && d.baseStatus != "pass"
  }

  /** The reports agree on which of their common profiles are required. */
  ghost predicate FlagsAgree(base: Table, head: Table) {
    forall id | id in base && id in head :: base[id].required == head[id].required
  }

  /** Failing in the first report, present and not failing in the second. */
  function FixedIds(base: Table, head: Table): set<string> {
    FailingIds(base) * head.Keys - FailingIds(head)
  }

  /** Failing in the first report, absent from the second. */
  function RemovedFailingIds(base: Table, head: Table): set<string> {
    FailingIds(base) - head.Keys
  }

  lemma {:induction false} InBothExactly(base: Table, head: Table, id: string)
    requires id in base || id in head
    ensures InBoth(DiffAt(base, head, id)) <==> id in base && id in head
    ensures DiffAt(base, head, id).change == Added <==> id !in base
    ensures DiffAt(base, head, id).change == Removed <==> id !in head
  {
  }

  /** With agreeing flags, the fixed and broken profiles are those whose diffs say so. */
  lemma FixedCount(profiles: seq<ProfileDiff>, base: Table, head: Table)
    requires IsDiff(profiles, base, head) && FlagsAgree(base, head)
    ensures Count(profiles, IsFixed) == |FixedIds(base, head)|
    ensures Count(profiles, IsBroken) == |FixedIds(head, base)|
  {
    forall id | id in base || id in head
      ensures IsFixed(DiffAt(base, head, id)) <==> id in FixedIds(base, head)
      ensures IsBroken(DiffAt(base, head, id)) <==> id in FixedIds(head, base)
    {
      InBothExactly(base, head, id);
    }
    DiffCount(profiles, base, head, IsFixed, FixedIds(base, head));
    DiffCount(profiles, base, head, IsBroken, FixedIds(head, base));
  }

  lemma OneSidedCount(profiles: seq<ProfileDiff>, base: Table, head: Table)
    requires IsDiff(profiles, base, head)
    ensures Count(profiles, IsRemovedFailing) == |RemovedFailingIds(base, head)|
    ensures Count(profiles, IsAddedFailing) == |RemovedFailingIds(head, base)|
  {
    forall id | id in base || id in head
      ensures IsRemovedFailing(DiffAt(base, head, id)) <==> id in RemovedFailingIds(base, head)
      ensures IsAddedFailing(DiffAt(base, head, id)) <==> id in RemovedFailingIds(head, base)
    {
      InBothExactly(base, head, id);
    }
    DiffCount(profiles, base, head, IsRemovedFailing, RemovedFailingIds(base, head));
    DiffCount(profiles, base, head, IsAddedFailing, RemovedFailingIds(head, base));
  }

  lemma ThreeParts(f: set<string>, keys: set<string>, g: set<string>)
    requires g <= keys
    ensures |f| == |f * g| + |f * keys - g| + |f - keys|
  {
    assert f == f * keys + (f - keys);
    assert f * keys == f * g + (f * keys - g);
  }

  /** The failing profiles of one report are those of both, those the other fixes, and those the other lacks. */
  lemma FailingSplit(base: Table, head: Table)
    ensures |FailingIds(base)|
         == |FailingIds(base) * FailingIds(head)| + |FixedIds(base, head)| + |RemovedFailingIds(base, head)|
  {
    ThreeParts(FailingIds(base), head.Keys, FailingIds(head));
  }

  /**
   What is failing after is what was failing before, less what was fixed or removed, plus what broke or was added
   failing; a report also counts the failing targets it replaces.
   */
  lemma FailureBalance(profiles: seq<ProfileDiff>, base: seq<Target>, head: seq<Target>)
    requires IsDiff(profiles, ByProfile(base), ByProfile(head))
    ensures var s, b, h := SummaryOf(base, head, profiles), ByProfile(base), ByProfile(head);
      s.headRequiredFailed + Shadowed(base) + |FixedIds(b, h)| + Count(profiles, IsRemovedFailing) ==
      s.baseRequiredFailed + Shadowed(head) + |FixedIds(h, b)| + Count(profiles, IsAddedFailing)
  {
    FailingCount(base);
    FailingCount(head);
    OneSidedCount(profiles, ByProfile(base), ByProfile(head));
    CommonFailures(ByProfile(base), ByProfile(head));
  }

  // ---- Which new failures the counters show ----

  /** A required failure of the second report that is not one of the first. */
  predicate NewlyFailing(base: Table, head: Table, id: string) {
    id in FailingIds(head) && id !in FailingIds(base)
  }

  predicate IsCounted(d: ProfileDiff) {
    IsRequiredRegression(d) || IsAddedFailing(d)
  }

  /** A common profile that becomes required while it fails in both reports, without a drop in score. */
  predicate SilentlyPromoted(base: Table, head: Table, id: string) {
    && id in base && id in head && !base[id].required && head[id].required
    && base[id].status != "pass" && head[id].status != "pass"
    && StatusScore(head[id].status) >= StatusScore(base[id].status)
  }

  /** A new failure is shown by a counter exactly when it is not a silent promotion. */
  lemma CountedExactly(base: Table, head: Table, id: string)
    requires NewlyFailing(base, head, id)
    ensures IsCounted(DiffAt(base, head, id)) <==> !SilentlyPromoted(base, head, id)
  {
    InBothExactly(base, head, id);
  }

  function SilentIds(base: Table, head: Table): set<string> {
    set id | id in base && SilentlyPromoted(base, head, id)
  }

  function RegressionIds(base: Table, head: Table): set<string> {
    set id | id in head && id in base && IsRequiredRegression(DiffAt(base, head, id))
  }

  lemma RegressionCount(profiles: seq<ProfileDiff>, base: Table, head: Table)
    requires IsDiff(profiles, base, head)
    ensures Count(profiles, IsRequiredRegression) == |RegressionIds(base, head)|
  {
    forall id | id in base || id in head
      ensures IsRequiredRegression(DiffAt(base, head, id)) <==> id in RegressionIds(base, head)
    {
      InBothExactly(base, head, id);
    }
    DiffCount(profiles, base, head, IsRequiredRegression, RegressionIds(base, head));
  }

  /** Every new required failure is shown by a counter, exactly when there is no silent promotion. */
  lemma AllCountedExactly(base: Table, head: Table)
    ensures (forall id | NewlyFailing(base, head, id) :: IsCounted(DiffAt(base, head, id))) <==>
      SilentIds(base, head) == {}
  {
    forall id | NewlyFailing(base, head, id)
      ensures IsCounted(DiffAt(base, head, id)) <==> id !in SilentIds(base, head)
    {
      CountedExactly(base, head, id);
    }
    assert forall id | id in SilentIds(base, head) :: NewlyFailing(base, head, id);
  }

  /** The common profiles that newly fail: those the regressions show, and the silent promotions. */
  lemma NewCommonFailures(base: Table, head: Table)
    ensures |FixedIds(head, base)| == |FixedIds(head, base) * RegressionIds(base, head)| + |SilentIds(base, head)|
  {
    var broken, regressed, silent := FixedIds(head, base), RegressionIds(base, head), SilentIds(base, head);
    forall id | id in broken
      ensures id in regressed <==> id !in silent
    {
      CountedExactly(base, head, id);
      InBothExactly(base, head, id);
    }
    assert silent <= broken;
    assert broken == broken * regressed + silent;
  }

  lemma CommonFailures(b: Table, h: Table)
    ensures |FailingIds(h)| + |FixedIds(b, h)| + |RemovedFailingIds(b, h)|
         == |FailingIds(b)| + |FixedIds(h, b)| + |RemovedFailingIds(h, b)|
  {
    FailingSplit(b, h);
    FailingSplit(h, b);
    assert FailingIds(b) * FailingIds(h) == FailingIds(h) * FailingIds(b);
  }

  /**
   For all reports: required failures after exceed those before by at most what the counters show, the silent
   promotions, and the failing targets replaced within a report.
   */
  lemma HeadFailuresBounded(profiles: seq<ProfileDiff>, base: seq<Target>, head: seq<Target>)
    requires IsDiff(profiles, ByProfile(base), ByProfile(head))
    ensures var s := SummaryOf(base, head, profiles);
      s.headRequiredFailed + Shadowed(base) <=
      s.baseRequiredFailed + s.requiredRegressions + Count(profiles, IsAddedFailing)
        + |SilentIds(ByProfile(base), ByProfile(head))| + Shadowed(head)
  {
    var b, h := ByProfile(base), ByProfile(head);
    FailureBalance(profiles, base, head);
    RegressionCount(profiles, b, h);
    NewCommonFailures(b, h);
    SubsetSize(FixedIds(h, b) * RegressionIds(b, h), RegressionIds(b, h));
  }

  /**
   The counters alone bound the required failures exactly when the failures they do not show, silent promotions and
   replaced targets after, are made up for by replaced targets before, regressions that are no new failures, and
   failures fixed or removed.
   */
  lemma BoundHoldsExactly(profiles: seq<ProfileDiff>, base: seq<Target>, head: seq<Target>)
    requires IsDiff(profiles, ByProfile(base), ByProfile(head))
    ensures var s, b, h := SummaryOf(base, head, profiles), ByProfile(base), ByProfile(head);
      s.headRequiredFailed <= s.baseRequiredFailed + s.requiredRegressions + Count(profiles, IsAddedFailing) <==>
      |SilentIds(b, h)| + Shadowed(head) <=
        Shadowed(base) + |RegressionIds(b, h) - FixedIds(h, b)| + |FixedIds(b, h)| + |RemovedFailingIds(b, h)|
  {
    var b, h := ByProfile(base), ByProfile(head);
    FailureBalance(profiles, base, head);
    RegressionCount(profiles, b, h);
    NewCommonFailures(b, h);
    OneSidedCount(profiles, b, h);
    SplitSize(RegressionIds(b, h), FixedIds(h, b));
  }

  lemma SplitSize(a: set<string>, b: set<string>)
    ensures |a| == |b * a| + |a - b|
  {
    assert a == b * a + (a - b);
  }

  /** Agreeing flags leave no silent promotion, so then the counters alone bound the failures. */
  lemma FlagsAgreeNoneSilent(base: Table, head: Table)
    requires FlagsAgree(base, head)
    ensures SilentIds(base, head) == {}
  {
  }

  /** A profile that becomes required while failing is a new required failure that no counter of the diff shows. */
  lemma FlagFlipIsUncounted(id: string)
    ensures var base, head := [Target(id, false, "fail", "")], [Target(id, true, "fail", "")];
      var profiles := [DiffAt(ByProfile(base), ByProfile(head), id)];
      IsDiff(profiles, ByProfile(base), ByProfile(head)) &&
      SummaryOf(base, head, profiles) == Summary(1, 0, 0, 0, 0, 0, 1) && Count(profiles, IsAddedFailing) == 0
  {
    var base, head := [Target(id, false, "fail", "")], [Target(id, true, "fail", "")];
    assert ByProfile(base) == map[id := base[0]] && ByProfile(head) == map[id := head[0]];
    var profiles := [DiffAt(ByProfile(base), ByProfile(head), id)];
    assert profiles[0].id == id;
    assert profiles[..0] == [] && base[..0] == [] && head[..0] == [];
  }

  /** A repeated failing profile is counted each time as a failure and once as a profile. */
  lemma RepeatIsUncounted(id: string)
    ensures var base, head := [], [Target(id, true, "fail", ""), Target(id, true, "fail", "")];
      var profiles := [DiffAt(ByProfile(base), ByProfile(head), id)];
      IsDiff(profiles, ByProfile(base), ByProfile(head)) &&
      SummaryOf(base, head, profiles) == Summary(1, 1, 0, 0, 0, 0, 2) && Count(profiles, IsAddedFailing) == 1
  {
    var t := Target(id, true, "fail", "");
    assert [t, t][..1] == [t] && [t][..0] == [];
    assert ByProfile([t, t]) == map[id := t] && Count([t], Failing) == 1 && Count([t, t], Failing) == 2;
    var profiles := [DiffAt(ByProfile([]), ByProfile([t, t]), id)];
    assert profiles[0].id == id;
    assert profiles[..0] == [];
  }

  // ---- Swapping the reports ----

  function Flip(c: Change): Change {
    match c
    case Added => Removed
    case Removed => Added
    case Improved => Regressed
    case Regressed => Improved
    case _ => c
  }

  function Ids(profiles: seq<ProfileDiff>): seq<string> {
    seq(|profiles|, i requires 0 <= i < |profiles| => profiles[i].id)
  }

  lemma SameIds(profiles: seq<ProfileDiff>, swapped: seq<ProfileDiff>, base: Table, head: Table)
    requires IsDiff(profiles, base, head) && IsDiff(swapped, head, base)
    ensures Ids(profiles) == Ids(swapped)
  {
    forall id
      ensures id in Ids(profiles) <==> id in Ids(swapped)
    {
      IdsListed(profiles, base, head, id);
      IdsListed(swapped, head, base, id);
    }
    StrictListingUnique(Ids(profiles), Ids(swapped));
  }

  lemma IdsListed(profiles: seq<ProfileDiff>, base: Table, head: Table, id: string)
    requires IsDiff(profiles, base, head)
    ensures id in Ids(profiles) <==> id in base.Keys + head.Keys
  {
    if id in base.Keys + head.Keys {
      var i :| 0 <= i < |profiles| && profiles[i].id == id;
      assert Ids(profiles)[i] == id;
    }
  }

  lemma {:induction false} CountPointwise<T>(xs: seq<T>, ys: seq<T>, p: T -> bool, q: T -> bool)
    requires |xs| == |ys| && forall i | 0 <= i < |xs| :: p(xs[i]) == q(ys[i])
    ensures Count(xs, p) == Count(ys, q)
  {
    if xs != [] { CountPointwise(xs[..|xs| - 1], ys[..|ys| - 1], p, q); }
  }

  lemma FlipAt(base: Table, head: Table, id: string)
    requires id in base || id in head
    ensures ChangeAt(head, base, id) == Flip(ChangeAt(base, head, id))
  {
  }

  lemma SwapFlips(profiles: seq<ProfileDiff>, swapped: seq<ProfileDiff>, base: Table, head: Table)
    requires IsDiff(profiles, base, head) && IsDiff(swapped, head, base)
    ensures |swapped| == |profiles|
    ensures forall i | 0 <= i < |profiles| ::
      swapped[i].id == profiles[i].id && swapped[i].change == Flip(profiles[i].change)
  {
    SameIds(profiles, swapped, base, head);
    assert |Ids(profiles)| == |profiles|;
    forall i | 0 <= i < |profiles|
      ensures swapped[i].id == profiles[i].id && swapped[i].change == Flip(profiles[i].change)
    {
      assert Ids(profiles)[i] == profiles[i].id && Ids(swapped)[i] == swapped[i].id;
      FlipAt(base, head, profiles[i].id);
    }
  }

  lemma FlipsCount(profiles: seq<ProfileDiff>, swapped: seq<ProfileDiff>)
    requires |swapped| == |profiles| && forall i | 0 <= i < |profiles| :: swapped[i].change == Flip(profiles[i].change)
    ensures Count(profiles, IsChanged) == Count(swapped, IsChanged)
    ensures Count(profiles, IsImproved) == Count(swapped, IsRegressed)
    ensures Count(profiles, IsRegressed) == Count(swapped, IsImproved)
  {
    CountPointwise(profiles, swapped, IsChanged, IsChanged);
    CountPointwise(profiles, swapped, IsImproved, IsRegressed);
    CountPointwise(profiles, swapped, IsRegressed, IsImproved);
  }

  /**
   Swapping base and head turns each profile's change around, exchanges the improved and regressed counts and the two
   failure counts, and keeps the number of profiles and of changes; repeated ids do not matter.
   */
  lemma SwapSymmetry(profiles: seq<ProfileDiff>, swapped: seq<ProfileDiff>, base: seq<Target>, head: seq<Target>)
    requires IsDiff(profiles, ByProfile(base), ByProfile(head)) && IsDiff(swapped, ByProfile(head), ByProfile(base))
    ensures |swapped| == |profiles|
    ensures forall i | 0 <= i < |profiles| ::
      swapped[i].id == profiles[i].id && swapped[i].change == Flip(profiles[i].change)
    ensures var s, t := SummaryOf(base, head, profiles), SummaryOf(head, base, swapped);
      && t.total == s.total && t.changed == s.changed && t.improved == s.regressed && t.regressed == s.improved
      && t.baseRequiredFailed == s.headRequiredFailed && t.headRequiredFailed == s.baseRequiredFailed
  {
    SwapFlips(profiles, swapped, ByProfile(base), ByProfile(head));
    FlipsCount(profiles, swapped);
  }
}
