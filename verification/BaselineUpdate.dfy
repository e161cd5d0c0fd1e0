/**
 Merging the kernels observed in a report into the baseline table.
 */
module BaselineUpdate {
  import opened Text
  import opened KernelOrder
  import opened Freshness

  /** A report target; `kernel` is empty when the report has no host kernel for it. */
  datatype Target = Target(profile: string, kernel: string)

  type Table = seq<Baseline>

  /** The date part of the run's start time. */
  function RecordedDate(startedAt: string): string {
    if |startedAt| > 10 then startedAt[..10] else startedAt
  }

  lemma DateOfStart(date: string, rest: string)
    requires |date| == 10
    ensures RecordedDate(date + rest) == date
  {
    assert (date + rest)[..10] == date;
  }

  /** The last index of a profile, or -1; in a table with unique profiles, the only one. */
  function LastIndex(table: Table, profile: string): (k: int)
    ensures -1 <= k < |table|
    ensures k >= 0 ==> table[k].profile == profile
    ensures forall i | k < i < |table| :: table[i].profile != profile
  {
    if table == [] then -1
    else if table[|table| - 1].profile == profile then |table| - 1
    else LastIndex(table[..|table| - 1], profile)
  }

  /** The table after one target. */
  function UpdateOne(table: Table, t: Target, date: string): Table {
    var k := LastIndex(table, t.profile);
    if t.kernel == "" then table
    else if k < 0 then table + [Baseline(t.profile, t.kernel, date, "", None)]
    else if table[k].kernel == t.kernel && table[k].recorded != "" then table
    else table[k := table[k].(kernel := t.kernel, recorded := date)]
  }

  /** A target rewrites an existing entry: the profile is there, with another kernel or without a date. */
  predicate Rewrites(table: Table, t: Target) {
    var k := LastIndex(table, t.profile);
    t.kernel != "" && k >= 0 && !(table[k].kernel == t.kernel && table[k].recorded != "")
  }

  /** A target adds an entry for a new profile. */
  predicate Adds(table: Table, t: Target) {
    t.kernel != "" && LastIndex(table, t.profile) < 0
  }

  /** The profiles whose existing entry is rewritten, in the order of the targets. */
  function Rewritten(table: Table, targets: seq<Target>, date: string): seq<string> {
    if targets == [] then []
    else
      var n := |targets| - 1;
      var before := UpdateAll(table, targets[..n], date);
      Rewritten(table, targets[..n], date) + (if Rewrites(before, targets[n]) then [targets[n].profile] else [])
  }

  function UpdateAll(table: Table, targets: seq<Target>, date: string): Table {
    if targets == [] then table
    else UpdateOne(UpdateAll(table, targets[..|targets| - 1], date), targets[|targets| - 1], date)
  }

  /** A target adds an entry exactly when the table grows, and rewrites one exactly when it changes without growing. */
  lemma ChangesExactly(table: Table, t: Target, date: string)
    requires date != ""
    ensures Adds(table, t) <==> |UpdateOne(table, t, date)| > |table|
    ensures Rewrites(table, t) <==> |UpdateOne(table, t, date)| == |table| && UpdateOne(table, t, date) != table
    ensures Adds(table, t) || Rewrites(table, t) ==>
      exists e :: e in UpdateOne(table, t, date) && e.profile == t.profile && e.kernel == t.kernel && e.recorded == date
  {
    var k, after := LastIndex(table, t.profile), UpdateOne(table, t, date);
    if Rewrites(table, t) {
      assert after[k].kernel == t.kernel && after[k].recorded == date && after[k] in after;
      assert after[k] != table[k];
    }
    if Adds(table, t) { assert after[|table|] in after; }
  }

  /** Target `i` is of the profile and rewrites its entry as it finds it. */
  predicate RewritesAt(table: Table, targets: seq<Target>, date: string, profile: string, i: nat)
    requires i < |targets|
  {
    targets[i].profile == profile && Rewrites(UpdateAll(table, targets[..i], date), targets[i])
  }

  lemma UpdateNext(table: Table, targets: seq<Target>, date: string, n: nat)
    requires n < |targets|
    ensures var before := UpdateAll(table, targets[..n], date);
      && UpdateAll(table, targets[..n + 1], date) == UpdateOne(before, targets[n], date)
      && Rewritten(table, targets[..n + 1], date)
         == Rewritten(table, targets[..n], date) + if Rewrites(before, targets[n]) then [targets[n].profile] else []
  {
    assert targets[..n + 1][..n] == targets[..n];
  }

  lemma RewrittenNext(table: Table, targets: seq<Target>, date: string, profile: string, n: nat)
    requires n < |targets|
    ensures profile in Rewritten(table, targets[..n + 1], date) <==>
      profile in Rewritten(table, targets[..n], date) || RewritesAt(table, targets, date, profile, n)
  {
    UpdateNext(table, targets, date, n);
  }

  /** A profile is listed as updated exactly when one of the first `n` targets rewrote its entry. */
  lemma {:induction false} RewrittenExactly(table: Table, targets: seq<Target>, date: string, profile: string, n: nat)
    requires n <= |targets|
    ensures profile in Rewritten(table, targets[..n], date) <==>
      exists i: nat :: i < n && RewritesAt(table, targets, date, profile, i)
  {
    if n > 0 {
      var last: nat := n - 1;
      RewrittenExactly(table, targets, date, profile, last);
      RewrittenNext(table, targets, date, profile, last);
    }
  }

  class BaselineTable {
    var entries: Table

    constructor (entries: Table)
      ensures this.entries == entries
    {
      this.entries := entries;
    }

    /** Index of the entries by profile; a repeated profile keeps its last index. */
    method BuildIndex() returns (index: map<string, nat>)
      ensures IndexOf(index, entries)
    {
      index := map[];
      var i := 0;
      while i < |entries|
        invariant 0 <= i <= |entries|
        invariant IndexOf(index, entries[..i])
      {
        assert entries[..i + 1][..i] == entries[..i];
        assert entries[..i + 1] == entries[..i] + [entries[i]];
        AddKeepsIndex(index, entries[..i], entries[i]);
        index := index[entries[i].profile := i];
        i := i + 1;
      }
      assert entries[..i] == entries;
    }

    /** Merges one target, keeping the index in step with the table. */
    method MergeOne(t: Target, date: string, index: map<string, nat>)
      returns (newIndex: map<string, nat>, isUpdated: bool, isAdded: bool)
      requires IndexOf(index, entries)
      modifies this
      ensures entries == UpdateOne(old(entries), t, date) && IndexOf(newIndex, entries)
      ensures isUpdated <==> Rewrites(old(entries), t)
      ensures isAdded <==> Adds(old(entries), t)
      ensures isAdded <==> |entries| == |old(entries)| + 1
      ensures isAdded ==> entries[|old(entries)|].profile == t.profile
      ensures !isAdded ==> |entries| == |old(entries)|
      ensures !isAdded && !isUpdated ==> entries == old(entries)
      ensures forall i | 0 <= i < |old(entries)| :: entries[i].profile == old(entries)[i].profile
    {
      newIndex, isUpdated, isAdded := index, false, false;
      assert Indexed(index, entries, t.profile);
      if t.kernel == "" { return; }
      if t.profile in index {
        var k := index[t.profile];
        if entries[k].kernel == t.kernel && entries[k].recorded != "" { return; }
        SetKeepsIndex(index, entries, k, t.kernel, date);
        entries := entries[k := entries[k].(kernel := t.kernel, recorded := date)];
        isUpdated := true;
      } else {
        AddKeepsIndex(index, entries, Baseline(t.profile, t.kernel, date, "", None));
        entries := entries + [Baseline(t.profile, t.kernel, date, "", None)];
        newIndex := index[t.profile := |entries| - 1];
        isAdded := true;
      }
    }

    /** Merges the targets in order and reports which profiles were updated and added. */
    method UpdateFromReport(targets: seq<Target>, startedAt: string) returns (updated: seq<string>, added: seq<string>)
      modifies this
      ensures entries == UpdateAll(old(entries), targets, RecordedDate(startedAt))
      ensures |entries| == |old(entries)| + |added|
      ensures forall i | 0 <= i < |added| :: entries[|old(entries)| + i].profile == added[i]
      ensures updated == Rewritten(old(entries), targets, RecordedDate(startedAt))
      ensures updated == [] && added == [] ==> entries == old(entries)
    {
      var date := RecordedDate(startedAt);
      var index: map<string, nat> := BuildIndex();
      updated, added := [], [];
      var n := 0;
      while n < |targets|
        invariant 0 <= n <= |targets|
        invariant IndexOf(index, entries)
        invariant entries == UpdateAll(old(entries), targets[..n], date)
        invariant ListsAdded(entries, |old(entries)|, added)
        invariant updated == Rewritten(old(entries), targets[..n], date)
        invariant updated == [] && added == [] ==> entries == old(entries)
      {
        UpdateNext(old(entries), targets, date, n);
        ghost var before := entries;
        var newIndex, isUpdated, isAdded := MergeOne(targets[n], date, index);
        index := newIndex;
        AddedMore(before, entries, |old(entries)|, added, targets[n].profile);
        if isUpdated { updated := updated + [targets[n].profile]; }
        if isAdded { added := added + [targets[n].profile]; }
        n := n + 1;
      }
      assert targets[..n] == targets;
    }
  }

  /** The entries from `n` on are those of the added profiles, in order. */
  predicate ListsAdded(table: Table, n: nat, added: seq<string>) {
    |table| == n + |added| && forall i | 0 <= i < |added| :: table[n + i].profile == added[i]
  }

  lemma AddedMore(before: Table, after: Table, n: nat, added: seq<string>, profile: string)
    requires ListsAdded(before, n, added)
    requires |after| >= |before| && forall i | 0 <= i < |before| :: after[i].profile == before[i].profile
    ensures |after| == |before| ==> ListsAdded(after, n, added)
    ensures |after| == |before| + 1 && after[|before|].profile == profile ==> ListsAdded(after, n, added + [profile])
  {
  }

  predicate Indexed(index: map<string, nat>, table: Table, profile: string) {
    if LastIndex(table, profile) >= 0 then profile in index && index[profile] == LastIndex(table, profile)
    else profile !in index
  }

  ghost predicate IndexOf(index: map<string, nat>, table: Table) {
    forall p: string :: Indexed(index, table, p)
  }

  lemma SameProfiles(a: Table, b: Table, profile: string)
    requires |a| == |b| && forall i | 0 <= i < |a| :: a[i].profile == b[i].profile
    ensures LastIndex(a, profile) == LastIndex(b, profile)
  {
  }

  lemma SetKeepsIndex(index: map<string, nat>, table: Table, k: nat, kernel: string, date: string)
    requires IndexOf(index, table) && k < |table|
    ensures IndexOf(index, table[k := table[k].(kernel := kernel, recorded := date)])
  {
    var after := table[k := table[k].(kernel := kernel, recorded := date)];
    forall p: string
      ensures Indexed(index, after, p)
    {
      SameProfiles(table, after, p);
      assert Indexed(index, table, p);
    }
  }

  lemma AddKeepsIndex(index: map<string, nat>, table: Table, e: Baseline)
    requires IndexOf(index, table)
    ensures IndexOf(index[e.profile := |table|], table + [e])
  {
    var index', table' := index[e.profile := |table|], table + [e];
    forall p: string
      ensures Indexed(index', table', p)
    {
      assert (table + [e])[..|table|] == table;
      assert Indexed(index, table, p);
    }
  }

  // ---- What an update keeps ----

  ghost predicate UniqueProfiles(table: Table) {
    forall i, j | 0 <= i < j < |table| :: table[i].profile != table[j].profile
  }

  /** `after` has the entries of `before` at their places, with the same crawler mapping and note. */
  ghost predicate KeepsEntries(before: Table, after: Table) {
    && |before| <= |after|
    && (forall i | 0 <= i < |before| ::
          after[i].profile == before[i].profile && after[i].crawler == before[i].crawler &&
            after[i].note == before[i].note)
    && (forall i | |before| <= i < |after| :: after[i].crawler == None)
  }

  /** Unique profiles stay unique, and no crawler mapping is lost or invented. */
  lemma {:induction false} UpdateKeepsTable(table: Table, targets: seq<Target>, date: string)
    ensures KeepsEntries(table, UpdateAll(table, targets, date))
    ensures UniqueProfiles(table) ==> UniqueProfiles(UpdateAll(table, targets, date))
  {
    if targets != [] { UpdateKeepsTable(table, targets[..|targets| - 1], date); }
  }

  /** The kernel of the last target of a profile that has one, else `default`. */
  function LastKernel(targets: seq<Target>, profile: string, default: string): string {
    if targets == [] then default
    else
      var t := targets[|targets| - 1];
      if t.profile == profile && t.kernel != "" then t.kernel
      else LastKernel(targets[..|targets| - 1], profile, default)
  }

  predicate Observed(targets: seq<Target>, profile: string) {
    exists t :: t in targets && t.profile == profile && t.kernel != ""
  }

  /** All targets of a profile report the same kernel. */
  predicate OnlyKernel(targets: seq<Target>, profile: string, kernel: string) {
    forall t | t in targets && t.profile == profile && t.kernel != "" :: t.kernel == kernel
  }

  /**
   An entry after an update: the last observed kernel, and the run's date unless every observation confirmed a dated
   entry.
   */
  predicate SettledEntry(e: Baseline, targets: seq<Target>, date: string) {
    Observed(targets, e.profile) ==>
      && e.kernel == LastKernel(targets, e.profile, e.kernel)
      && (e.recorded == date || (e.recorded != "" && OnlyKernel(targets, e.profile, e.kernel)))
  }

  predicate IsLast(table: Table, i: int)
    requires 0 <= i < |table|
  {
    LastIndex(table, table[i].profile) == i
  }

  ghost predicate Settled(table: Table, targets: seq<Target>, date: string) {
    && (forall i | 0 <= i < |table| && IsLast(table, i) :: SettledEntry(table[i], targets, date))
    && (forall p: string | Observed(targets, p) :: LastIndex(table, p) >= 0)
  }

  lemma ObservedMore(targets: seq<Target>, t: Target, profile: string)
    ensures Observed(targets + [t], profile) <==> Observed(targets, profile) || (t.profile == profile && t.kernel != "")
    ensures OnlyKernel(targets, profile, t.kernel) && t.profile == profile ==>
      OnlyKernel(targets + [t], profile, t.kernel)
    ensures t.profile != profile || t.kernel == "" ==> forall k :: OnlyKernel(targets, profile, k) <==>
      OnlyKernel(targets + [t], profile, k)
  {
    var more := targets + [t];
    assert forall x :: x in more <==> x in targets || x == t;
  }

  lemma OnlyMeansLast(targets: seq<Target>, profile: string, kernel: string)
    requires OnlyKernel(targets, profile, kernel)
    ensures LastKernel(targets, profile, kernel) == kernel
  {
  }

  lemma LastKernelDefault(targets: seq<Target>, profile: string, a: string, b: string)
    ensures Observed(targets, profile) ==> LastKernel(targets, profile, a) == LastKernel(targets, profile, b)
    ensures !Observed(targets, profile) ==> LastKernel(targets, profile, a) == a
  {
    if targets != [] {
      var init, t := targets[..|targets| - 1], targets[|targets| - 1];
      assert targets == init + [t];
      ObservedMore(init, t, profile);
      LastKernelDefault(init, profile, a, b);
    }
  }

  lemma SettleOne(table: Table, targets: seq<Target>, t: Target, date: string)
    requires Settled(table, targets, date)
    ensures Settled(UpdateOne(table, t, date), targets + [t], date)
  {
    var after := UpdateOne(table, t, date);
    var more := targets + [t];
    assert more[..|more| - 1] == targets;
    forall p: string | Observed(more, p)
      ensures LastIndex(after, p) >= 0
    {
      ObservedMore(targets, t, p);
      LastAfterUpdate(table, t, date, p);
    }
    forall i | 0 <= i < |after| && IsLast(after, i)
      ensures SettledEntry(after[i], more, date)
    {
      var p := after[i].profile;
      ObservedMore(targets, t, p);
      LastAfterUpdate(table, t, date, p);
      SettleEntry(table, targets, t, date, i);
    }
  }

  lemma LastAfterUpdate(table: Table, t: Target, date: string, profile: string)
    ensures LastIndex(UpdateOne(table, t, date), profile)
         == if LastIndex(table, profile) < 0 && t.profile == profile && t.kernel != "" then |table|
            else LastIndex(table, profile)
  {
    var k := LastIndex(table, t.profile);
    if t.kernel != "" {
      if k < 0 {
        var e := Baseline(t.profile, t.kernel, date, "", None);
        assert (table + [e])[..|table|] == table;
      } else {
        SameProfiles(table, UpdateOne(table, t, date), profile);
      }
    }
  }

  lemma SettleEntry(table: Table, targets: seq<Target>, t: Target, date: string, i: int)
    requires Settled(table, targets, date)
    requires 0 <= i < |UpdateOne(table, t, date)| && IsLast(UpdateOne(table, t, date), i)
    ensures SettledEntry(UpdateOne(table, t, date)[i], targets + [t], date)
  {
    var after := UpdateOne(table, t, date);
    var more := targets + [t];
    var e := after[i];
    assert more[..|more| - 1] == targets;
    ObservedMore(targets, t, e.profile);
    LastAfterUpdate(table, t, date, e.profile);
    if t.profile == e.profile && t.kernel != "" {
      if i < |table| && e == table[i] {
        assert IsLast(table, i);
        assert SettledEntry(table[i], targets, date);
      }
    } else if i < |table| {
      assert IsLast(table, i) && e == table[i];
      assert SettledEntry(table[i], targets, date);
    }
  }

  lemma {:induction false} UpdateSettles(table: Table, targets: seq<Target>, date: string)
    ensures Settled(UpdateAll(table, targets, date), targets, date)
  {
    if targets != [] {
      var init, t := targets[..|targets| - 1], targets[|targets| - 1];
      UpdateSettles(table, init, date);
      SettleOne(UpdateAll(table, init, date), init, t, date);
      assert targets == init + [t];
    }
  }

  /** What a settled table looks like while the same targets are merged again. */
  ghost predicate Replayed(table: Table, targets: seq<Target>, now: Table) {
    && |now| == |table|
    && forall i | 0 <= i < |table| :: now[i] == ReplayedEntry(table, targets, i)
  }

  lemma {:induction false} Replay(table: Table, all: seq<Target>, n: nat, date: string)
    requires Settled(table, all, date) && n <= |all|
    ensures Replayed(table, all[..n], UpdateAll(table, all[..n], date))
  {
    if n > 0 {
      Replay(table, all, n - 1, date);
      assert all[..n][..n - 1] == all[..n - 1];
      ReplayOne(table, all, n - 1, date, UpdateAll(table, all[..n - 1], date));
    }
  }

  /** Merging target `n` again gives a settled entry that target's kernel and leaves its date. */
  lemma ReplayHit(e: Baseline, all: seq<Target>, n: nat, date: string)
    requires n < |all| && all[n].profile == e.profile && all[n].kernel != "" && SettledEntry(e, all, date)
    ensures var now := e.(kernel := LastKernel(all[..n], e.profile, e.kernel));
      e.(kernel := all[n].kernel) ==
      if now.kernel == all[n].kernel && now.recorded != "" then now else now.(kernel := all[n].kernel, recorded := date)
  {
    assert Observed(all, e.profile) by { assert all[n] in all; }
    if e.recorded != date {
      assert OnlyKernel(all[..n], e.profile, e.kernel);
      OnlyMeansLast(all[..n], e.profile, e.kernel);
    }
  }

  function ReplayedEntry(table: Table, targets: seq<Target>, i: int): Baseline
    requires 0 <= i < |table|
  {
    if IsLast(table, i) then table[i].(kernel := LastKernel(targets, table[i].profile, table[i].kernel)) else table[i]
  }

  lemma ReplayOthers(table: Table, all: seq<Target>, n: nat, i: int)
    requires n < |all| && 0 <= i < |table|
    requires all[n].kernel == "" || all[n].profile != table[i].profile || !IsLast(table, i)
    ensures ReplayedEntry(table, all[..n + 1], i) == ReplayedEntry(table, all[..n], i)
  {
    assert all[..n + 1][..n] == all[..n];
  }

  lemma ReplayOne(table: Table, all: seq<Target>, n: nat, date: string, now: Table)
    requires Settled(table, all, date) && n < |all|
    requires Replayed(table, all[..n], now)
    ensures Replayed(table, all[..n + 1], UpdateOne(now, all[n], date))
  {
    var t := all[n];
    var after := UpdateOne(now, t, date);
    if t.kernel == "" {
      forall i | 0 <= i < |table| { ReplayOthers(table, all, n, i); }
    } else {
      assert Observed(all, t.profile) by { assert all[n] in all; }
      var k := LastIndex(table, t.profile);
      assert k >= 0 && IsLast(table, k);
      SameProfiles(table, now, t.profile);
      ReplayHit(table[k], all, n, date);
      assert all[..n + 1][..n] == all[..n];
      assert after[k] == ReplayedEntry(table, all[..n + 1], k);
      forall i | 0 <= i < |table| && i != k { ReplayOthers(table, all, n, i); }
    }
  }

  /** Merging the same report twice leaves the table as after the first time. */
  lemma UpdateIsIdempotent(table: Table, targets: seq<Target>, date: string)
    ensures var once := UpdateAll(table, targets, date); UpdateAll(once, targets, date) == once
  {
    var once := UpdateAll(table, targets, date);
    UpdateSettles(table, targets, date);
    Replay(once, targets, |targets|, date);
    assert targets[..|targets|] == targets;
    var again := UpdateAll(once, targets, date);
    forall i | 0 <= i < |once|
      ensures again[i] == once[i]
    {
      if IsLast(once, i) {
        assert SettledEntry(once[i], targets, date);
        LastKernelDefault(targets, once[i].profile, once[i].kernel, once[i].kernel);
      }
    }
  }

  /**
   After an update, a mapped profile that was observed is judged on its last
   observed kernel: fresh exactly when the series has releases and none is
   newer than that kernel.
   */
  lemma UpdatedVerdict(table: Table, targets: seq<Target>, date: string, i: int, inv: Inventory)
    requires UniqueProfiles(table) && 0 <= i < |table|
    requires table[i].crawler.Some? && Observed(targets, table[i].profile)
    ensures var after := UpdateAll(table, targets, date);
      && i < |after| && NeedsInventory(after[i])
      && after[i].kernel == LastKernel(targets, table[i].profile, "")
      && (VerdictWith(after, after[i], inv).status == Fresh <==>
            NewestOf(inv, table[i].crawler.value) != "" &&
              Compare(NewestOf(inv, table[i].crawler.value), LastKernel(targets, table[i].profile, "")) <= 0)
  {
    var after := UpdateAll(table, targets, date);
    UpdateKeepsTable(table, targets, date);
    UpdateSettles(table, targets, date);
    var p := table[i].profile;
    var k := LastIndex(after, p);
    assert IsLast(after, i);
    assert SettledEntry(after[i], targets, date);
    LastKernelDefault(targets, p, after[i].kernel, "");
    LastKernelNonEmpty(targets, p);
  }

  lemma {:induction false} LastKernelNonEmpty(targets: seq<Target>, profile: string)
    requires Observed(targets, profile)
    ensures LastKernel(targets, profile, "") != ""
  {
    var init, t := targets[..|targets| - 1], targets[|targets| - 1];
    assert targets == init + [t];
    ObservedMore(init, t, profile);
    if !(t.profile == profile && t.kernel != "") { LastKernelNonEmpty(init, profile); }
  }
}
