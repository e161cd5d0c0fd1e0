/**
 The agent's load ledger: an append-only list whose load entries point back to
 the previous successful load of the same artifact.
 */
module Ledger {
  import opened Text

  datatype Entry = Entry(
    operation: string,
    status: string,
    artifactName: string,
    version: string,
    sha: string,
    path: string,
    loadApproved: bool,
    pinsRequired: bool,
    pinsVerified: bool,
    manifestRequired: bool,
    manifestVerified: bool,
    policyAction: string,
    previousVersion: string,
    previousSha: string,
    previousPath: string,
    error: string)

  /** An entry with nothing but an operation, a status and an artifact. */
  function BareEntry(operation: string, status: string, artifactName: string): Entry {
    Entry(operation, status, artifactName, "", "", "", false, false, false, false, false, "", "", "", "", "")
  }

  predicate IsSuccess(e: Entry) {
    e.operation == "load" && (e.status == "pass" || e.status == "success")
  }

  /** An empty name stands for every artifact. */
  predicate For(e: Entry, name: string) {
    name == "" || e.artifactName == name
  }

  /** The latest successful load of an artifact. */
  function LastSuccess(ledger: seq<Entry>, name: string): (r: Option<Entry>)
    ensures r.Some? ==> IsSuccess(r.value) && For(r.value, name)
  {
    if ledger == [] then None
    else
      var e := ledger[|ledger| - 1];
      if For(e, name) && IsSuccess(e) then Some(e) else LastSuccess(ledger[..|ledger| - 1], name)
  }

  /** It is the entry after which the artifact has no success; there is none exactly when the artifact never had one. */
  lemma {:induction false} LastSuccessIsLatest(ledger: seq<Entry>, name: string) returns (k: int)
    ensures -1 <= k < |ledger|
    ensures k == -1 <==> LastSuccess(ledger, name).None?
    ensures k >= 0 ==> For(ledger[k], name) && IsSuccess(ledger[k]) && LastSuccess(ledger, name) == Some(ledger[k])
    ensures forall j | k < j < |ledger| :: !(For(ledger[j], name) && IsSuccess(ledger[j]))
  {
    if ledger == [] {
      k := -1;
    } else {
      var n := |ledger| - 1;
      if For(ledger[n], name) && IsSuccess(ledger[n]) {
        k := n;
      } else {
        k := LastSuccessIsLatest(ledger[..n], name);
      }
    }
  }

  /** What the previous fields of an entry must say about the load before it. */
  predicate PointsBack(e: Entry, last: Option<Entry>) {
    match last
    case None => e.previousVersion == "" && e.previousSha == "" && e.previousPath == ""
    case Some(p) => e.previousVersion == p.version && e.previousSha == p.sha && e.previousPath == p.path
  }

  function WithPrevious(e: Entry, last: Option<Entry>): (r: Entry)
    requires e.previousVersion == "" && e.previousSha == "" && e.previousPath == ""
    ensures PointsBack(r, last)
  {
    match last
    case None => e
    case Some(p) => e.(previousVersion := p.version, previousSha := p.sha, previousPath := p.path)
  }

  // ---- Reading the ledger ----

  function Reversed<T>(s: seq<T>): seq<T> {
    if |s| == 0 then [] else [s[|s| - 1]] + Reversed(s[..|s| - 1])
  }

  lemma {:induction false} ReversedAt<T>(s: seq<T>, k: nat)
    ensures |Reversed(s)| == |s|
    ensures k < |s| ==> Reversed(s)[k] == s[|s| - 1 - k]
  {
    if |s| > 0 { ReversedAt(s[..|s| - 1], if k > 0 then k - 1 else 0); }
  }

  lemma MirrorIsReversed<T>(s: seq<T>, r: seq<T>)
    requires |r| == |s| && forall k | 0 <= k < |s| :: r[k] == s[|s| - 1 - k]
    ensures r == Reversed(s)
  {
    ReversedAt(s, 0);
    forall k | 0 <= k < |s|
      ensures r[k] == Reversed(s)[k]
    {
      ReversedAt(s, k);
    }
  }

  /** Reverses by swapping from both ends. */
  method ReverseEntries<T>(a: array<T>)
    modifies a
    ensures a[..] == Reversed(old(a[..]))
  {
    ghost var was := a[..];
    var n := a.Length;
    var i, j := 0, n - 1;
    while i < j
      invariant 0 <= i <= n && j == n - 1 - i && i <= j + 1
      invariant forall k | 0 <= k < i :: a[k] == was[n - 1 - k]
      invariant forall k | n - i <= k < n :: a[k] == was[n - 1 - k]
      invariant forall k | i <= k < n - i :: a[k] == was[k]
    {
      a[i], a[j] := a[j], a[i];
      i, j := i + 1, j - 1;
    }
    MirrorIsReversed(was, a[..]);
  }

  function Select(ledger: seq<Entry>, name: string): seq<Entry> {
    if ledger == [] then []
    else Select(ledger[..|ledger| - 1], name) + (if For(ledger[|ledger| - 1], name) then [ledger[|ledger| - 1]] else [])
  }

  /** The entries of an artifact, newest first, at most `limit` of them when it is positive. */
  method ListEntries(ledger: seq<Entry>, artifactName: string, limit: int) returns (r: seq<Entry>)
    ensures var all := Reversed(Select(ledger, TrimSpace(artifactName)));
      r == if limit > 0 && |all| > limit then all[..limit] else all
  {
    var name := TrimSpace(artifactName);
    var kept: seq<Entry> := [];
    var i := 0;
    while i < |ledger|
      invariant 0 <= i <= |ledger|
      invariant kept == Select(ledger[..i], name)
    {
      assert ledger[..i + 1][..i] == ledger[..i];
      if name == "" || ledger[i].artifactName == name { kept := kept + [ledger[i]]; }
      i := i + 1;
    }
    assert ledger[..i] == ledger;
    var a := new Entry[|kept|](k requires 0 <= k < |kept| => kept[k]);
    assert a[..] == kept;
    ReverseEntries(a);
    r := a[..];
    if limit > 0 && |r| > limit { r := r[..limit]; }
  }

  /** The first success in a newest-first list. */
  function FirstSuccess(entries: seq<Entry>): Option<Entry> {
    if entries == [] then None else if IsSuccess(entries[0]) then Some(entries[0]) else FirstSuccess(entries[1..])
  }

  lemma {:induction false} FirstOfReversed(ledger: seq<Entry>, name: string)
    ensures FirstSuccess(Reversed(Select(ledger, name))) == LastSuccess(ledger, name)
  {
    if ledger != [] {
      var rest, e := ledger[..|ledger| - 1], ledger[|ledger| - 1];
      FirstOfReversed(rest, name);
      if For(e, name) {
        var s := Select(ledger, name);
        assert s[..|s| - 1] == Select(rest, name);
        assert Reversed(s)[1..] == Reversed(Select(rest, name));
      } else {
        assert Select(ledger, name) == Select(rest, name);
      }
    }
  }

  method LastSuccessfulLoad(ledger: seq<Entry>, artifactName: string) returns (r: Option<Entry>)
    ensures r == LastSuccess(ledger, TrimSpace(artifactName))
  {
    var entries := ListEntries(ledger, artifactName, 0);
    var i := 0;
    while i < |entries|
      invariant 0 <= i <= |entries|
      invariant FirstSuccess(entries) == FirstSuccess(entries[i..])
    {
      if IsSuccess(entries[i]) {
        FirstOfReversed(ledger, TrimSpace(artifactName));
        return Some(entries[i]);
      }
      i := i + 1;
    }
    FirstOfReversed(ledger, TrimSpace(artifactName));
    r := None;
  }

  // ---- What every reachable ledger satisfies ----

  /** Every load entry points back to the latest earlier success of its artifact. */
  ghost predicate BackPointers(ledger: seq<Entry>) {
    forall i | 0 <= i < |ledger| && ledger[i].operation == "load" ::
      PointsBack(ledger[i], LastSuccess(ledger[..i], ledger[i].artifactName))
  }

  lemma AppendKeepsPointers(ledger: seq<Entry>, e: Entry)
    requires BackPointers(ledger)
    requires e.operation == "load" ==> PointsBack(e, LastSuccess(ledger, e.artifactName))
    ensures BackPointers(ledger + [e])
  {
    var more := ledger + [e];
    forall i | 0 <= i < |more| && more[i].operation == "load"
      ensures PointsBack(more[i], LastSuccess(more[..i], more[i].artifactName))
    {
      assert more[..i] == if i < |ledger| then ledger[..i] else ledger;
    }
  }

  /** Only a successful load of an artifact changes which load was its last success. */
  lemma OnlySuccessCounts(ledger: seq<Entry>, e: Entry, name: string)
    ensures LastSuccess(ledger + [e], name) == if For(e, name) &&
      IsSuccess(e) then Some(e) else LastSuccess(ledger, name)
  {
    assert (ledger + [e])[..|ledger|] == ledger;
  }

  /** A successful load is the last success of its own artifact, and no other artifact's. */
  lemma OwnLoadIsLast(ledger: seq<Entry>, e: Entry, other: string)
    requires IsSuccess(e) && other != "" && other != e.artifactName
    ensures LastSuccess(ledger + [e], e.artifactName) == Some(e)
    ensures LastSuccess(ledger + [e], other) == LastSuccess(ledger, other)
  {
    OnlySuccessCounts(ledger, e, e.artifactName);
    OnlySuccessCounts(ledger, e, other);
  }

  /** The last successes after a ledger grew: `latest`, if any, for the names it is for, and no other change. */
  ghost predicate LastsBecome(before: seq<Entry>, after: seq<Entry>, latest: Option<Entry>) {
    forall name ::
      LastSuccess(after, name) ==
      (if latest.Some? && For(latest.value, name) then latest else LastSuccess(before, name))
  }

  lemma LoadBecomesLast(ledger: seq<Entry>, e: Entry)
    ensures LastsBecome(ledger, ledger + [e], if IsSuccess(e) then Some(e) else None)
  {
    forall name
      ensures LastSuccess(ledger + [e], name) == (if IsSuccess(e) && For(e, name) then Some(e)
                                                  else LastSuccess(ledger, name))
    {
      OnlySuccessCounts(ledger, e, name);
    }
  }

  // ---- Rollback ----

  /** The loaded version of an artifact and the one a rollback would load. */
  function Pair(ledger: seq<Entry>, name: string): Option<(string, string)> {
    match LastSuccess(ledger, name)
    case None => None
    case Some(e) => Some((e.version, e.previousVersion))
  }

  /**
   The entries a rollback command appends: a drill record if asked for, then what the apply it ran wrote, if anything.
   */
  ghost predicate RollbackAppends(before: seq<Entry>, after: seq<Entry>, record: bool, written: Option<Entry>) {
    exists drill: Entry :: drill.operation == "rollback_drill" &&
      var recorded := if record then before + [drill] else before;
      match written
      case None => after == recorded
      case Some(e) => after == recorded + [e] && (e.operation == "load" ==>
        PointsBack(e, LastSuccess(recorded, e.artifactName)))
  }

  lemma RollbackAppendsIntro(before: seq<Entry>, after: seq<Entry>, drill: Entry, record: bool, written: Option<Entry>)
    requires drill.operation == "rollback_drill"
    requires var recorded := if record then before + [drill] else before;
      match written
      case None => after == recorded
      case Some(e) => after == recorded + [e] && PointsBack(e, LastSuccess(recorded, e.artifactName))
    ensures RollbackAppends(before, after, record, written)
  {
  }

  /** The rollback loaded the version it planned. */
  predicate LoadedPlanned(before: seq<Entry>, name: string, written: Option<Entry>) {
    && Pair(before, name).Some? && written.Some?
    && IsSuccess(written.value) && written.value.artifactName == name
    && written.value.version == Pair(before, name).value.1
  }

  /**
   A rollback that loads the planned version swaps current and previous; one that loads nothing for this artifact leaves
   both.
   */
  lemma RollbackSwaps(before: seq<Entry>, after: seq<Entry>, record: bool, written: Option<Entry>, name: string)
    requires name != "" && RollbackAppends(before, after, record, written)
    ensures LoadedPlanned(before, name, written) ==>
      Pair(after, name) == Some((Pair(before, name).value.1, Pair(before, name).value.0))
    ensures (written.None? || !IsSuccess(written.value) || written.value.artifactName != name) ==>
      Pair(after, name) == Pair(before, name)
  {
    var drill: Entry :| drill.operation == "rollback_drill" &&
      var recorded := if record then before + [drill] else before;
      match written
      case None => after == recorded
      case Some(e) => after == recorded + [e] && (e.operation == "load" ==>
        PointsBack(e, LastSuccess(recorded, e.artifactName)));
    OnlySuccessCounts(before, drill, name);
    var recorded := if record then before + [drill] else before;
    assert LastSuccess(recorded, name) == LastSuccess(before, name);
    if written.Some? { OnlySuccessCounts(recorded, written.value, name); }
  }

  /** A chain of ledgers, each from the one before by a rollback that loaded the planned version. */
  ghost predicate RollbackChain(ledgers: seq<seq<Entry>>, name: string) {
    && |ledgers| > 0 && Pair(ledgers[0], name).Some?
    && forall i | 0 <= i < |ledgers| - 1 :: RollbackStep(ledgers[i], ledgers[i + 1], name)
  }

  ghost predicate RollbackStep(before: seq<Entry>, after: seq<Entry>, name: string) {
    exists record: bool, written: Option<Entry> ::
      RollbackAppends(before, after, record, written) && LoadedPlanned(before, name, written)
  }

  lemma StepSwaps(before: seq<Entry>, after: seq<Entry>, name: string)
    requires name != "" && RollbackStep(before, after, name)
    ensures Pair(before, name).Some? &&
      Pair(after, name) == Some((Pair(before, name).value.1, Pair(before, name).value.0))
  {
    var record: bool, written: Option<Entry> :| RollbackAppends(before, after, record, written) &&
      LoadedPlanned(before, name, written);
    RollbackSwaps(before, after, record, written, name);
  }

  lemma ChainShorter(ledgers: seq<seq<Entry>>, name: string)
    requires RollbackChain(ledgers, name) && |ledgers| > 1
    ensures RollbackChain(ledgers[..|ledgers| - 1], name)
  {
    var init := ledgers[..|ledgers| - 1];
    forall i | 0 <= i < |init| - 1
      ensures RollbackStep(init[i], init[i + 1], name)
    {
      assert RollbackStep(ledgers[i], ledgers[i + 1], name);
    }
  }

  /** After n rollbacks the pair is the original one for even n and its swap for odd n. */
  lemma {:induction false} RollbackParity(ledgers: seq<seq<Entry>>, name: string)
    requires name != "" && RollbackChain(ledgers, name)
    ensures var (a, b) := Pair(ledgers[0], name).value; var n := |ledgers| - 1;
      Pair(ledgers[n], name) == Some(if n % 2 == 0 then (a, b) else (b, a))
  {
    var n := |ledgers| - 1;
    if n > 0 {
      ChainShorter(ledgers, name);
      RollbackParity(ledgers[..n], name);
      assert RollbackStep(ledgers[n - 1], ledgers[n - 1 + 1], name);
      StepSwaps(ledgers[n - 1], ledgers[n], name);
    }
  }

  /** n rollbacks return to the original pair exactly when n is even or the two versions are equal. */
  lemma RollbackReturns(ledgers: seq<seq<Entry>>, name: string)
    requires name != "" && RollbackChain(ledgers, name)
    ensures var (a, b) := Pair(ledgers[0], name).value; var n := |ledgers| - 1;
      Pair(ledgers[n], name) == Pair(ledgers[0], name) <==> n % 2 == 0 || a == b
  {
    RollbackParity(ledgers, name);
  }
}
