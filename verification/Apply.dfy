/**
 `agent apply`: the gates before a host load, the ledger entry each path
 writes, and the result file the status summary is derived from.
 */
module Apply {
  import opened Text
  import opened Ledger
  import opened LoadPolicy
  import opened PolicyDecision

  datatype Selected = Selected(name: string, version: string, sha: string)

  /** The plan's decision, as far as apply uses it. */
  datatype Plan = Plan(
    schemaVersion: string,
    decisionId: string,
    agentId: string,
    artifactName: string,
    selected: Selected,
    loadApproved: bool)

  datatype FetchResult = FetchResult(
    schemaVersion: string,
    artifactName: string,
    artifactVersion: string,
    outputPath: string,
    expectedSha: string,
    actualSha: string)

  /** The command line. */
  datatype Options = Options(
    artifactName: string,
    version: string,
    outPath: string,
    approveLoad: bool,
    manifestPath: string,
    policyPath: string,
    requirePolicy: bool,
    expectedDecisionId: string,
    expectedSha: string,
    requirePins: bool,
    requireManifest: bool)

  datatype Attempt<T> = Ok(value: T) | Failed(error: string)

  /**
   What the world outside apply answers: planning (for an artifact name and a requested version, empty for any),
   fetching, files, the policy's context, the executor, audit and ledger storage.
   */
  datatype World = World(
    timeoutOk: bool,
    planFor: (string, string) -> Attempt<Plan>,
    remote: bool,
    recordManifestPath: string,
    fetch: Attempt<FetchResult>,
    manifest: Attempt<seq<Program>>,
    policy: Attempt<Policy>,
    policyManifest: Attempt<seq<Program>>,
    context: Context,
    glob: Glob,
    execution: Attempt<string>,
    audit: Attempt<string>,
    ledgerRead: Attempt<()>,
    ledgerWrite: Attempt<()>,
    ledgerClose: Attempt<()>,
    fileOk: bool,
    stdoutOk: bool)

  datatype Pins = Pins(required: bool, expectedDecisionId: string, expectedSha: string, verified: bool)

  datatype ManifestIntent = ManifestIntent(required: bool, path: string, programs: nat, valid: bool)

  /** The result file. */
  datatype Result = Result(
    phase: string,
    error: string,
    plan: Option<Plan>,
    fetch: Option<FetchResult>,
    pins: Option<Pins>,
    manifest: Option<ManifestIntent>,
    policy: Option<Decision>,
    ledgerEntry: Option<Entry>,
    ledgerError: string,
    execution: Option<string>,
    loadSkipped: string,
    audit: Option<string>,
    auditError: string)

  datatype Exit = Success | ToolError | CompatibilityFailure

  /** What planning answers to the command line. */
  function PlanOf(o: Options, w: World): Attempt<Plan> {
    if Blank(o.artifactName) then Failed("--artifact-name is required")
    else w.planFor(TrimSpace(o.artifactName), TrimSpace(o.version))
  }

  /** A selector that is asked for a version selects that version of that artifact, or nothing. */
  ghost predicate Honours(w: World) {
    forall name, version ::
      var answer := w.planFor(name, version);
      answer.Ok? && version != "" ==> answer.value.selected.name == name && answer.value.selected.version == version
  }

  function FirstNonEmpty(values: seq<string>): string {
    if values == [] then "" else if !Blank(values[0]) then TrimSpace(values[0]) else FirstNonEmpty(values[1..])
  }

  // ---- The gates ----

  predicate IsHexSha(s: string) {
    |s| == 64 && forall i | 0 <= i < |s| :: '0' <= s[i] <= '9' || 'a' <= s[i] <= 'f' || 'A' <= s[i] <= 'F'
  }

  /** The approval pins hold: present when required, and matching the reviewed decision and artifact when given. */
  predicate PinsHold(o: Options, plan: Plan, fetch: FetchResult) {
    var id := TrimSpace(o.expectedDecisionId);
    var sha := ToLower(TrimSpace(o.expectedSha));
    var actual := ToLower(FirstNonEmpty([plan.selected.sha, fetch.expectedSha, fetch.actualSha]));
    && (o.requirePins ==> id != "" && sha != "")
    && (id != "" ==> id == TrimSpace(plan.decisionId))
    && (sha != "" ==> IsHexSha(sha) && actual != "" && actual == sha)
  }

  function ManifestToUse(o: Options, w: World): string {
    if TrimSpace(o.manifestPath) == "" && !w.remote then TrimSpace(w.recordManifestPath) else TrimSpace(o.manifestPath)
  }

  /** The manifest, if one is used, loads and declares a program; one is used when it is required. */
  predicate ManifestHolds(o: Options, w: World) {
    if ManifestToUse(o, w) == "" then !o.requireManifest
    else w.manifest.Ok? && w.manifest.value != []
  }

  /**
   The local policy allows: absent and not required, or loaded, valid, with its manifest context, and deciding "allow".
   */
  predicate PolicyAllows(o: Options, w: World) {
    if Blank(o.policyPath) then !o.requirePolicy
    else
      && w.policy.Ok? && Valid(w.policy.value)
      && (ManifestToUse(o, w) != "" ==> w.policyManifest.Ok?)
      && Evaluate(Normalize(w.policy.value).0, PolicyContext(o, w), w.glob).allowed
  }

  function PolicyContext(o: Options, w: World): Context {
    w.context.(programs := if ManifestToUse(o, w) == "" then None
                           else match w.policyManifest
                             case Ok(programs) => Some(programs)
                             case Failed(_) => None)
  }

  predicate GatesPass(o: Options, w: World, plan: Plan, fetch: FetchResult) {
    PinsHold(o, plan, fetch) && ManifestHolds(o, w) && PolicyAllows(o, w)
  }

  // ---- The status summary ----

  predicate FetchGood(f: FetchResult) {
    f.schemaVersion != "" && !Blank(f.actualSha) && (Blank(f.expectedSha) || f.actualSha == f.expectedSha)
  }

  predicate LoadGood(r: Result) {
    match r.execution
    case Some(status) => TrimSpace(status) in {"pass", "success", "skipped"}
    case None => !Blank(r.loadSkipped)
  }

  /**
   A result with no error anywhere: fetch and load good, audit persisted, policy not denying, ledger without error.
   */
  predicate Healthy(r: Result) {
    && Blank(r.error)
    && r.fetch.Some? && FetchGood(r.fetch.value)
    && LoadGood(r)
    && r.audit.Some?
    && (r.policy.Some? ==> r.policy.value.allowed)
    && Blank(r.ledgerError)
  }

  /** Stands for the reason text of a denial, which is never empty. */
  const DENIED := "denied by local load policy"

  datatype Summary = Summary(
    healthy: bool,
    lastError: string,
    lastErrorPhase: string,
    fetchStatus: string,
    loadStatus: string,
    auditStatus: string,
    policyStatus: string)

  /** A file that has neither a decision, a fetch nor an error is not an apply result. */
  predicate LooksLikeResult(r: Result) {
    (r.plan.Some? && r.plan.value.schemaVersion != "") || (r.fetch.Some? && r.fetch.value.schemaVersion != "") ||
      r.error != ""
  }

  const BAD_FETCH := "fetched artifact hash is missing or mismatched"

  /** What can be wrong with a result, with the phase each is shown under. */
  datatype Problem = Problem(text: string, phase: string)

  function OwnProblem(r: Result): seq<Problem> {
    if Blank(r.error) then [] else [Problem(TrimSpace(r.error), TrimSpace(r.phase))]
  }

  function PolicyProblem(r: Result): seq<Problem> {
    if r.policy.Some? && !r.policy.value.allowed then [Problem(DENIED, "load_policy")] else []
  }

  function LedgerProblem(r: Result): seq<Problem> {
    if Blank(r.ledgerError) then [] else [Problem(r.ledgerError, "load_ledger")]
  }

  function FetchProblem(r: Result): seq<Problem> {
    if FetchReported(r) && !FetchGood(r.fetch.value) then [Problem(BAD_FETCH, "fetch")] else []
  }

  function AuditProblem(r: Result): seq<Problem> {
    if r.audit.None? && !Blank(r.auditError) then [Problem(r.auditError, "audit")] else []
  }

  predicate FetchReported(r: Result) {
    r.fetch.Some? && r.fetch.value.schemaVersion != ""
  }

  /** All of them, in the order in which they are looked for. */
  function Problems(r: Result): seq<Problem> {
    OwnProblem(r) + PolicyProblem(r) + LedgerProblem(r) + FetchProblem(r) + AuditProblem(r)
  }

  /** The first problem found is the one shown; with none, the phase stays as it was. */
  predicate Shows(found: seq<Problem>, shown: Problem, start: string) {
    shown == if found == [] then Problem("", start) else found[0]
  }

  /** A problem found later is shown only when nothing was found before it. */
  method Note(shown: Problem, more: seq<Problem>, ghost found: seq<Problem>, ghost start: string) returns (r: Problem)
    requires Shows(found, shown, start) && |more| <= 1
    requires forall p | p in found + more :: p.text != ""
    ensures Shows(found + more, r, start)
    ensures r.text == "" <==> found + more == []
  {
    r := if more != [] && shown.text == "" then more[0] else shown;
  }

  lemma ProblemsSay(r: Result)
    ensures forall p | p in Problems(r) :: p.text != ""
    ensures Problems(r) == [] ==> Blank(r.error) && Blank(r.ledgerError)
    ensures Healthy(r) ==> Problems(r) == []
  {
  }

  function PolicyStatusOf(r: Result): string {
    match r.policy
    case None => ""
    case Some(d) => if d.allowed then "allow" else "deny"
  }

  function LoadStatusOf(r: Result): string {
    match r.execution
    case Some(status) => if Blank(status) then "unknown" else TrimSpace(status)
    case None => if Blank(r.loadSkipped) then "unknown" else "skipped"
  }

  function AuditStatusOf(r: Result): string {
    if r.audit.Some? then "success" else if Blank(r.auditError) then "missing" else "error"
  }

  /** A fetch that is not reported counts as failed when there is an error to show by then. */
  function FetchStatusOf(r: Result): string {
    if FetchReported(r) then (if FetchGood(r.fetch.value) then "success" else "error")
    else if OwnProblem(r) + PolicyProblem(r) + LedgerProblem(r) == [] then "missing" else "error"
  }

  /** What the statuses of a summary mean. */
  lemma StatusesSay(r: Result)
    ensures FetchStatusOf(r) in {"success", "error", "missing"}
    ensures FetchStatusOf(r) == "success" <==>
      && FetchReported(r) && !Blank(r.fetch.value.actualSha)
      && (r.fetch.value.actualSha == r.fetch.value.expectedSha || Blank(r.fetch.value.expectedSha))
    ensures FetchStatusOf(r) == "missing" <==>
      !FetchReported(r) && Blank(r.error) && Blank(r.ledgerError) && (r.policy.Some? ==> r.policy.value.allowed)
    ensures r.execution.Some? && !Blank(r.execution.value) ==> LoadStatusOf(r) == TrimSpace(r.execution.value)
    ensures r.execution.None? && !Blank(r.loadSkipped) ==> LoadStatusOf(r) == "skipped"
    ensures (r.execution.Some? && Blank(r.execution.value)) || (r.execution.None? && Blank(r.loadSkipped)) ==>
      LoadStatusOf(r) == "unknown"
    ensures AuditStatusOf(r) == "success" <==> r.audit.Some?
    ensures AuditStatusOf(r) == "error" <==> r.audit.None? && !Blank(r.auditError)
    ensures AuditStatusOf(r) in {"success", "error", "missing"}
    ensures PolicyStatusOf(r) == if r.policy.None? then "" else if r.policy.value.allowed then "allow" else "deny"
  {
  }

  /** Derives the summary step by step; later problems are only shown when nothing earlier was found. */
  method Summarize(r: Result) returns (s: Option<Summary>)
    ensures s.None? <==>
      (r.plan.Some? ==> r.plan.value.schemaVersion == "") && !FetchReported(r) && r.error == ""
    ensures s.Some? ==> (s.value.healthy <==> Healthy(r))
    ensures s.Some? ==>
      Problem(s.value.lastError, s.value.lastErrorPhase) ==
      if Problems(r) == [] then Problem("", TrimSpace(r.phase)) else Problems(r)[0]
    ensures s.Some? ==>
      && s.value.fetchStatus == FetchStatusOf(r) && s.value.loadStatus == LoadStatusOf(r)
      && s.value.auditStatus == AuditStatusOf(r) && s.value.policyStatus == PolicyStatusOf(r)
  {
    if !LooksLikeResult(r) { return None; }
    ProblemsSay(r);
    var shown := Problem(TrimSpace(r.error), TrimSpace(r.phase));
    ghost var start, found := shown.phase, OwnProblem(r);
    shown := Note(shown, PolicyProblem(r), found, start);
    found := found + PolicyProblem(r);
    shown := Note(shown, LedgerProblem(r), found, start);
    found := found + LedgerProblem(r);
    var fetchStatus := FetchStatus(r, shown);
    shown := Note(shown, FetchProblem(r), found, start);
    found := found + FetchProblem(r);
    shown := Note(shown, AuditProblem(r), found, start);
    var healthy := IsHealthy(r, shown, fetchStatus);
    s := Some(Summary(healthy, shown.text, shown.phase, fetchStatus, LoadStatusOf(r), AuditStatusOf(r),
                      PolicyStatusOf(r)));
  }

  method FetchStatus(r: Result, shown: Problem) returns (status: string)
    requires shown.text == "" <==> OwnProblem(r) + PolicyProblem(r) + LedgerProblem(r) == []
    ensures status == FetchStatusOf(r)
  {
    if r.fetch.Some? && r.fetch.value.schemaVersion != "" {
      status := if FetchGood(r.fetch.value) then "success" else "error";
    } else {
      status := if shown.text != "" then "error" else "missing";
    }
  }

  method IsHealthy(r: Result, shown: Problem, fetchStatus: string) returns (healthy: bool)
    requires shown.text == "" <==> Problems(r) == []
    requires fetchStatus == FetchStatusOf(r)
    ensures healthy <==> Healthy(r)
  {
    ProblemsSay(r);
    var load, policy := LoadStatusOf(r), PolicyStatusOf(r);
    healthy := shown.text == "" && fetchStatus == "success"
      && (load == "skipped" || load == "pass" || load == "success")
      && AuditStatusOf(r) == "success" && (policy == "" || policy == "allow") && Blank(r.ledgerError);
  }

  // ---- The agent ----

  /** What must be true of a load that succeeded. */
  predicate Gated(e: Entry) {
    && e.loadApproved
    && e.policyAction == "allow"
    && (e.pinsRequired ==> e.pinsVerified)
    && (e.manifestRequired ==> e.manifestVerified)
  }

  /** The pins block of the result; absent when nothing is pinned or required. */
  function BuildPins(o: Options, verified: bool): Option<Pins> {
    var id, sha := TrimSpace(o.expectedDecisionId), ToLower(TrimSpace(o.expectedSha));
    if !o.requirePins && id == "" && sha == "" then None else Some(Pins(o.requirePins, id, sha, verified))
  }

  /** The pins block is there when something is pinned or pins are required, with what was given, trimmed. */
  lemma PinsBlock(o: Options, verified: bool)
    ensures BuildPins(o, verified).None? <==>
      !o.requirePins && Blank(o.expectedDecisionId) && Blank(o.expectedSha)
    ensures BuildPins(o, verified).Some? ==>
      BuildPins(o, verified).value ==
      Pins(o.requirePins, TrimSpace(o.expectedDecisionId), ToLower(TrimSpace(o.expectedSha)), verified)
  {
    assert |ToLower(TrimSpace(o.expectedSha))| == |TrimSpace(o.expectedSha)|;
  }

  function EmptyResult(): Result {
    Result("", "", None, None, None, None, None, None, "", None, "", None, "")
  }

  /** The ledger entry of a result, before its previous fields are filled in. */
  function EntryOf(r: Result, status: string, errText: string): Entry
    requires r.plan.Some? && r.fetch.Some?
  {
    var plan, fetch := r.plan.value, r.fetch.value;
    var clean := TrimSpace(status);
    Entry(
      "load",
      if clean == "" then "unknown" else clean,
      FirstNonEmpty([plan.selected.name, plan.artifactName, fetch.artifactName]),
      FirstNonEmpty([plan.selected.version, fetch.artifactVersion]),
      FirstNonEmpty([plan.selected.sha, fetch.expectedSha, fetch.actualSha]),
      fetch.outputPath,
      plan.loadApproved,
      r.pins.Some? && r.pins.value.required,
      r.pins.Some? && r.pins.value.verified,
      r.manifest.Some? && r.manifest.value.required,
      r.manifest.Some? && r.manifest.value.valid,
      if r.policy.Some? then r.policy.value.action else "",
      "", "", "",
      TrimSpace(errText))
  }

  /** An entry without its previous fields. */
  function Unlinked(e: Entry): Entry {
    e.(previousVersion := "", previousSha := "", previousPath := "")
  }

  lemma EntryShape(r: Result, status: string, errText: string)
    requires r.plan.Some? && r.fetch.Some?
    ensures var e := EntryOf(r, status, errText);
      e.operation == "load" && IsTrimmed(e.artifactName) && IsTrimmed(e.version) && Unlinked(e) == e
  {
    FirstNonEmptyTrimmed([r.plan.value.selected.version, r.fetch.value.artifactVersion]);
    FirstNonEmptyTrimmed([r.plan.value.selected.name, r.plan.value.artifactName, r.fetch.value.artifactName]);
  }

  lemma {:induction false} FirstNonEmptyTrimmed(values: seq<string>)
    ensures IsTrimmed(FirstNonEmpty(values))
  {
    if values != [] { FirstNonEmptyTrimmed(values[1..]); }
  }

  /** Statuses the summary takes for a good load. */
  predicate ReadsAsLoaded(status: string) {
    TrimSpace(status) in {"pass", "success", "skipped"}
  }

  /**
   An executed status on which the exit code and the summary agree: with everything written out, pass or success as
   they are or a failure; when standard output fails after the file is written, only a failure.
   */
  predicate StatusConsistent(status: string, written: bool) {
    if written then status in {"pass", "success"} || (status != "" && !ReadsAsLoaded(status))
    else !ReadsAsLoaded(status)
  }

  /** Neither reading, writing nor closing the ledger leaves an error in the result. */
  predicate LedgerSilent(w: World) {
    if w.ledgerRead.Failed? then Blank(w.ledgerRead.error)
    else if w.ledgerWrite.Failed? then Blank(w.ledgerWrite.error)
    else w.ledgerClose.Failed? ==> Blank(w.ledgerClose.error)
  }

  /** When the summary of an approved run's result and its exit code agree. */
  predicate ApprovedAgrees(w: World, executed: bool, written: bool) {
    executed && w.execution.Ok? && w.audit.Ok? && LedgerSilent(w) ==> StatusConsistent(w.execution.value, written)
  }

  /** The status the executor gives a load, from the validator's result file, if it could be read, and its exit code. */
  function ExecutorStatus(validator: Option<(string, string)>, exitCode: int): (status: string)
    ensures status in {"pass", "fail", "error"}
    ensures status == "pass" <==> validator == Some(("pass", "pass")) && exitCode == 0
  {
    if validator.None? then "error"
    else
      var (status, loadStatus) := validator.value;
      if status == "pass" && loadStatus == "pass" && exitCode == 0 then "pass"
      else if status == "fail" || loadStatus == "fail" || exitCode == 2 then "fail"
      else "error"
  }

  /** A load entry as apply writes it: linked to the previous success, and a success only behind the gates. */
  predicate EntryWritten(e: Entry, ledger: seq<Entry>, o: Options, executed: bool) {
    && e.operation == "load"
    && PointsBack(e, LastSuccess(ledger, e.artifactName))
    && (IsSuccess(e) ==>
      executed && Gated(e) && e.pinsRequired == o.requirePins && e.manifestRequired == o.requireManifest)
  }

  predicate TrimmedVersions(e: Entry) {
    IsTrimmed(e.version) && IsTrimmed(e.previousVersion)
  }

  /** The entry is about what was planned and fetched. */
  predicate EntryFor(e: Entry, plan: Plan, fetch: FetchResult) {
    && e.artifactName == FirstNonEmpty([plan.selected.name, plan.artifactName, fetch.artifactName])
    && e.version == FirstNonEmpty([plan.selected.version, fetch.artifactVersion])
    && e.sha == FirstNonEmpty([plan.selected.sha, fetch.expectedSha, fetch.actualSha])
    && e.path == fetch.outputPath
  }

  /** The host load succeeded: it was executed, and its status, if it has one, says so. */
  predicate Succeeded(w: World, executed: bool) {
    && executed && w.execution.Ok?
    && (w.execution.value == "" || TrimSpace(w.execution.value) in {"pass", "success"})
  }

  /** There is a previous version to go back to. */
  predicate CanRollBack(ledger: seq<Entry>, name: string) {
    LastSuccess(ledger, name).Some? && !Blank(LastSuccess(ledger, name).value.previousVersion)
  }

  /** The drill record of a plan: what is loaded, what was before it, and nothing of how the load was approved. */
  function DrillOf(current: Entry, name: string): Entry {
    var blocked := Blank(current.previousVersion);
    BareEntry("rollback_drill", if blocked then "blocked" else "ready", name).(
      version := current.version, sha := current.sha, path := current.path,
      previousVersion := current.previousVersion, previousSha := current.previousSha,
      previousPath := current.previousPath,
      error := if blocked then "current successful load has no previous successful version" else "")
  }

  /** A rollback can be planned: the artifact is named, the ledger can be read and has a success of it. */
  predicate Plannable(ledger: seq<Entry>, artifactName: string, w: World) {
    !Blank(artifactName) && w.ledgerRead.Ok? && LastSuccess(ledger, TrimSpace(artifactName)).Some?
  }

  // ---- The gates as the command runs them ----

  method ValidatePins(o: Options, plan: Plan, fetch: FetchResult) returns (err: Option<string>)
    ensures err.None? <==> PinsHold(o, plan, fetch)
  {
    var id, sha := TrimSpace(o.expectedDecisionId), ToLower(TrimSpace(o.expectedSha));
    if o.requirePins {
      if id == "" { return Some("--expected-decision-id is required"); }
      if sha == "" { return Some("--expected-sha256 is required"); }
    }
    if id != "" && id != TrimSpace(plan.decisionId) { return Some("decision id mismatch"); }
    if sha != "" {
      if !IsHexSha(sha) { return Some("expected sha256 must be 64 hex characters"); }
      var actual := ToLower(FirstNonEmpty([plan.selected.sha, fetch.expectedSha, fetch.actualSha]));
      if actual == "" { return Some("selected artifact sha256 is unavailable"); }
      if actual != sha { return Some("selected artifact sha256 mismatch"); }
    }
    err := None;
  }

  method BuildManifestIntent(o: Options, w: World) returns (intent: ManifestIntent, err: Option<string>)
    ensures intent.required == o.requireManifest
    ensures err.None? <==> ManifestHolds(o, w)
    ensures err.None? && o.requireManifest ==> intent.valid
    ensures intent.valid ==> err.None?
  {
    var path := ManifestToUse(o, w);
    intent, err := ManifestIntent(o.requireManifest, path, 0, false), None;
    if path == "" {
      if o.requireManifest { err := Some("--manifest is required"); }
      return;
    }
    match w.manifest
    case Failed(e) => err := Some(e);
    case Ok(programs) =>
      if programs == [] {
        err := Some("manifest must declare at least one program");
      } else {
        intent := intent.(programs := |programs|, valid := true);
      }
  }

  /** The decision, when the policy could be evaluated. */
  method EvaluateLocalPolicy(o: Options, w: World) returns (d: Attempt<Decision>)
    ensures d.Ok? && d.value.allowed <==> PolicyAllows(o, w)
    ensures d.Ok? && d.value.allowed ==> d.value.action == "allow"
  {
    if Blank(o.policyPath) {
      if o.requirePolicy { return Failed("--load-policy is required for --approve-load"); }
      return Ok(Decision(true, "policy_not_configured", "allow"));
    }
    if w.policy.Failed? { return Failed(w.policy.error); }
    var policy, valid := NormalizeAndValidate(w.policy.value);
    if !valid { return Failed("invalid agent load policy"); }
    if ManifestToUse(o, w) != "" && w.policyManifest.Failed? { return Failed(w.policyManifest.error); }
    d := Ok(Evaluate(policy, PolicyContext(o, w), w.glob));
  }

  /** How far a run of the gates fills in the result. */
  predicate GatesFill(r0: Result, r: Result) {
    && r0.plan.Some?
    && r == r0.(phase := r.phase, error := r.error, pins := r.pins, plan := r.plan, manifest := r.manifest,
      policy := r.policy)
    && r.plan.Some? && (r.plan == r0.plan || r.plan == Some(r0.plan.value.(loadApproved := true)))
  }

  /** A result whose gates all passed. */
  predicate Approved(r: Result, o: Options) {
    && r.plan.Some? && r.plan.value.loadApproved
    && (o.requirePins ==> r.pins.Some?)
    && (r.pins.Some? ==> r.pins.value.required == o.requirePins && r.pins.value.verified)
    && r.manifest.Some? && r.manifest.value.required == o.requireManifest
    && (o.requireManifest ==> r.manifest.value.valid)
    && r.policy.Some? && r.policy.value.allowed && r.policy.value.action == "allow"
    && r.error == ""
  }

  /** Pins, then manifest, then policy; the first that fails denies the load and names its phase. */
  method CheckGates(o: Options, w: World, r0: Result, plan: Plan, fetch: FetchResult) returns (r: Result, passed: bool)
    requires r0.plan == Some(plan) && r0.fetch == Some(fetch) && r0.error == "" && r0.policy.None?
    ensures passed <==> GatesPass(o, w, plan, fetch)
    ensures passed ==> Approved(r, o)
    ensures GatesFill(r0, r)
    ensures !passed ==>
      r.phase == if !PinsHold(o, plan, fetch) then "approval"
                 else if !ManifestHolds(o, w) then "manifest" else "load_policy"
  {
    r := r0.(pins := BuildPins(o, false));
    var pinErr := ValidatePins(o, plan, fetch);
    if pinErr.Some? {
      return r.(phase := "approval", error := "agent approval pinning failed: " + pinErr.value), false;
    }
    r := r.(pins := BuildPins(o, true), plan := Some(plan.(loadApproved := true)));
    var intent, manifestErr := BuildManifestIntent(o, w);
    r := r.(manifest := Some(intent));
    if manifestErr.Some? {
      return r.(phase := "manifest", error := "agent manifest intent failed: " + manifestErr.value), false;
    }
    var d := EvaluateLocalPolicy(o, w);
    match d {
      case Failed(e) =>
        return r.(phase := "load_policy", error := "agent local load policy failed: " + e), false;
      case Ok(decision) =>
        r := r.(policy := Some(decision));
        if !decision.allowed {
          return r.(phase := "load_policy", error := "agent local load policy denied: " + DENIED), false;
        }
        passed := true;
    }
  }

  /**
   The result of an approved run before it is persisted: denied, failed in the executor, or with the validator's status.
   */
  predicate Outcome(r: Result, status: string, o: Options, w: World, fetch: FetchResult, executed: bool) {
    && r.plan.Some? && r.fetch == Some(fetch) && r.loadSkipped == ""
    && r.execution == (if executed && w.execution.Ok? then Some(w.execution.value) else None)
    && (executed && w.execution.Ok? ==> Approved(r, o))
    && status == if !executed then "denied"
                 else if w.execution.Failed? then "error"
                 else if w.execution.value == "" then "pass" else w.execution.value
  }

  /** The result is about this plan, approved or not yet. */
  predicate SamePlan(r: Result, plan: Plan) {
    r.plan.Some? && r.plan.value.(loadApproved := plan.loadApproved) == plan
  }

  /** Runs the gates and, when they pass, the host executor. */
  method LoadOutcome(o: Options, w: World, plan: Plan, fetch: FetchResult)
    returns (r: Result, status: string, executed: bool)
    ensures executed <==> GatesPass(o, w, plan, fetch)
    ensures Outcome(r, status, o, w, fetch, executed) && SamePlan(r, plan)
  {
    r, executed := CheckGates(o, w, EmptyResult().(plan := Some(plan), fetch := Some(fetch)), plan, fetch);
    if !executed {
      status := "denied";
    } else {
      match w.execution {
        case Failed(e) =>
          r := r.(phase := "execute", error := e);
          status := "error";
        case Ok(s) =>
          r := r.(execution := Some(s));
          status := if s == "" then "pass" else s;
      }
    }
  }

  /** A load enters the ledger as a success exactly when the executor said so, and then every gate is on record. */
  lemma SuccessIsGated(r: Result, status: string, errText: string, o: Options, w: World, fetch: FetchResult,
      executed: bool)
    requires Outcome(r, status, o, w, fetch, executed)
    ensures var e := EntryOf(r, status, errText);
      && (IsSuccess(e) <==> Succeeded(w, executed))
      && (!executed ==> e.status == "denied") && (executed && w.execution.Failed? ==> e.status == "error")
      && (IsSuccess(e) ==> Gated(e) && e.pinsRequired == o.requirePins && e.manifestRequired == o.requireManifest)
  {
    assert IsTrimmed("denied") && IsTrimmed("error") && IsTrimmed("pass");
  }

  function ExitOf(executed: bool, w: World, ok: bool): Exit {
    if !executed || w.execution.Failed? || !ok then ToolError
    else if w.execution.value in {"", "pass", "success"} then Success
    else CompatibilityFailure
  }

  /** Whether the summary of a result and the exit code tell the same story. */
  predicate Agree(r: Result, exit: Exit, w: World) {
    Healthy(r) <==> exit == Success && w.audit.Ok? && Blank(r.ledgerError)
  }

  /**
   They agree exactly when the status is consistent with what was written out, unless audit or ledger already failed.
   */
  lemma AgreementExactly(
    r: Result, status: string, o: Options, w: World, fetch: FetchResult, executed: bool, r': Result, written: bool)
    requires Outcome(r, status, o, w, fetch, executed) && FetchGood(fetch)
    requires r' == r.(audit := r'.audit, auditError := r'.auditError, ledgerEntry := r'.ledgerEntry,
      ledgerError := r'.ledgerError)
    requires r'.audit.Some? <==> w.audit.Ok?
    requires Blank(r'.ledgerError) <==> LedgerSilent(w)
    ensures Agree(r', ExitOf(executed, w, written), w) <==> ApprovedAgrees(w, executed, written)
  {
    if executed && w.execution.Ok? {
      var s := w.execution.value;
      assert Blank("") && TrimSpace("pass") == "pass" && TrimSpace("success") == "success";
      assert Healthy(r') <==> ReadsAsLoaded(s) && w.audit.Ok? && LedgerSilent(w);
    }
  }

  /**
   For the statuses the executor returns they disagree in one case only: the load passed, audit and ledger are fine,
   and standard output fails after the result file was written.
   */
  lemma ExecutorAgreement(w: World, executed: bool, written: bool)
    requires w.execution.Ok? ==> w.execution.value in {"pass", "fail", "error"}
    ensures ApprovedAgrees(w, executed, written) <==>
      (executed && w.execution == Ok("pass") && w.audit.Ok? && LedgerSilent(w) ==> written)
  {
    assert IsTrimmed("pass") && IsTrimmed("fail") && IsTrimmed("error");
  }

  /** That case: the file says healthy, and apply exits with an error. */
  lemma HealthyFileFailedExit(r: Result, status: string, o: Options, w: World, fetch: FetchResult, r': Result)
    requires Outcome(r, status, o, w, fetch, true) && FetchGood(fetch)
    requires w.execution == Ok("pass") && w.audit.Ok?
    requires r' == r.(audit := r'.audit, auditError := r'.auditError, ledgerEntry := r'.ledgerEntry,
      ledgerError := r'.ledgerError)
    requires r'.audit.Some? && r'.ledgerError == ""
    ensures Healthy(r') && ExitOf(true, w, false) == ToolError && !Agree(r', ExitOf(true, w, false), w)
  {
    assert Blank("") && IsTrimmed("pass");
  }

  /**
   Of other trimmed statuses, which the executor never returns, exactly the empty one and "skipped" would disagree.
   */
  lemma DisagreeingStatuses(status: string)
    ensures IsTrimmed(status) ==> (StatusConsistent(status, true) <==> status != "" && status != "skipped")
    ensures !StatusConsistent("", true) && !StatusConsistent("skipped", true) && !StatusConsistent(" pass", true)
  {
    assert TrimRight(" pass") == " pass";
    assert TrimLeft(" pass") == "pass" by { assert " pass"[1..] == "pass"; }
    assert IsTrimmed("skipped");
  }

  class Agent {
    var ledger: seq<Entry>
    var file: Option<Result>

    ghost predicate Valid()
      reads this
    {
      BackPointers(ledger) && forall e | e in ledger :: (IsSuccess(e) ==> Gated(e)) && TrimmedVersions(e)
    }

    constructor ()
      ensures Valid() && ledger == [] && file == None
    {
      ledger, file := [], None;
    }

    /**
     Completes a load entry with the previous successful load of its artifact and appends it. An entry whose file
     cannot be closed is in the ledger all the same; the error says so.
     */
    method AppendLoad(entry: Entry, w: World) returns (written: Option<Entry>, error: string)
      requires Valid() && entry.operation == "load" && IsTrimmed(entry.artifactName) && IsTrimmed(entry.version)
      requires Unlinked(entry) == entry && (IsSuccess(entry) ==> Gated(entry))
      modifies this`ledger
      ensures Valid()
      ensures ledger == if written.Some? then old(ledger) + [written.value] else old(ledger)
      ensures written.Some? ==>
        PointsBack(written.value, LastSuccess(old(ledger), entry.artifactName)) && Unlinked(written.value) == entry
      ensures written.None? <==> w.ledgerRead.Failed? || w.ledgerWrite.Failed?
      ensures Blank(error) <==> LedgerSilent(w)
    {
      if w.ledgerRead.Failed? { return None, w.ledgerRead.error; }
      var last := LastSuccessfulLoad(ledger, entry.artifactName);
      var linked := WithPrevious(entry, last);
      ghost var k := LastSuccessIsLatest(ledger, entry.artifactName);
      assert TrimmedVersions(linked) by {
        assert k >= 0 ==> ledger[k] in ledger;
        assert IsTrimmed("");
      }
      if w.ledgerWrite.Failed? { return None, w.ledgerWrite.error; }
      AppendKeepsPointers(ledger, linked);
      ledger := ledger + [linked];
      written, error := Some(linked), if w.ledgerClose.Failed? then w.ledgerClose.error else "";
    }

    /** Persists the audit trace, then builds and appends the ledger entry. */
    method Persist(before: Result, w: World, entry: Entry) returns (r: Result, written: Option<Entry>)
      requires Valid() && entry.operation == "load" && IsTrimmed(entry.artifactName) && IsTrimmed(entry.version)
      requires Unlinked(entry) == entry && (IsSuccess(entry) ==> Gated(entry))
      modifies this`ledger
      ensures Valid()
      ensures ledger == if written.Some? then old(ledger) + [written.value] else old(ledger)
      ensures written.Some? ==>
        PointsBack(written.value, LastSuccess(old(ledger), entry.artifactName)) && Unlinked(written.value) == entry
      ensures written.None? <==> w.ledgerRead.Failed? || w.ledgerWrite.Failed?
      ensures r == before.(audit := r.audit, auditError := r.auditError, ledgerEntry := r.ledgerEntry,
        ledgerError := r.ledgerError)
      ensures r.ledgerEntry == if w.ledgerClose.Ok? then written else None
      ensures r.audit.Some? <==> w.audit.Ok?
      ensures Blank(r.ledgerError) <==> LedgerSilent(w)
    {
      r := before;
      match w.audit {
        case Ok(path) => r := r.(audit := Some(path), auditError := "");
        case Failed(e) => r := r.(audit := None, auditError := e);
      }
      var error;
      written, error := AppendLoad(entry, w);
      r := r.(ledgerEntry := if w.ledgerClose.Ok? then written else None, ledgerError := error);
    }

    /** Records an approved run: a success only behind the gates, about what was planned and fetched. */
    method PersistOutcome(r: Result, status: string, o: Options, w: World, plan: Plan, fetch: FetchResult,
        executed: bool)
      returns (final: Result, written: Option<Entry>)
      requires Valid() && Outcome(r, status, o, w, fetch, executed) && SamePlan(r, plan)
      modifies this`ledger
      ensures Valid()
      ensures ledger == if written.Some? then old(ledger) + [written.value] else old(ledger)
      ensures written.Some? ==>
        EntryWritten(written.value, old(ledger), o, executed) && EntryFor(written.value, plan, fetch)
      ensures written.Some? ==> (IsSuccess(written.value) <==> Succeeded(w, executed))
      ensures written.Some? && !executed ==> written.value.status == "denied"
      ensures written.Some? && executed && w.execution.Failed? ==> written.value.status == "error"
      ensures written.None? <==> w.ledgerRead.Failed? || w.ledgerWrite.Failed?
      ensures final == r.(audit := final.audit, auditError := final.auditError, ledgerEntry := final.ledgerEntry,
        ledgerError := final.ledgerError)
      ensures final.audit.Some? <==> w.audit.Ok?
      ensures Blank(final.ledgerError) <==> LedgerSilent(w)
    {
      var entry := EntryOf(r, status, r.error);
      EntryShape(r, status, r.error);
      SuccessIsGated(r, status, r.error, o, w, fetch, executed);
      final, written := Persist(r, w, entry);
    }

    /** Writes the result file, when a path was given, and then standard output. */
    method WriteResult(o: Options, w: World, r: Result) returns (ok: bool, stored: Option<Result>)
      modifies this`file
      ensures stored == if !Blank(o.outPath) && w.fileOk then Some(r) else None
      ensures file == if stored.Some? then stored else old(file)
      ensures ok <==> (Blank(o.outPath) || w.fileOk) && w.stdoutOk
    {
      stored := None;
      if !Blank(o.outPath) {
        if !w.fileOk { return false, None; }
        file, stored := Some(r), Some(r);
      }
      ok := w.stdoutOk;
    }

    /** An approved run: gates, executor, audit trace, ledger entry, result file. */
    method ApplyApproved(o: Options, w: World, plan: Plan, fetch: FetchResult)
      returns (exit: Exit, executed: bool, written: Option<Entry>, stored: Option<Result>)
      requires Valid()
      modifies this
      ensures Valid()
      ensures executed <==> GatesPass(o, w, plan, fetch)
      ensures ledger == if written.Some? then old(ledger) + [written.value] else old(ledger)
      ensures written.Some? ==> EntryWritten(written.value, old(ledger), o, executed)
      ensures written.None? <==> w.ledgerRead.Failed? || w.ledgerWrite.Failed?
      ensures exit == ExitOf(executed, w, (Blank(o.outPath) || w.fileOk) && w.stdoutOk)
      ensures stored.Some? <==> !Blank(o.outPath) && w.fileOk
      ensures file == if stored.Some? then stored else old(file)
      ensures written.Some? ==> EntryFor(written.value, plan, fetch)
      ensures written.Some? ==> (IsSuccess(written.value) <==> Succeeded(w, executed))
      ensures stored.Some? && FetchGood(fetch) ==>
        (Agree(stored.value, exit, w) <==> ApprovedAgrees(w, executed, w.stdoutOk))
    {
      var r, status;
      r, status, executed := LoadOutcome(o, w, plan, fetch);
      var final;
      final, written := PersistOutcome(r, status, o, w, plan, fetch, executed);
      var ok;
      ok, stored := WriteResult(o, w, final);
      exit := ExitOf(executed, w, ok);
      if FetchGood(fetch) { AgreementExactly(r, status, o, w, fetch, executed, final, ok); }
    }

    /**
     Plans, fetches, and on approval runs the gates and the host executor. Every
     approved path writes a ledger entry; `stored` is the result file written.
     */
    method ApplyCommand(o: Options, w: World)
      returns (exit: Exit, executed: bool, written: Option<Entry>, stored: Option<Result>)
      requires Valid()
      modifies this
      ensures Valid()
      // the executor is reached exactly when the load is approved and every gate passes
      ensures executed <==>
        o.approveLoad && w.timeoutOk && PlanOf(o, w).Ok? && w.fetch.Ok? &&
          GatesPass(o, w, PlanOf(o, w).value, w.fetch.value)
      ensures Blank(o.artifactName) ==> !executed && written.None? && exit == ToolError
      // the ledger only grows, by at most one load entry
      ensures ledger == if written.Some? then old(ledger) + [written.value] else old(ledger)
      ensures written.Some? ==> EntryWritten(written.value, old(ledger), o, executed)
      ensures written.Some? ==>
        PlanOf(o, w).Ok? && w.fetch.Ok? && EntryFor(written.value, PlanOf(o, w).value, w.fetch.value)
      // a load that succeeded becomes the last success of its artifact; anything else leaves every last success
      ensures written.Some? ==> (IsSuccess(written.value) <==> Succeeded(w, executed))
      ensures LastsBecome(old(ledger), ledger, if Succeeded(w, executed) then written else None)
      ensures written.Some? <==>
        o.approveLoad && w.timeoutOk && PlanOf(o, w).Ok? && w.fetch.Ok? && w.ledgerRead.Ok? && w.ledgerWrite.Ok?
      // success means that what was asked for was done, and its result was written out
      ensures exit == Success && o.approveLoad ==>
        executed && w.execution.Ok? && w.execution.value in {"", "pass", "success"}
      ensures exit == Success ==> (Blank(o.outPath) || (w.fileOk && stored.Some?)) && w.stdoutOk
      // exactly when the summary of the result file and the exit code agree
      ensures stored.Some? <==> !Blank(o.outPath) && w.fileOk
      ensures file == if stored.Some? then stored else old(file)
      ensures stored.Some? && w.fetch.Ok? && FetchGood(w.fetch.value) ==>
        (Agree(stored.value, exit, w) <==>
          if !w.timeoutOk || PlanOf(o, w).Failed? then true
          else if o.approveLoad then ApprovedAgrees(w, executed, w.stdoutOk)
          else w.audit.Ok? ==> w.stdoutOk)
    {
      exit, executed, written, stored := ToolError, false, None, None;
      if !w.timeoutOk {
        stored := WriteFailure(o, w, "parse_timeout", "invalid timeout");
        return;
      }
      var plan := PlanOf(o, w);
      if plan.Failed? {
        stored := WriteFailure(o, w, "plan", plan.error);
        return;
      }
      if w.fetch.Failed? {
        stored := WriteFailure(o, w, "fetch", w.fetch.error);
        return;
      }
      if o.approveLoad {
        exit, executed, written, stored := ApplyApproved(o, w, plan.value, w.fetch.value);
        if written.Some? { LoadBecomesLast(old(ledger), written.value); }
      } else {
        exit, stored := ApplyFetchOnly(o, w, plan.value, w.fetch.value);
      }
    }

    /** Without approval nothing is loaded and the ledger is not touched. */
    method ApplyFetchOnly(o: Options, w: World, plan: Plan, fetch: FetchResult)
      returns (exit: Exit, stored: Option<Result>)
      modifies this`file
      ensures file == if stored.Some? then stored else old(file)
      ensures exit == if (Blank(o.outPath) || w.fileOk) && w.stdoutOk then Success else ToolError
      ensures stored.Some? <==> !Blank(o.outPath) && w.fileOk
      ensures stored.Some? && FetchGood(fetch) ==> (Agree(stored.value, exit, w) <==> (w.audit.Ok? ==> w.stdoutOk))
    {
      var r := EmptyResult().(plan := Some(plan), fetch := Some(fetch),
        loadSkipped := "host load requires --approve-load");
      match w.audit {
        case Ok(path) => r := r.(audit := Some(path));
        case Failed(e) => r := r.(auditError := e);
      }
      assert Blank("") && !Blank("host load requires --approve-load") by {
        assert IsTrimmed("host load requires --approve-load");
      }
      var ok;
      ok, stored := WriteResult(o, w, r);
      exit := if ok then Success else ToolError;
    }

    method WriteFailure(o: Options, w: World, phase: string, error: string) returns (stored: Option<Result>)
      modifies this`file
      ensures stored ==
        if !Blank(o.outPath) && w.fileOk then Some(EmptyResult().(phase := phase, error := error)) else None
      ensures stored.Some? ==> !Healthy(stored.value)
      ensures file == if stored.Some? then stored else old(file)
    {
      if Blank(o.outPath) { return None; }
      var ok;
      ok, stored := WriteResult(o, w, EmptyResult().(phase := phase, error := error));
    }

    /**
     Rollback, unload and revocation drills append records that are not loads; `kept` says whether the record is in the
     ledger, `ok` whether its file could be closed as well.
     */
    method RecordDrill(entry: Entry, w: World) returns (ok: bool, kept: bool)
      requires Valid() && entry.operation in {"rollback_drill", "unload", "revocation_drill"} && TrimmedVersions(entry)
      modifies this`ledger
      ensures Valid()
      ensures kept == w.ledgerWrite.Ok? && ok == (kept && w.ledgerClose.Ok?)
      ensures ledger == if kept then old(ledger) + [entry] else old(ledger)
      ensures forall name :: LastSuccess(ledger, name) == LastSuccess(old(ledger), name)
    {
      if w.ledgerWrite.Failed? { return false, false; }
      AppendKeepsPointers(ledger, entry);
      forall name ensures LastSuccess(ledger + [entry], name) == LastSuccess(ledger, name) {
        OnlySuccessCounts(ledger, entry, name);
      }
      ledger := ledger + [entry];
      ok, kept := w.ledgerClose.Ok?, true;
    }

    /** Plans a rollback to the version recorded as previous and records the drill if asked to. */
    method PlanRollback(artifactName: string, record: bool, w: World)
      returns (plan: Option<Option<string>>, recorded: bool, drill: Entry)
      requires Valid()
      modifies this`ledger
      ensures Valid() && drill.operation == "rollback_drill"
      ensures ledger == if recorded then old(ledger) + [drill] else old(ledger)
      ensures Plannable(old(ledger), artifactName, w) ==>
        && drill == DrillOf(LastSuccess(old(ledger), TrimSpace(artifactName)).value, TrimSpace(artifactName))
        && drill.artifactName == TrimSpace(artifactName)
        && drill.status == if CanRollBack(old(ledger), TrimSpace(artifactName)) then "ready" else "blocked"
      ensures recorded <==> record && w.ledgerWrite.Ok? && Plannable(old(ledger), artifactName, w)
      ensures plan.Some? <==>
        Plannable(old(ledger), artifactName, w) && (record ==> w.ledgerWrite.Ok? && w.ledgerClose.Ok?)
      ensures plan.Some? ==> (plan.value.Some? <==> CanRollBack(old(ledger), TrimSpace(artifactName)))
      ensures plan.Some? && plan.value.Some? ==>
        IsTrimmed(plan.value.value) && plan.value.value == Pair(old(ledger), TrimSpace(artifactName)).value.1
    {
      drill := BareEntry("rollback_drill", "", "");
      plan, recorded := None, false;
      if Blank(artifactName) || w.ledgerRead.Failed? { return; }
      var current := LastSuccessfulLoad(ledger, artifactName);
      if current.None? { return; }
      ghost var k := LastSuccessIsLatest(ledger, TrimSpace(artifactName));
      assert ledger[k] in ledger;
      var previous := current.value.previousVersion;
      drill := DrillOf(current.value, TrimSpace(artifactName));
      if record {
        var ok;
        ok, recorded := RecordDrill(drill, w);
        if !ok { return; }
      }
      plan := Some(if Blank(previous) then None else Some(previous));
    }

    /**
     Plans a rollback and on `execute` runs apply for the planned version. The
     world of that apply is its own; `written` is the entry it wrote.
     */
    method Rollback(artifactName: string, record: bool, execute: bool, o: Options, planning: World, w: World)
      returns (exit: Exit, recorded: bool, executed: bool, written: Option<Entry>)
      requires Valid()
      modifies this
      ensures Valid()
      ensures RollbackAppends(old(ledger), ledger, recorded, written)
      ensures written.Some? ==> (IsSuccess(written.value) <==> Succeeded(w, executed))
      ensures written.Some? && IsSuccess(written.value) ==> executed && Gated(written.value)
      ensures executed ==> execute && CanRollBack(old(ledger), TrimSpace(artifactName))
      ensures written.Some? ==> execute && CanRollBack(old(ledger), TrimSpace(artifactName))
      // a success is a load of the planned version, and swaps current and previous; anything else leaves both
      ensures Honours(w) && written.Some? ==> written.value.artifactName == TrimSpace(artifactName)
      ensures Honours(w) && written.Some? && IsSuccess(written.value) ==>
        LoadedPlanned(old(ledger), TrimSpace(artifactName), written)
      ensures Honours(w) && !Blank(artifactName) ==>
        var was, now := Pair(old(ledger), TrimSpace(artifactName)), Pair(ledger, TrimSpace(artifactName));
        if written.Some? && IsSuccess(written.value) then was.Some? && now == Some((was.value.1, was.value.0))
        else now == was
      ensures !execute && exit == Success ==> CanRollBack(old(ledger), TrimSpace(artifactName))
      ensures !execute && exit == CompatibilityFailure ==> !CanRollBack(old(ledger), TrimSpace(artifactName))
    {
      exit, executed, written := ToolError, false, None;
      var plan, drill;
      plan, recorded, drill := PlanRollback(artifactName, record, planning);
      if plan.Some? {
        if !execute {
          exit := if plan.value.Some? then Success else CompatibilityFailure;
        } else if plan.value.Some? {
          exit, executed, written := ApplyVersion(artifactName, plan.value.value, o, w);
        }
      }
      RollbackAppendsIntro(old(ledger), ledger, drill, recorded, written);
      if !Blank(artifactName) { RollbackSwaps(old(ledger), ledger, recorded, written, TrimSpace(artifactName)); }
    }

    /** An approved apply of one version of an artifact. */
    method ApplyVersion(artifactName: string, version: string, o: Options, w: World)
      returns (exit: Exit, executed: bool, written: Option<Entry>)
      requires Valid() && !Blank(artifactName) && !Blank(version) && IsTrimmed(version)
      modifies this
      ensures Valid()
      ensures ledger == if written.Some? then old(ledger) + [written.value] else old(ledger)
      ensures written.Some? ==>
        written.value.operation == "load" &&
        PointsBack(written.value, LastSuccess(old(ledger), written.value.artifactName))
      ensures written.Some? ==> (IsSuccess(written.value) <==> Succeeded(w, executed))
      ensures written.Some? && IsSuccess(written.value) ==> executed && Gated(written.value)
      ensures Honours(w) && written.Some? ==>
        written.value.artifactName == TrimSpace(artifactName) && written.value.version == version
    {
      var stored;
      exit, executed, written, stored :=
        ApplyCommand(o.(approveLoad := true, artifactName := artifactName, version := version), w);
    }
  }
}
