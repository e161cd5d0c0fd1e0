/**
 What a load policy as written means: which policies are valid, which rules apply to a load, and what is allowed. The
 code decides on the normalized policy; here its answers are tied to the policy its author wrote.
 */
module PolicyMeaning {
  import opened Text
  import opened KernelOrder
  import opened LoadPolicy
  import opened PolicyDecision

  // ---- Kernel versions ----

  /** A number of a version, 0 when it is not written. */
  function Part(numbers: seq<nat>, i: nat): nat {
    if i < |numbers| then numbers[i] else 0
  }

  /** A release or bound is read as the first three numbers written in it; it needs two, and none over 64 bits. */
  lemma ParsesNumbers(pre: string, numbers: seq<nat>, texts: seq<string>)
    requires |texts| == |numbers| && Separates(texts) && NoDigits(pre)
    ensures ParseKernel(pre + Written(numbers, texts)) ==
      if |numbers| < 2 || numbers[0] > MAX_INT || numbers[1] > MAX_INT || Part(numbers, 2) > MAX_INT then None
      else Some((numbers[0], numbers[1], Part(numbers, 2)))
  {
    SkipsText(pre, Written(numbers, texts));
    RunsOfWritten(numbers, texts);
    forall i | 0 <= i < |numbers|
      ensures DecimalValue(Decimals(numbers)[i]) == numbers[i]
    {
      DecimalRoundTrip(numbers[i]);
    }
  }

  predicate OlderKernel(a: (nat, nat, nat), b: (nat, nat, nat)) {
    a.0 < b.0 || (a.0 == b.0 && (a.1 < b.1 || (a.1 == b.1 && a.2 < b.2)))
  }

  lemma ComparesKernels(a: (nat, nat, nat), b: (nat, nat, nat))
    ensures CompareKernel(a, b) < 0 <==> OlderKernel(a, b)
    ensures CompareKernel(a, b) > 0 <==> OlderKernel(b, a)
    ensures CompareKernel(a, b) == 0 <==> a == b
  {
  }

  // ---- Which policies are valid ----

  predicate BoundReads(bound: string) {
    Blank(bound) || ParseKernel(TrimSpace(bound)).Some?
  }

  predicate GoodRule(r: Rule) {
    NormalizeAction(r.action) in {"allow", "deny"} && BoundReads(r.kernelMin) && BoundReads(r.kernelMax)
  }

  /** A policy is valid exactly when its schema is the known one or left out and every action and bound is readable. */
  lemma ValidExactly(p: Policy)
    ensures Valid(p) <==>
      && TrimSpace(p.schemaVersion) in {"", "agent_load_policy.v0.1"}
      && NormalizeAction(p.defaultAction) in {"", "allow", "deny"}
      && forall k | 0 <= k < |p.rules| :: GoodRule(p.rules[k])
  {
    RewritesPointwise(p.rules, |p.rules|, NormalizeRule);
    forall k | 0 <= k < |p.rules|
      ensures NormalizeRule(p.rules[k], k).1 <==> GoodRule(p.rules[k])
    {
    }
  }

  // ---- Which rules apply ----

  /** A pattern names a value. */
  predicate Names(pattern: string, value: string, glob: Glob) {
    pattern == "*" || pattern == value || glob(pattern, value)
  }

  /** A list of patterns admits one of the values: it has no pattern, or one that names one of them. */
  ghost predicate Admits(list: seq<string>, upper: bool, values: set<string>, glob: Glob) {
    CleanSet(list, upper) != {} ==> exists p, v :: p in CleanSet(list, upper) && v in values && Names(p, v, glob)
  }

  function LowerTrims(values: seq<string>): set<string> {
    set v | v in values && !Blank(v) :: LowerTrim(v)
  }

  /** The profiles of a load: the target, those the artifact supports, and the probed host's. */
  function ProfilesOf(ctx: Context): set<string> {
    LowerTrims([ctx.targetProfile] + ctx.supportedProfiles)
    + if ctx.hostRelease.Some? then LowerTrims([ctx.hostProfileHint]) else {}
  }

  function KindsOf(programs: seq<Program>): set<string> {
    set program | program in programs :: UpperTrim(program.kind)
  }

  function AttachmentsOf(programs: seq<Program>): set<string> {
    set program | program in programs :: UpperTrim(program.attachKind)
  }

  /** A kernel bound, if there is one, is kept by the host, which must then have been probed. */
  predicate HostKeeps(r: Rule, ctx: Context) {
    !Blank(r.kernelMin) || !Blank(r.kernelMax) ==>
      && ctx.hostRelease.Some? && ParseKernel(ctx.hostRelease.value).Some?
      && var host := ParseKernel(ctx.hostRelease.value).value;
      && (!Blank(r.kernelMin) ==> !OlderKernel(host, BoundOf(TrimSpace(r.kernelMin))))
      && (!Blank(r.kernelMax) ==> !OlderKernel(BoundOf(TrimSpace(r.kernelMax)), host))
  }

  /** The programs of the manifest, when a list asks about them. */
  ghost predicate ProgramsAdmitted(r: Rule, ctx: Context, glob: Glob) {
    match ctx.programs
    case None => CleanSet(r.programTypes, true) == {} && CleanSet(r.attachKinds, true) == {}
    case Some(programs) =>
      && Admits(r.programTypes, true, KindsOf(programs), glob)
      && Admits(r.attachKinds, true, AttachmentsOf(programs), glob)
  }

  /** A rule applies to a load: every list admits it, and every other condition holds. */
  ghost predicate AppliesTo(r: Rule, ctx: Context, glob: Glob) {
    && Admits(r.agents, false, {LowerTrim(ctx.agentId)}, glob)
    && Admits(r.tenants, false, {LowerTrim(ctx.tenant)}, glob)
    && Admits(r.projects, false, {LowerTrim(ctx.project)}, glob)
    && Admits(r.artifacts, false, {LowerTrim(ctx.artifactName)}, glob)
    && Admits(r.profiles, false, ProfilesOf(ctx), glob)
    && (r.requireVerified.Some? ==> ctx.historyVerified == r.requireVerified.value)
    && HostKeeps(r, ctx)
    && ProgramsAdmitted(r, ctx, glob)
  }

  /** A list that holds a name admits it, however either is padded or cased. */
  lemma NamedIsAdmitted(list: seq<string>, written: string, value: string, glob: Glob)
    requires written in list && !Blank(value)
    ensures LowerTrim(written) == LowerTrim(value) ==> Admits(list, false, {LowerTrim(value)}, glob)
    ensures UpperTrim(written) == UpperTrim(value) ==> Admits(list, true, {UpperTrim(value)}, glob)
  {
    if LowerTrim(written) == LowerTrim(value) {
      assert |LowerTrim(written)| == |TrimSpace(written)| && |LowerTrim(value)| == |TrimSpace(value)|;
      assert LowerTrim(value) in CleanSet(list, false) && Names(LowerTrim(value), LowerTrim(value), glob);
    }
    if UpperTrim(written) == UpperTrim(value) {
      assert |UpperTrim(written)| == |TrimSpace(written)| && |UpperTrim(value)| == |TrimSpace(value)|;
      assert UpperTrim(value) in CleanSet(list, true) && Names(UpperTrim(value), UpperTrim(value), glob);
    }
  }

  lemma CleanPattern(list: seq<string>, upper: bool, c: string)
    requires c in CleanSet(list, upper)
    ensures c != "" && TrimSpace(c) == c
  {
    var v :| v in list && !Blank(v) && Clean(v, upper) == c;
    FoldKeepsTrimmed(TrimSpace(v));
    CleanIsClean(v, upper);
  }

  lemma EmptyList(list: seq<string>, upper: bool)
    ensures NormalizeList(list, upper) == [] <==> CleanSet(list, upper) == {}
  {
    var n := NormalizeList(list, upper);
    NormalizedListing(list, upper);
    if n != [] { assert n[0] in CleanSet(list, upper); }
    if CleanSet(list, upper) != {} {
      var c :| c in CleanSet(list, upper);
      assert c in n;
    }
  }

  /** Matching against the normalized list is admitting by the list as written. */
  lemma MatchIsAdmit(value: string, list: seq<string>, upper: bool, glob: Glob)
    requires IsTrimmed(value)
    ensures MatchPatterns(value, NormalizeList(list, upper), glob) <==> Admits(list, upper, {value}, glob)
  {
    var n := NormalizeList(list, upper);
    NormalizedListing(list, upper);
    EmptyList(list, upper);
    forall p | p in n
      ensures p != "" && TrimSpace(p) == p
    {
      CleanPattern(list, upper, p);
    }
    if p :| p in CleanSet(list, upper) && Names(p, value, glob) { assert p in n; }
    if n != [] && MatchPatterns(value, n, glob) {
      var p :| p in n && (p == "*" || p == value || glob(p, value));
      assert Names(p, value, glob);
    }
  }

  ghost predicate Trimmeds(values: seq<string>) {
    forall v | v in values :: IsTrimmed(v)
  }

  lemma AnyIsAdmit(values: seq<string>, list: seq<string>, upper: bool, glob: Glob)
    requires Trimmeds(values)
    ensures MatchAny(values, NormalizeList(list, upper), glob) <==> Admits(list, upper, (set v | v in values), glob)
  {
    EmptyList(list, upper);
    forall v | v in values
      ensures MatchPatterns(v, NormalizeList(list, upper), glob) <==> Admits(list, upper, {v}, glob)
    {
      MatchIsAdmit(v, list, upper, glob);
    }
    if CleanSet(list, upper) != {} {
      if v :| v in values && MatchPatterns(v, NormalizeList(list, upper), glob) {
        var p, w :| p in CleanSet(list, upper) && w in {v} && Names(p, w, glob);
        assert v in (set x | x in values);
      }
      if p, v :| p in CleanSet(list, upper) && v in (set x | x in values) && Names(p, v, glob) {
        assert v in {v};
      }
    }
  }

  lemma LowerTrimmed(s: string)
    ensures IsTrimmed(LowerTrim(s)) && IsTrimmed(UpperTrim(s)) && (LowerTrim(s) == "" <==> Blank(s))
  {
    FoldKeepsTrimmed(TrimSpace(s));
  }

  lemma Added(out: seq<string>, value: string)
    requires Trimmeds(out)
    ensures Trimmeds(AddCandidate(out, value))
    ensures (set v | v in AddCandidate(out, value)) == (set v | v in out) + LowerTrims([value])
  {
    LowerTrimmed(value);
  }

  lemma {:induction false} AddedAll(out: seq<string>, values: seq<string>)
    requires Trimmeds(out)
    ensures Trimmeds(AddCandidates(out, values))
    ensures (set v | v in AddCandidates(out, values)) == (set v | v in out) + LowerTrims(values)
    decreases values
  {
    if values != [] {
      Added(out, values[0]);
      AddedAll(AddCandidate(out, values[0]), values[1..]);
      assert values == [values[0]] + values[1..];
    }
  }

  lemma CandidatesAreProfiles(ctx: Context)
    ensures Trimmeds(Candidates(ctx)) && (set v | v in Candidates(ctx)) == ProfilesOf(ctx)
  {
    Added([], ctx.targetProfile);
    AddedAll(AddCandidate([], ctx.targetProfile), ctx.supportedProfiles);
    var out := AddCandidates(AddCandidate([], ctx.targetProfile), ctx.supportedProfiles);
    Added(out, ctx.hostProfileHint);
    assert LowerTrims([ctx.targetProfile] + ctx.supportedProfiles)
        == LowerTrims([ctx.targetProfile]) + LowerTrims(ctx.supportedProfiles);
  }

  lemma KindsAre(programs: seq<Program>)
    ensures Trimmeds(ProgramKinds(programs)) && (set v | v in ProgramKinds(programs)) == KindsOf(programs)
    ensures Trimmeds(AttachKinds(programs)) && (set v | v in AttachKinds(programs)) == AttachmentsOf(programs)
  {
    forall i | 0 <= i < |programs|
      ensures IsTrimmed(ProgramKinds(programs)[i]) && ProgramKinds(programs)[i] in KindsOf(programs)
      ensures IsTrimmed(AttachKinds(programs)[i]) && AttachKinds(programs)[i] in AttachmentsOf(programs)
    {
      LowerTrimmed(programs[i].kind);
      LowerTrimmed(programs[i].attachKind);
      assert programs[i] in programs;
    }
    forall program | program in programs
      ensures UpperTrim(program.kind) in ProgramKinds(programs)
      ensures UpperTrim(program.attachKind) in AttachKinds(programs)
    {
      var i :| 0 <= i < |programs| && programs[i] == program;
      assert ProgramKinds(programs)[i] == UpperTrim(program.kind);
      assert AttachKinds(programs)[i] == UpperTrim(program.attachKind);
    }
  }

  lemma ProgramsAgree(r: Rule, full: Rule, ctx: Context, glob: Glob)
    requires full.programTypes == NormalizeList(r.programTypes, true)
    requires full.attachKinds == NormalizeList(r.attachKinds, true)
    ensures ProgramsMatch(full, ctx, glob) <==> ProgramsAdmitted(r, ctx, glob)
  {
    EmptyList(r.programTypes, true);
    EmptyList(r.attachKinds, true);
    match ctx.programs
    case None =>
    case Some(programs) =>
      KindsAre(programs);
      AnyIsAdmit(ProgramKinds(programs), r.programTypes, true, glob);
      AnyIsAdmit(AttachKinds(programs), r.attachKinds, true, glob);
  }

  lemma ProfilesAgree(r: Rule, full: Rule, ctx: Context, glob: Glob)
    requires full.profiles == NormalizeList(r.profiles, false)
    ensures (full.profiles != [] ==> MatchAny(Candidates(ctx), full.profiles, glob)) <==>
      Admits(r.profiles, false, ProfilesOf(ctx), glob)
  {
    EmptyList(r.profiles, false);
    CandidatesAreProfiles(ctx);
    AnyIsAdmit(Candidates(ctx), r.profiles, false, glob);
  }

  lemma HostAgrees(r: Rule, full: Rule, ctx: Context)
    requires full.kernelMin == TrimSpace(r.kernelMin) && full.kernelMax == TrimSpace(r.kernelMax)
    ensures KernelInRange(full, ctx) <==> HostKeeps(r, ctx)
  {
    if ctx.hostRelease.Some? && ParseKernel(ctx.hostRelease.value).Some? {
      var host := ParseKernel(ctx.hostRelease.value).value;
      ComparesKernels(host, BoundOf(full.kernelMin));
      ComparesKernels(host, BoundOf(full.kernelMax));
    }
  }

  lemma NamesAgree(value: string, list: seq<string>, glob: Glob)
    ensures MatchPatterns(LowerTrim(value), NormalizeList(list, false), glob) <==>
      Admits(list, false, {LowerTrim(value)}, glob)
  {
    LowerTrimmed(value);
    MatchIsAdmit(LowerTrim(value), list, false, glob);
  }

  /** The code matches a rule, normalized, exactly when the rule as written applies. */
  lemma MatchesExactly(r: Rule, i: nat, ctx: Context, glob: Glob)
    requires NormalizeRule(r, i).1
    ensures RuleMatches(NormalizeRule(r, i).0, ctx, glob) <==> AppliesTo(r, ctx, glob)
  {
    var full := NormalizeRule(r, i).0;
    NamesAgree(ctx.agentId, r.agents, glob);
    NamesAgree(ctx.tenant, r.tenants, glob);
    NamesAgree(ctx.project, r.projects, glob);
    NamesAgree(ctx.artifactName, r.artifacts, glob);
    ProfilesAgree(r, full, ctx, glob);
    HostAgrees(r, full, ctx);
    ProgramsAgree(r, full, ctx, glob);
  }

  // ---- What is allowed ----

  /** Rule `k` is the first that applies. */
  ghost predicate FirstToApply(rules: seq<Rule>, ctx: Context, glob: Glob, k: nat) {
    k < |rules| && AppliesTo(rules[k], ctx, glob) && forall j | 0 <= j < k :: !AppliesTo(rules[j], ctx, glob)
  }

  predicate SaysAllow(action: string) {
    NormalizeAction(action) == "allow"
  }

  ghost predicate AgentRefused(p: Policy, ctx: Context, glob: Glob) {
    || (CleanSet(p.revokedAgents, false) != {} && Admits(p.revokedAgents, false, {LowerTrim(ctx.agentId)}, glob))
    || !Admits(p.allowedAgents, false, {LowerTrim(ctx.agentId)}, glob)
  }

  lemma RulesMatchExactly(p: Policy, ctx: Context, glob: Glob)
    requires Valid(p)
    ensures |Normalize(p).0.rules| == |p.rules|
    ensures forall k | 0 <= k < |p.rules| ::
      && (RuleMatches(Normalize(p).0.rules[k], ctx, glob) <==> AppliesTo(p.rules[k], ctx, glob))
      && Normalize(p).0.rules[k].action == NormalizeAction(p.rules[k].action)
  {
    RewritesPointwise(p.rules, |p.rules|, NormalizeRule);
    forall k | 0 <= k < |p.rules|
      ensures RuleMatches(NormalizeRule(p.rules[k], k).0, ctx, glob) <==> AppliesTo(p.rules[k], ctx, glob)
    {
      MatchesExactly(p.rules[k], k, ctx, glob);
    }
  }

  lemma AgentAgrees(p: Policy, q: Policy, ctx: Context, glob: Glob)
    requires q.revokedAgents == NormalizeList(p.revokedAgents, false)
    requires q.allowedAgents == NormalizeList(p.allowedAgents, false)
    ensures Revoked(q, ctx, glob) || NotListed(q, ctx, glob) <==> AgentRefused(p, ctx, glob)
  {
    NamesAgree(ctx.agentId, p.revokedAgents, glob);
    NamesAgree(ctx.agentId, p.allowedAgents, glob);
    EmptyList(p.revokedAgents, false);
    EmptyList(p.allowedAgents, false);
  }

  /**
   A valid policy, as written, allows a load exactly when the agent is not refused and the first rule that applies
   allows it, or none applies and the default allows it.
   */
  lemma AllowsExactly(p: Policy, ctx: Context, glob: Glob)
    requires Valid(p)
    ensures Evaluate(p, ctx, glob).allowed <==>
      && !AgentRefused(p, ctx, glob)
      && (|| (exists k: nat :: FirstToApply(p.rules, ctx, glob, k) && SaysAllow(p.rules[k].action))
          || (SaysAllow(p.defaultAction) && forall k | 0 <= k < |p.rules| :: !AppliesTo(p.rules[k], ctx, glob)))
  {
    var q := Normalize(p).0;
    AgentAgrees(p, q, ctx, glob);
    RulesMatchExactly(p, ctx, glob);
    var k := FirstMatch(q.rules, ctx, glob, 0);
    if k < |q.rules| {
      assert FirstToApply(p.rules, ctx, glob, k);
    } else {
      assert forall j | 0 <= j < |p.rules| :: !AppliesTo(p.rules[j], ctx, glob);
    }
  }

  /** The name of a rule: its own, or its number. */
  function NameOf(p: Policy, k: nat): string
    requires k < |p.rules|
  {
    if Blank(p.rules[k].name) then "rule-" + Decimal(k + 1) else TrimSpace(p.rules[k].name)
  }

  /** The agent lists decide first: revocation, then the list of those allowed. */
  lemma AgentDecides(p: Policy, ctx: Context, glob: Glob)
    requires Valid(p) && AgentRefused(p, ctx, glob)
    ensures Evaluate(p, ctx, glob) ==
      if CleanSet(p.revokedAgents, false) != {} && Admits(p.revokedAgents, false, {LowerTrim(ctx.agentId)}, glob)
      then Decision(false, "revoked_agents", "deny") else Decision(false, "allowed_agents", "deny")
  {
    NamesAgree(ctx.agentId, p.revokedAgents, glob);
    EmptyList(p.revokedAgents, false);
    AgentAgrees(p, Normalize(p).0, ctx, glob);
  }

  /** For an agent not refused, the first rule that applies decides, under its own name or its number. */
  lemma RuleDecides(p: Policy, ctx: Context, glob: Glob, k: nat)
    requires Valid(p) && !AgentRefused(p, ctx, glob) && FirstToApply(p.rules, ctx, glob, k)
    ensures Evaluate(p, ctx, glob) ==
      Decision(SaysAllow(p.rules[k].action), NameOf(p, k), NormalizeAction(p.rules[k].action))
  {
    var q := Normalize(p).0;
    AgentAgrees(p, q, ctx, glob);
    RulesMatchExactly(p, ctx, glob);
    FirstMatchIsFirst(q.rules, ctx, glob, k);
    RewritesPointwise(p.rules, |p.rules|, NormalizeRule);
    assert q.rules[k] == NormalizeRule(p.rules[k], k).0;
  }

  /** And when none applies, the default. */
  lemma DefaultDecides(p: Policy, ctx: Context, glob: Glob)
    requires Valid(p) && !AgentRefused(p, ctx, glob)
    requires forall k | 0 <= k < |p.rules| :: !AppliesTo(p.rules[k], ctx, glob)
    ensures Evaluate(p, ctx, glob) ==
      if SaysAllow(p.defaultAction) then Decision(true, "default", "allow") else Decision(false, "default", "deny")
  {
    AgentAgrees(p, Normalize(p).0, ctx, glob);
    RulesMatchExactly(p, ctx, glob);
    NoneMatch(Normalize(p).0.rules, ctx, glob);
    ValidExactly(p);
  }

  /** Under a default of deny every load that is allowed has a rule that allows it and applies to it. */
  lemma AllowNeedsRule(p: Policy, ctx: Context, glob: Glob) returns (k: nat)
    requires Valid(p) && !SaysAllow(p.defaultAction) && Evaluate(p, ctx, glob).allowed
    ensures FirstToApply(p.rules, ctx, glob, k) && SaysAllow(p.rules[k].action)
  {
    AllowsExactly(p, ctx, glob);
    k :| FirstToApply(p.rules, ctx, glob, k) && SaysAllow(p.rules[k].action);
  }

  /** A rule whose list of tenants names only others does not apply. */
  lemma OtherTenantsOnly(r: Rule, ctx: Context, glob: Glob)
    requires CleanSet(r.tenants, false) != {}
    requires forall p | p in CleanSet(r.tenants, false) :: !Names(p, LowerTrim(ctx.tenant), glob)
    ensures !AppliesTo(r, ctx, glob)
  {
  }
}
