/**
 Evaluating a load policy, and what the decision does not depend on.
 */
module PolicyDecision {
  import opened Text
  import opened LoadPolicy

  function LowerTrim(s: string): string {
    ToLower(TrimSpace(s))
  }

  function AddCandidate(out: seq<string>, value: string): seq<string> {
    var v := LowerTrim(value);
    if v == "" || v in out then out else out + [v]
  }

  function AddCandidates(out: seq<string>, values: seq<string>): seq<string>
    decreases values
  {
    if values == [] then out else AddCandidates(AddCandidate(out, values[0]), values[1..])
  }

  /**
   The profile names a rule may match: the target, what the record supports, and the host's hint when it was probed.
   */
  function Candidates(ctx: Context): seq<string> {
    var out := AddCandidates(AddCandidate([], ctx.targetProfile), ctx.supportedProfiles);
    if ctx.hostRelease.Some? then AddCandidate(out, ctx.hostProfileHint) else out
  }

  predicate KernelInRange(r: Rule, ctx: Context) {
    if Blank(r.kernelMin) && Blank(r.kernelMax) then true
    else if ctx.hostRelease.None? || ParseKernel(ctx.hostRelease.value).None? then false
    else
      var host := ParseKernel(ctx.hostRelease.value).value;
      && (!Blank(r.kernelMin) ==> CompareKernel(host, BoundOf(r.kernelMin)) >= 0)
      && (!Blank(r.kernelMax) ==> CompareKernel(host, BoundOf(r.kernelMax)) <= 0)
  }

  /** A bound that cannot be parsed counts as 0.0.0. */
  function BoundOf(s: string): (nat, nat, nat) {
    match ParseKernel(s)
    case Some(v) => v
    case None => (0, 0, 0)
  }

  function UpperTrim(s: string): string {
    ToUpper(TrimSpace(s))
  }

  function ProgramKinds(programs: seq<Program>): seq<string> {
    seq(|programs|, i requires 0 <= i < |programs| => UpperTrim(programs[i].kind))
  }

  function AttachKinds(programs: seq<Program>): seq<string> {
    seq(|programs|, i requires 0 <= i < |programs| => UpperTrim(programs[i].attachKind))
  }

  predicate ProgramsMatch(r: Rule, ctx: Context, glob: Glob) {
    && (r.programTypes == [] || (ctx.programs.Some? &&
      MatchAny(ProgramKinds(ctx.programs.value), r.programTypes, glob)))
    && (r.attachKinds == [] || (ctx.programs.Some? && MatchAny(AttachKinds(ctx.programs.value), r.attachKinds, glob)))
  }

  predicate RuleMatches(r: Rule, ctx: Context, glob: Glob) {
    && MatchPatterns(LowerTrim(ctx.agentId), r.agents, glob)
    && MatchPatterns(LowerTrim(ctx.tenant), r.tenants, glob)
    && MatchPatterns(LowerTrim(ctx.project), r.projects, glob)
    && MatchPatterns(LowerTrim(ctx.artifactName), r.artifacts, glob)
    && (r.requireVerified.Some? ==> r.requireVerified.value == ctx.historyVerified)
    && (r.profiles != [] ==> MatchAny(Candidates(ctx), r.profiles, glob))
    && KernelInRange(r, ctx)
    && ProgramsMatch(r, ctx, glob)
  }

  /** The first matching rule from `i` on, or the number of rules. */
  function FirstMatch(rules: seq<Rule>, ctx: Context, glob: Glob, i: nat): (k: nat)
    requires i <= |rules|
    ensures i <= k <= |rules|
    ensures k < |rules| ==> RuleMatches(rules[k], ctx, glob)
    ensures forall j | i <= j < k :: !RuleMatches(rules[j], ctx, glob)
    decreases |rules| - i
  {
    if i == |rules| || RuleMatches(rules[i], ctx, glob) then i else FirstMatch(rules, ctx, glob, i + 1)
  }

  predicate Revoked(p: Policy, ctx: Context, glob: Glob) {
    p.revokedAgents != [] && MatchPatterns(LowerTrim(ctx.agentId), p.revokedAgents, glob)
  }

  predicate NotListed(p: Policy, ctx: Context, glob: Glob) {
    p.allowedAgents != [] && !MatchPatterns(LowerTrim(ctx.agentId), p.allowedAgents, glob)
  }

  /** The decision of a policy that has been normalized as far as it can be. */
  function Decide(p: Policy, ctx: Context, glob: Glob): Decision {
    if Revoked(p, ctx, glob) then Decision(false, "revoked_agents", "deny")
    else if NotListed(p, ctx, glob) then Decision(false, "allowed_agents", "deny")
    else
      var k := FirstMatch(p.rules, ctx, glob, 0);
      if k < |p.rules| then Decision(p.rules[k].action == "allow", p.rules[k].name, p.rules[k].action)
      else
        var action := if p.defaultAction == "" then "deny" else p.defaultAction;
        Decision(action == "allow", "default", action)
  }

  /** `EvaluateLoadPolicy`: normalizes, ignoring whether the policy is valid, and decides. */
  function Evaluate(p: Policy, ctx: Context, glob: Glob): (d: Decision)
    ensures d.allowed <==> d.action == "allow"
  {
    Decide(Normalize(p).0, ctx, glob)
  }

  // ---- What an allow means ----

  /** Rule `k` is the first that matches. */
  predicate IsFirst(rules: seq<Rule>, ctx: Context, glob: Glob, k: int) {
    0 <= k < |rules| && RuleMatches(rules[k], ctx, glob) && forall j | 0 <= j < k :: !RuleMatches(rules[j], ctx, glob)
  }

  lemma FirstMatchIsFirst(rules: seq<Rule>, ctx: Context, glob: Glob, k: int)
    ensures IsFirst(rules, ctx, glob, k) <==> k == FirstMatch(rules, ctx, glob, 0) < |rules|
  {
  }

  lemma NoneMatch(rules: seq<Rule>, ctx: Context, glob: Glob)
    ensures FirstMatch(rules, ctx, glob, 0) == |rules| <==>
      forall k | 0 <= k < |rules| :: !RuleMatches(rules[k], ctx, glob)
  {
  }

  /**
   A normalized policy allows exactly when the agent is not revoked, is listed
   if there is a list, and the first matching rule allows, or no rule matches
   and the default allows.
   */
  lemma AllowExactly(p: Policy, ctx: Context, glob: Glob)
    ensures Decide(p, ctx, glob).allowed <==>
      && !Revoked(p, ctx, glob)
      && !NotListed(p, ctx, glob)
      && (|| (exists k :: IsFirst(p.rules, ctx, glob, k) && p.rules[k].action == "allow")
          || (p.defaultAction == "allow" && forall k | 0 <= k < |p.rules| :: !RuleMatches(p.rules[k], ctx, glob)))
  {
    var first := FirstMatch(p.rules, ctx, glob, 0);
    forall k { FirstMatchIsFirst(p.rules, ctx, glob, k); }
    NoneMatch(p.rules, ctx, glob);
    assert first < |p.rules| ==> IsFirst(p.rules, ctx, glob, first);
  }

  /**
   Which part of a normalized policy decides, and how: revocation, the allow list, the first matching rule, the default.
   */
  lemma DecidedBy(p: Policy, ctx: Context, glob: Glob, k: int)
    ensures Revoked(p, ctx, glob) ==> Decide(p, ctx, glob) == Decision(false, "revoked_agents", "deny")
    ensures !Revoked(p, ctx, glob) && NotListed(p, ctx, glob) ==>
      Decide(p, ctx, glob) == Decision(false, "allowed_agents", "deny")
    ensures !Revoked(p, ctx, glob) && !NotListed(p, ctx, glob) && IsFirst(p.rules, ctx, glob, k) ==>
      Decide(p, ctx, glob) == Decision(p.rules[k].action == "allow", p.rules[k].name, p.rules[k].action)
    ensures !Revoked(p, ctx, glob) && !NotListed(p, ctx, glob) && (forall j | 0 <= j < |p.rules| ::
      !RuleMatches(p.rules[j], ctx, glob)) ==>
      Decide(p, ctx, glob).ruleName == "default"
  {
    FirstMatchIsFirst(p.rules, ctx, glob, k);
    NoneMatch(p.rules, ctx, glob);
  }

  // ---- What the decision does not depend on ----

  /** Evaluating a valid policy or its normal form gives the same decision. */
  lemma EvaluateNormalized(p: Policy, ctx: Context, glob: Glob)
    requires Valid(p)
    ensures Evaluate(Normalize(p).0, ctx, glob) == Evaluate(p, ctx, glob)
  {
    NormalizeIdempotent(p);
  }

  /** Two lists with the same patterns up to order, repeats, case and padding. */
  predicate SameList(a: seq<string>, b: seq<string>, upper: bool) {
    CleanSet(a, upper) == CleanSet(b, upper)
  }

  predicate SameRule(r: Rule, s: Rule) {
    && r.name == s.name && r.action == s.action && r.requireVerified == s.requireVerified
    && r.kernelMin == s.kernelMin && r.kernelMax == s.kernelMax
    && SameList(r.agents, s.agents, false)
    && SameList(r.tenants, s.tenants, false)
    && SameList(r.projects, s.projects, false)
    && SameList(r.artifacts, s.artifacts, false)
    && SameList(r.profiles, s.profiles, false)
    && SameList(r.programTypes, s.programTypes, true)
    && SameList(r.attachKinds, s.attachKinds, true)
  }

  predicate SamePolicy(p: Policy, q: Policy) {
    && p.schemaVersion == q.schemaVersion && p.defaultAction == q.defaultAction
    && SameList(p.allowedAgents, q.allowedAgents, false)
    && SameList(p.revokedAgents, q.revokedAgents, false)
    && |p.rules| == |q.rules|
    && forall i | 0 <= i < |p.rules| :: SameRule(p.rules[i], q.rules[i])
  }

  lemma SameRuleNormalizes(r: Rule, s: Rule, i: nat)
    requires SameRule(r, s) && NormalizeRule(r, i).1
    ensures NormalizeRule(s, i) == NormalizeRule(r, i)
  {
    SameCleanSameList(r.agents, s.agents, false);
    SameCleanSameList(r.tenants, s.tenants, false);
    SameCleanSameList(r.projects, s.projects, false);
    SameCleanSameList(r.artifacts, s.artifacts, false);
    SameCleanSameList(r.profiles, s.profiles, false);
    SameCleanSameList(r.programTypes, s.programTypes, true);
    SameCleanSameList(r.attachKinds, s.attachKinds, true);
  }

  lemma SameRulesNormalize(a: seq<Rule>, b: seq<Rule>)
    requires |a| == |b| && NormalizeRules(a).1
    requires forall i | 0 <= i < |a| :: SameRule(a[i], b[i])
    ensures NormalizeRules(b) == NormalizeRules(a)
  {
    RewritesPointwise(a, |a|, NormalizeRule);
    RewritesPointwise(b, |b|, NormalizeRule);
    forall i | 0 <= i < |a|
      ensures NormalizeRule(b[i], i) == NormalizeRule(a[i], i)
    {
      SameRuleNormalizes(a[i], b[i], i);
    }
    assert NormalizeRules(b).0 == NormalizeRules(a).0;
  }

  /** The decision of a valid policy depends on each pattern list only through its set of clean patterns. */
  lemma DecisionIgnoresSpelling(p: Policy, q: Policy, ctx: Context, glob: Glob)
    requires Valid(p) && SamePolicy(p, q)
    ensures Valid(q) && Evaluate(q, ctx, glob) == Evaluate(p, ctx, glob)
  {
    SameCleanSameList(p.allowedAgents, q.allowedAgents, false);
    SameCleanSameList(p.revokedAgents, q.revokedAgents, false);
    SameRulesNormalize(p.rules, q.rules);
    assert DefaultOf(q) == DefaultOf(p);
    assert Normalize(q) == Normalize(p);
  }

  /** Reordering, repeating, re-casing and padding entries keep the set of clean patterns. */
  lemma SpellingVariants(a: seq<string>, b: seq<string>, x: string, i: nat, pre: string, post: string, upper: bool)
    requires i < |a| && AllSpace(pre) && AllSpace(post)
    ensures multiset(a) == multiset(b) ==> SameList(a, b, upper)
    ensures x in a ==> SameList(a, a + [x], upper)
    ensures SameList(a, a[i := pre + a[i] + post], upper)
    ensures SameList(a, a[i := ToUpper(a[i])], upper) && SameList(a, a[i := ToLower(a[i])], upper)
  {
    if multiset(a) == multiset(b) {
      forall v ensures v in a <==> v in b {
        assert v in a <==> v in multiset(a);
        assert v in b <==> v in multiset(b);
      }
    }
    assert forall v :: v in a + [x] <==> v in a || v == x;
    TrimPadded(pre, a[i], post);
    Respelled(a, i, pre + a[i] + post, upper);
    RecasedClean(a[i], upper);
    Respelled(a, i, ToUpper(a[i]), upper);
    Respelled(a, i, ToLower(a[i]), upper);
  }

  lemma Respelled(a: seq<string>, i: nat, v: string, upper: bool)
    requires i < |a| && Clean(v, upper) == Clean(a[i], upper) && (Blank(v) <==> Blank(a[i]))
    ensures SameList(a, a[i := v], upper)
  {
    var b := a[i := v];
    forall x ensures x in CleanSet(a, upper) <==> x in CleanSet(b, upper) {
      if w :| w in a && !Blank(w) && Clean(w, upper) == x {
        var k :| 0 <= k < |a| && a[k] == w;
        assert b[k] in b;
      }
      if w :| w in b && !Blank(w) && Clean(w, upper) == x {
        var k :| 0 <= k < |b| && b[k] == w;
        assert a[k] in a;
      }
    }
  }

  lemma {:induction false} TrimRightFolds(s: string)
    ensures TrimRight(ToUpper(s)) == ToUpper(TrimRight(s)) && TrimRight(ToLower(s)) == ToLower(TrimRight(s))
  {
    if s != "" && IsSpace(s[|s| - 1]) {
      TrimRightFolds(s[..|s| - 1]);
      assert ToUpper(s)[..|s| - 1] == ToUpper(s[..|s| - 1]) && ToLower(s)[..|s| - 1] == ToLower(s[..|s| - 1]);
    }
  }

  lemma {:induction false} TrimLeftFolds(s: string)
    ensures TrimLeft(ToUpper(s)) == ToUpper(TrimLeft(s)) && TrimLeft(ToLower(s)) == ToLower(TrimLeft(s))
  {
    if s != "" && IsSpace(s[0]) {
      TrimLeftFolds(s[1..]);
      assert ToUpper(s)[1..] == ToUpper(s[1..]) && ToLower(s)[1..] == ToLower(s[1..]);
    }
  }

  lemma RecasedClean(s: string, upper: bool)
    ensures Clean(ToUpper(s), upper) == Clean(s, upper) && Clean(ToLower(s), upper) == Clean(s, upper)
    ensures Blank(ToUpper(s)) <==> Blank(s)
    ensures Blank(ToLower(s)) <==> Blank(s)
  {
    TrimRightFolds(s);
    TrimLeftFolds(TrimRight(s));
  }

  // ---- Revocation ----

  /** A clean pattern names the agent. */
  predicate NamesAgent(pattern: string, agentId: string, glob: Glob) {
    pattern == "*" || pattern == LowerTrim(agentId) || glob(pattern, LowerTrim(agentId))
  }

  /** An agent named by a revoked pattern, however spelled, is denied whatever the rest of a valid policy says. */
  lemma RevokedIsDenied(p: Policy, ctx: Context, glob: Glob, pattern: string)
    requires Valid(p) && pattern in p.revokedAgents && !Blank(pattern)
    requires NamesAgent(Clean(pattern, false), ctx.agentId, glob)
    ensures Evaluate(p, ctx, glob) == Decision(false, "revoked_agents", "deny")
  {
    var q := Normalize(p).0;
    var c := Clean(pattern, false);
    NormalizedListing(p.revokedAgents, false);
    assert c in CleanSet(p.revokedAgents, false);
    assert c in q.revokedAgents;
    CleanIsClean(pattern, false);
    FoldKeepsTrimmed(TrimSpace(pattern));
    FoldKeepsTrimmed(TrimSpace(ctx.agentId));
    assert TrimSpace(c) == c && c != "";
    assert TrimSpace(LowerTrim(ctx.agentId)) == LowerTrim(ctx.agentId);
    assert Revoked(q, ctx, glob);
  }
}
