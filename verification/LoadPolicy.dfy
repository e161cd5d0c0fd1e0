/**
 The agent's local load policy: normalization, validation and first-match
 evaluation. Glob matching is a parameter.
 */
module LoadPolicy {
  import opened Text
  import opened Sorting
  import opened Listing
  import opened KernelOrder

  /** `glob(pattern, value)`: the pattern is well formed and matches. */
  type Glob = (string, string) -> bool

  const SCHEMA := "agent_load_policy.v0.1"

  datatype Rule = Rule(
    name: string,
    action: string,
    agents: seq<string>,
    tenants: seq<string>,
    projects: seq<string>,
    artifacts: seq<string>,
    profiles: seq<string>,
    programTypes: seq<string>,
    attachKinds: seq<string>,
    kernelMin: string,
    kernelMax: string,
    requireVerified: Option<bool>)

  datatype Policy = Policy(
    schemaVersion: string,
    defaultAction: string,
    allowedAgents: seq<string>,
    revokedAgents: seq<string>,
    rules: seq<Rule>)

  datatype Program = Program(kind: string, attachKind: string)

  datatype Context = Context(
    agentId: string,
    tenant: string,
    project: string,
    artifactName: string,
    targetProfile: string,
    supportedProfiles: seq<string>,
    hostRelease: Option<string>,
    hostProfileHint: string,
    historyVerified: bool,
    programs: Option<seq<Program>>)

  datatype Decision = Decision(allowed: bool, ruleName: string, action: string)

  // ---- Pattern lists ----

  function Fold(s: string, upper: bool): string {
    if upper then ToUpper(s) else ToLower(s)
  }

  /** A pattern as it is stored: trimmed and case-folded. */
  function Clean(s: string, upper: bool): string {
    Fold(TrimSpace(s), upper)
  }

  /** The clean patterns a list stands for. */
  function CleanSet(values: seq<string>, upper: bool): set<string> {
    set v | v in values && !Blank(v) :: Clean(v, upper)
  }

  /** Clean patterns in order of first appearance, without repeats. */
  function Dedup(values: seq<string>, upper: bool): seq<string> {
    if values == [] then []
    else
      var last := values[|values| - 1];
      var rest := Dedup(values[..|values| - 1], upper);
      if Blank(last) || Clean(last, upper) in rest then rest else rest + [Clean(last, upper)]
  }

  lemma {:induction false} DedupListsCleanSet(values: seq<string>, upper: bool)
    ensures Distinct(Dedup(values, upper))
    ensures forall x :: x in Dedup(values, upper) <==> x in CleanSet(values, upper)
  {
    if values != [] {
      var last, rest := values[|values| - 1], values[..|values| - 1];
      DedupListsCleanSet(rest, upper);
      assert forall v :: v in values <==> v in rest || v == last;
    }
  }

  function NormalizeList(values: seq<string>, upper: bool): seq<string> {
    StableSort(Dedup(values, upper), LexLess)
  }

  /** A normalized list is the strictly sorted listing of its clean patterns. */
  lemma NormalizedListing(values: seq<string>, upper: bool)
    ensures StrictlySorted(NormalizeList(values, upper))
    ensures forall x :: x in NormalizeList(values, upper) <==> x in CleanSet(values, upper)
  {
    var d := Dedup(values, upper);
    DedupListsCleanSet(values, upper);
    LexLawful();
    StableSortSorts(d, LexLess);
    StableSortPermutes(d, LexLess);
    DistinctPermutation(d, NormalizeList(values, upper));
    SortedDistinctIsStrict(NormalizeList(values, upper));
  }

  /** Lists with the same clean patterns normalize to the same list. */
  lemma SameCleanSameList(a: seq<string>, b: seq<string>, upper: bool)
    requires CleanSet(a, upper) == CleanSet(b, upper)
    ensures NormalizeList(a, upper) == NormalizeList(b, upper)
  {
    NormalizedListing(a, upper);
    NormalizedListing(b, upper);
    StrictListingUnique(NormalizeList(a, upper), NormalizeList(b, upper));
  }

  lemma CleanIsClean(s: string, upper: bool)
    ensures Clean(Clean(s, upper), upper) == Clean(s, upper)
    ensures Blank(Clean(s, upper)) <==> Blank(s)
  {
    FoldKeepsTrimmed(TrimSpace(s));
  }

  lemma NormalizeListIdempotent(values: seq<string>, upper: bool)
    ensures NormalizeList(NormalizeList(values, upper), upper) == NormalizeList(values, upper)
  {
    var n := NormalizeList(values, upper);
    NormalizedListing(values, upper);
    forall x
      ensures x in CleanSet(n, upper) <==> x in CleanSet(values, upper)
    {
      if x in CleanSet(values, upper) {
        var v :| v in values && !Blank(v) && Clean(v, upper) == x;
        CleanIsClean(v, upper);
        assert x in n;
      }
      if x in CleanSet(n, upper) {
        var v :| v in n && !Blank(v) && Clean(v, upper) == x;
        var w :| w in values && !Blank(w) && Clean(w, upper) == v;
        CleanIsClean(w, upper);
      }
    }
    SameCleanSameList(n, values, upper);
  }

  /** The list as the source builds it: a scan with a set of seen patterns, then a sort. */
  method NormalizePatternList(values: seq<string>, upper: bool) returns (out: seq<string>)
    ensures out == NormalizeList(values, upper)
  {
    var seen: set<string> := {};
    out := [];
    var i := 0;
    while i < |values|
      invariant 0 <= i <= |values|
      invariant out == Dedup(values[..i], upper)
      invariant forall x :: x in seen <==> x in out
    {
      assert values[..i + 1][..i] == values[..i];
      var clean := TrimSpace(values[i]);
      if clean != "" {
        clean := if upper then ToUpper(clean) else ToLower(clean);
        if clean !in seen {
          seen := seen + {clean};
          out := out + [clean];
        }
      }
      i := i + 1;
    }
    assert values[..i] == values;
    LexLawful();
    var dedup := out;
    DedupListsCleanSet(values, upper);
    out := SortUnstable(out, LexLess);
    DistinctPermutation(dedup, out);
    SortedDistinctIsStrict(out);
    NormalizedListing(values, upper);
    StrictListingUnique(out, NormalizeList(values, upper));
  }

  predicate MatchPatterns(value: string, patterns: seq<string>, glob: Glob) {
    || patterns == []
    || exists p | p in patterns ::
         var pattern := TrimSpace(p);
         pattern != "" && (pattern == "*" || pattern == TrimSpace(value) || glob(pattern, TrimSpace(value)))
  }

  predicate MatchAny(values: seq<string>, patterns: seq<string>, glob: Glob) {
    patterns == [] || exists v | v in values :: MatchPatterns(v, patterns, glob)
  }

  // ---- Normalizing a policy ----

  predicate IsAction(s: string) {
    s == "allow" || s == "deny"
  }

  function NormalizeAction(s: string): string {
    ToLower(TrimSpace(s))
  }

  /** Major, minor and patch numbers: the first three digit runs, at least two, none too large for an int. */
  function ParseKernel(raw: string): Option<(nat, nat, nat)> {
    var runs := DigitRuns(raw);
    if |runs| < 2 then None
    else
      var patch := if |runs| > 2 then DecimalValue(runs[2]) else 0;
      if DecimalValue(runs[0]) > MAX_INT || DecimalValue(runs[1]) > MAX_INT || patch > MAX_INT then None
      else Some((DecimalValue(runs[0]), DecimalValue(runs[1]), patch))
  }

  function CompareKernel(a: (nat, nat, nat), b: (nat, nat, nat)): int {
    if a.0 != b.0 then (if a.0 < b.0 then -1 else 1)
    else if a.1 != b.1 then (if a.1 < b.1 then -1 else 1)
    else if a.2 != b.2 then (if a.2 < b.2 then -1 else 1)
    else 0
  }

  predicate KernelBoundOk(s: string) {
    s == "" || ParseKernel(s).Some?
  }

  function RuleName(name: string, i: nat): string {
    if Blank(name) then "rule-" + Decimal(i + 1) else TrimSpace(name)
  }

  function NormalizeRuleLists(r: Rule): Rule {
    r.(agents := NormalizeList(r.agents, false),
       tenants := NormalizeList(r.tenants, false),
       projects := NormalizeList(r.projects, false),
       artifacts := NormalizeList(r.artifacts, false),
       profiles := NormalizeList(r.profiles, false),
       programTypes := NormalizeList(r.programTypes, true),
       attachKinds := NormalizeList(r.attachKinds, true),
       kernelMin := TrimSpace(r.kernelMin),
       kernelMax := TrimSpace(r.kernelMax))
  }

  /** Rule number `i` as far as normalization rewrites it, and whether it is valid. */
  function NormalizeRule(r: Rule, i: nat): (Rule, bool) {
    var named := r.(name := RuleName(r.name, i), action := NormalizeAction(r.action));
    if !IsAction(named.action) then (named, false)
    else
      var full := NormalizeRuleLists(named);
      (full, KernelBoundOk(full.kernelMin) && KernelBoundOk(full.kernelMax))
  }

  /** Rewrites the first `n` elements in order, stopping after the first that `f` reports invalid. */
  function RewriteEach<R>(items: seq<R>, n: nat, f: (R, nat) -> (R, bool)): (r: (seq<R>, bool))
    requires n <= |items|
    ensures |r.0| == |items|
  {
    if n == 0 then (items, true)
    else
      var (done, ok) := RewriteEach(items, n - 1, f);
      if !ok then (done, false)
      else
        var (item, good) := f(done[n - 1], n - 1);
        (done[n - 1 := item], good)
  }

  function NormalizeRules(rules: seq<Rule>): (seq<Rule>, bool) {
    RewriteEach(rules, |rules|, NormalizeRule)
  }

  predicate SchemaOk(p: Policy) {
    TrimSpace(p.schemaVersion) == "" || TrimSpace(p.schemaVersion) == SCHEMA
  }

  function DefaultOf(p: Policy): string {
    if NormalizeAction(p.defaultAction) == "" then "deny" else NormalizeAction(p.defaultAction)
  }

  /** What `NormalizeAndValidate` leaves in the policy, and whether it reports it valid. */
  function Normalize(p: Policy): (Policy, bool) {
    if !SchemaOk(p) then (p, false)
    else
      var q := p.(defaultAction := DefaultOf(p));
      if !IsAction(q.defaultAction) then (q, false)
      else
        var (rules, ok) := NormalizeRules(p.rules);
        (q.(allowedAgents := NormalizeList(p.allowedAgents, false),
            revokedAgents := NormalizeList(p.revokedAgents, false),
            rules := rules), ok)
  }

  predicate Valid(p: Policy) {
    Normalize(p).1
  }

  /** Rewrites the policy field by field and rule by rule, as the source does. */
  method NormalizeAndValidate(p: Policy) returns (q: Policy, ok: bool)
    ensures (q, ok) == Normalize(p)
  {
    q := p;
    if TrimSpace(q.schemaVersion) != "" && TrimSpace(q.schemaVersion) != SCHEMA { return q, false; }
    q := q.(defaultAction := NormalizeAction(q.defaultAction));
    if q.defaultAction == "" { q := q.(defaultAction := "deny"); }
    if !IsAction(q.defaultAction) { return q, false; }
    var allowed := NormalizePatternList(q.allowedAgents, false);
    var revoked := NormalizePatternList(q.revokedAgents, false);
    var rules;
    rules, ok := NormalizeEachRule(q.rules);
    q := q.(allowedAgents := allowed, revokedAgents := revoked, rules := rules);
  }

  method NormalizeEachRule(before: seq<Rule>) returns (rules: seq<Rule>, ok: bool)
    ensures (rules, ok) == NormalizeRules(before)
  {
    rules, ok := RewriteRules(before, NormalizeRule);
  }

  /** The loop over the rules; it does not look inside `f`, the rewriting of one rule. */
  method RewriteRules(before: seq<Rule>, ghost f: (Rule, nat) -> (Rule, bool)) returns (rules: seq<Rule>, ok: bool)
    requires forall r: Rule, i: nat {:trigger NormalizeRule(r, i)} :: f(r, i) == NormalizeRule(r, i)
    ensures (rules, ok) == RewriteEach(before, |before|, f)
  {
    rules, ok := before, true;
    var i := 0;
    while i < |rules| && ok
      invariant 0 <= i <= |rules| == |before|
      invariant (rules, ok) == RewriteEach(before, i, f)
    {
      var r, good := NormalizeOneRule(rules[i], i);
      RewriteNext(before, rules, i, r, good, f);
      rules := rules[i := r];
      i, ok := i + 1, good;
    }
    if !ok { InvalidStops(before, i, |before|, f); }
  }

  method NormalizeOneRule(before: Rule, i: nat) returns (r: Rule, ok: bool)
    ensures (r, ok) == NormalizeRule(before, i)
  {
    r := before;
    r := r.(name := TrimSpace(r.name));
    if r.name == "" { r := r.(name := "rule-" + Decimal(i + 1)); }
    r := r.(action := NormalizeAction(r.action));
    if !IsAction(r.action) { return r, false; }
    var agents := NormalizePatternList(r.agents, false);
    var tenants := NormalizePatternList(r.tenants, false);
    var projects := NormalizePatternList(r.projects, false);
    var artifacts := NormalizePatternList(r.artifacts, false);
    var profiles := NormalizePatternList(r.profiles, false);
    var programTypes := NormalizePatternList(r.programTypes, true);
    var attachKinds := NormalizePatternList(r.attachKinds, true);
    r := r.(agents := agents, tenants := tenants, projects := projects, artifacts := artifacts, profiles := profiles,
            programTypes := programTypes, attachKinds := attachKinds,
            kernelMin := TrimSpace(r.kernelMin), kernelMax := TrimSpace(r.kernelMax));
    ok := KernelBoundOk(r.kernelMin) && KernelBoundOk(r.kernelMax);
  }

  lemma RewriteNext<R>(items: seq<R>, done: seq<R>, i: nat, item: R, good: bool, f: (R, nat) -> (R, bool))
    requires i < |items| == |done| && (done, true) == RewriteEach(items, i, f) && (item, good) == f(done[i], i)
    ensures (done[i := item], good) == RewriteEach(items, i + 1, f)
  {
  }

  lemma {:induction false} InvalidStops<R>(items: seq<R>, n: nat, m: nat, f: (R, nat) -> (R, bool))
    requires n <= m <= |items| && !RewriteEach(items, n, f).1
    ensures RewriteEach(items, m, f) == RewriteEach(items, n, f)
  {
    if n < m { InvalidStops(items, n, m - 1, f); }
  }

  /** Rewriting touches one element at a time. */
  lemma {:induction false} RewritesPointwise<R>(items: seq<R>, n: nat, f: (R, nat) -> (R, bool))
    requires n <= |items|
    ensures RewriteEach(items, n, f).1 <==> forall i | 0 <= i < n :: f(items[i], i).1
    ensures RewriteEach(items, n, f).1 ==>
      forall i | 0 <= i < |items| :: RewriteEach(items, n, f).0[i] == if i < n then f(items[i], i).0 else items[i]
  {
    if n > 0 { RewritesPointwise(items, n - 1, f); }
  }

  /** When each rewritten element is a fixed point, so is the rewritten list. */
  lemma RewriteSettles<R>(items: seq<R>, f: (R, nat) -> (R, bool))
    requires RewriteEach(items, |items|, f).1
    requires forall i | 0 <= i < |items| :: f(f(items[i], i).0, i) == (f(items[i], i).0, true)
    ensures var done := RewriteEach(items, |items|, f).0; RewriteEach(done, |done|, f) == (done, true)
  {
    var done := RewriteEach(items, |items|, f).0;
    RewritesPointwise(items, |items|, f);
    RewritesPointwise(done, |done|, f);
    assert RewriteEach(done, |done|, f).0 == done;
  }

  // ---- Idempotence ----

  lemma ActionSettled(s: string)
    ensures NormalizeAction(NormalizeAction(s)) == NormalizeAction(s)
  {
    FoldKeepsTrimmed(TrimSpace(s));
  }

  lemma {:induction false} DecimalHasNoSpace(n: nat)
    ensures Decimal(n) != "" && !IsSpace(Decimal(n)[|Decimal(n)| - 1])
  {
  }

  lemma NameSettled(name: string, i: nat)
    ensures RuleName(RuleName(name, i), i) == RuleName(name, i)
  {
    if Blank(name) {
      DecimalHasNoSpace(i + 1);
      var s := "rule-" + Decimal(i + 1);
      assert s[0] == 'r' && s[|s| - 1] == Decimal(i + 1)[|Decimal(i + 1)| - 1];
      assert IsTrimmed(s);
    }
  }

  lemma ListsSettled(r: Rule)
    ensures NormalizeRuleLists(NormalizeRuleLists(r)) == NormalizeRuleLists(r)
  {
    NormalizeListIdempotent(r.agents, false);
    NormalizeListIdempotent(r.tenants, false);
    NormalizeListIdempotent(r.projects, false);
    NormalizeListIdempotent(r.artifacts, false);
    NormalizeListIdempotent(r.profiles, false);
    NormalizeListIdempotent(r.programTypes, true);
    NormalizeListIdempotent(r.attachKinds, true);
  }

  lemma RuleSettled(r: Rule, i: nat)
    requires NormalizeRule(r, i).1
    ensures NormalizeRule(NormalizeRule(r, i).0, i) == (NormalizeRule(r, i).0, true)
  {
    var named := r.(name := RuleName(r.name, i), action := NormalizeAction(r.action));
    NameSettled(r.name, i);
    ActionSettled(r.action);
    ListsSettled(named);
  }

  lemma RulesSettled(rules: seq<Rule>)
    requires NormalizeRules(rules).1
    ensures NormalizeRules(NormalizeRules(rules).0) == (NormalizeRules(rules).0, true)
  {
    RewritesPointwise(rules, |rules|, NormalizeRule);
    forall i | 0 <= i < |rules|
      ensures NormalizeRule(NormalizeRule(rules[i], i).0, i) == (NormalizeRule(rules[i], i).0, true)
    {
      RuleSettled(rules[i], i);
    }
    RewriteSettles(rules, NormalizeRule);
  }

  lemma DefaultSettled(p: Policy)
    requires IsAction(DefaultOf(p))
    ensures forall q: Policy :: q.defaultAction == DefaultOf(p) ==> DefaultOf(q) == DefaultOf(p)
  {
    ActionSettled(p.defaultAction);
    assert NormalizeAction("deny") == "deny" by { assert TrimSpace("deny") == "deny"; }
  }

  /** Normalizing a valid policy twice is normalizing it once. */
  lemma NormalizeIdempotent(p: Policy)
    requires Valid(p)
    ensures Normalize(Normalize(p).0) == (Normalize(p).0, true)
  {
    var q := Normalize(p).0;
    DefaultSettled(p);
    assert DefaultOf(q) == q.defaultAction;
    assert NormalizeList(q.allowedAgents, false) == q.allowedAgents by {
      NormalizeListIdempotent(p.allowedAgents, false);
    }
    assert NormalizeList(q.revokedAgents, false) == q.revokedAgents by {
      NormalizeListIdempotent(p.revokedAgents, false);
    }
    assert NormalizeRules(q.rules) == (q.rules, true) by { RulesSettled(p.rules); }
    assert SchemaOk(q);
  }
}
