/**
 What the gates before a host load require of the command line, the plan, the manifest and the policy as written.
 */
module ApplyGates {
  import opened Text
  import opened LoadPolicy
  import opened PolicyDecision
  import opened PolicyMeaning
  import opened Apply

  /** Two hashes are the same but for case and padding. */
  predicate SameHash(a: string, b: string) {
    ToLower(TrimSpace(a)) == ToLower(TrimSpace(b))
  }

  /** The hash of the selected artifact: the plan's, else the one the fetch expected, else the one it found. */
  predicate IsArtifactHash(hash: string, plan: Plan, fetch: FetchResult) {
    || (!Blank(plan.selected.sha) && SameHash(hash, plan.selected.sha))
    || (Blank(plan.selected.sha) && !Blank(fetch.expectedSha) && SameHash(hash, fetch.expectedSha))
    || (Blank(plan.selected.sha) && Blank(fetch.expectedSha) && !Blank(fetch.actualSha) &&
        SameHash(hash, fetch.actualSha))
  }

  /** What was reviewed is what is loaded, as far as it was pinned. */
  predicate AsReviewed(o: Options, plan: Plan, fetch: FetchResult) {
    && (o.requirePins ==> !Blank(o.expectedDecisionId) && !Blank(o.expectedSha))
    && (!Blank(o.expectedDecisionId) ==> TrimSpace(o.expectedDecisionId) == TrimSpace(plan.decisionId))
    && (!Blank(o.expectedSha) ==>
        |TrimSpace(o.expectedSha)| == 64 && IsHexSha(TrimSpace(o.expectedSha)) &&
        IsArtifactHash(o.expectedSha, plan, fetch))
  }

  lemma FirstOfThree(a: string, b: string, c: string)
    ensures FirstNonEmpty([a, b, c]) ==
      TrimSpace(if !Blank(a) then a else if !Blank(b) then b else if !Blank(c) then c else "")
  {
    assert [a, b, c][1..] == [b, c] && [b, c][1..] == [c] && [c][1..] == [];
    assert FirstNonEmpty([c]) == if !Blank(c) then TrimSpace(c) else "";
  }

  lemma HexFolds(s: string)
    ensures IsHexSha(ToLower(s)) <==> IsHexSha(s)
  {
    if IsHexSha(ToLower(s)) {
      forall i | 0 <= i < |s|
        ensures '0' <= s[i] <= '9' || 'a' <= s[i] <= 'f' || 'A' <= s[i] <= 'F'
      {
        assert ToLower(s)[i] == LowerChar(s[i]);
      }
    }
    if IsHexSha(s) {
      forall i | 0 <= i < |s|
        ensures '0' <= ToLower(s)[i] <= '9' || 'a' <= ToLower(s)[i] <= 'f'
      {
        assert ToLower(s)[i] == LowerChar(s[i]);
      }
    }
  }

  /** The pin gate passes exactly when what is loaded is as reviewed. */
  lemma PinsExactly(o: Options, plan: Plan, fetch: FetchResult)
    ensures PinsHold(o, plan, fetch) <==> AsReviewed(o, plan, fetch)
  {
    var raw := TrimSpace(o.expectedSha);
    FirstOfThree(plan.selected.sha, fetch.expectedSha, fetch.actualSha);
    HexFolds(raw);
    assert |ToLower(raw)| == |raw|;
    assert forall s: string :: ToLower(s) == "" <==> s == "";
  }

  /** The manifest in use: the one given, else for a local registry the record's. */
  predicate Uses(o: Options, w: World, path: string) {
    path == if !Blank(o.manifestPath) then TrimSpace(o.manifestPath)
            else if w.remote then "" else TrimSpace(w.recordManifestPath)
  }

  /** The manifest gate passes exactly when one in use declares a program, or none is in use and none is required. */
  lemma ManifestExactly(o: Options, w: World, path: string)
    requires Uses(o, w, path)
    ensures ManifestHolds(o, w) <==>
      if path != "" then w.manifest.Ok? && |w.manifest.value| > 0 else !o.requireManifest
  {
  }

  /** What the policy decides on: the load, with the programs of the manifest in use. */
  function Deciding(w: World, path: string): Context {
    w.context.(programs := if path != "" && w.policyManifest.Ok? then Some(w.policyManifest.value) else None)
  }

  /**
   The policy gate passes exactly when there is no policy and none is required, or the policy is valid, the manifest in
   use is readable, and the policy as written allows the load.
   */
  lemma PolicyExactly(o: Options, w: World, path: string)
    requires Uses(o, w, path)
    ensures PolicyAllows(o, w) <==>
      if Blank(o.policyPath) then !o.requirePolicy
      else
        && w.policy.Ok? && Valid(w.policy.value) && (path != "" ==> w.policyManifest.Ok?)
        && Evaluate(w.policy.value, Deciding(w, path), w.glob).allowed
  {
    if !Blank(o.policyPath) && w.policy.Ok? && Valid(w.policy.value) {
      EvaluateNormalized(w.policy.value, Deciding(w, path), w.glob);
      assert PolicyContext(o, w) == Deciding(w, path);
    }
  }

  /**
   An executed load under a required policy that denies by default has a rule, as written, that allows it and applies
   to it, and its agent is not refused.
   */
  lemma ExecutedHasRule(o: Options, w: World, plan: Plan, fetch: FetchResult, path: string) returns (k: nat)
    requires GatesPass(o, w, plan, fetch) && Uses(o, w, path)
    requires o.requirePolicy && w.policy.Ok? && !SaysAllow(w.policy.value.defaultAction)
    ensures !AgentRefused(w.policy.value, Deciding(w, path), w.glob)
    ensures FirstToApply(w.policy.value.rules, Deciding(w, path), w.glob, k)
    ensures SaysAllow(w.policy.value.rules[k].action)
  {
    PolicyExactly(o, w, path);
    AllowsExactly(w.policy.value, Deciding(w, path), w.glob);
    k := AllowNeedsRule(w.policy.value, Deciding(w, path), w.glob);
  }
}
