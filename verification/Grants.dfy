/**
 Token grants: who a request acts as, and what revoking a subject changes.
 Comparing a presented token with a grant's stored credential is the parameter `matches`.
 */
module Grants {
  import opened Text

  /** A time stamp as written in a grant. */
  datatype Stamp = Unset | Malformed | At(time: int)

  datatype Grant = Grant(
    credential: string, notBefore: Stamp, expiresAt: Stamp,
    subject: string, tenant: string, projects: seq<string>, canRead: bool, canWrite: bool)

  datatype Request = Request(token: string, tenant: string, project: string, write: bool, now: int)

  /** The bootstrap token of the environment, and whether its own validity window is open. */
  datatype Bootstrap = Bootstrap(token: string, open: bool)

  datatype Principal = Principal(subject: string, tenant: string, project: string, canRead: bool, canWrite: bool)

  datatype Answer = Granted(principal: Principal) | BadRequest | Unauthorized | Forbidden

  type Matcher = (string, string) -> bool

  predicate InWindow(g: Grant, now: int) {
    && (match g.notBefore case Unset => true case Malformed => false case At(t) => t <= now)
    && (match g.expiresAt case Unset => true case Malformed => false case At(t) => now < t)
  }

  predicate IsWildcard(pattern: string) {
    Blank(pattern) || TrimSpace(pattern) == "*"
  }

  predicate MatchScope(value: string, pattern: string) {
    IsWildcard(pattern) || value == TrimSpace(pattern)
  }

  predicate MatchProject(project: string, patterns: seq<string>) {
    patterns == [] || exists i | 0 <= i < |patterns| :: MatchScope(project, patterns[i])
  }

  predicate TenantWide(patterns: seq<string>) {
    exists i | 0 <= i < |patterns| :: TrimSpace(patterns[i]) == "*"
  }

  /** What a request asks for once its identifiers are checked: `project` is empty for the whole tenant. */
  datatype Ask = Ask(token: string, tenant: string, project: string, write: bool, now: int)

  predicate Covers(g: Grant, tenant: string, project: string) {
    MatchScope(tenant, g.tenant) &&
      (if project == "" then TenantWide(g.projects) else MatchProject(project, g.projects))
  }

  predicate Allows(g: Grant, write: bool) {
    g.canWrite || (!write && g.canRead)
  }

  predicate Usable(g: Grant, ask: Ask, matches: Matcher) {
    && matches(g.credential, ask.token)
    && InWindow(g, ask.now)
    && Covers(g, ask.tenant, ask.project)
    && Allows(g, ask.write)
  }

  function SubjectOf(g: Grant): string {
    if Blank(g.subject) then "token" else TrimSpace(g.subject)
  }

  function PrincipalOf(g: Grant, ask: Ask): Principal {
    Principal(SubjectOf(g), ask.tenant, ask.project, g.canRead || g.canWrite, g.canWrite)
  }

  /** The first grant the request can use. */
  function FirstUsable(grants: seq<Grant>, ask: Ask, matches: Matcher): Option<Grant> {
    if grants == [] then None
    else if Usable(grants[0], ask, matches) then Some(grants[0])
    else FirstUsable(grants[1..], ask, matches)
  }

  predicate AnyMatches(grants: seq<Grant>, token: string, matches: Matcher) {
    exists i | 0 <= i < |grants| :: matches(grants[i].credential, token)
  }

  function Resolve(grants: seq<Grant>, ask: Ask, matches: Matcher): Answer {
    var first := FirstUsable(grants, ask, matches);
    if first.Some? then Granted(PrincipalOf(first.value, ask))
    else if AnyMatches(grants, ask.token, matches) then Forbidden
    else Unauthorized
  }

  /** The request with its identifiers checked. */
  function Checked(req: Request): Option<Ask> {
    if ValidateId(req.tenant).None? || (!Blank(req.project) && ValidateId(req.project).None?) then None
    else
      var project := if Blank(req.project) then req.project else ValidateId(req.project).value;
      Some(Ask(TrimSpace(req.token), ValidateId(req.tenant).value, project, req.write, req.now))
  }

  predicate BootstrapAnswers(bootstrap: Bootstrap, ask: Ask) {
    !Blank(bootstrap.token) && TrimSpace(bootstrap.token) == ask.token
  }

  function Authorize(grants: seq<Grant>, bootstrap: Bootstrap, req: Request, matches: Matcher): Answer {
    var ask := Checked(req);
    if ask.None? then BadRequest
    else if ask.value.token == "" then Unauthorized
    else if BootstrapAnswers(bootstrap, ask.value) then
      if bootstrap.open then Granted(Principal("bootstrap-token", ask.value.tenant, ask.value.project, true, true))
      else Unauthorized
    else Resolve(grants, ask.value, matches)
  }

  lemma {:induction false} FirstUsableIs(grants: seq<Grant>, ask: Ask, matches: Matcher, i: nat)
    requires i < |grants| && Usable(grants[i], ask, matches)
    requires forall j | 0 <= j < i :: !Usable(grants[j], ask, matches)
    ensures FirstUsable(grants, ask, matches) == Some(grants[i])
  {
    if i > 0 { FirstUsableIs(grants[1..], ask, matches, i - 1); }
  }

  lemma {:induction false} NoneUsable(grants: seq<Grant>, ask: Ask, matches: Matcher)
    ensures FirstUsable(grants, ask, matches).None? <==>
      forall i | 0 <= i < |grants| :: !Usable(grants[i], ask, matches)
  {
    if grants != [] {
      NoneUsable(grants[1..], ask, matches);
      assert forall i | 1 <= i < |grants| :: grants[i] == grants[1..][i - 1];
    }
  }

  /** The loop over the grants: the first usable one wins; a matching token that none of them lets in is forbidden. */
  method ResolveToken(grants: seq<Grant>, ask: Ask, matches: Matcher) returns (answer: Answer)
    ensures answer == Resolve(grants, ask, matches)
    ensures answer == Forbidden <==>
      AnyMatches(grants, ask.token, matches) && forall i | 0 <= i < |grants| :: !Usable(grants[i], ask, matches)
    ensures answer == Unauthorized <==> !AnyMatches(grants, ask.token, matches)
    ensures answer.Granted? <==> exists i | 0 <= i < |grants| :: Usable(grants[i], ask, matches)
  {
    NoneUsable(grants, ask, matches);
    var matched, i := false, 0;
    while i < |grants|
      invariant i <= |grants|
      invariant matched <==> AnyMatches(grants[..i], ask.token, matches)
      invariant forall j | 0 <= j < i :: !Usable(grants[j], ask, matches)
    {
      var g := grants[i];
      AnyMatchesSnoc(grants[..i], g, ask.token, matches);
      assert grants[..i + 1] == grants[..i] + [g];
      if matches(g.credential, ask.token) {
        matched := true;
        if InWindow(g, ask.now) && MatchScope(ask.tenant, g.tenant) {
          var projectOk := if ask.project == "" then TenantWide(g.projects) else MatchProject(ask.project, g.projects);
          var canRead, canWrite := g.canRead || g.canWrite, g.canWrite;
          if projectOk && (if ask.write then canWrite else canRead) {
            FirstUsableIs(grants, ask, matches, i);
            assert AnyMatches(grants, ask.token, matches);
            return Granted(Principal(SubjectOf(g), ask.tenant, ask.project, canRead, canWrite));
          }
        }
      }
      i := i + 1;
    }
    assert grants[..i] == grants;
    return if matched then Forbidden else Unauthorized;
  }

  lemma AnyMatchesSnoc(grants: seq<Grant>, g: Grant, token: string, matches: Matcher)
    ensures AnyMatches(grants + [g], token, matches) <==>
      AnyMatches(grants, token, matches) || matches(g.credential, token)
  {
    var all := grants + [g];
    if AnyMatches(grants, token, matches) {
      var i :| 0 <= i < |grants| && matches(grants[i].credential, token);
      assert all[i] == grants[i];
    }
    if AnyMatches(all, token, matches) {
      var i :| 0 <= i < |all| && matches(all[i].credential, token);
      assert i < |grants| ==> all[i] == grants[i];
    }
    assert all[|grants|] == g;
  }

  // ---- When a request is let in ----

  /** A pattern of a grant, as written, reaches a name. */
  predicate Reaches(pattern: string, name: string) {
    TrimSpace(pattern) in {"", "*", name}
  }

  /** A grant, as written, lets a checked request in. */
  predicate Opens(g: Grant, ask: Ask, matches: Matcher) {
    && matches(g.credential, ask.token)
    && !g.notBefore.Malformed? && (g.notBefore.At? ==> g.notBefore.time <= ask.now)
    && !g.expiresAt.Malformed? && (g.expiresAt.At? ==> ask.now < g.expiresAt.time)
    && Reaches(g.tenant, ask.tenant)
    && (if ask.project == "" then exists p :: p in g.projects && TrimSpace(p) == "*"
        else g.projects == [] || exists p :: p in g.projects && Reaches(p, ask.project))
    && (if ask.write then g.canWrite else g.canRead || g.canWrite)
  }

  lemma UsableIsOpen(g: Grant, ask: Ask, matches: Matcher)
    ensures Usable(g, ask, matches) <==> Opens(g, ask, matches)
  {
    assert forall i | 0 <= i < |g.projects| :: g.projects[i] in g.projects;
  }

  /**
   What a request asks for, as checked: trimmed token, tenant and project. It is a bad request exactly when the tenant,
   or a project that is not blank, is no identifier.
   */
  lemma CheckedExactly(req: Request)
    ensures Checked(req).None? <==>
      !IsIdentifier(TrimSpace(req.tenant)) || (!Blank(req.project) && !IsIdentifier(TrimSpace(req.project)))
    ensures Checked(req).Some? ==>
      Checked(req).value == Ask(TrimSpace(req.token), TrimSpace(req.tenant),
                                if Blank(req.project) then req.project else TrimSpace(req.project), req.write, req.now)
  {
    var tenant, project := ValidateId(req.tenant), ValidateId(req.project);
    assert tenant.Some? <==> IsIdentifier(TrimSpace(req.tenant));
    assert project.Some? <==> IsIdentifier(TrimSpace(req.project));
  }

  /** The bootstrap token lets any checked request in, with full rights, while its own window is open, and only then. */
  lemma BootstrapExactly(grants: seq<Grant>, bootstrap: Bootstrap, req: Request, matches: Matcher)
    requires Checked(req).Some? && !Blank(req.token) && TrimSpace(bootstrap.token) == TrimSpace(req.token)
    ensures Authorize(grants, bootstrap, req, matches) ==
      if !bootstrap.open then Unauthorized
      else Granted(Principal("bootstrap-token", Checked(req).value.tenant, Checked(req).value.project, true, true))
  {
  }

  /**
   A request that is well formed, has a token, and is not the bootstrap token's is let in exactly when some grant opens
   to it; it then acts as that grant's subject, for the tenant and project it asked for.
   */
  lemma LetInExactly(grants: seq<Grant>, bootstrap: Bootstrap, req: Request, matches: Matcher)
    requires Checked(req).Some? && !Blank(req.token) && TrimSpace(bootstrap.token) != TrimSpace(req.token)
    ensures var ask, answer := Checked(req).value, Authorize(grants, bootstrap, req, matches);
      && (answer.Granted? <==> exists g :: g in grants && Opens(g, ask, matches))
      && (answer.Granted? ==> exists g :: g in grants && Opens(g, ask, matches) && ActsFor(answer.principal, g, ask))
      && (!answer.Granted? ==>
          answer == if exists g :: g in grants && matches(g.credential, ask.token) then Forbidden else Unauthorized)
  {
    var ask := Checked(req).value;
    NoneUsable(grants, ask, matches);
    FirstUsableIn(grants, ask, matches);
    forall g { UsableIsOpen(g, ask, matches); }
    assert forall i | 0 <= i < |grants| :: grants[i] in grants;
  }

  /** What a request let in by a grant acts as. */
  predicate ActsFor(p: Principal, g: Grant, ask: Ask) {
    && p.subject == (if Blank(g.subject) then "token" else TrimSpace(g.subject))
    && p.tenant == ask.tenant && p.project == ask.project
    && p.canWrite == g.canWrite && p.canRead == (g.canRead || g.canWrite)
  }

  /** A token whose grants are all expired, not yet valid or with an unreadable date is refused. */
  lemma OutsideWindowRefused(grants: seq<Grant>, bootstrap: Bootstrap, req: Request, matches: Matcher)
    requires Checked(req).Some? && TrimSpace(bootstrap.token) != TrimSpace(req.token)
    requires forall g | g in grants && matches(g.credential, TrimSpace(req.token)) ::
      || g.expiresAt.Malformed? || (g.expiresAt.At? && g.expiresAt.time <= req.now)
      || g.notBefore.Malformed? || (g.notBefore.At? && req.now < g.notBefore.time)
    ensures Authorize(grants, bootstrap, req, matches) in {Unauthorized, Forbidden}
  {
    if !Blank(req.token) { LetInExactly(grants, bootstrap, req, matches); }
  }

  // ---- Revocation ----

  /** A revocation; its strings are trimmed, and `project` is empty when every project is meant. */
  datatype Scope = AllTenants(subject: string) | InTenant(subject: string, tenant: string, project: string)

  predicate Revoked(g: Grant, scope: Scope) {
    && TrimSpace(g.subject) == scope.subject
    && (scope.InTenant? ==>
        && TrimSpace(g.tenant) == scope.tenant
        && (scope.project == "" || g.projects == []
            || exists i | 0 <= i < |g.projects| ::
              TrimSpace(g.projects[i]) == "*" || TrimSpace(g.projects[i]) == scope.project))
  }

  function Kept(grants: seq<Grant>, scope: Scope): seq<Grant> {
    if grants == [] then []
    else (if Revoked(grants[0], scope) then [] else [grants[0]]) + Kept(grants[1..], scope)
  }

  datatype Command = Command(subject: string, tenant: string, project: string, allTenants: bool, dryRun: bool)

  /** The scope a command names, when its flags go together. */
  function ScopeOf(cmd: Command): Option<Scope> {
    var subject, tenant, project := TrimSpace(cmd.subject), TrimSpace(cmd.tenant), TrimSpace(cmd.project);
    if subject == "" || (if cmd.allTenants then tenant != "" || project != "" else tenant == "") then None
    else Some(if cmd.allTenants then AllTenants(subject) else InTenant(subject, tenant, project))
  }

  lemma {:induction false} KeptShorter(grants: seq<Grant>, scope: Scope)
    ensures |Kept(grants, scope)| <= |grants|
    ensures |Kept(grants, scope)| < |grants| <==> exists i | 0 <= i < |grants| :: Revoked(grants[i], scope)
  {
    if grants != [] {
      KeptShorter(grants[1..], scope);
      assert forall i | 1 <= i < |grants| :: grants[i] == grants[1..][i - 1];
    }
  }

  lemma KeptStep(grants: seq<Grant>, i: nat, scope: Scope, kept: seq<Grant>)
    requires i < |grants|
    ensures kept + Kept(grants[i..], scope) ==
      (if Revoked(grants[i], scope) then kept else kept + [grants[i]]) + Kept(grants[i + 1..], scope)
  {
    assert grants[i..][1..] == grants[i + 1..];
  }

  method KeepOutside(grants: seq<Grant>, scope: Scope) returns (kept: seq<Grant>, removed: nat)
    ensures kept == Kept(grants, scope)
    ensures removed == |grants| - |kept|
    ensures removed > 0 <==> exists i | 0 <= i < |grants| :: Revoked(grants[i], scope)
  {
    kept, removed := [], 0;
    var i := 0;
    while i < |grants|
      invariant i <= |grants|
      invariant kept + Kept(grants[i..], scope) == Kept(grants, scope)
      invariant removed == i - |kept|
    {
      KeptStep(grants, i, scope, kept);
      if Revoked(grants[i], scope) { removed := removed + 1; } else { kept := kept + [grants[i]]; }
      i := i + 1;
    }
    assert grants[i..] == [];
    KeptShorter(grants, scope);
  }

  class AuthConfig {
    var tokens: seq<Grant>

    constructor (grants: seq<Grant>)
      ensures tokens == grants
    {
      tokens := grants;
    }

    /**
     Removes the grants in scope; a bad command, an empty scope, a dry run and a failing file leave the file as it was.
     */
    method Revoke(cmd: Command, loadOk: bool, writeOk: bool) returns (ok: bool)
      modifies this
      ensures ok <==>
        && ScopeOf(cmd).Some? && loadOk && (cmd.dryRun || writeOk)
        && exists i | 0 <= i < |old(tokens)| :: Revoked(old(tokens)[i], ScopeOf(cmd).value)
      ensures tokens == if ok && !cmd.dryRun then Kept(old(tokens), ScopeOf(cmd).value) else old(tokens)
    {
      var parsed := ScopeOf(cmd);
      if parsed.None? || !loadOk { return false; }
      var kept, removed := KeepOutside(tokens, parsed.value);
      if removed == 0 { return false; }
      if cmd.dryRun { return true; }
      if !writeOk { return false; }
      tokens := kept;
      ok := true;
    }
  }

  lemma {:induction false} FirstUsableIn(grants: seq<Grant>, ask: Ask, matches: Matcher)
    ensures var first := FirstUsable(grants, ask, matches);
      first.Some? ==> first.value in grants && Usable(first.value, ask, matches)
  {
    if grants != [] { FirstUsableIn(grants[1..], ask, matches); }
  }

  lemma {:induction false} KeptIn(grants: seq<Grant>, scope: Scope, g: Grant)
    ensures g in Kept(grants, scope) <==> g in grants && !Revoked(g, scope)
  {
    if grants != [] { KeptIn(grants[1..], scope, g); }
  }

  lemma {:induction false} WinnerKept(grants: seq<Grant>, scope: Scope, ask: Ask, matches: Matcher)
    ensures var first := FirstUsable(grants, ask, matches);
      first.Some? && !Revoked(first.value, scope) ==> FirstUsable(Kept(grants, scope), ask, matches) == first
  {
    if grants != [] {
      WinnerKept(grants[1..], scope, ask, matches);
      var kept := Kept(grants, scope);
      if Revoked(grants[0], scope) {
        assert kept == Kept(grants[1..], scope);
      } else {
        assert kept[0] == grants[0] && kept[1..] == Kept(grants[1..], scope);
      }
    }
  }

  /**
   A request answered by the bootstrap token, or won by a grant outside the scope, is answered identically after a
   revocation.
   */
  lemma OthersUnchanged(grants: seq<Grant>, scope: Scope, bootstrap: Bootstrap, req: Request, matches: Matcher)
    requires Checked(req).Some? ==>
      var first := FirstUsable(grants, Checked(req).value, matches);
      first.None? || !Revoked(first.value, scope)
    requires Authorize(grants, bootstrap, req, matches).Granted?
    ensures Authorize(Kept(grants, scope), bootstrap, req, matches) == Authorize(grants, bootstrap, req, matches)
  {
    WinnerKept(grants, scope, Checked(req).value, matches);
  }

  /** Revocation lets nothing in that was not let in before. */
  lemma RevocationOnlyRemoves(grants: seq<Grant>, scope: Scope, bootstrap: Bootstrap, req: Request, matches: Matcher)
    requires Authorize(Kept(grants, scope), bootstrap, req, matches).Granted?
    ensures Authorize(grants, bootstrap, req, matches).Granted?
  {
    var ask := Checked(req).value;
    var first := FirstUsable(Kept(grants, scope), ask, matches);
    FirstUsableIn(Kept(grants, scope), ask, matches);
    NoneUsable(grants, ask, matches);
    if first.Some? { KeptIn(grants, scope, first.value); }
  }

  /**
   After every grant of `subject` is revoked a request acts as `subject` only under a built-in label: the bootstrap
   token's, or the one given to grants that name no subject.
   */
  lemma RevokedSubjectIsGone(grants: seq<Grant>, subject: string, bootstrap: Bootstrap, req: Request, matches: Matcher)
    requires IsTrimmed(subject) && subject != ""
    requires var answer := Authorize(Kept(grants, AllTenants(subject)), bootstrap, req, matches);
      answer.Granted? && answer.principal.subject == subject
    ensures if BootstrapAnswers(bootstrap, Checked(req).value) then subject == "bootstrap-token"
            else
              var first := FirstUsable(Kept(grants, AllTenants(subject)), Checked(req).value, matches);
              subject == "token" && Blank(first.value.subject)
  {
    var ask := Checked(req).value;
    var kept := Kept(grants, AllTenants(subject));
    var first := FirstUsable(kept, ask, matches);
    FirstUsableIn(kept, ask, matches);
    if first.Some? { KeptIn(grants, AllTenants(subject), first.value); }
  }

  // ---- Revoking in one tenant or project ----

  predicate NamesOrStar(patterns: seq<string>, project: string) {
    exists i | 0 <= i < |patterns| :: TrimSpace(patterns[i]) == "*" || TrimSpace(patterns[i]) == project
  }

  /**
   A grant of the subject that reaches a tenant and project outlives their revocation exactly when it reaches the
   tenant by a wildcard, or the project only by a blank pattern.
   */
  lemma SurvivesExactly(g: Grant, subject: string, tenant: string, project: string)
    requires TrimSpace(g.subject) == subject && tenant != "" && tenant != "*" && project != "" &&
      Covers(g, tenant, project)
    ensures !Revoked(g, InTenant(subject, tenant, project)) <==>
      IsWildcard(g.tenant)
      || (g.projects != [] && !NamesOrStar(g.projects, project) && exists i | 0 <= i < |g.projects| ::
        Blank(g.projects[i]))
  {
    if g.projects != [] && !NamesOrStar(g.projects, project) {
      var i :| 0 <= i < |g.projects| && MatchScope(project, g.projects[i]);
      assert Blank(g.projects[i]);
    }
  }

  /** Revoking a whole tenant leaves exactly the subject's wildcard grants able to reach it. */
  lemma SurvivesTenantExactly(g: Grant, subject: string, tenant: string, project: string)
    requires TrimSpace(g.subject) == subject && tenant != "" && tenant != "*" && Covers(g, tenant, project)
    ensures !Revoked(g, InTenant(subject, tenant, "")) <==> IsWildcard(g.tenant)
  {
  }

  /** A revocation leaves every grant of another subject, of another tenant, or for other projects of the tenant. */
  lemma OthersKept(grants: seq<Grant>, scope: Scope, g: Grant)
    requires g in grants
    requires || TrimSpace(g.subject) != scope.subject
             || (scope.InTenant? && TrimSpace(g.tenant) != scope.tenant)
             || (scope.InTenant? && scope.project != "" && g.projects != [] && !NamesOrStar(g.projects, scope.project))
    ensures g in Kept(grants, scope)
  {
    KeptIn(grants, scope, g);
  }

  /** The scope of a command: a subject, and either a tenant, with a project or without, or all tenants. */
  lemma ScopeExactly(cmd: Command)
    ensures ScopeOf(cmd).None? <==>
      || Blank(cmd.subject)
      || (cmd.allTenants && (!Blank(cmd.tenant) || !Blank(cmd.project)))
      || (!cmd.allTenants && Blank(cmd.tenant))
    ensures ScopeOf(cmd).Some? ==>
      && ScopeOf(cmd).value.subject == TrimSpace(cmd.subject) && (ScopeOf(cmd).value.AllTenants? <==> cmd.allTenants)
      && (!cmd.allTenants ==> ScopeOf(cmd).value.tenant == TrimSpace(cmd.tenant) &&
                              ScopeOf(cmd).value.project == TrimSpace(cmd.project))
  {
  }

  /** One such grant: still the subject's, still write access to the project, after revoking just that. */
  lemma BlankPatternSurvives(matches: Matcher, bootstrap: Bootstrap)
    requires matches("c", "s") && bootstrap.token == ""
    ensures var g := Grant("c", Unset, Unset, "ci", "acme", [""], true, true);
      Authorize(Kept([g], InTenant("ci", "acme", "web")), bootstrap, Request("s", "acme", "web", true, 0), matches)
        == Granted(Principal("ci", "acme", "web", true, true))
  {
    var g := Grant("c", Unset, Unset, "ci", "acme", [""], true, true);
    assert IsIdentifier("acme") && IsIdentifier("web");
    assert IsTrimmed("s") && IsTrimmed("ci") && IsTrimmed("acme") && IsTrimmed("");
    assert MatchScope("web", g.projects[0]);
    assert !Revoked(g, InTenant("ci", "acme", "web"));
    assert Kept([g], InTenant("ci", "acme", "web")) == [g];
    assert Usable(g, Ask("s", "acme", "web", true, 0), matches);
  }
}
