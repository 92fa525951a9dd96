/** Scoped authorization: evaluate, and what AuthorizationManagementService lets one
    principal grant to another. */
module Authorization {
  import opened Wrappers
  import Calendar
  import Paths
  import ProviderTargets

  type Instant = Calendar.Instant
  const LAST_INSTANT: Instant := Calendar.LAST_INSTANT

  datatype Effect = Allow | Deny

  datatype Binding = Binding(
    id: string,
    permission: string,
    effect: Effect,
    canonicalPrefix: Option<string>,
    startsAt: Instant,
    expiresAt: Instant,
    reason: string,
    space: Option<string>)

  datatype Reason = ExplicitDeny | BindingAllow | DefaultDeny
  datatype SourceReason = PlatformTenantAdmin | BindingMatch | NoBinding
  datatype Source = Source(binding: Option<string>, effect: Effect, reason: SourceReason)
  datatype Decision = Decision(effect: Effect, reason: Reason, sources: seq<Source>)

  // -------------------------------------------------------------- evaluate

  predicate Matches(b: Binding, permission: string, space: Option<string>, key: string, now: Instant) {
    && b.permission == permission
    && b.startsAt <= now < b.expiresAt
    && (b.space.None? || b.space == space)
    && Paths.ScopeMatches(b.canonicalPrefix, key)
  }

  function Matching(bindings: seq<Binding>, permission: string, space: Option<string>, key: string, now: Instant)
    : (matching: seq<Binding>)
  {
    if bindings == [] then []
    else
      (if Matches(bindings[0], permission, space, key, now) then [bindings[0]] else [])
      + Matching(bindings[1..], permission, space, key, now)
  }

  function SourceOf(b: Binding): (source: Source) {
    Source(Some(b.id), b.effect, if "platform tenant-admin" <= b.reason then PlatformTenantAdmin else BindingMatch)
  }

  function SourcesOf(bindings: seq<Binding>): (sources: seq<Source>) {
    if bindings == [] then [] else [SourceOf(bindings[0])] + SourcesOf(bindings[1..])
  }

  /** An object key that is not canonical raises. */
  function Evaluate(permission: string, bindings: seq<Binding>, space: Option<string>, key: string, now: Instant)
    : (r: Result<Decision, Paths.Fault>)
  {
    if Paths.ValidateCanonicalPrefix(key).Err? then Err(Paths.NotCanonical)
    else
      var matches := Matching(bindings, permission, space, key, now);
      if exists b | b in matches :: b.effect.Deny? then Ok(Decision(Deny, ExplicitDeny, SourcesOf(matches)))
      else if exists b | b in matches :: b.effect.Allow? then Ok(Decision(Allow, BindingAllow, SourcesOf(matches)))
      else Ok(Decision(Deny, DefaultDeny, [Source(None, Deny, NoBinding)]))
  }

  lemma {:induction false} MatchingHolds(bindings: seq<Binding>, permission: string, space: Option<string>, key: string,
                                         now: Instant, b: Binding)
    ensures b in Matching(bindings, permission, space, key, now)
       <==> b in bindings && Matches(b, permission, space, key, now)
  {
    if bindings != [] {
      MatchingHolds(bindings[1..], permission, space, key, now, b);
      assert b in bindings <==> b == bindings[0] || b in bindings[1..];
    }
  }

  /** Some binding of this effect speaks about the request. */
  ghost predicate Speaks(bindings: seq<Binding>, effect: Effect, permission: string, space: Option<string>, key: string,
                         now: Instant)
  {
    exists b | b in bindings :: b.effect == effect && Matches(b, permission, space, key, now)
  }

  /** A matching denial always wins, a matching allowance decides otherwise, and without
      either nothing is allowed. */
  lemma EvaluateExactlyWhen(permission: string, bindings: seq<Binding>, space: Option<string>, key: string,
                            now: Instant)
    requires key == "" || Paths.Canonical(key)
    ensures var r := Evaluate(permission, bindings, space, key, now);
            && r.Ok?
            && (r.value.reason.ExplicitDeny? <==> Speaks(bindings, Deny, permission, space, key, now))
            && (r.value.effect.Allow? <==>
                  && Speaks(bindings, Allow, permission, space, key, now)
                  && !Speaks(bindings, Deny, permission, space, key, now))
            && (r.value.effect.Allow? <==> r.value.reason.BindingAllow?)
  {
    Paths.CanonicalExactlyWhen(key);
    forall b
      ensures b in Matching(bindings, permission, space, key, now)
         <==> b in bindings && Matches(b, permission, space, key, now)
    {
      MatchingHolds(bindings, permission, space, key, now, b);
    }
  }

  /** The five conditions under which a binding speaks to a request. */
  predicate AppliesTo(b: Binding, permission: string, space: Option<string>, key: string, now: Instant) {
    && b.permission == permission
    && b.startsAt <= now && now < b.expiresAt
    && (match b.space
        case None => true
        case Some(named) => space == Some(named))
    && (match b.canonicalPrefix
        case None => true
        case Some(prefix) => prefix == "" || Paths.Segments(prefix) <= Paths.Segments(key))
  }

  lemma SpeaksExactlyWhen(bindings: seq<Binding>, effect: Effect, permission: string, space: Option<string>,
                          key: string, now: Instant)
    ensures Speaks(bindings, effect, permission, space, key, now)
       <==> exists b | b in bindings :: b.effect == effect && AppliesTo(b, permission, space, key, now)
  {
    forall b | b in bindings
      ensures Matches(b, permission, space, key, now) <==> AppliesTo(b, permission, space, key, now)
    {
      Paths.ScopeMatchesExactlyWhen(b.canonicalPrefix, key);
    }
  }

  /** The decision in terms of the bindings alone: allowed if and only if an allowance
      applies and no denial does, and the reason says which. */
  lemma DecisionExactlyWhen(permission: string, bindings: seq<Binding>, space: Option<string>, key: string,
                            now: Instant)
    ensures var allowed := exists b | b in bindings :: b.effect == Allow && AppliesTo(b, permission, space, key, now);
            var denied := exists b | b in bindings :: b.effect == Deny && AppliesTo(b, permission, space, key, now);
            var r := Evaluate(permission, bindings, space, key, now);
            && (r.Ok? <==> key == "" || Paths.Canonical(key))
            && (r.Ok? ==>
                  && (r.value.effect == Allow <==> allowed && !denied)
                  && (r.value.reason == ExplicitDeny <==> denied)
                  && (r.value.reason == BindingAllow <==> allowed && !denied))
  {
    Paths.CanonicalExactlyWhen(key);
    SpeaksExactlyWhen(bindings, Allow, permission, space, key, now);
    SpeaksExactlyWhen(bindings, Deny, permission, space, key, now);
    if key == "" || Paths.Canonical(key) {
      EvaluateExactlyWhen(permission, bindings, space, key, now);
    }
  }

  /** The bindings that name no space, or this one. */
  function InSpace(bindings: seq<Binding>, space: string): (kept: seq<Binding>) {
    if bindings == [] then []
    else if bindings[0].space in [None, Some(space)] then [bindings[0]] + InSpace(bindings[1..], space)
    else InSpace(bindings[1..], space)
  }

  lemma {:induction false} OtherSpacesNeverMatch(permission: string, bindings: seq<Binding>, space: string, key: string,
                                                 now: Instant)
    ensures Matching(InSpace(bindings, space), permission, Some(space), key, now)
         == Matching(bindings, permission, Some(space), key, now)
  {
    if bindings != [] {
      OtherSpacesNeverMatch(permission, bindings[1..], space, key, now);
      var kept := InSpace(bindings, space);
      if bindings[0].space in [None, Some(space)] {
        assert kept[0] == bindings[0] && kept[1..] == InSpace(bindings[1..], space);
      }
    }
  }

  /** No binding of another space has any part in a decision. */
  lemma OtherSpacesDoNotMatter(permission: string, bindings: seq<Binding>, space: string, key: string, now: Instant)
    ensures Evaluate(permission, InSpace(bindings, space), Some(space), key, now)
         == Evaluate(permission, bindings, Some(space), key, now)
  {
    OtherSpacesNeverMatch(permission, bindings, space, key, now);
  }

  lemma {:induction false} SourcesHold(bindings: seq<Binding>, source: Source)
    ensures source in SourcesOf(bindings) <==> exists b | b in bindings :: SourceOf(b) == source
  {
    if bindings != [] {
      SourcesHold(bindings[1..], source);
      assert forall b :: b in bindings <==> b == bindings[0] || b in bindings[1..];
    }
  }

  /** A decision names all the bindings that spoke, whichever way, and no others. */
  lemma EvaluateNamesItsSources(permission: string, bindings: seq<Binding>, space: Option<string>, key: string,
                                now: Instant, source: Source)
    requires Evaluate(permission, bindings, space, key, now).Ok?
    ensures var decision := Evaluate(permission, bindings, space, key, now).value;
            source in decision.sources
            <==> if decision.reason.DefaultDeny? then source == Source(None, Deny, NoBinding)
                 else exists b | b in bindings :: Matches(b, permission, space, key, now) && SourceOf(b) == source
  {
    var matching := Matching(bindings, permission, space, key, now);
    SourcesHold(matching, source);
    forall b
      ensures b in matching <==> b in bindings && Matches(b, permission, space, key, now)
    {
      MatchingHolds(bindings, permission, space, key, now, b);
    }
  }

  /** The sources of a decision: one for each binding that applies, under its id, with its
      effect and a mark for the platform's admins; or the default, when none does. */
  lemma SourcesExactlyWhen(permission: string, bindings: seq<Binding>, space: Option<string>, key: string, now: Instant,
                           source: Source)
    requires Evaluate(permission, bindings, space, key, now).Ok?
    ensures source in Evaluate(permission, bindings, space, key, now).value.sources
       <==> || (exists b | b in bindings ::
                  AppliesTo(b, permission, space, key, now) && source.binding == Some(b.id) && source.effect == b.effect
                  && source.reason
                     == if "platform tenant-admin" <= b.reason then PlatformTenantAdmin else BindingMatch)
            || (source == Source(None, Deny, NoBinding)
                && forall b | b in bindings :: !AppliesTo(b, permission, space, key, now))
  {
    EvaluateNamesItsSources(permission, bindings, space, key, now, source);
    DecisionExactlyWhen(permission, bindings, space, key, now);
    forall b | b in bindings
      ensures Matches(b, permission, space, key, now) <==> AppliesTo(b, permission, space, key, now)
    {
      Paths.ScopeMatchesExactlyWhen(b.canonicalPrefix, key);
    }
    assert forall b | b in bindings && AppliesTo(b, permission, space, key, now) ::
             b.effect == Allow || b.effect == Deny;
    assert forall b ::
             SourceOf(b) == source
             <==> source.binding == Some(b.id) && source.effect == b.effect
                  && source.reason == if "platform tenant-admin" <= b.reason then PlatformTenantAdmin else BindingMatch;
  }

  function Stronger(a: Reason, b: Reason): (r: Reason) {
    if a.ExplicitDeny? || b.ExplicitDeny? then ExplicitDeny
    else if a.BindingAllow? || b.BindingAllow? then BindingAllow
    else DefaultDeny
  }

  /** The decision over two lists of bindings is the stronger of the decisions over each:
      neither their order nor repetition matters, and no list can outvote a denial. */
  lemma EvaluateJoins(permission: string, a: seq<Binding>, b: seq<Binding>, space: Option<string>, key: string,
                      now: Instant)
    requires key == "" || Paths.Canonical(key)
    ensures Evaluate(permission, a + b, space, key, now).Ok?
    ensures Evaluate(permission, a, space, key, now).Ok? && Evaluate(permission, b, space, key, now).Ok?
    ensures Evaluate(permission, a + b, space, key, now).value.reason
         == Stronger(Evaluate(permission, a, space, key, now).value.reason,
                     Evaluate(permission, b, space, key, now).value.reason)
  {
    EvaluateExactlyWhen(permission, a, space, key, now);
    EvaluateExactlyWhen(permission, b, space, key, now);
    EvaluateExactlyWhen(permission, a + b, space, key, now);
    forall effect
      ensures Speaks(a + b, effect, permission, space, key, now)
         <==> Speaks(a, effect, permission, space, key, now) || Speaks(b, effect, permission, space, key, now)
    {
      assert forall x :: x in a + b <==> x in a || x in b;
    }
    assert Speaks(a + b, Allow, permission, space, key, now)
      <==> Speaks(a, Allow, permission, space, key, now) || Speaks(b, Allow, permission, space, key, now);
    assert Speaks(a + b, Deny, permission, space, key, now)
      <==> Speaks(a, Deny, permission, space, key, now) || Speaks(b, Deny, permission, space, key, now);
  }

  // ------------------------------------------------------- what a store holds

  datatype Role = Role(name: string, permissions: seq<string>)
  datatype PlatformAdmin = PlatformAdmin(id: string, startsAt: Instant, expiresAt: Instant, reason: string)
  datatype Context = Context(principal: string, human: bool)

  datatype Store = Store(
    roles: map<string, Role>,
    bindings: map<string, seq<Binding>>,
    platformAdmins: map<string, PlatformAdmin>)

  /** The sets the service is configured with, in the order they are walked. */
  datatype Policy = Policy(
    delegable: Option<set<string>>,
    tenantAdmin: Option<seq<string>>,
    memberBaseline: seq<string>)

  datatype Fault =
    | RoleNotFound
    | PlatformRole
    | NotDelegable
    | ExceedsAuthority
    | NotInTheFuture
    | ExpiryExceedsAuthority
    | RoleWithoutPermissions
    | KeyNotCanonical         // evaluate raises

  function Baseline(permissions: seq<string>): (bindings: seq<Binding>) {
    seq(|permissions|, i requires 0 <= i < |permissions| =>
      Binding("s3mp:tenant-member:" + permissions[i], permissions[i], Allow, None, 0, LAST_INSTANT,
              "tenant member baseline", None))
  }

  function OfPlatformAdmin(admin: PlatformAdmin, permissions: seq<string>): (bindings: seq<Binding>) {
    seq(|permissions|, i requires 0 <= i < |permissions| =>
      Binding(admin.id, permissions[i], Allow, None, admin.startsAt, admin.expiresAt, admin.reason, None))
  }

  /** _bindings, with the members' baseline for humans. */
  function BindingsOf(policy: Policy, store: Store, ctx: Context): (bindings: seq<Binding>) {
    (if ctx.principal in store.bindings then store.bindings[ctx.principal] else [])
    + (if ctx.human then Baseline(policy.memberBaseline) else [])
    + (if policy.tenantAdmin.Some? && ctx.principal in store.platformAdmins
       then OfPlatformAdmin(store.platformAdmins[ctx.principal], policy.tenantAdmin.value)
       else [])
  }

  predicate IsPlatformTenantAdmin(policy: Policy, store: Store, ctx: Context) {
    ctx.human && policy.tenantAdmin.Some? && ctx.principal in store.platformAdmins
  }

  predicate AllowsAt(bindings: seq<Binding>, permission: string, space: Option<string>, key: string, now: Instant) {
    var r := Evaluate(permission, bindings, space, key, now);
    r.Ok? && r.value.effect.Allow?
  }

  /** Tenant-wide: no space, and no key. */
  predicate Allows(bindings: seq<Binding>, permission: string, now: Instant) {
    AllowsAt(bindings, permission, None, "", now)
  }

  /** prefix or "". */
  function KeyOf(prefix: Option<string>): (key: string) {
    if prefix.None? then "" else prefix.value
  }

  /** The binding alone grants the permission there now. */
  predicate CarriesAt(b: Binding, permission: string, space: Option<string>, key: string, now: Instant) {
    b.permission == permission && b.effect.Allow? && AllowsAt([b], permission, space, key, now)
  }

  predicate LastsAt(bindings: seq<Binding>, permission: string, space: Option<string>, key: string, now: Instant,
                    until: Instant)
  {
    exists b | b in bindings :: CarriesAt(b, permission, space, key, now) && b.expiresAt >= until
  }

  /** What is looked at before evaluate is asked about the binding alone. */
  predicate Reaches(b: Binding, permission: string, until: Instant) {
    b.permission == permission && b.effect.Allow? && b.expiresAt >= until
  }

  /** What _require_delegable_subset raises, if anything. */
  function DelegableFault(bindings: seq<Binding>, permissions: seq<string>, space: Option<string>, key: string,
                          now: Instant)
    : (fault: Option<Fault>)
  {
    if permissions == [] then None
    else if Paths.ValidateCanonicalPrefix(key).Err? then Some(KeyNotCanonical)
    else if exists p | p in permissions :: !AllowsAt(bindings, p, space, key, now) then Some(ExceedsAuthority)
    else None
  }

  lemma DelegableFaultStep(bindings: seq<Binding>, permissions: seq<string>, space: Option<string>, key: string,
                           now: Instant)
    requires permissions != []
    ensures DelegableFault(bindings, permissions, space, key, now)
         == if Paths.ValidateCanonicalPrefix(key).Err? then Some(KeyNotCanonical)
            else if !AllowsAt(bindings, permissions[0], space, key, now) then Some(ExceedsAuthority)
            else DelegableFault(bindings, permissions[1..], space, key, now)
  {
    assert forall p :: p in permissions <==> p == permissions[0] || p in permissions[1..];
  }

  /** And _require_delegation_expiry_bound: it comes to evaluate only with a binding that
      reaches the expiry, so the first permission decides about a key that is not canonical. */
  function ExpiryFault(bindings: seq<Binding>, permissions: seq<string>, space: Option<string>, key: string,
                       expiresAt: Instant, now: Instant)
    : (fault: Option<Fault>)
  {
    if permissions == [] then None
    else if Paths.ValidateCanonicalPrefix(key).Err? then
      if exists b | b in bindings :: Reaches(b, permissions[0], expiresAt)
        then Some(KeyNotCanonical) else Some(ExpiryExceedsAuthority)
    else if exists p | p in permissions :: !LastsAt(bindings, p, space, key, now, expiresAt)
      then Some(ExpiryExceedsAuthority)
    else None
  }

  lemma ExpiryFaultStep(bindings: seq<Binding>, permissions: seq<string>, space: Option<string>, key: string,
                        expiresAt: Instant, now: Instant)
    requires permissions != []
    ensures ExpiryFault(bindings, permissions, space, key, expiresAt, now)
         == if Paths.ValidateCanonicalPrefix(key).Err?
               && exists b | b in bindings :: Reaches(b, permissions[0], expiresAt) then Some(KeyNotCanonical)
            else if !LastsAt(bindings, permissions[0], space, key, now, expiresAt) then Some(ExpiryExceedsAuthority)
            else ExpiryFault(bindings, permissions[1..], space, key, expiresAt, now)
  {
    assert forall p :: p in permissions <==> p == permissions[0] || p in permissions[1..];
  }

  // --------------------------------------------------- what a grant must meet

  /** The checks that validate_role_grant and maximum_role_grant_expiry share. */
  function RoleFault(policy: Policy, store: Store, ctx: Context, role: string, now: Instant): (fault: Option<Fault>) {
    if role !in store.roles then Some(RoleNotFound)
    else
      var permissions := store.roles[role].permissions;
      if store.roles[role].name == "tenant-admin" then Some(PlatformRole)
      else if !IsPlatformTenantAdmin(policy, store, ctx) && policy.delegable.Some?
              && exists p | p in permissions :: p !in policy.delegable.value then Some(NotDelegable)
      else if !IsPlatformTenantAdmin(policy, store, ctx)
              && exists p | p in permissions :: !Allows(BindingsOf(policy, store, ctx), p, now) then
      Some(ExceedsAuthority)
      else None
  }

  /** The binding alone, tenant-wide, grants the permission now. */
  predicate Carries(b: Binding, permission: string, now: Instant) {
    CarriesAt(b, permission, None, "", now)
  }

  predicate Lasts(bindings: seq<Binding>, permission: string, now: Instant, until: Instant) {
    LastsAt(bindings, permission, None, "", now, until)
  }

  /** validate_role_grant: nothing, or the fault it raises. */
  function GrantFault(policy: Policy, store: Store, ctx: Context, role: string, expiresAt: Instant, now: Instant)
    : (fault: Option<Fault>)
  {
    var early := RoleFault(policy, store, ctx, role, now);
    if early.Some? then early
    else if expiresAt <= now then Some(NotInTheFuture)
    else if exists p | p in store.roles[role].permissions :: !Lasts(BindingsOf(policy, store, ctx), p, now, expiresAt)
    then Some(ExpiryExceedsAuthority)
    else None
  }

  function Expiries(bindings: seq<Binding>, permission: string, now: Instant): (expiries: seq<Instant>) {
    if bindings == [] then []
    else
      (if Carries(bindings[0], permission, now) then [bindings[0].expiresAt] else [])
      + Expiries(bindings[1..], permission, now)
  }

  function Max(s: seq<Instant>): (m: Instant)
    requires s != []
    ensures m in s && forall x | x in s :: x <= m
  {
    if |s| == 1 then s[0]
    else
      assert s == [s[0]] + s[1..];
      var rest := Max(s[1..]);
      if s[0] < rest then rest else s[0]
  }

  function Min(s: seq<Instant>): (m: Instant)
    requires s != []
    ensures m in s && forall x | x in s :: m <= x
  {
    if |s| == 1 then s[0]
    else
      assert s == [s[0]] + s[1..];
      var rest := Min(s[1..]);
      if rest < s[0] then rest else s[0]
  }

  /** The latest expiry of each permission, up to the first that has none. */
  function PerPermission(bindings: seq<Binding>, permissions: seq<string>, now: Instant)
    : (r: Result<seq<Instant>, Fault>)
  {
    if permissions == [] then Ok([])
    else
      var expiries := Expiries(bindings, permissions[0], now);
      if expiries == [] then Err(ExpiryExceedsAuthority)
      else
        After([Max(expiries)], PerPermission(bindings, permissions[1..], now))
  }

  function After(done: seq<Instant>, rest: Result<seq<Instant>, Fault>): (r: Result<seq<Instant>, Fault>) {
    if rest.Err? then rest else Ok(done + rest.value)
  }

  lemma AfterNone(rest: Result<seq<Instant>, Fault>)
    ensures After([], rest) == rest
  {
    assert rest.Ok? ==> [] + rest.value == rest.value;
  }

  lemma AfterOne(done: seq<Instant>, next: Instant, rest: Result<seq<Instant>, Fault>)
    ensures After(done, After([next], rest)) == After(done + [next], rest)
  {
    assert rest.Ok? ==> done + ([next] + rest.value) == done + [next] + rest.value;
  }

  /** maximum_role_grant_expiry. */
  function MaximumExpiry(policy: Policy, store: Store, ctx: Context, role: string, now: Instant)
    : (r: Result<Instant, Fault>)
  {
    var early := RoleFault(policy, store, ctx, role, now);
    if early.Some? then Err(early.value)
    else
      var each := PerPermission(BindingsOf(policy, store, ctx), store.roles[role].permissions, now);
      if each.Err? then Err(each.error)
      else if each.value == [] then Err(RoleWithoutPermissions)
      else Ok(Min(each.value))
  }

  /** The security audit that goes with a fault. */
  function AuditOf(fault: Option<Fault>): (codes: seq<string>) {
    match fault
    case Some(ExceedsAuthority) => ["permission_or_scope_exceeds_authority"]
    case Some(ExpiryExceedsAuthority) => ["expiry_exceeds_authority"]
    case _ => []
  }

  class AuthorizationManagementService {
    const policy: Policy
    const store: Store
    var audits: seq<string>

    constructor (policy: Policy, store: Store)
      ensures this.policy == policy && this.store == store && audits == []
    {
      this.policy, this.store, this.audits := policy, store, [];
    }

    method CheckRole(ctx: Context, role: string, now: Instant) returns (fault: Option<Fault>)
      modifies this
      ensures fault == RoleFault(policy, store, ctx, role, now)
      ensures audits == old(audits) + AuditOf(fault)
    {
      var tenantAdmin := IsPlatformTenantAdmin(policy, store, ctx);
      if role !in store.roles {
        return Some(RoleNotFound);
      }
      if store.roles[role].name == "tenant-admin" {
        return Some(PlatformRole);
      }
      var permissions := store.roles[role].permissions;
      if policy.delegable.Some? && !tenantAdmin {
        var forbidden := (set p | p in permissions) - policy.delegable.value;
        if forbidden != {} {
          assert exists p :: p in forbidden;
          return Some(NotDelegable);
        }
        assert forall p | p in permissions :: p !in forbidden;
      }
      fault := RequireDelegableSubset(ctx, permissions, None, None, tenantAdmin, now);
    }

    /** On a prefix that is not canonical the first evaluation raises, without an audit. */
    method RequireDelegableSubset(ctx: Context, permissions: seq<string>, space: Option<string>, prefix: Option<string>,
                                  bypass: bool, now: Instant)
      returns (fault: Option<Fault>)
      modifies this
      ensures fault == if bypass then None
                       else DelegableFault(BindingsOf(policy, store, ctx), permissions, space, KeyOf(prefix), now)
      ensures audits == old(audits) + AuditOf(fault)
    {
      if bypass {
        return None;
      }
      var bindings, key := BindingsOf(policy, store, ctx), KeyOf(prefix);
      for i := 0 to |permissions|
        invariant audits == old(audits)
        invariant DelegableFault(bindings, permissions, space, key, now)
               == DelegableFault(bindings, permissions[i..], space, key, now)
      {
        DelegableFaultStep(bindings, permissions[i..], space, key, now);
        assert permissions[i..][1..] == permissions[i + 1..];
        if Paths.ValidateCanonicalPrefix(key).Err? {
          return Some(KeyNotCanonical);
        }
        if !AllowsAt(bindings, permissions[i], space, key, now) {
          audits := audits + ["permission_or_scope_exceeds_authority"];
          return Some(ExceedsAuthority);
        }
      }
      return None;
    }

    method ValidateRoleGrant(ctx: Context, role: string, expiresAt: Instant, now: Instant)
      returns (fault: Option<Fault>)
      modifies this
      ensures fault == GrantFault(policy, store, ctx, role, expiresAt, now)
      ensures audits == old(audits) + AuditOf(fault)
    {
      fault := CheckRole(ctx, role, now);
      if fault.Some? {
        return;
      }
      if expiresAt <= now {
        return Some(NotInTheFuture);
      }
      fault := RequireExpiryBound(ctx, store.roles[role].permissions, None, None, expiresAt, now);
    }

    method RequireExpiryBound(ctx: Context, permissions: seq<string>, space: Option<string>, prefix: Option<string>,
                              expiresAt: Instant, now: Instant)
      returns (fault: Option<Fault>)
      modifies this
      ensures fault == ExpiryFault(BindingsOf(policy, store, ctx), permissions, space, KeyOf(prefix), expiresAt, now)
      ensures audits == old(audits) + AuditOf(fault)
    {
      var bindings, key := BindingsOf(policy, store, ctx), KeyOf(prefix);
      for i := 0 to |permissions|
        invariant audits == old(audits)
        invariant ExpiryFault(bindings, permissions, space, key, expiresAt, now)
               == ExpiryFault(bindings, permissions[i..], space, key, expiresAt, now)
      {
        ExpiryFaultStep(bindings, permissions[i..], space, key, expiresAt, now);
        assert permissions[i..][1..] == permissions[i + 1..];
        if Paths.ValidateCanonicalPrefix(key).Err?
           && exists b | b in bindings :: Reaches(b, permissions[i], expiresAt) {
          return Some(KeyNotCanonical);
        }
        if !LastsAt(bindings, permissions[i], space, key, now, expiresAt) {
          audits := audits + ["expiry_exceeds_authority"];
          return Some(ExpiryExceedsAuthority);
        }
      }
      return None;
    }

    method MaximumRoleGrantExpiry(ctx: Context, role: string, now: Instant) returns (r: Result<Instant, Fault>)
      modifies this
      ensures r == MaximumExpiry(policy, store, ctx, role, now)
      ensures audits == old(audits) + AuditOf(if r.Err? then Some(r.error) else None)
    {
      var fault := CheckRole(ctx, role, now);
      if fault.Some? {
        return Err(fault.value);
      }
      var permissions, bindings := store.roles[role].permissions, BindingsOf(policy, store, ctx);
      var perPermission: seq<Instant> := [];
      assert permissions[0..] == permissions;
      AfterNone(PerPermission(bindings, permissions, now));
      for i := 0 to |permissions|
        invariant audits == old(audits) && |perPermission| == i
        invariant PerPermission(bindings, permissions, now)
               == After(perPermission, PerPermission(bindings, permissions[i..], now))
      {
        var expiries := Expiries(bindings, permissions[i], now);
        assert permissions[i..][1..] == permissions[i + 1..];
        if expiries == [] {
          audits := audits + ["expiry_exceeds_authority"];
          return Err(ExpiryExceedsAuthority);
        }
        AfterOne(perPermission, Max(expiries), PerPermission(bindings, permissions[i + 1..], now));
        perPermission := perPermission + [Max(expiries)];
      }
      assert perPermission + [] == perPermission;
      if perPermission == [] {
        return Err(RoleWithoutPermissions);
      }
      return Ok(Min(perPermission));
    }
  }

  // ------------------------------------------------ the optimum and its check

  /** A binding on its own grants a permission tenant-wide exactly when it is an active
      allowance without a space and without a prefix. */
  lemma CarriesExactlyWhen(b: Binding, permission: string, now: Instant)
    ensures Carries(b, permission, now)
       <==> && b.permission == permission && b.effect.Allow?
            && b.startsAt <= now < b.expiresAt
            && b.space.None? && (b.canonicalPrefix.None? || b.canonicalPrefix.value == "")
  {
    EvaluateExactlyWhen(permission, [b], None, "", now);
    if Carries(b, permission, now) {
      assert Speaks([b], Allow, permission, None, "", now);
    } else if Matches(b, permission, None, "", now) && b.effect.Allow? {
      assert b in [b];
      assert Speaks([b], Allow, permission, None, "", now);
    }
  }

  lemma {:induction false} ExpiriesHold(bindings: seq<Binding>, permission: string, now: Instant, x: Instant)
    ensures x in Expiries(bindings, permission, now)
       <==> exists b | b in bindings :: Carries(b, permission, now) && b.expiresAt == x
  {
    if bindings != [] {
      ExpiriesHold(bindings[1..], permission, now, x);
      assert forall b :: b in bindings <==> b == bindings[0] || b in bindings[1..];
    }
  }

  lemma LastsUpToMax(bindings: seq<Binding>, permission: string, now: Instant, until: Instant)
    ensures var expiries := Expiries(bindings, permission, now);
            Lasts(bindings, permission, now, until) <==> expiries != [] && until <= Max(expiries)
  {
    var expiries := Expiries(bindings, permission, now);
    if Lasts(bindings, permission, now, until) {
      var b :| b in bindings && Carries(b, permission, now) && b.expiresAt >= until;
      ExpiriesHold(bindings, permission, now, b.expiresAt);
    }
    if expiries != [] {
      ExpiriesHold(bindings, permission, now, Max(expiries));
    }
  }

  lemma {:induction false} AllLastUpToMin(bindings: seq<Binding>, permissions: seq<string>, now: Instant,
                                          until: Instant)
    ensures var each := PerPermission(bindings, permissions, now);
            && (each.Err? ==> each.error.ExpiryExceedsAuthority?)
            && ((forall p | p in permissions :: Lasts(bindings, p, now, until))
                <==> each.Ok? && forall m | m in each.value :: until <= m)
            && (each.Ok? ==> |each.value| == |permissions|)
    decreases |permissions|
  {
    if permissions != [] {
      var first, rest := permissions[0], permissions[1..];
      AllLastUpToMin(bindings, rest, now, until);
      LastsUpToMax(bindings, first, now, until);
      assert first in permissions && forall p :: p in permissions <==> p == first || p in rest;
      var each := PerPermission(bindings, rest, now);
      var expiries := Expiries(bindings, first, now);
      if expiries != [] && each.Ok? {
        var whole := PerPermission(bindings, permissions, now).value;
        assert whole == [Max(expiries)] + each.value;
        assert forall m :: m in whole <==> m == Max(expiries) || m in each.value;
        assert Max(expiries) in whole;
      }
    }
  }

  lemma {:induction false} EachIsInTheFuture(bindings: seq<Binding>, permissions: seq<string>, now: Instant)
    requires PerPermission(bindings, permissions, now).Ok?
    ensures forall m | m in PerPermission(bindings, permissions, now).value :: now < m
    decreases |permissions|
  {
    if permissions != [] {
      EachIsInTheFuture(bindings, permissions[1..], now);
      var m := Max(Expiries(bindings, permissions[0], now));
      ExpiriesHold(bindings, permissions[0], now, m);
      var b :| b in bindings && Carries(b, permissions[0], now) && b.expiresAt == m;
      CarriesExactlyWhen(b, permissions[0], now);
    }
  }

  /** The maximum is the exact optimum: an expiry of a role with permissions is accepted
      just when there is a maximum and the expiry lies in the future and not beyond it, and
      the maximum itself always is accepted. */
  lemma MaximumIsTheOptimum(policy: Policy, store: Store, ctx: Context, role: string, expiresAt: Instant, now: Instant)
    requires role in store.roles ==> store.roles[role].permissions != []
    ensures var maximum := MaximumExpiry(policy, store, ctx, role, now);
            && (GrantFault(policy, store, ctx, role, expiresAt, now).None?
                <==> maximum.Ok? && now < expiresAt <= maximum.value)
            && (maximum.Ok? ==> now < maximum.value)
  {
    if RoleFault(policy, store, ctx, role, now).None? {
      var bindings, permissions := BindingsOf(policy, store, ctx), store.roles[role].permissions;
      AllLastUpToMin(bindings, permissions, now, expiresAt);
      if PerPermission(bindings, permissions, now).Ok? {
        EachIsInTheFuture(bindings, permissions, now);
      }
    }
  }

  /** A role without permissions has no maximum, yet every future expiry is accepted. */
  lemma EmptyRoleHasNoMaximum(policy: Policy, store: Store, ctx: Context, role: string, expiresAt: Instant,
                              now: Instant)
    requires role in store.roles && store.roles[role] == Role(store.roles[role].name, [])
    requires store.roles[role].name != "tenant-admin"
    ensures MaximumExpiry(policy, store, ctx, role, now) == Err(RoleWithoutPermissions)
    ensures GrantFault(policy, store, ctx, role, expiresAt, now).None? <==> now < expiresAt
  {
    AllLastUpToMin(BindingsOf(policy, store, ctx), [], now, expiresAt);
  }

  // ---------------------------------------- the bindings and faults, spelled out

  /** By an allowance of its own, as a human, or as a platform admin within its term. */
  predicate AllowedSomehow(policy: Policy, store: Store, ctx: Context, own: seq<Binding>, permission: string,
                           space: Option<string>, key: string, now: Instant)
  {
    || (exists b | b in own :: b.effect == Allow && AppliesTo(b, permission, space, key, now))
    || (ctx.human && permission in policy.memberBaseline)
    || (policy.tenantAdmin != None && permission in policy.tenantAdmin.value
        && ctx.principal in store.platformAdmins
        && store.platformAdmins[ctx.principal].startsAt <= now
        && now < store.platformAdmins[ctx.principal].expiresAt)
  }

  /** Whom and what is allowed: besides the principal's own allowances, every human has the
      members' baseline and a platform admin, within its term, the tenant admin's
      permissions, anywhere. Only the principal's own denials take any of it away. */
  lemma AllowedExactlyWhen(policy: Policy, store: Store, ctx: Context, permission: string, space: Option<string>,
                           key: string, now: Instant)
    requires now < LAST_INSTANT
    ensures var own := if ctx.principal in store.bindings then store.bindings[ctx.principal] else [];
            AllowsAt(BindingsOf(policy, store, ctx), permission, space, key, now)
            <==> && (key == "" || Paths.Canonical(key))
                 && AllowedSomehow(policy, store, ctx, own, permission, space, key, now)
                 && !exists b | b in own :: b.effect == Deny && AppliesTo(b, permission, space, key, now)
  {
    var own := if ctx.principal in store.bindings then store.bindings[ctx.principal] else [];
    var base := if ctx.human then Baseline(policy.memberBaseline) else [];
    var admin := if policy.tenantAdmin.Some? && ctx.principal in store.platformAdmins
                 then OfPlatformAdmin(store.platformAdmins[ctx.principal], policy.tenantAdmin.value) else [];
    var all := BindingsOf(policy, store, ctx);
    assert all == own + base + admin;
    assert forall b :: b in all <==> b in own || b in base || b in admin;
    DecisionExactlyWhen(permission, all, space, key, now);
    BaselineApplies(policy.memberBaseline, permission, space, key, now);
    if policy.tenantAdmin.Some? && ctx.principal in store.platformAdmins {
      PlatformAdminApplies(store.platformAdmins[ctx.principal], policy.tenantAdmin.value, permission, space, key, now);
    }
  }

  lemma BaselineApplies(permissions: seq<string>, permission: string, space: Option<string>, key: string, now: Instant)
    requires now < LAST_INSTANT
    ensures permission in permissions
       <==> exists b | b in Baseline(permissions) :: AppliesTo(b, permission, space, key, now)
    ensures forall b | b in Baseline(permissions) :: b.effect == Allow
  {
    var bindings := Baseline(permissions);
    if permission in permissions {
      var i :| 0 <= i < |permissions| && permissions[i] == permission;
      assert bindings[i] in bindings && AppliesTo(bindings[i], permission, space, key, now);
    }
  }

  lemma PlatformAdminApplies(admin: PlatformAdmin, permissions: seq<string>, permission: string, space: Option<string>,
                             key: string, now: Instant)
    ensures (exists b | b in OfPlatformAdmin(admin, permissions) :: AppliesTo(b, permission, space, key, now))
       <==> permission in permissions && admin.startsAt <= now && now < admin.expiresAt
    ensures forall b | b in OfPlatformAdmin(admin, permissions) :: b.effect == Allow
  {
    var bindings := OfPlatformAdmin(admin, permissions);
    if permission in permissions && admin.startsAt <= now && now < admin.expiresAt {
      var i :| 0 <= i < |permissions| && permissions[i] == permission;
      assert bindings[i] in bindings && AppliesTo(bindings[i], permission, space, key, now);
    }
  }

  /** The faults of a grant in their order: no such role, the platform's own role, and for
      all but platform admins a permission that is not delegable or not the grantor's; then
      for everyone the instant, and a permission without a binding that lasts. */
  lemma GrantFaultExactlyWhen(policy: Policy, store: Store, ctx: Context, role: string, expiresAt: Instant,
                              now: Instant)
    ensures var fault, bindings := GrantFault(policy, store, ctx, role, expiresAt, now), BindingsOf(policy, store, ctx);
            var admin := ctx.human && policy.tenantAdmin != None && ctx.principal in store.platformAdmins;
            if role !in store.roles then fault == Some(RoleNotFound)
            else if store.roles[role].name == "tenant-admin" then fault == Some(PlatformRole)
            else if !admin && policy.delegable != None
                    && exists p | p in store.roles[role].permissions :: p !in policy.delegable.value then
              fault == Some(NotDelegable)
            else if !admin && exists p | p in store.roles[role].permissions ::
                                !AllowsAt(bindings, p, None, "", now) then
              fault == Some(ExceedsAuthority)
            else if expiresAt <= now then fault == Some(NotInTheFuture)
            else if exists p | p in store.roles[role].permissions :: !HasLasting(bindings, p, expiresAt, now) then
              fault == Some(ExpiryExceedsAuthority)
            else fault == None
  {
    if role in store.roles {
      forall p
        ensures Lasts(BindingsOf(policy, store, ctx), p, now, expiresAt)
           <==> HasLasting(BindingsOf(policy, store, ctx), p, expiresAt, now)
      {
        LastingExactlyWhen(BindingsOf(policy, store, ctx), p, expiresAt, now);
      }
    }
  }

  /** A tenant-wide allowance of the permission in force now that lasts until then. */
  predicate HasLasting(bindings: seq<Binding>, permission: string, until: Instant, now: Instant) {
    exists b | b in bindings ::
      b.effect == Allow && AppliesTo(b, permission, None, "", now) && b.expiresAt >= until
  }

  lemma LastingExactlyWhen(bindings: seq<Binding>, permission: string, until: Instant, now: Instant)
    ensures Lasts(bindings, permission, now, until) <==> HasLasting(bindings, permission, until, now)
  {
    forall b | b in bindings
      ensures CarriesAt(b, permission, None, "", now) <==> b.effect == Allow && AppliesTo(b, permission, None, "", now)
    {
      DecisionExactlyWhen(permission, [b], None, "", now);
      assert b in [b] && forall x | x in [b] :: x == b;
    }
  }

  /** On a prefix that is not canonical the check of the expiry raises as soon as evaluate is
      asked, which takes an allowance of the first permission that lasts. */
  lemma RaisesOnPrefixExactlyWhen(bindings: seq<Binding>, permissions: seq<string>, space: Option<string>, key: string,
                                  expiresAt: Instant, now: Instant)
    requires key != "" && !Paths.Canonical(key)
    ensures ExpiryFault(bindings, permissions, space, key, expiresAt, now)
         == if permissions == [] then None
            else if exists b | b in bindings ::
                      b.permission == permissions[0] && b.effect == Allow && b.expiresAt >= expiresAt
            then Some(KeyNotCanonical) else Some(ExpiryExceedsAuthority)
    ensures DelegableFault(bindings, permissions, space, key, now)
         == if permissions == [] then None else Some(KeyNotCanonical)
  {
    Paths.CanonicalExactlyWhen(key);
  }

  /** What lacks authority is audited, under the code that says whether it was the permission
      or the expiry; nothing else is. */
  lemma LackOfAuthorityIsAudited(fault: Option<Fault>)
    ensures AuditOf(fault) == ["permission_or_scope_exceeds_authority"] <==> fault == Some(ExceedsAuthority)
    ensures AuditOf(fault) == ["expiry_exceeds_authority"] <==> fault == Some(ExpiryExceedsAuthority)
    ensures AuditOf(fault) == [] <==> fault !in {Some(ExceedsAuthority), Some(ExpiryExceedsAuthority)}
  {
    assert "permission_or_scope_exceeds_authority"[0] != "expiry_exceeds_authority"[0];
  }

  // ------------------------------------------------ what a grant gives away

  /** What evaluate later sees of a role binding: one binding a permission, tenant-wide. */
  function Granted(id: string, role: Role, effect: Effect, startsAt: Instant, expiresAt: Instant, reason: string)
    : (bindings: seq<Binding>)
  {
    seq(|role.permissions|, i requires 0 <= i < |role.permissions| =>
      Binding(id, role.permissions[i], effect, None, startsAt, expiresAt, reason, None))
  }

  predicate TenantWide(b: Binding) {
    b.space.None? && (b.canonicalPrefix.None? || b.canonicalPrefix.value == "")
  }

  /** A delegation does not outlive its grantor: at every later instant, space and key at
      which a binding of an accepted grant is active, the grantor holds a tenant-wide
      allowance of the same permission that is active too. */
  lemma DelegationDoesNotOutliveGrantor(policy: Policy, store: Store, ctx: Context, role: string, expiresAt: Instant,
                                        granted: Instant, b: Binding, id: string, effect: Effect, startsAt: Instant,
                                        reason: string, space: Option<string>, key: string, now: Instant)
    requires GrantFault(policy, store, ctx, role, expiresAt, granted).None? && granted <= now
    requires b in Granted(id, store.roles[role], effect, startsAt, expiresAt, reason)
    requires Matches(b, b.permission, space, key, now)
    ensures exists own | own in BindingsOf(policy, store, ctx) ::
              own.effect.Allow? && TenantWide(own) && Matches(own, b.permission, space, key, now)
  {
    var bindings := BindingsOf(policy, store, ctx);
    assert Lasts(bindings, b.permission, granted, expiresAt);
    var own :| own in bindings && Carries(own, b.permission, granted) && own.expiresAt >= expiresAt;
    CarriesExactlyWhen(own, b.permission, granted);
    assert TenantWide(own) && Matches(own, b.permission, space, key, now);
  }

  /** Whether the grantor may do at that instant what it granted depends on its denials
      alone. */
  lemma GrantorIsAllowedExactlyWhen(policy: Policy, store: Store, ctx: Context, role: string, expiresAt: Instant,
                                    granted: Instant, b: Binding, id: string, effect: Effect, startsAt: Instant,
                                    reason: string, space: Option<string>, key: string, now: Instant)
    requires GrantFault(policy, store, ctx, role, expiresAt, granted).None? && granted <= now
    requires b in Granted(id, store.roles[role], effect, startsAt, expiresAt, reason)
    requires Matches(b, b.permission, space, key, now) && (key == "" || Paths.Canonical(key))
    ensures var own := BindingsOf(policy, store, ctx);
            && Evaluate(b.permission, own, space, key, now).Ok?
            && (Evaluate(b.permission, own, space, key, now).value.effect.Allow?
                <==> !Speaks(own, Deny, b.permission, space, key, now))
  {
    DelegationDoesNotOutliveGrantor(policy, store, ctx, role, expiresAt, granted, b, id, effect, startsAt, reason,
                                    space, key, now);
    EvaluateExactlyWhen(b.permission, BindingsOf(policy, store, ctx), space, key, now);
    var own :| own in BindingsOf(policy, store, ctx)
               && own.effect.Allow? && TenantWide(own) && Matches(own, b.permission, space, key, now);
    assert Speaks(BindingsOf(policy, store, ctx), Allow, b.permission, space, key, now);
  }

  /** Revoking is not passed on: whatever the grantor keeps of its bindings, the granted one
      allows what it did, while the grantor itself is allowed exactly by what it kept. */
  lemma RevocationIsNotPassedOn(policy: Policy, store: Store, ctx: Context, role: string, expiresAt: Instant,
                                granted: Instant, b: Binding, id: string, startsAt: Instant, reason: string,
                                space: Option<string>, key: string, now: Instant, kept: seq<Binding>)
    requires GrantFault(policy, store, ctx, role, expiresAt, granted).None? && granted <= now
    requires b in Granted(id, store.roles[role], Allow, startsAt, expiresAt, reason)
    requires Matches(b, b.permission, space, key, now) && (key == "" || Paths.Canonical(key))
    requires forall x | x in kept :: x in BindingsOf(policy, store, ctx)
    ensures AllowsAt([b], b.permission, space, key, now)
    ensures AllowsAt(kept, b.permission, space, key, now)
       <==> && (exists own | own in BindingsOf(policy, store, ctx) ::
                  own in kept && own.effect.Allow? && Matches(own, b.permission, space, key, now))
            && !Speaks(kept, Deny, b.permission, space, key, now)
    ensures !AllowsAt([], b.permission, space, key, now)
  {
    EvaluateExactlyWhen(b.permission, [b], space, key, now);
    assert b in [b];
    assert Speaks([b], Allow, b.permission, space, key, now);
    EvaluateExactlyWhen(b.permission, kept, space, key, now);
    EvaluateExactlyWhen(b.permission, [], space, key, now);
  }

  const READS: Binding := Binding("1", "files.read", Allow, None, 0, LAST_INSTANT, "", None)
  const READS_NOT_S: Binding := Binding("2", "files.read", Deny, Some("s"), 0, LAST_INSTANT, "", None)
  const READER: Role := Role("reader", ["files.read"])

  lemma DeniedGrantorCanGrant(now: Instant)
    requires now < LAST_INSTANT
    ensures GrantFault(Policy(None, None, []), Store(map["r" := READER], map["g" := [READS, READS_NOT_S]], map[]),
                       Context("g", true), "r", LAST_INSTANT, now).None?
  {
    var own := BindingsOf(Policy(None, None, []), Store(map["r" := READER], map["g" := [READS, READS_NOT_S]], map[]),
                          Context("g", true));
    assert own == [READS, READS_NOT_S];
    EvaluateExactlyWhen("files.read", own, None, "", now);
    assert Speaks(own, Allow, "files.read", None, "", now);
    CarriesExactlyWhen(READS, "files.read", now);
  }

  /** The check looks tenant-wide, so a denial under a prefix is not handed on: its holder
      can grant what it may not do there itself. */
  lemma DeniedPrefixIsNotDelegated(now: Instant)
    requires now < LAST_INSTANT
    ensures var own := [READS, READS_NOT_S];
            var theirs := Granted("3", READER, Allow, 0, LAST_INSTANT, "");
            && GrantFault(Policy(None, None, []), Store(map["r" := READER], map["g" := own], map[]),
                          Context("g", true), "r", LAST_INSTANT, now).None?
            && Evaluate("files.read", own, None, "s", now).Ok?
            && Evaluate("files.read", own, None, "s", now).value.effect.Deny?
            && Evaluate("files.read", theirs, None, "s", now).Ok?
            && Evaluate("files.read", theirs, None, "s", now).value.effect.Allow?
  {
    var own, theirs := [READS, READS_NOT_S], Granted("3", READER, Allow, 0, LAST_INSTANT, "");
    DeniedGrantorCanGrant(now);
    assert "s"[1..] == "";
    assert Paths.Segments("") == [""] && ['s'] + "" == "s" && [""][1..] == [];
    assert Paths.Segments("s") == ["s"];
    EvaluateExactlyWhen("files.read", own, None, "s", now);
    assert own[1] == READS_NOT_S;
    assert Speaks(own, Deny, "files.read", None, "s", now);
    EvaluateExactlyWhen("files.read", theirs, None, "s", now);
    assert theirs[0].effect.Allow?;
    assert Speaks(theirs, Allow, "files.read", None, "s", now);
  }

  // ------------------------------------------------------ one file command

  /** An application acts through an API key with its scopes and its directory. */
  datatype Caller = Human | Application(scopes: Option<set<string>>, directory: Option<string>)

  datatype Refusal =
    | BadKey(fault: Paths.Fault)
    | BadTarget(error: ProviderTargets.Fault)
    | ScopeDenied
    | RoleNotConfigured
    | Denied(reason: Reason)

  /** The key the bindings are asked about, and the place in the bucket. */
  datatype Command = Command(key: string, target: ProviderTargets.Target)

  function DirectoryOf(caller: Caller): (directory: Option<string>) {
    if caller.Application? then caller.directory else None
  }

  /** AuthorizedFileCommand.create: the command, or why there is none. */
  function CreateCommand(caller: Caller, relative: string, resolved: bool, action: string, bindings: seq<Binding>,
                         space: ProviderTargets.Space, now: Instant)
    : (r: Result<Command, Refusal>)
  {
    var key := Paths.CommandKey(DirectoryOf(caller), relative, action == "files.list", resolved);
    if key.Err? then Err(BadKey(key.error))
    else
      var target := ProviderTargets.Derive(space, key.value);
      if target.Err? then Err(BadTarget(target.error))
      else if caller.Application? && (caller.scopes.None? || action !in caller.scopes.value) then Err(ScopeDenied)
      else
        match Evaluate(action, bindings, Some(space.id), key.value, now)
        case Err(fault) => Err(BadKey(fault))
        case Ok(decision) =>
          if decision.effect.Allow? then Ok(Command(key.value, target.value))
          else if caller.Application? && bindings == [] then Err(RoleNotConfigured)
          else Err(Denied(decision.reason))
  }

  /** Why there is no command, in the order of the checks: the path, the place, the key's
      scopes, and then the bindings, where an application without any is told so. */
  lemma RefusedExactlyWhen(caller: Caller, relative: string, resolved: bool, action: string, bindings: seq<Binding>,
                           space: ProviderTargets.Space, now: Instant)
    ensures var directory := if caller.Application? then caller.directory else None;
            var key := Paths.CommandKey(directory, relative, action == "files.list", resolved);
            var r := CreateCommand(caller, relative, resolved, action, bindings, space, now);
            if key.Err? then r == Err(BadKey(key.error))
            else if ProviderTargets.Derive(space, key.value).Err? then
              r == Err(BadTarget(ProviderTargets.Derive(space, key.value).error))
            else if caller.Application? && (caller.scopes == None || action !in caller.scopes.value) then
              r == Err(ScopeDenied)
            else if AllowsAt(bindings, action, Some(space.id), key.value, now) then
              r == Ok(Command(key.value, ProviderTargets.Derive(space, key.value).value))
            else if caller.Application? && bindings == [] then r == Err(RoleNotConfigured)
            else if exists b | b in bindings :: b.effect == Deny && AppliesTo(b, action, Some(space.id), key.value, now)
            then r == Err(Denied(ExplicitDeny))
            else r == Err(Denied(DefaultDeny))
  {
    var key := Paths.CommandKey(DirectoryOf(caller), relative, action == "files.list", resolved);
    if key.Ok? {
      CommandKeyIsCanonical(DirectoryOf(caller), relative, action == "files.list", resolved);
      DecisionExactlyWhen(action, bindings, Some(space.id), key.value, now);
    }
  }

  lemma CommandKeyIsCanonical(directory: Option<string>, relative: string, listing: bool, resolved: bool)
    requires Paths.CommandKey(directory, relative, listing, resolved).Ok?
    ensures var key := Paths.CommandKey(directory, relative, listing, resolved).value; key == "" || Paths.Canonical(key)
  {
    Paths.CanonicalExactlyWhen(Paths.CommandKey(directory, relative, listing, resolved).value);
    if directory.Some? && directory.value != "" {
      Paths.CanonicalExactlyWhen(directory.value);
      Paths.CanonicalExactlyWhen(relative);
      Paths.CanonicalExactlyWhen(directory.value + "/" + relative);
    } else {
      Paths.CanonicalExactlyWhen(relative);
    }
  }

  /** A command is made exactly when its path resolves, its space has a place for it, the
      key's scopes name the action, and the bindings allow the action on the resolved key
      and nowhere deny it there. */
  lemma CommandIsMadeExactlyWhen(caller: Caller, relative: string, resolved: bool, action: string,
                                 bindings: seq<Binding>, space: ProviderTargets.Space, now: Instant)
    ensures var key := Paths.CommandKey(DirectoryOf(caller), relative, action == "files.list", resolved);
            CreateCommand(caller, relative, resolved, action, bindings, space, now).Ok?
            <==> && key.Ok?
                 && ProviderTargets.Derive(space, "").Ok?
                 && (caller.Application? ==> caller.scopes.Some? && action in caller.scopes.value)
                 && Speaks(bindings, Allow, action, Some(space.id), key.value, now)
                 && !Speaks(bindings, Deny, action, Some(space.id), key.value, now)
  {
    var key := Paths.CommandKey(DirectoryOf(caller), relative, action == "files.list", resolved);
    if key.Ok? {
      CommandKeyIsCanonical(DirectoryOf(caller), relative, action == "files.list", resolved);
      ProviderTargets.DerivedExactlyWhen(space, key.value);
      ProviderTargets.DerivedExactlyWhen(space, "");
      EvaluateExactlyWhen(action, bindings, Some(space.id), key.value, now);
    }
  }

  /** A command stays in the directory of its API key, in the application's namespace: the
      segments of its place begin with the namespace, then the space's prefix, then the
      directory. */
  lemma CommandStaysInItsDirectory(caller: Caller, relative: string, resolved: bool, action: string,
                                   bindings: seq<Binding>, space: ProviderTargets.Space, now: Instant)
    requires CreateCommand(caller, relative, resolved, action, bindings, space, now).Ok?
    requires caller.Application? && caller.directory.Some? && caller.directory.value != ""
    ensures Paths.Segments(ProviderTargets.NamespaceOf(space)) + ProviderTargets.SegmentsOrNone(space.rootPrefix)
            + Paths.Segments(caller.directory.value)
         <= Paths.Segments(CreateCommand(caller, relative, resolved, action, bindings, space, now).value.target.key)
  {
    var directory := caller.directory.value;
    var key := Paths.CommandKey(caller.directory, relative, action == "files.list", resolved).value;
    Paths.CommandStaysInside(directory, relative, action == "files.list", resolved);
    Paths.InsideIsSegmentPrefix(directory, key);
    ProviderTargets.DerivedExactlyWhen(space, key);
  }

  /** A denial above an API key's directory reaches everything the key can ask for. */
  lemma DenialAboveDirectoryIsFinal(caller: Caller, relative: string, resolved: bool, action: string,
                                    bindings: seq<Binding>, space: ProviderTargets.Space, now: Instant, b: Binding)
    requires caller.Application? && caller.directory.Some? && caller.directory.value != ""
    requires b in bindings && b.effect.Deny? && Matches(b, action, Some(space.id), caller.directory.value, now)
    ensures CreateCommand(caller, relative, resolved, action, bindings, space, now).Err?
  {
    var directory := caller.directory.value;
    var key := Paths.CommandKey(Some(directory), relative, action == "files.list", resolved);
    CommandIsMadeExactlyWhen(caller, relative, resolved, action, bindings, space, now);
    if key.Ok? {
      Paths.CommandStaysInside(directory, relative, action == "files.list", resolved);
      if b.canonicalPrefix.Some? && b.canonicalPrefix.value != "" {
        Paths.InsideIsTransitive(b.canonicalPrefix.value, directory, key.value);
      }
      assert Matches(b, action, Some(space.id), key.value, now);
      assert Speaks(bindings, Deny, action, Some(space.id), key.value, now);
    }
  }
}
