/** Applications, their owners and their API keys in one tenant: the store's transactions,
    the ownerless scan, the key service, and what holds over whole runs. */
module Applications {
  import opened Wrappers
  import Paths

  type Id = nat

  datatype Status = Active | PendingTakeover | Deleted
  datatype App = App(name: string, code: string, principal: Id, status: Status, deletedAt: Option<int>, version: nat)

  /** A membership with its principal and user; memberships are known by their principal. */
  datatype Member = Member(active: bool, enabled: bool, userActive: bool, expiresAt: Option<int>)
  datatype Owner = Owner(app: Id, principal: Id)
  datatype Representative = Representative(member: Id, active: bool)
  datatype Key = Key(app: Id, digest: string, scopes: set<string>, directory: Option<string>, revokedAt: Option<int>,
                     active: bool, expiresAt: int)

  datatype Tables = Tables(
    tenantActive: bool,
    apps: map<Id, App>,
    enabled: map<Id, bool>,  // the applications' own principals
    owners: seq<Owner>,
    members: map<Id, Member>,
    representatives: map<Id, Representative>,
    keys: map<string, Key>)

  datatype Operation =
    | CreateApp(app: Id, principal: Id, name: string, code: string, owner: Id, representative: Option<Id>,
                storageReady: bool)
    | UpdateApp(app: Id, newName: Option<string>)
    | DeleteApp(app: Id, now: int)
    | RestoreApp(app: Id)
    | TakeoverApp(app: Id, owner: Id)
    | Contain(principal: Id, now: int)
    | Scan(now: int)
    | BindMembership(app: Id, member: Id, expectedVersion: Option<nat>)
    | RevokeMembership(app: Id)
    | CreateKey(key: string, app: Id, digest: string, scopes: set<string>, directory: Option<string>, expiresAt: int)
    | RevokeKey(key: string, revokedAt: int)
    | ChangeMembers(members: map<Id, Member>)  // identity administration
    | RaiseVersions(which: set<Id>)            // roles of representatives and of application principals
    | ChangeTenant(active: bool)
    | DeleteTenant(now: int)

  datatype Fault =
    | NotFound
    | CodeExists
    | TenantNotActive
    | StorageUnavailable
    | MemberNotFound
    | MemberNotActive
    | VersionConflict
    | NoActiveOwner
    | DirectoryNotCanonical
    | PermissionDenied
    | Interrupted

  datatype Reply = Changed | Unchanged | Failed(fault: Fault)
  datatype Outcome = Outcome(tables: Tables, reply: Reply)

  // ---------------------------------------------------------------- owners

  predicate IsActiveOwner(m: Member, now: int) {
    m.active && m.enabled && (m.expiresAt.None? || m.expiresAt.value > now)
  }

  predicate HasActiveOwner(owners: seq<Owner>, members: map<Id, Member>, app: Id, now: int) {
    exists o | o in owners ::
      o.app == app && o.principal in members && IsActiveOwner(members[o.principal], now)
  }

  predicate Owns(owners: seq<Owner>, principal: Id, app: Id) {
    Owner(app, principal) in owners
  }

  predicate IsOwnerless(apps: map<Id, App>, owners: seq<Owner>, members: map<Id, Member>, app: Id, now: int) {
    app in apps && apps[app].status.Active? && !HasActiveOwner(owners, members, app, now)
  }

  /** The active applications without an active owner. */
  function Ownerless(apps: map<Id, App>, owners: seq<Owner>, members: map<Id, Member>, now: int): (lost: set<Id>) {
    set a | a in apps && IsOwnerless(apps, owners, members, a, now)
  }

  function OwnerlessOf(apps: map<Id, App>, owners: seq<Owner>, members: map<Id, Member>, principal: Id, now: int)
    : (lost: set<Id>)
  {
    set a | a in apps && Owns(owners, principal, a) && IsOwnerless(apps, owners, members, a, now)
  }

  function Contained(apps: map<Id, App>, which: set<Id>): (after: map<Id, App>) {
    map a | a in apps ::
      if a in which then apps[a].(status := PendingTakeover, version := apps[a].version + 1) else apps[a]
  }

  // ------------------------------------------------------------ one transaction

  function Revised(t: Tables, app: Id): (apps: map<Id, App>) {
    if app in t.apps then t.apps[app := t.apps[app].(version := t.apps[app].version + 1)] else t.apps
  }

  /** Every active key of the application is revoked. */
  function WithoutKeysOf(keys: map<string, Key>, app: Id, now: int): (after: map<string, Key>) {
    map k | k in keys ::
      if keys[k].app == app && keys[k].active then keys[k].(active := false, revokedAt := Some(now)) else keys[k]
  }

  function MemberFault(t: Tables, member: Id): (fault: Option<Fault>) {
    if member !in t.members || !t.members[member].enabled || !t.members[member].userActive then Some(MemberNotFound)
    else if !t.members[member].active then Some(MemberNotActive)
    else None
  }

  /** What restore_app asks of an owner; it does not look at when the membership ends. */
  predicate HasRestoringOwner(owners: seq<Owner>, members: map<Id, Member>, app: Id) {
    exists o | o in owners ::
      o.app == app && o.principal in members && members[o.principal].active && members[o.principal].enabled
  }

  function Created(t: Tables, op: Operation): (o: Outcome)
    requires op.CreateApp?
  {
    if exists a | a in t.apps :: t.apps[a].code == op.code then Outcome(t, Failed(CodeExists))
    else if !t.tenantActive then Outcome(t, Failed(TenantNotActive))
    else if !op.storageReady then Outcome(t, Failed(StorageUnavailable))
    else if op.representative.Some? && MemberFault(t, op.representative.value).Some?
    then Outcome(t, Failed(MemberFault(t, op.representative.value).value))
    else
      Outcome(t.(
        apps := t.apps[op.app := App(op.name, op.code, op.principal, Active, None, 1)],
        enabled := t.enabled[op.principal := true],
        owners := t.owners + [Owner(op.app, op.owner)],
        representatives := if op.representative.Some?
          then t.representatives[op.app := Representative(op.representative.value, true)]
          else t.representatives), Changed)
  }

  function Renamed(t: Tables, app: Id, name: Option<string>): (o: Outcome) {
    if app !in t.apps || t.apps[app].status.Deleted? || !t.tenantActive then Outcome(t, Failed(NotFound))
    else if name.None? then Outcome(t, Unchanged)
    else Outcome(t.(apps := t.apps[app := t.apps[app].(name := name.value)]), Changed)
  }

  /** delete_platform_tenant, as far as these tables go. */
  function TenantDeleted(t: Tables, now: int): (after: Tables) {
    t.(
      tenantActive := false,
      apps := map a | a in t.apps ::
        if t.apps[a].status.Deleted? then t.apps[a]
        else t.apps[a].(status := Deleted, deletedAt := Some(now), version := t.apps[a].version + 1),
      enabled := map p | p in t.enabled :: false,
      members := map m | m in t.members :: t.members[m].(active := false, enabled := false),
      keys := map k | k in t.keys ::
        if t.keys[k].active then t.keys[k].(active := false, revokedAt := Some(now)) else t.keys[k])
  }

  function Removed(t: Tables, app: Id, now: int): (o: Outcome) {
    if app !in t.apps || t.apps[app].status.Deleted? || !t.tenantActive then Outcome(t, Failed(NotFound))
    else
      var row := t.apps[app];
      Outcome(t.(
        apps := t.apps[app := row.(status := Deleted, deletedAt := Some(now), version := row.version + 1)],
        enabled := t.enabled[row.principal := false],
        keys := WithoutKeysOf(t.keys, app, now)), Changed)
  }

  function Restored(t: Tables, app: Id): (o: Outcome) {
    if app !in t.apps || !t.apps[app].status.Deleted? then Outcome(t, Failed(NotFound))
    else if !t.tenantActive || !HasRestoringOwner(t.owners, t.members, app) then Outcome(t, Failed(NoActiveOwner))
    else
      var row := t.apps[app];
      Outcome(t.(
        apps := t.apps[app := row.(status := Active, deletedAt := None, version := row.version + 1)],
        enabled := t.enabled[row.principal := true]), Changed)
  }

  function TakenOver(t: Tables, app: Id, owner: Id): (o: Outcome) {
    if app !in t.apps then Outcome(t, Failed(NotFound))
    else if !t.apps[app].status.PendingTakeover? then Outcome(t, Unchanged)
    else
      var row := t.apps[app];
      Outcome(t.(
        apps := t.apps[app := row.(status := Active, version := row.version + 1)],
        owners := if Owns(t.owners, owner, app) then t.owners else t.owners + [Owner(app, owner)]), Changed)
  }

  function Bound(t: Tables, app: Id, member: Id, expectedVersion: Option<nat>): (o: Outcome) {
    if app !in t.apps || t.apps[app].status.Deleted? then Outcome(t, Failed(NotFound))
    else if expectedVersion.Some? && t.apps[app].version != expectedVersion.value then
      Outcome(t, Failed(VersionConflict))
    else if MemberFault(t, member).Some? then Outcome(t, Failed(MemberFault(t, member).value))
    else
      Outcome(t.(apps := Revised(t, app), representatives := t.representatives[app := Representative(member, true)]),
              Changed)
  }

  function Unbound(t: Tables, app: Id): (o: Outcome) {
    if app !in t.representatives || app !in t.apps then Outcome(t, Failed(NotFound))
    else
      Outcome(t.(
        apps := Revised(t, app),
        representatives := t.representatives[app := t.representatives[app].(active := false)]), Changed)
  }

  /** create_key: the foreign key alone asks for the application, whatever its status. */
  function Keyed(t: Tables, op: Operation): (o: Outcome)
    requires op.CreateKey?
  {
    if op.app !in t.apps then Outcome(t, Failed(NotFound))
    else
      Outcome(t.(
        apps := Revised(t, op.app),
        keys := t.keys[op.key := Key(op.app, op.digest, op.scopes, op.directory, None, true, op.expiresAt)]), Changed)
  }

  function Revoked(t: Tables, key: string, revokedAt: int): (o: Outcome) {
    if key !in t.keys then Outcome(t, Failed(NotFound))
    else
      Outcome(t.(
        apps := Revised(t, t.keys[key].app),
        keys := t.keys[key := t.keys[key].(active := false, revokedAt := Some(revokedAt))]), Changed)
  }

  function Next(t: Tables, op: Operation): (o: Outcome) {
    match op
    case CreateApp(_, _, _, _, _, _, _) => Created(t, op)
    case UpdateApp(app, name) => Renamed(t, app, name)
    case DeleteApp(app, now) => Removed(t, app, now)
    case RestoreApp(app) => Restored(t, app)
    case TakeoverApp(app, owner) => TakenOver(t, app, owner)
    case Contain(principal, now) =>
      var which := OwnerlessOf(t.apps, t.owners, t.members, principal, now);
      Outcome(t.(apps := Contained(t.apps, which)), Changed)
    case Scan(now) => Outcome(t.(apps := Contained(t.apps, Ownerless(t.apps, t.owners, t.members, now))), Changed)
    case BindMembership(app, member, expectedVersion) => Bound(t, app, member, expectedVersion)
    case RevokeMembership(app) => Unbound(t, app)
    case CreateKey(_, _, _, _, _, _) => Keyed(t, op)
    case RevokeKey(key, revokedAt) => Revoked(t, key, revokedAt)
    case ChangeMembers(members) => Outcome(t.(members := members), Changed)
    case RaiseVersions(which) =>
      Outcome(t.(apps := map a | a in t.apps ::
        if a in which then t.apps[a].(version := t.apps[a].version + 1) else t.apps[a]), Changed)
    case ChangeTenant(active) => Outcome(t.(tenantActive := active), Changed)
    case DeleteTenant(now) => Outcome(TenantDeleted(t, now), Changed)
  }

  /** Generated identifiers are new. */
  predicate Possible(t: Tables, op: Operation) {
    match op
    case CreateApp(app, principal, _, _, _, _, _) => app !in t.apps && principal !in t.enabled
    case CreateKey(key, _, _, _, _, _) => key !in t.keys
    case _ => true
  }

  ghost predicate PossibleRun(t: Tables, run: seq<Operation>)
    decreases |run|
  {
    run != [] ==> Possible(t, run[0]) && PossibleRun(Next(t, run[0]).tables, run[1..])
  }

  function Play(t: Tables, run: seq<Operation>): (after: Tables)
    decreases |run|
  {
    if run == [] then t else Play(Next(t, run[0]).tables, run[1..])
  }

  // ------------------------------------------------------------- whole runs

  ghost predicate RowSound(t: Tables, a: Id)
    requires a in t.apps
  {
    var row := t.apps[a];
    && row.principal in t.enabled
    && (t.enabled[row.principal] <==> !row.status.Deleted?)
    && (row.deletedAt.Some? <==> row.status.Deleted?)
    && row.version >= 1
  }

  ghost predicate RowsApart(t: Tables) {
    forall a, b | a in t.apps && b in t.apps && a != b ::
      t.apps[a].principal != t.apps[b].principal && t.apps[a].code != t.apps[b].code
  }

  /** The application's principal is enabled exactly when it is not deleted, deletedAt is
      set exactly when it is, no two applications share a principal or a code, and keys belong to
      applications and carry the instant of their revocation. */
  ghost predicate Consistent(t: Tables) {
    && (forall a | a in t.apps :: RowSound(t, a))
    && RowsApart(t)
    && (forall k | k in t.keys :: KeySound(t, k))
  }

  ghost predicate KeySound(t: Tables, k: string)
    requires k in t.keys
  {
    t.keys[k].app in t.apps && (t.keys[k].active <==> t.keys[k].revokedAt.None?)
  }

  lemma RemovedKeepsRowSound(t: Tables, app: Id, now: int, a: Id)
    requires a in t.apps && RowSound(t, a) && RowsApart(t)
    ensures a in Removed(t, app, now).tables.apps && RowSound(Removed(t, app, now).tables, a)
  {
    assert app in t.apps && a != app ==> t.apps[a].principal != t.apps[app].principal;
  }

  lemma RestoredKeepsRowSound(t: Tables, app: Id, a: Id)
    requires a in t.apps && RowSound(t, a) && RowsApart(t)
    ensures a in Restored(t, app).tables.apps && RowSound(Restored(t, app).tables, a)
  {
    assert app in t.apps && a != app ==> t.apps[a].principal != t.apps[app].principal;
  }

  lemma StepKeepsRowSound(t: Tables, op: Operation, a: Id)
    requires (a in t.apps ==> RowSound(t, a)) && RowsApart(t)
    requires Possible(t, op) && a in Next(t, op).tables.apps
    ensures RowSound(Next(t, op).tables, a)
  {
    match op {
      case DeleteApp(app, now) => RemovedKeepsRowSound(t, app, now, a);
      case RestoreApp(app) => RestoredKeepsRowSound(t, app, a);
      case _ =>
    }
  }

  lemma StepKeepsConsistent(t: Tables, op: Operation)
    requires Consistent(t) && Possible(t, op)
    ensures Consistent(Next(t, op).tables)
  {
    forall a | a in Next(t, op).tables.apps
      ensures RowSound(Next(t, op).tables, a)
    {
      StepKeepsRowSound(t, op, a);
    }
    StepKeepsRowsApart(t, op);
    forall k | k in Next(t, op).tables.keys
      ensures KeySound(Next(t, op).tables, k)
    {
      StepKeepsKeySound(t, op, k);
    }
  }

  lemma StepKeepsKeySound(t: Tables, op: Operation, k: string)
    requires Possible(t, op) && k in Next(t, op).tables.keys && (k in t.keys ==> KeySound(t, k))
    ensures KeySound(Next(t, op).tables, k)
  {
  }

  lemma StepKeepsRowsApart(t: Tables, op: Operation)
    requires Consistent(t) && Possible(t, op)
    ensures RowsApart(Next(t, op).tables)
  {
    var after := Next(t, op).tables;
    forall a, b | a in after.apps && b in after.apps && a != b
      ensures after.apps[a].principal != after.apps[b].principal && after.apps[a].code != after.apps[b].code
    {
      StepSucceeds(t, op, a);
      StepSucceeds(t, op, b);
      if a in t.apps {
        assert RowSound(t, a);
      }
      if b in t.apps {
        assert RowSound(t, b);
      }
    }
  }

  /** Whatever is done to the tenant's applications and in whatever order, they stay
      consistent. */
  lemma {:induction false} RunKeepsConsistent(t: Tables, run: seq<Operation>)
    requires Consistent(t) && PossibleRun(t, run)
    ensures Consistent(Play(t, run))
    decreases |run|
  {
    if run != [] {
      StepKeepsConsistent(t, run[0]);
      RunKeepsConsistent(Next(t, run[0]).tables, run[1..]);
    }
  }

  /** How a row may differ later: but for its name it is the same row, or its version is
      higher. */
  predicate Succeeds(before: App, after: App) {
    && after.code == before.code && after.principal == before.principal
    && (after.(name := before.name) == before || after.version > before.version)
  }

  lemma StepSucceeds(t: Tables, op: Operation, app: Id)
    requires Possible(t, op)
    ensures app in t.apps ==> app in Next(t, op).tables.apps && Succeeds(t.apps[app], Next(t, op).tables.apps[app])
    ensures app in Next(t, op).tables.apps && app !in t.apps ==>
              && op.CreateApp? && app == op.app
              && Next(t, op).tables.apps[app].principal == op.principal && Next(t, op).tables.apps[app].code == op.code
              && forall a | a in t.apps :: t.apps[a].code != op.code
  {
  }

  /** The authorization version of an application never falls over any run, and it tells
      apart every change of its status and of when it was deleted; its code and principal
      never change. */
  lemma {:induction false} VersionTellsChange(t: Tables, run: seq<Operation>, app: Id)
    requires PossibleRun(t, run) && app in t.apps
    ensures app in Play(t, run).apps && Succeeds(t.apps[app], Play(t, run).apps[app])
    decreases |run|
  {
    if run != [] {
      StepSucceeds(t, run[0], app);
      VersionTellsChange(Next(t, run[0]).tables, run[1..], app);
    }
  }

  /** The name it does not tell apart: update_app leaves the version alone. */
  lemma NameEscapesVersion(t: Tables, app: Id, name: string)
    requires t.tenantActive && app in t.apps && !t.apps[app].status.Deleted? && name != t.apps[app].name
    ensures var after := Next(t, UpdateApp(app, Some(name)));
            && after.reply.Changed? && after.tables.apps[app].version == t.apps[app].version
            && after.tables.apps[app] != t.apps[app]
            && after.tables == t.(apps := t.apps[app := t.apps[app].(name := name)])
  {
  }

  /** How a key may differ later: it may have been revoked, and nothing else. */
  predicate KeySucceeds(before: Key, after: Key) {
    && (after.active ==> before.active)
    && after.app == before.app && after.digest == before.digest && after.scopes == before.scopes
    && after.directory == before.directory && after.expiresAt == before.expiresAt
  }

  lemma StepKeySucceeds(t: Tables, op: Operation, key: string)
    requires Possible(t, op) && key in t.keys
    ensures key in Next(t, op).tables.keys && KeySucceeds(t.keys[key], Next(t, op).tables.keys[key])
  {
  }

  /** A key that is not active never becomes active, and no key changes hands. */
  lemma {:induction false} RevokedStaysRevoked(t: Tables, run: seq<Operation>, key: string)
    requires PossibleRun(t, run) && key in t.keys
    ensures key in Play(t, run).keys && KeySucceeds(t.keys[key], Play(t, run).keys[key])
    decreases |run|
  {
    if run != [] {
      StepKeySucceeds(t, run[0], key);
      RevokedStaysRevoked(Next(t, run[0]).tables, run[1..], key);
    }
  }

  // ------------------------------------------- when each row changes, and why

  /** Every owner of the application that is known has left, is barred or has run out. */
  ghost predicate Unattended(t: Tables, a: Id, now: int) {
    forall o | o in t.owners && o.app == a && o.principal in t.members ::
      var m := t.members[o.principal];
      !m.active || !m.enabled || (m.expiresAt.Some? && m.expiresAt.value <= now)
  }

  /** Some owner is an active member that is not barred, whether or not it has run out. */
  ghost predicate HasMemberOwner(t: Tables, a: Id) {
    exists o | o in t.owners && o.app == a && o.principal in t.members ::
      t.members[o.principal].active && t.members[o.principal].enabled
  }

  ghost predicate DeletedBy(t: Tables, op: Operation, a: Id)
    requires a in t.apps
  {
    t.apps[a].status != Deleted && (op.DeleteTenant? || (op.DeleteApp? && op.app == a && t.tenantActive))
  }

  ghost predicate RestoredBy(t: Tables, op: Operation, a: Id)
    requires a in t.apps
  {
    op == RestoreApp(a) && t.apps[a].status == Deleted && t.tenantActive && HasMemberOwner(t, a)
  }

  ghost predicate ContainedBy(t: Tables, op: Operation, a: Id)
    requires a in t.apps
  {
    && t.apps[a].status == Active
    && ((op.Scan? && Unattended(t, a, op.now))
        || (op.Contain? && Unattended(t, a, op.now) && Owner(a, op.principal) in t.owners))
  }

  /** The status of an application: what deletes it, restores it, contains it when its last
      active owner is gone, and hands it over. */
  lemma StatusChangesExactlyWhen(t: Tables, op: Operation, a: Id)
    requires a in t.apps && Possible(t, op)
    ensures a in Next(t, op).tables.apps
    ensures Next(t, op).tables.apps[a].status
            == (if DeletedBy(t, op, a) then Deleted
                else if RestoredBy(t, op, a) then Active
                else if ContainedBy(t, op, a) then PendingTakeover
                else if op.TakeoverApp? && op.app == a && t.apps[a].status == PendingTakeover then Active
                else t.apps[a].status)
  {
    if op.Scan? || op.Contain? {
      assert HasActiveOwner(t.owners, t.members, a, op.now) <==> !Unattended(t, a, op.now);
    }
    if op == RestoreApp(a) {
      assert HasRestoringOwner(t.owners, t.members, a) <==> HasMemberOwner(t, a);
    }
  }

  /** Its deletion instant is that of the deletion, its name that of the last update, and
      nothing else of it but its version ever changes. */
  lemma AppChangesExactlyWhen(t: Tables, op: Operation, a: Id)
    requires a in t.apps && Possible(t, op)
    ensures a in Next(t, op).tables.apps
    ensures var before, after := t.apps[a], Next(t, op).tables.apps[a];
            && after.deletedAt
               == (if DeletedBy(t, op, a) then Some(op.now) else if RestoredBy(t, op, a) then None
                   else before.deletedAt)
            && after.name
               == (if op.UpdateApp? && op.app == a && op.newName.Some? && before.status != Deleted && t.tenantActive
                   then op.newName.value else before.name)
            && after.code == before.code && after.principal == before.principal
  {
    StatusChangesExactlyWhen(t, op, a);
  }

  /** The version rises by one with every change of status, of the representative and of
      the keys, and with the roles that concern the application. */
  lemma VersionRisesExactlyWhen(t: Tables, op: Operation, a: Id)
    requires a in t.apps && Possible(t, op)
    ensures a in Next(t, op).tables.apps
    ensures var after := Next(t, op);
            after.tables.apps[a].version
            == t.apps[a].version
               + (if || after.tables.apps[a].status != t.apps[a].status
                     || (op.BindMembership? && op.app == a && after.reply == Changed)
                     || (op.RevokeMembership? && op.app == a && a in t.representatives)
                     || (op.CreateKey? && op.app == a)
                     || (op.RevokeKey? && op.key in t.keys && t.keys[op.key].app == a)
                     || (op.RaiseVersions? && a in op.which)
                  then 1 else 0)
  {
    match op {
      case CreateApp(_, _, _, _, _, _, _) =>
      case DeleteApp(_, _) =>
      case RestoreApp(_) =>
      case BindMembership(_, _, _) =>
      case CreateKey(_, _, _, _, _, _) =>
      case _ =>
    }
  }

  /** A key is revoked by itself, with its application or with the tenant, and bears the
      instant of that; a key of an application that is already deleted is left alone. */
  lemma KeyChangesExactlyWhen(t: Tables, op: Operation, k: string)
    requires k in t.keys && Possible(t, op)
    ensures k in Next(t, op).tables.keys
    ensures var app := t.keys[k].app;
            Next(t, op).tables.keys[k]
            == (if op.RevokeKey? && op.key == k then t.keys[k].(active := false, revokedAt := Some(op.revokedAt))
                else if t.keys[k].active
                        && (op.DeleteTenant? || (op.DeleteApp? && op.app == app && app in t.apps
                                                 && t.apps[app].status != Deleted && t.tenantActive))
                then t.keys[k].(active := false, revokedAt := Some(op.now))
                else t.keys[k])
  {
  }

  /** New rows: an application with its owner, a key, and nothing else. */
  lemma RowsAppearExactlyWhen(t: Tables, op: Operation, a: Id, k: string)
    requires Possible(t, op)
    ensures var (after, reply) := (Next(t, op).tables, Next(t, op).reply);
            && (a !in t.apps && a in after.apps <==> op.CreateApp? && op.app == a && reply == Changed)
            && (k !in t.keys && k in after.keys <==> op.CreateKey? && op.key == k && op.app in t.apps)
            && (op.CreateApp? && reply == Changed ==>
                  && after.apps[op.app] == App(op.name, op.code, op.principal, Active, None, 1)
                  && after.owners == t.owners + [Owner(op.app, op.owner)])
            && (op.CreateKey? && op.app in t.apps ==>
                  after.keys[op.key] == Key(op.app, op.digest, op.scopes, op.directory, None, true, op.expiresAt))
  {
  }

  /** An application's own principal is enabled by its creation and its restore, and
      disabled with it. */
  lemma PrincipalChangesExactlyWhen(t: Tables, op: Operation, p: Id)
    requires Consistent(t) && Possible(t, op)
    ensures var after := Next(t, op);
            && (p in after.tables.enabled
                <==> p in t.enabled || (op.CreateApp? && op.principal == p && after.reply == Changed))
            && (p in after.tables.enabled ==>
                  after.tables.enabled[p]
                  == (if op.CreateApp? && op.principal == p && after.reply == Changed then true
                      else if op.DeleteTenant? then false
                      else if op.DeleteApp? && after.reply == Changed && t.apps[op.app].principal == p then false
                      else if op.RestoreApp? && after.reply == Changed && t.apps[op.app].principal == p then true
                      else t.enabled[p]))
  {
    match op {
      case DeleteApp(app, _) => assert app in t.apps ==> RowSound(t, app);
      case RestoreApp(app) => assert app in t.apps ==> RowSound(t, app);
      case _ =>
    }
  }

  /** Who an application acts for, who owns it and who is a member. */
  lemma PeopleChangeExactlyWhen(t: Tables, op: Operation, a: Id, o: Owner)
    requires Possible(t, op)
    ensures var (after, reply) := (Next(t, op).tables, Next(t, op).reply);
            && (a in after.representatives
                <==> || a in t.representatives
                     || (op.BindMembership? && op.app == a && reply == Changed)
                     || (op.CreateApp? && op.app == a && reply == Changed && op.representative.Some?))
            && (a in after.representatives ==>
                  after.representatives[a]
                  == (if op.BindMembership? && op.app == a && reply == Changed then Representative(op.member, true)
                      else if op.CreateApp? && op.app == a && reply == Changed && op.representative.Some?
                      then Representative(op.representative.value, true)
                      else if op.RevokeMembership? && op.app == a && a in t.apps
                      then Representative(t.representatives[a].member, false)
                      else t.representatives[a]))
            && (o in after.owners
                <==> || o in t.owners
                     || (op.CreateApp? && reply == Changed && o == Owner(op.app, op.owner))
                     || (op.TakeoverApp? && reply == Changed && o == Owner(op.app, op.owner)))
            && t.owners <= after.owners
  {
  }

  lemma TenantChangesExactlyWhen(t: Tables, op: Operation, m: Id)
    requires op.ChangeMembers? || m in t.members
    ensures var after := Next(t, op).tables;
            && after.tenantActive
               == (if op.DeleteTenant? then false else if op.ChangeTenant? then op.active else t.tenantActive)
            && after.members.Keys == (if op.ChangeMembers? then op.members.Keys else t.members.Keys)
            && (m in after.members ==>
                  after.members[m]
                  == (if op.ChangeMembers? then op.members[m]
                      else if op.DeleteTenant? then t.members[m].(active := false, enabled := false)
                      else t.members[m]))
  {
  }

  /** The member is there with its principal and its user. */
  ghost predicate Present(t: Tables, member: Id) {
    member in t.members && t.members[member].enabled && t.members[member].userActive
  }

  /** Why an operation is refused: what is missing, what is taken, and who is not there. */
  lemma RefusedExactlyWhen(t: Tables, op: Operation)
    ensures var reply := Next(t, op).reply;
            match op
            case CreateApp(_, _, _, code, _, representative, ready) =>
              var codes := set a | a in t.apps :: t.apps[a].code;
              && (reply == Failed(CodeExists) <==> code in codes)
              && (reply == Failed(TenantNotActive) <==> code !in codes && !t.tenantActive)
              && (reply == Failed(StorageUnavailable) <==> code !in codes && t.tenantActive && !ready)
              && (reply == Failed(MemberNotFound)
                  <==> code !in codes && t.tenantActive && ready && representative.Some?
                       && !Present(t, representative.value))
              && (reply == Failed(MemberNotActive)
                  <==> code !in codes && t.tenantActive && ready && representative.Some?
                       && Present(t, representative.value) && !t.members[representative.value].active)
              && (reply == Changed
                  <==> code !in codes && t.tenantActive && ready
                       && (representative.Some? ==>
                             Present(t, representative.value) && t.members[representative.value].active))
            case UpdateApp(a, name) =>
              var found := a in t.apps && t.apps[a].status != Deleted && t.tenantActive;
              reply == (if !found then Failed(NotFound) else if name == None then Unchanged else Changed)
            case DeleteApp(a, _) =>
              var found := a in t.apps && t.apps[a].status != Deleted && t.tenantActive;
              reply == if found then Changed else Failed(NotFound)
            case RestoreApp(a) =>
              && (reply == Failed(NotFound) <==> !(a in t.apps && t.apps[a].status == Deleted))
              && (reply == Failed(NoActiveOwner)
                  <==> a in t.apps && t.apps[a].status == Deleted && !(t.tenantActive && HasMemberOwner(t, a)))
              && (reply == Changed <==> a in t.apps && RestoredBy(t, op, a))
            case TakeoverApp(a, _) =>
              && (reply == Failed(NotFound) <==> a !in t.apps)
              && (reply == Unchanged <==> a in t.apps && t.apps[a].status != PendingTakeover)
              && (reply == Changed <==> a in t.apps && t.apps[a].status == PendingTakeover)
            case BindMembership(a, member, expected) =>
              var found := a in t.apps && t.apps[a].status != Deleted;
              var agreed := found && (expected == None || expected == Some(t.apps[a].version));
              && (reply == Failed(NotFound) <==> !found)
              && (reply == Failed(VersionConflict) <==> found && !agreed)
              && (reply == Failed(MemberNotFound) <==> agreed && !Present(t, member))
              && (reply == Failed(MemberNotActive)
                  <==> agreed && Present(t, member) && !t.members[member].active)
              && (reply == Changed <==> agreed && Present(t, member) && t.members[member].active)
            case RevokeMembership(a) =>
              reply == if a in t.representatives && a in t.apps then Changed else Failed(NotFound)
            case CreateKey(_, a, _, _, _, _) => reply == if a in t.apps then Changed else Failed(NotFound)
            case RevokeKey(key, _) => reply == if key in t.keys then Changed else Failed(NotFound)
            case _ => reply == Changed
  {
    if op.RestoreApp? && op.app in t.apps {
      assert HasRestoringOwner(t.owners, t.members, op.app) <==> HasMemberOwner(t, op.app);
    }
  }

  lemma RefusalChangesNothing(t: Tables, op: Operation)
    requires Next(t, op).reply != Changed
    ensures Next(t, op).tables == t
  {
  }

  // -------------------------------------------------------------- the store

  datatype Audit = AppAudit(action: string, app: Id) | KeyAudit(action: string, key: string)

  function Containment(app: Id): (event: Audit) {
    AppAudit("application.ownerless_contained", app)
  }

  /** One containment event for each of the applications. */
  ghost function Containments(which: set<Id>): (events: multiset<Audit>) {
    multiset(set a | a in which :: Containment(a))
  }

  ghost function Logged(audits: multiset<Audit>, which: set<Id>): (after: multiset<Audit>) {
    audits + Containments(which)
  }

  lemma {:induction false} ContainmentsCount(which: set<Id>)
    ensures |Containments(which)| == |which|
    decreases |which|
  {
    var events := set a | a in which :: Containment(a);
    if which != {} {
      var a :| a in which;
      ContainmentsCount(which - {a});
      var others := set x | x in which - {a} :: Containment(x);
      assert events == others + {Containment(a)};
      assert Containment(a) !in others;
    }
  }

  /** One event of that name for each of the applications, and no other event. */
  lemma ContainmentsExactly(which: set<Id>, event: Audit)
    ensures Containments(which)[event]
         == if event.AppAudit? && event.action == "application.ownerless_contained" && event.app in which then 1 else 0
  {
    var events := set a | a in which :: Containment(a);
    assert event in events <==> exists a :: a in which && Containment(a) == event;
  }

  lemma LoggedTwice(audits: multiset<Audit>, first: set<Id>, second: set<Id>)
    requires first !! second
    ensures Logged(Logged(audits, first), second) == Logged(audits, first + second)
  {
    var a, b := set x | x in first :: Containment(x), set x | x in second :: Containment(x);
    assert a !! b;
    assert (set x | x in first + second :: Containment(x)) == a + b;
    assert Containments(first) + Containments(second) == Containments(first + second);
  }

  lemma ContainedTwice(apps: map<Id, App>, audits: multiset<Audit>, first: set<Id>, second: set<Id>)
    requires first !! second
    ensures Contained(Contained(apps, first), second) == Contained(apps, first + second)
    ensures |first + second| == |first| + |second|
    ensures Logged(Logged(audits, first), second) == Logged(audits, first + second)
  {
    LoggedTwice(audits, first, second);
  }

  lemma ContainedNone(apps: map<Id, App>, audits: multiset<Audit>)
    ensures Contained(apps, {}) == apps
    ensures Logged(audits, {}) == audits
  {
    assert (set a | a in {} :: Containment(a)) == {};
  }

  lemma OwnerlessNow(apps: map<Id, App>, owners: seq<Owner>, members: map<Id, Member>, done: set<Id>, principal: Id,
                     now: int)
    ensures OwnerlessOf(Contained(apps, done), owners, members, principal, now)
         == OwnerlessOf(apps, owners, members, principal, now) - done
    ensures OwnerlessOf(apps, owners, members, principal, now) <= Ownerless(apps, owners, members, now)
  {
  }

  /** Recomputing for one more owner, after some applications were contained. */
  lemma OwnerAdds(apps: map<Id, App>, owners: seq<Owner>, members: map<Id, Member>, audits: multiset<Audit>,
                  done: set<Id>, principal: Id, now: int)
    ensures var more := OwnerlessOf(Contained(apps, done), owners, members, principal, now);
            && Contained(Contained(apps, done), more) == Contained(apps, done + more)
            && |done + more| == |done| + |more|
            && Logged(Logged(audits, done), more) == Logged(audits, done + more)
  {
    OwnerlessNow(apps, owners, members, done, principal, now);
    ContainedTwice(apps, audits, done, OwnerlessOf(Contained(apps, done), owners, members, principal, now));
  }

  predicate HasOwnerRow(owners: seq<Owner>, app: Id) {
    exists o | o in owners :: o.app == app
  }

  /** The ownerless applications among the principal's first owner rows. */
  ghost function LostIn(apps: map<Id, App>, owners: seq<Owner>, members: map<Id, Member>, principal: Id, now: int,
                        rows: nat): (lost: set<Id>)
    requires rows <= |owners|
  {
    if rows == 0 then {}
    else
      var row := owners[rows - 1];
      LostIn(apps, owners, members, principal, now, rows - 1)
      + if row.principal == principal && IsOwnerless(apps, owners, members, row.app, now) then {row.app} else {}
  }

  lemma {:induction false} LostInHolds(apps: map<Id, App>, owners: seq<Owner>, members: map<Id, Member>, principal: Id,
                                       now: int, rows: nat, a: Id)
    requires rows <= |owners|
    ensures a in LostIn(apps, owners, members, principal, now, rows)
       <==> IsOwnerless(apps, owners, members, a, now) && exists j | 0 <= j < rows :: owners[j] == Owner(a, principal)
  {
    if rows > 0 {
      LostInHolds(apps, owners, members, principal, now, rows - 1, a);
    }
  }

  lemma AllRowsLost(apps: map<Id, App>, owners: seq<Owner>, members: map<Id, Member>, principal: Id, now: int)
    ensures LostIn(apps, owners, members, principal, now, |owners|)
            == OwnerlessOf(apps, owners, members, principal, now)
  {
    forall a
      ensures a in LostIn(apps, owners, members, principal, now, |owners|)
              <==> a in OwnerlessOf(apps, owners, members, principal, now)
    {
      LostInHolds(apps, owners, members, principal, now, |owners|, a);
    }
  }

  lemma NextRowLost(apps: map<Id, App>, owners: seq<Owner>, members: map<Id, Member>, audits: multiset<Audit>,
                    principal: Id, now: int, i: nat)
    requires i < |owners|
    ensures var row := owners[i];
            var lost := LostIn(apps, owners, members, principal, now, i);
            var next := LostIn(apps, owners, members, principal, now, i + 1);
            var current := Contained(apps, lost);
            if row.principal == principal && !HasActiveOwner(owners, members, row.app, now)
               && row.app in current && current[row.app].status.Active?
            then
              && Contained(current, {row.app}) == Contained(apps, next)
              && |next| == |lost| + 1
              && Logged(Logged(audits, lost), {row.app}) == Logged(audits, next)
            else next == lost
  {
    var app, lost := owners[i].app, LostIn(apps, owners, members, principal, now, i);
    assert IsOwnerless(apps, owners, members, app, now) && app in lost ==> lost + {app} == lost;
    if app !in lost {
      ContainedTwice(apps, audits, lost, {app});
    }
  }

  /** What is contained once the owners in the application's first rows are recomputed. */
  ghost function Walked(apps: map<Id, App>, owners: seq<Owner>, members: map<Id, Member>, done: set<Id>, app: Id,
                        now: int, rows: nat): (after: set<Id>)
    requires rows <= |owners|
  {
    if rows == 0 then done
    else
      var row, before := owners[rows - 1], Walked(apps, owners, members, done, app, now, rows - 1);
      if row.app != app then before
      else before + OwnerlessOf(Contained(apps, before), owners, members, row.principal, now)
  }

  lemma {:induction false} WalkedStaysInside(apps: map<Id, App>, owners: seq<Owner>, members: map<Id, Member>,
                                             done: set<Id>, app: Id, now: int, rows: nat)
    requires rows <= |owners| && done <= Ownerless(apps, owners, members, now)
    ensures done <= Walked(apps, owners, members, done, app, now, rows) <= Ownerless(apps, owners, members, now)
  {
    if rows > 0 {
      WalkedStaysInside(apps, owners, members, done, app, now, rows - 1);
      OwnerlessNow(apps, owners, members, Walked(apps, owners, members, done, app, now, rows - 1),
                   owners[rows - 1].principal, now);
    }
  }

  lemma {:induction false} WalkedCovers(apps: map<Id, App>, owners: seq<Owner>, members: map<Id, Member>,
                                        done: set<Id>, app: Id, now: int, rows: nat, j: nat)
    requires j < rows <= |owners| && owners[j].app == app && app in Ownerless(apps, owners, members, now)
    ensures app in Walked(apps, owners, members, done, app, now, rows)
  {
    if j < rows - 1 {
      WalkedCovers(apps, owners, members, done, app, now, rows - 1, j);
    } else {
      OwnerlessNow(apps, owners, members, Walked(apps, owners, members, done, app, now, j), owners[j].principal, now);
      assert Owner(app, owners[j].principal) == owners[j];
    }
  }

  /** What is contained once the scan has walked the first applications it read. */
  ghost function ScannedUpTo(apps: map<Id, App>, owners: seq<Owner>, members: map<Id, Member>, order: seq<Id>, now: int,
                             n: nat): (done: set<Id>)
    requires n <= |order|
  {
    if n == 0 then {}
    else
      Walked(apps, owners, members, ScannedUpTo(apps, owners, members, order, now, n - 1), order[n - 1], now, |owners|)
  }

  lemma {:induction false} ScannedStaysInside(apps: map<Id, App>, owners: seq<Owner>, members: map<Id, Member>,
                                              order: seq<Id>, now: int, n: nat)
    requires n <= |order|
    ensures ScannedUpTo(apps, owners, members, order, now, n) <= Ownerless(apps, owners, members, now)
  {
    if n > 0 {
      ScannedStaysInside(apps, owners, members, order, now, n - 1);
      WalkedStaysInside(apps, owners, members, ScannedUpTo(apps, owners, members, order, now, n - 1), order[n - 1], now,
                        |owners|);
    }
  }

  lemma {:induction false} ScannedCovers(apps: map<Id, App>, owners: seq<Owner>, members: map<Id, Member>,
                                         order: seq<Id>, now: int, n: nat, k: nat, j: nat)
    requires k < n <= |order| && j < |owners| && owners[j].app == order[k]
             && order[k] in Ownerless(apps, owners, members, now)
    ensures order[k] in ScannedUpTo(apps, owners, members, order, now, n)
  {
    if k < n - 1 {
      ScannedCovers(apps, owners, members, order, now, n - 1, k, j);
      ScannedStaysInside(apps, owners, members, order, now, n - 1);
      WalkedStaysInside(apps, owners, members, ScannedUpTo(apps, owners, members, order, now, n - 1), order[n - 1], now,
                        |owners|);
    } else {
      WalkedCovers(apps, owners, members, ScannedUpTo(apps, owners, members, order, now, k), order[k], now, |owners|,
                   j);
    }
  }

  /** What the last update of a scan selects. */
  function Unowned(apps: map<Id, App>, owners: seq<Owner>, order: seq<Id>): (unowned: set<Id>) {
    set a | a in apps && apps[a].status.Active? && !(a in order && HasOwnerRow(owners, a))
  }

  /** After the owners, the rest: the last update selects all that is left, and no more. */
  lemma UnownedIsTheRest(apps: map<Id, App>, owners: seq<Owner>, members: map<Id, Member>, audits: multiset<Audit>,
                         order: seq<Id>, now: int)
    requires forall a :: a in order <==> a in apps && apps[a].status.Active?
    ensures var done := ScannedUpTo(apps, owners, members, order, now, |order|);
            var unowned := Unowned(Contained(apps, done), owners, order);
            && Contained(Contained(apps, done), unowned) == Contained(apps, Ownerless(apps, owners, members, now))
            && |Ownerless(apps, owners, members, now)| == |done| + |unowned|
            && Logged(Logged(audits, done), unowned) == Logged(audits, Ownerless(apps, owners, members, now))
  {
    var done := ScannedUpTo(apps, owners, members, order, now, |order|);
    var unowned := Unowned(Contained(apps, done), owners, order);
    ScannedStaysInside(apps, owners, members, order, now, |order|);
    assert unowned !! done;
    forall a
      ensures a in Ownerless(apps, owners, members, now) <==> a in done + unowned
    {
      if a in Ownerless(apps, owners, members, now) && HasOwnerRow(owners, a) {
        var k :| 0 <= k < |order| && order[k] == a;
        var j :| 0 <= j < |owners| && owners[j].app == a;
        ScannedCovers(apps, owners, members, order, now, |order|, k, j);
      }
      if a in unowned {
        assert a in order && !HasOwnerRow(owners, a);
      }
    }
    assert done + unowned == Ownerless(apps, owners, members, now);
    ContainedTwice(apps, audits, done, unowned);
  }

  class SqlAlchemyApplicationStore {
    var tenantActive: bool
    var apps: map<Id, App>
    var enabled: map<Id, bool>
    var owners: seq<Owner>
    var members: map<Id, Member>
    var representatives: map<Id, Representative>
    var keys: map<string, Key>
    var audits: multiset<Audit>

    ghost function Current(): (t: Tables)
      reads this
    {
      Tables(tenantActive, apps, enabled, owners, members, representatives, keys)
    }

    method CreateApp(app: Id, principal: Id, name: string, code: string, owner: Id, representative: Option<Id>,
                     storageReady: bool)
      returns (reply: Reply)
      requires app !in apps && principal !in enabled
      modifies this
      ensures Outcome(Current(), reply)
           == Next(old(Current()), Operation.CreateApp(app, principal, name, code, owner, representative, storageReady))
      ensures audits == old(audits)
    {
      if exists a | a in apps :: apps[a].code == code {
        return Failed(CodeExists);
      }
      if !tenantActive {
        return Failed(TenantNotActive);
      }
      if !storageReady {
        return Failed(StorageUnavailable);
      }
      if representative.Some? {
        if representative.value !in members || !members[representative.value].enabled
           || !members[representative.value].userActive {
          return Failed(MemberNotFound);
        }
        if !members[representative.value].active {
          return Failed(MemberNotActive);
        }
        representatives := representatives[app := Representative(representative.value, true)];
      }
      enabled := enabled[principal := true];
      apps := apps[app := App(name, code, principal, Active, None, 1)];
      owners := owners + [Owner(app, owner)];
      return Changed;
    }

    method UpdateApp(app: Id, name: Option<string>) returns (reply: Reply)
      modifies this
      ensures Outcome(Current(), reply) == Next(old(Current()), Operation.UpdateApp(app, name))
      ensures audits == old(audits)
    {
      if app !in apps || apps[app].status.Deleted? || !tenantActive {
        return Failed(NotFound);
      }
      if name.None? {
        return Unchanged;
      }
      apps := apps[app := apps[app].(name := name.value)];
      return Changed;
    }

    method DeleteApp(app: Id, now: int) returns (reply: Reply)
      modifies this
      ensures Outcome(Current(), reply) == Next(old(Current()), Operation.DeleteApp(app, now))
      ensures audits
              == old(audits) + if reply.Changed? then multiset{AppAudit("application.deleted", app)} else multiset{}
    {
      if app !in apps || apps[app].status.Deleted? || !tenantActive {
        return Failed(NotFound);
      }
      var row := apps[app];
      apps := apps[app := row.(status := Deleted, deletedAt := Some(now), version := row.version + 1)];
      enabled := enabled[row.principal := false];
      keys := map k | k in keys ::
        if keys[k].app == app && keys[k].active then keys[k].(active := false, revokedAt := Some(now)) else keys[k];
      audits := audits + multiset{AppAudit("application.deleted", app)};
      return Changed;
    }

    method RestoreApp(app: Id) returns (reply: Reply)
      modifies this
      ensures Outcome(Current(), reply) == Next(old(Current()), Operation.RestoreApp(app))
      ensures audits
              == old(audits) + if reply.Changed? then multiset{AppAudit("application.restored", app)} else multiset{}
    {
      if app !in apps || !apps[app].status.Deleted? {
        return Failed(NotFound);
      }
      if !tenantActive || !HasRestoringOwner(owners, members, app) {
        return Failed(NoActiveOwner);
      }
      var row := apps[app];
      apps := apps[app := row.(status := Active, deletedAt := None, version := row.version + 1)];
      enabled := enabled[row.principal := true];
      audits := audits + multiset{AppAudit("application.restored", app)};
      return Changed;
    }

    method TakeoverApp(app: Id, owner: Id) returns (reply: Reply)
      modifies this
      ensures Outcome(Current(), reply) == Next(old(Current()), Operation.TakeoverApp(app, owner))
      ensures audits
              == old(audits) + if reply.Changed? then multiset{AppAudit("application.taken_over", app)} else multiset{}
    {
      if app !in apps {
        return Failed(NotFound);
      }
      if !apps[app].status.PendingTakeover? {
        return Unchanged;
      }
      if Owner(app, owner) !in owners {
        owners := owners + [Owner(app, owner)];
      }
      apps := apps[app := apps[app].(status := Active, version := apps[app].version + 1)];
      audits := audits + multiset{AppAudit("application.taken_over", app)};
      return Changed;
    }

    method BindMembership(app: Id, member: Id, expectedVersion: Option<nat>) returns (reply: Reply)
      modifies this
      ensures Outcome(Current(), reply) == Next(old(Current()), Operation.BindMembership(app, member, expectedVersion))
      ensures audits
              == old(audits)
                 + if reply.Changed? then multiset{AppAudit("application.membership_bound", app)} else multiset{}
    {
      if app !in apps || apps[app].status.Deleted? {
        return Failed(NotFound);
      }
      if expectedVersion.Some? && apps[app].version != expectedVersion.value {
        return Failed(VersionConflict);
      }
      if member !in members || !members[member].enabled || !members[member].userActive {
        return Failed(MemberNotFound);
      }
      if !members[member].active {
        return Failed(MemberNotActive);
      }
      representatives := representatives[app := Representative(member, true)];
      apps := apps[app := apps[app].(version := apps[app].version + 1)];
      audits := audits + multiset{AppAudit("application.membership_bound", app)};
      return Changed;
    }

    method RevokeMembershipBinding(app: Id) returns (reply: Reply)
      modifies this
      ensures Outcome(Current(), reply) == Next(old(Current()), Operation.RevokeMembership(app))
      ensures audits
              == old(audits)
                 + if reply.Changed? then multiset{AppAudit("application.membership_binding_revoked", app)}
                   else multiset{}
    {
      if app !in representatives || app !in apps {
        return Failed(NotFound);
      }
      representatives := representatives[app := representatives[app].(active := false)];
      apps := apps[app := apps[app].(version := apps[app].version + 1)];
      audits := audits + multiset{AppAudit("application.membership_binding_revoked", app)};
      return Changed;
    }

    method CreateKey(key: string, app: Id, digest: string, scopes: set<string>, directory: Option<string>,
                     expiresAt: int, action: string)
      returns (reply: Reply)
      requires key !in keys
      modifies this
      ensures Outcome(Current(), reply)
           == Next(old(Current()), Operation.CreateKey(key, app, digest, scopes, directory, expiresAt))
      ensures audits == old(audits) + if reply.Changed? then multiset{KeyAudit(action, key)} else multiset{}
    {
      if app !in apps {
        return Failed(NotFound);
      }
      keys := keys[key := Key(app, digest, scopes, directory, None, true, expiresAt)];
      apps := apps[app := apps[app].(version := apps[app].version + 1)];
      audits := audits + multiset{KeyAudit(action, key)};
      return Changed;
    }

    method RecordSecurityAudit(audit: Audit)
      modifies this`audits
      ensures audits == old(audits) + multiset{audit}
    {
      audits := audits + multiset{audit};
    }

    /** update_key, which is only ever asked to revoke. */
    method RevokeKey(key: string, revokedAt: int, action: string) returns (reply: Reply)
      modifies this
      ensures Outcome(Current(), reply) == Next(old(Current()), Operation.RevokeKey(key, revokedAt))
      ensures audits == old(audits) + if reply.Changed? then multiset{KeyAudit(action, key)} else multiset{}
    {
      if key !in keys {
        return Failed(NotFound);
      }
      var row := keys[key];
      keys := keys[key := row.(active := false, revokedAt := Some(revokedAt))];
      if row.app in apps {
        apps := apps[row.app := apps[row.app].(version := apps[row.app].version + 1)];
      }
      audits := audits + multiset{KeyAudit(action, key)};
      return Changed;
    }

    /** One conditional update and its event. */
    method ContainApp(app: Id)
      requires app in apps && apps[app].status.Active?
      modifies this`apps, this`audits
      ensures apps == Contained(old(apps), {app})
      ensures audits == Logged(old(audits), {app})
    {
      apps := apps[app := apps[app].(status := PendingTakeover, version := apps[app].version + 1)];
      audits := audits + multiset{Containment(app)};
      assert (set a | a in {app} :: Containment(a)) == {Containment(app)};
    }

    /** One update of many rows and an event for each of them. */
    method ContainApps(which: set<Id>)
      modifies this`apps, this`audits
      ensures apps == Contained(old(apps), which)
      ensures audits == Logged(old(audits), which)
    {
      apps := map a | a in apps ::
        if a in which then apps[a].(status := PendingTakeover, version := apps[a].version + 1) else apps[a];
      audits := audits + multiset(set a | a in which :: Containment(a));
    }

    /** Contains the applications that lost their last active owner; returns how many. */
    method RecomputeOwnerStateForPrincipal(principal: Id, now: int) returns (changed: nat)
      modifies this`apps, this`audits
      ensures apps == Contained(old(apps), OwnerlessOf(old(apps), owners, members, principal, now))
      ensures changed == |OwnerlessOf(old(apps), owners, members, principal, now)|
      ensures audits == Logged(old(audits), OwnerlessOf(old(apps), owners, members, principal, now))
    {
      ghost var start := apps;
      changed := 0;
      ContainedNone(start, audits);
      for i := 0 to |owners|
        invariant changed == |LostIn(start, owners, members, principal, now, i)|
        invariant apps == Contained(start, LostIn(start, owners, members, principal, now, i))
        invariant audits == Logged(old(audits), LostIn(start, owners, members, principal, now, i))
      {
        NextRowLost(start, owners, members, old(audits), principal, now, i);
        var app := owners[i].app;
        if owners[i].principal == principal {
          if !HasActiveOwner(owners, members, app, now) && app in apps && apps[app].status.Active? {
            ContainApp(app);
            changed := changed + 1;
          }
        }
      }
      AllRowsLost(start, owners, members, principal, now);
    }

    /** One application of the scan: recomputes for each of its owners. */
    method ScanOwnersOf(app: Id, now: int, sofar: nat, ghost start: map<Id, App>, ghost done: set<Id>,
                        ghost logged: multiset<Audit>)
      returns (changed: nat)
      requires apps == Contained(start, done)
      requires sofar == |done| && audits == Logged(logged, done)
      modifies this`apps, this`audits
      ensures apps == Contained(start, Walked(start, owners, members, done, app, now, |owners|))
      ensures changed == |Walked(start, owners, members, done, app, now, |owners|)|
      ensures audits == Logged(logged, Walked(start, owners, members, done, app, now, |owners|))
    {
      changed := sofar;
      ghost var walked := done;
      for i := 0 to |owners|
        invariant walked == Walked(start, owners, members, done, app, now, i)
        invariant apps == Contained(start, walked) && changed == |walked| && audits == Logged(logged, walked)
      {
        if owners[i].app == app {
          OwnerAdds(start, owners, members, logged, walked, owners[i].principal, now);
          walked := walked + OwnerlessOf(apps, owners, members, owners[i].principal, now);
          var contained := RecomputeOwnerStateForPrincipal(owners[i].principal, now);
          changed := changed + contained;
        }
      }
    }

    /** The first part of the scan: recomputes for the owners of each active application. */
    method ScanOwners(order: seq<Id>, now: int) returns (changed: nat)
      modifies this`apps, this`audits
      ensures apps == Contained(old(apps), ScannedUpTo(old(apps), owners, members, order, now, |order|))
      ensures changed == |ScannedUpTo(old(apps), owners, members, order, now, |order|)|
      ensures audits == Logged(old(audits), ScannedUpTo(old(apps), owners, members, order, now, |order|))
    {
      ghost var start := apps;
      changed := 0;
      ContainedNone(start, audits);
      for n := 0 to |order|
        invariant apps == Contained(start, ScannedUpTo(start, owners, members, order, now, n))
        invariant changed == |ScannedUpTo(start, owners, members, order, now, n)|
        invariant audits == Logged(old(audits), ScannedUpTo(start, owners, members, order, now, n))
      {
        changed := ScanOwnersOf(order[n], now, changed, start,
                                ScannedUpTo(start, owners, members, order, now, n), old(audits));
      }
    }

    /** The governance scan; order is how its query listed the active applications. */
    method ScanOwnerlessApplications(order: seq<Id>, now: int) returns (changed: nat)
      requires forall a :: a in order <==> a in apps && apps[a].status.Active?
      modifies this`apps, this`audits
      ensures apps == Contained(old(apps), Ownerless(old(apps), owners, members, now))
      ensures changed == |Ownerless(old(apps), owners, members, now)|
      ensures audits == Logged(old(audits), Ownerless(old(apps), owners, members, now))
    {
      ghost var start, logged := apps, audits;
      changed := ScanOwners(order, now);
      // Applications with no owner rows need containment too.
      UnownedIsTheRest(start, owners, members, logged, order, now);
      var unowned := Unowned(apps, owners, order);
      ContainApps(unowned);
      changed := changed + |unowned|;
    }
  }

  /** The scan is complete and idempotent: after it every active application has an active
      owner, the lost ones wait for a takeover with their version one higher, all others are
      as they were, and a second scan at that instant finds nothing and changes nothing. */
  lemma ScanIsComplete(t: Tables, now: int)
    ensures var lost := Ownerless(t.apps, t.owners, t.members, now);
            var after := Next(t, Scan(now)).tables;
            && (forall a | a in after.apps && after.apps[a].status.Active? ::
                  HasActiveOwner(after.owners, after.members, a, now))
            && (forall a | a in t.apps :: a in after.apps && after.apps[a] ==
                  if a in lost then t.apps[a].(status := PendingTakeover, version := t.apps[a].version + 1)
                      else t.apps[a])
            && Ownerless(after.apps, after.owners, after.members, now) == {}
            && Next(after, Scan(now)).tables == after
            && |Containments(lost)| == |lost|
  {
    var lost := Ownerless(t.apps, t.owners, t.members, now);
    var after := Next(t, Scan(now)).tables;
    ContainmentsCount(lost);
    forall a | a in after.apps && after.apps[a].status.Active?
      ensures HasActiveOwner(after.owners, after.members, a, now)
    {
      assert a !in lost;
    }
    assert Contained(after.apps, {}) == after.apps;
  }

  /** restore_app can bring back an application that the next scan contains again: it does
      just when none of the owners it accepted has a membership that still runs. */
  lemma RestoredIsOwnerlessExactlyWhen(t: Tables, app: Id, now: int)
    requires Next(t, RestoreApp(app)).reply.Changed?
    ensures var after := Next(t, RestoreApp(app)).tables;
            IsOwnerless(after.apps, after.owners, after.members, app, now)
            <==> forall o | o in t.owners && o.app == app && o.principal in t.members
                            && t.members[o.principal].active && t.members[o.principal].enabled ::
                   t.members[o.principal].expiresAt.Some? && t.members[o.principal].expiresAt.value <= now
  {
  }

  /** A takeover ends the containment: the application is active under the new owner, and
      not ownerless while that owner's membership runs. */
  lemma TakeoverEndsContainment(t: Tables, app: Id, owner: Id, now: int)
    requires Next(t, TakeoverApp(app, owner)).reply.Changed?
    ensures var after := Next(t, TakeoverApp(app, owner)).tables;
            && after.apps[app].status.Active? && after.apps[app].version == t.apps[app].version + 1
            && Owns(after.owners, owner, app)
            && (forall o :: o in after.owners <==> o in t.owners || o == Owner(app, owner))
            && (owner in t.members && IsActiveOwner(t.members[owner], now) ==>
                  !IsOwnerless(after.apps, after.owners, after.members, app, now))
  {
    var after := Next(t, TakeoverApp(app, owner)).tables;
    assert Owner(app, owner) in after.owners;
  }

  // -------------------------------------------------------- authentication

  const SCHEME: string := "S3MP-Key "

  function Partition(s: string): (parts: Option<(string, string)>) {
    if s == "" then None
    else if s[0] == '.' then Some(("", s[1..]))
    else
      match Partition(s[1..])
      case None => None
      case Some((before, behind)) => Some(([s[0]] + before, behind))
  }

  /** parse_credential: nothing where it raises. */
  function ParseCredential(credential: string): (parts: Option<(string, string)>) {
    if !(SCHEME <= credential) then None
    else
      var parts := Partition(credential[|SCHEME|..]);
      if parts.None? || parts.value.0 == "" || parts.value.1 == "" then None else parts
  }

  lemma {:induction false} PartitionAtFirstDot(key: string, secret: string)
    requires '.' !in key
    ensures Partition(key + "." + secret) == Some((key, secret))
  {
    var s := key + "." + secret;
    if key == "" {
      assert s[1..] == secret;
    } else {
      assert s[1..] == key[1..] + "." + secret && s[0] == key[0];
      assert key == [key[0]] + key[1..];
      PartitionAtFirstDot(key[1..], secret);
    }
  }

  /** What a key service issues is read back as it was, dots in the secret included. */
  lemma CredentialRoundTrip(key: string, secret: string)
    requires '.' !in key && key != "" && secret != ""
    ensures ParseCredential(SCHEME + (key + "." + secret)) == Some((key, secret))
  {
    assert (SCHEME + (key + "." + secret))[|SCHEME|..] == key + "." + secret;
    PartitionAtFirstDot(key, secret);
  }

  datatype Denial = Malformed | InvalidKey | NotUsable | ApplicationNotActive

  /** Other secrets cannot be encoded and count as a failed comparison; issued ones are. */
  predicate Ascii(secret: string) {
    forall c | c in secret :: c as int < 128
  }

  /** authenticate; digest is the keyed digest of secrets, compared in constant time. */
  function Authenticate(t: Tables, digest: string -> string, credential: string, now: int)
    : (r: Result<string, Denial>)
  {
    match ParseCredential(credential)
    case None => Err(Malformed)
    case Some((key, secret)) =>
      if key !in t.keys || t.keys[key].app !in t.apps || t.apps[t.keys[key].app].principal !in t.enabled then
        Err(InvalidKey)
      else
        var row, app := t.keys[key], t.apps[t.keys[key].app];
        if !Ascii(secret) || digest(secret) != row.digest then Err(InvalidKey)
        else if !row.active || row.expiresAt <= now then Err(NotUsable)
        else if !app.status.Active? || !t.enabled[app.principal] then Err(ApplicationNotActive)
        else Ok(key)
  }

  lemma {:induction false} PartitionIsAtTheFirstDot(s: string)
    ensures Partition(s).None? <==> '.' !in s
    ensures Partition(s).Some? ==>
              var (before, behind) := Partition(s).value; s == before + "." + behind && '.' !in before
  {
    if s != "" && s[0] != '.' {
      PartitionIsAtTheFirstDot(s[1..]);
      assert s == [s[0]] + s[1..];
      if Partition(s[1..]).Some? {
        var (before, behind) := Partition(s[1..]).value;
        assert [s[0]] + (before + "." + behind) == [s[0]] + before + "." + behind;
      }
    }
  }

  /** What is parsed is exactly what is written that way. */
  lemma ParsedExactlyWhen(credential: string, key: string, secret: string)
    ensures ParseCredential(credential) == Some((key, secret))
       <==> credential == "S3MP-Key " + (key + "." + secret) && key != "" && '.' !in key && secret != ""
  {
    if SCHEME <= credential {
      var rest := credential[|SCHEME|..];
      assert credential == SCHEME + rest;
      PartitionIsAtTheFirstDot(rest);
    }
    if credential == "S3MP-Key " + (key + "." + secret) && key != "" && '.' !in key && secret != "" {
      CredentialRoundTrip(key, secret);
    }
  }

  /** The credential of a key under some secret with the digest. */
  ghost predicate Presents(credential: string, key: string, digest: string -> string, expected: string) {
    && key != "" && '.' !in key
    && exists secret: string ::
         secret != "" && (forall c | c in secret :: c as int < 128) && digest(secret) == expected
         && credential == "S3MP-Key " + (key + "." + secret)
  }

  lemma AuthenticatesWhenPresented(t: Tables, digest: string -> string, credential: string, now: int, key: string)
    requires Consistent(t) && key in t.keys
    ensures Authenticate(t, digest, credential, now) == Ok(key)
       <==> && Presents(credential, key, digest, t.keys[key].digest)
            && t.keys[key].revokedAt.None? && now < t.keys[key].expiresAt
            && t.apps[t.keys[key].app].status == Active
  {
    assert KeySound(t, key) && RowSound(t, t.keys[key].app);
    if Authenticate(t, digest, credential, now) == Ok(key) {
      var (k, secret) := ParseCredential(credential).value;
      ParsedExactlyWhen(credential, k, secret);
    }
    if Presents(credential, key, digest, t.keys[key].digest) {
      var secret: string :| secret != "" && (forall c | c in secret :: c as int < 128)
                            && digest(secret) == t.keys[key].digest
                            && credential == "S3MP-Key " + (key + "." + secret);
      ParsedExactlyWhen(credential, key, secret);
    }
  }

  /** Why a credential is refused. One that is not a key and a secret is malformed; one that
      names no key, or comes with the wrong secret, is invalid whatever became of the key. */
  lemma DeniedExactlyWhen(t: Tables, digest: string -> string, key: string, secret: string, now: int)
    requires Consistent(t) && key != "" && '.' !in key && secret != ""
    ensures var reply := Authenticate(t, digest, "S3MP-Key " + (key + "." + secret), now);
            var right := key in t.keys && (forall c | c in secret :: c as int < 128)
                         && digest(secret) == t.keys[key].digest;
            && (reply == Err(InvalidKey) <==> !right)
            && (reply == Err(NotUsable)
                <==> right && (t.keys[key].revokedAt.Some? || t.keys[key].expiresAt <= now))
            && (reply == Err(ApplicationNotActive)
                <==> right && t.keys[key].revokedAt.None? && now < t.keys[key].expiresAt
                     && t.apps[t.keys[key].app].status != Active)
  {
    var credential := "S3MP-Key " + (key + "." + secret);
    ParsedExactlyWhen(credential, key, secret);
    if key in t.keys {
      assert KeySound(t, key) && RowSound(t, t.keys[key].app);
    }
  }

  lemma MalformedExactlyWhen(t: Tables, digest: string -> string, credential: string, now: int)
    ensures Authenticate(t, digest, credential, now) == Err(Malformed)
       <==> forall key, secret | credential == "S3MP-Key " + (key + "." + secret) ::
              key == "" || '.' in key || secret == ""
  {
    forall key, secret
      ensures ParseCredential(credential) == Some((key, secret))
         <==> credential == "S3MP-Key " + (key + "." + secret) && key != "" && '.' !in key && secret != ""
    {
      ParsedExactlyWhen(credential, key, secret);
    }
  }

  /** After any run since it was issued, or rotated in, a key authenticates exactly the
      credentials of its id and a secret with the digest given then, and exactly while it
      is neither revoked nor expired and its application is active. */
  lemma AuthenticatesExactlyWhen(t: Tables, issue: Operation, run: seq<Operation>, digest: string -> string,
                                 credential: string, now: int)
    requires Consistent(t) && issue.CreateKey? && Possible(t, issue) && Next(t, issue).reply.Changed?
    requires PossibleRun(Next(t, issue).tables, run)
    ensures var end, key := Play(Next(t, issue).tables, run), issue.key;
            && key in end.keys && issue.app in end.apps
            && (Authenticate(end, digest, credential, now) == Ok(key)
                <==> && Presents(credential, key, digest, issue.digest)
                     && end.keys[key].revokedAt.None? && now < issue.expiresAt
                     && end.apps[issue.app].status == Active)
  {
    StepKeepsConsistent(t, issue);
    var issued := Next(t, issue).tables;
    RunKeepsConsistent(issued, run);
    RevokedStaysRevoked(issued, run, issue.key);
    VersionTellsChange(issued, run, issue.app);
    AuthenticatesWhenPresented(Play(issued, run), digest, credential, now, issue.key);
  }

  /** A secret of another digest is refused after every run. */
  lemma WrongSecretIsRefused(t: Tables, issue: Operation, run: seq<Operation>, digest: string -> string, secret: string,
                             now: int)
    requires Consistent(t) && issue.CreateKey? && Possible(t, issue) && Next(t, issue).reply.Changed?
    requires PossibleRun(Next(t, issue).tables, run) && digest(secret) != issue.digest
    ensures Authenticate(Play(Next(t, issue).tables, run), digest, "S3MP-Key " + (issue.key + "." + secret), now)
            != Ok(issue.key)
  {
    var credential, end := "S3MP-Key " + (issue.key + "." + secret), Play(Next(t, issue).tables, run);
    AuthenticatesExactlyWhen(t, issue, run, digest, credential, now);
    if Presents(credential, issue.key, digest, issue.digest) {
      var other: string :| other != "" && (forall c | c in other :: c as int < 128) && digest(other) == issue.digest
                           && credential == "S3MP-Key " + (issue.key + "." + other);
      SameTail(issue.key, secret, other);
    }
  }

  lemma SameTail(key: string, a: string, b: string)
    requires "S3MP-Key " + (key + "." + a) == "S3MP-Key " + (key + "." + b)
    ensures a == b
  {
    var x, y := "S3MP-Key " + (key + "." + a), "S3MP-Key " + (key + "." + b);
    var n := |"S3MP-Key "| + |key| + 1;
    assert a == x[n..] && b == y[n..];
  }

  /** get_key: keys are managed only while their application is active. */
  predicate Manageable(t: Tables, key: string) {
    key in t.keys && t.tenantActive && t.keys[key].app in t.apps && t.apps[t.keys[key].app].status.Active?
  }

  /** Who asks, when, and what the authorizer answers for a caller that owns nothing. */
  datatype Caller = Caller(principal: Id, now: int, mayRead: bool, mayManage: bool)

  /** _require_owner_or_permission. */
  predicate Permitted(t: Tables, caller: Caller, app: Id, allowed: bool) {
    allowed || (Owns(t.owners, caller.principal, app) && caller.principal in t.members
                && IsActiveOwner(t.members[caller.principal], caller.now))
  }

  /** Why a key may not be managed by the caller, if it may not. */
  function ManagingFault(t: Tables, caller: Caller, key: string): (fault: Option<Fault>) {
    if !Manageable(t, key) then Some(NotFound)
    else if !Permitted(t, caller, t.keys[key].app, caller.mayRead) then Some(PermissionDenied)
    else if !Permitted(t, caller, t.keys[key].app, caller.mayManage) then Some(PermissionDenied)
    else None
  }

  function IssueFault(t: Tables, caller: Caller, app: Id, directory: Option<string>): (fault: Option<Fault>) {
    if !Permitted(t, caller, app, caller.mayManage) then Some(PermissionDenied)
    else if directory.Some? && Paths.CanonicalObjectKey(directory.value, false).Err? then Some(DirectoryNotCanonical)
    else None
  }

  class ApiKeyService {
    const store: SqlAlchemyApplicationStore
    const digest: string -> string

    constructor (store: SqlAlchemyApplicationStore, digest: string -> string)
      ensures this.store == store && this.digest == digest
    {
      this.store, this.digest := store, digest;
    }

    method Require(caller: Caller, app: Id, allowed: bool) returns (permitted: bool)
      modifies store`audits
      ensures permitted == Permitted(old(store.Current()), caller, app, allowed)
      ensures store.audits == old(store.audits)
              + if permitted then multiset{} else multiset{AppAudit("authorization.denied", app)}
    {
      permitted := allowed || (Owner(app, caller.principal) in store.owners && caller.principal in store.members
                               && IsActiveOwner(store.members[caller.principal], caller.now));
      if !permitted {
        store.RecordSecurityAudit(AppAudit("authorization.denied", app));
      }
    }

    method Issue(caller: Caller, app: Id, key: string, secret: string, scopes: set<string>, directory: Option<string>,
                 expiresAt: int)
      returns (reply: Reply)
      requires key !in store.keys
      modifies store
      ensures var fault := IssueFault(old(store.Current()), caller, app, directory);
              && Outcome(store.Current(), reply)
                 == (if fault.Some? then Outcome(old(store.Current()), Failed(fault.value))
                     else Next(old(store.Current()), CreateKey(key, app, digest(secret), scopes, directory, expiresAt)))
              && store.audits == old(store.audits)
                 + if fault == Some(PermissionDenied) then multiset{AppAudit("authorization.denied", app)}
                   else if reply.Changed? then multiset{KeyAudit("api_key.issued", key)} else multiset{}
    {
      var permitted := Require(caller, app, caller.mayManage);
      if !permitted {
        return Failed(PermissionDenied);
      }
      if directory.Some? {
        var canonical := Paths.CanonicalObjectKey(directory.value, false);
        if canonical.Err? {
          return Failed(DirectoryNotCanonical);
        }
      }
      reply := store.CreateKey(key, app, digest(secret), scopes, directory, expiresAt, "api_key.issued");
    }

    /** get_key and the check that its caller may manage it. */
    method RequireManaged(caller: Caller, key: string) returns (fault: Option<Fault>)
      modifies store`audits
      ensures fault == ManagingFault(old(store.Current()), caller, key)
      ensures store.audits == old(store.audits)
              + if fault == Some(PermissionDenied)
                then multiset{AppAudit("authorization.denied", old(store.keys)[key].app)} else multiset{}
    {
      if key !in store.keys || !store.tenantActive || store.keys[key].app !in store.apps
         || !store.apps[store.keys[key].app].status.Active? {
        return Some(NotFound);
      }
      var permitted := Require(caller, store.keys[key].app, caller.mayRead);
      if permitted {
        permitted := Require(caller, store.keys[key].app, caller.mayManage);
      }
      return if permitted then None else Some(PermissionDenied);
    }

    method Revoke(caller: Caller, key: string, now: int) returns (reply: Reply)
      modifies store
      ensures var fault := ManagingFault(old(store.Current()), caller, key);
              Outcome(store.Current(), reply)
              == if fault.Some? then Outcome(old(store.Current()), Failed(fault.value))
                 else Next(old(store.Current()), RevokeKey(key, now))
    {
      var fault := RequireManaged(caller, key);
      if fault.Some? {
        return Failed(fault.value);
      }
      reply := store.RevokeKey(key, now, "api_key.revoked");
    }

    /** Two transactions; whatever keeps the second from committing leaves the first. */
    method Rotate(caller: Caller, key: string, newKey: string, newSecret: string, now: int, overlap: nat,
                  expiresAt: int, replaced: bool)
      returns (reply: Reply)
      requires newKey !in store.keys
      modifies store
      ensures var fault := ManagingFault(old(store.Current()), caller, key);
              Outcome(store.Current(), reply)
              == if fault.Some? then Outcome(old(store.Current()), Failed(fault.value))
                 else if !replaced then
                   Outcome(Next(old(store.Current()), RevokeKey(key, now + overlap)).tables, Failed(Interrupted))
                 else Rotated(old(store.Current()), key, newKey, digest(newSecret), now + overlap, expiresAt)
    {
      var fault := RequireManaged(caller, key);
      if fault.Some? {
        return Failed(fault.value);
      }
      var existing := store.keys[key];
      var revoked := store.RevokeKey(key, now + overlap, "api_key.rotated");
      if !replaced {
        return Failed(Interrupted);
      }
      reply := store.CreateKey(newKey, existing.app, digest(newSecret), existing.scopes, existing.directory, expiresAt,
                               "api_key.rotation_replacement_issued");
    }
  }

  function Rotated(t: Tables, key: string, newKey: string, digest: string, revokedAt: int, expiresAt: int): (o: Outcome)
    requires key in t.keys
  {
    Next(Next(t, RevokeKey(key, revokedAt)).tables,
         CreateKey(newKey, t.keys[key].app, digest, t.keys[key].scopes, t.keys[key].directory, expiresAt))
  }

  /** The caller is an owner whose membership stands and has not run out. */
  ghost predicate StandsAsOwner(t: Tables, caller: Caller, app: Id) {
    && Owner(app, caller.principal) in t.owners && caller.principal in t.members
    && t.members[caller.principal].active && t.members[caller.principal].enabled
    && (t.members[caller.principal].expiresAt.Some? ==> caller.now < t.members[caller.principal].expiresAt.value)
  }

  /** Keys are managed by owners and by those the authorizer allows to, and only while
      their application is active in an active tenant. */
  lemma ManagedExactlyWhen(t: Tables, caller: Caller, key: string)
    ensures var fault := ManagingFault(t, caller, key);
            var found := key in t.keys && t.keys[key].app in t.apps && t.tenantActive
                         && t.apps[t.keys[key].app].status == Active;
            && (fault == Some(NotFound) <==> !found)
            && (fault == None
                <==> found && ((caller.mayRead && caller.mayManage) || StandsAsOwner(t, caller, t.keys[key].app)))
            && (fault.Some? ==> fault.value in {NotFound, PermissionDenied})
  {
  }

  /** Keys are issued by owners and by those allowed to, in no directory or a canonical one. */
  lemma IssuedExactlyWhen(t: Tables, caller: Caller, app: Id, directory: Option<string>)
    ensures var fault := IssueFault(t, caller, app, directory);
            var canonical := directory == None
                             || Paths.CanonicalObjectKey(directory.value, false) == Ok(directory.value);
            && (fault == Some(PermissionDenied) <==> !caller.mayManage && !StandsAsOwner(t, caller, app))
            && (fault == None <==> (caller.mayManage || StandsAsOwner(t, caller, app)) && canonical)
            && (fault.Some? ==> fault.value in {PermissionDenied, DirectoryNotCanonical})
  {
  }

  /** Rotation replaces at once, and a key revoked before as well: the new key works for the
      same application, scopes and directory, and the old one never again, whatever overlap
      was asked for. */
  lemma RotationReplacesAtOnce(t: Tables, key: string, newKey: string, digest: string -> string, secret: string,
                               revokedAt: int, expiresAt: int, run: seq<Operation>, credential: string, now: int)
    requires Consistent(t) && Manageable(t, key) && newKey !in t.keys
    requires '.' !in newKey && newKey != "" && secret != "" && Ascii(secret) && now < expiresAt
    requires PossibleRun(Rotated(t, key, newKey, digest(secret), revokedAt, expiresAt).tables, run)
    ensures var after := Rotated(t, key, newKey, digest(secret), revokedAt, expiresAt).tables;
            && Authenticate(after, digest, SCHEME + (newKey + "." + secret), now) == Ok(newKey)
            && after.keys[newKey]
               == Key(t.keys[key].app, digest(secret), t.keys[key].scopes, t.keys[key].directory, None, true, expiresAt)
            && Authenticate(Play(after, run), digest, credential, now) != Ok(key)
  {
    CredentialRoundTrip(newKey, secret);
    assert RowSound(t, t.keys[key].app);
    var after := Rotated(t, key, newKey, digest(secret), revokedAt, expiresAt).tables;
    assert after.enabled == t.enabled && after.apps[t.keys[key].app].status.Active?;
    RevokedNeverAuthenticates(after, run, key, digest, credential, now);
  }

  /** A rotation that stops between its transactions only revokes: the old key never works
      again, there is no new one, and every other key is as it was. */
  lemma InterruptedRotationOnlyRevokes(t: Tables, key: string, revokedAt: int, run: seq<Operation>,
                                       digest: string -> string, credential: string, now: int)
    requires key in t.keys && PossibleRun(Next(t, RevokeKey(key, revokedAt)).tables, run)
    ensures var after := Next(t, RevokeKey(key, revokedAt)).tables;
            && after.keys.Keys == t.keys.Keys
            && (forall k | k in t.keys && k != key :: after.keys[k] == t.keys[k])
            && Authenticate(Play(after, run), digest, credential, now) != Ok(key)
  {
    RevokedNeverAuthenticates(Next(t, RevokeKey(key, revokedAt)).tables, run, key, digest, credential, now);
  }

  /** Once revoked, for good: whatever happens to the tenant afterwards and whatever the
      credential, its key is not authenticated again. */
  lemma RevokedNeverAuthenticates(t: Tables, run: seq<Operation>, key: string, digest: string -> string,
                                  credential: string, now: int)
    requires PossibleRun(t, run) && key in t.keys && !t.keys[key].active
    ensures Authenticate(Play(t, run), digest, credential, now) != Ok(key)
  {
    RevokedStaysRevoked(t, run, key);
  }

  /** So deleting an application revokes all its keys for good, restored or not. */
  lemma DeletionRevokesForGood(t: Tables, app: Id, deletedAt: int, run: seq<Operation>, key: string,
                               digest: string -> string, credential: string, now: int)
    requires Next(t, DeleteApp(app, deletedAt)).reply.Changed? && key in t.keys && t.keys[key].app == app
    requires PossibleRun(Next(t, DeleteApp(app, deletedAt)).tables, run)
    ensures Authenticate(Play(Next(t, DeleteApp(app, deletedAt)).tables, run), digest, credential, now) != Ok(key)
  {
    RevokedNeverAuthenticates(Next(t, DeleteApp(app, deletedAt)).tables, run, key, digest, credential, now);
  }

  /** No key of an application authenticates while it is deleted or waits for a takeover. */
  lemma OnlyActiveApplicationsAuthenticate(t: Tables, run: seq<Operation>, digest: string -> string, credential: string,
                                           now: int)
    requires Consistent(t) && PossibleRun(t, run)
    requires Authenticate(Play(t, run), digest, credential, now).Ok?
    ensures var end := Play(t, run);
            var key := Authenticate(end, digest, credential, now).value;
            && end.keys[key].app in end.apps
            && end.apps[end.keys[key].app].status.Active? && end.apps[end.keys[key].app].deletedAt.None?
            && end.keys[key].revokedAt.None? && now < end.keys[key].expiresAt
  {
    RunKeepsConsistent(t, run);
    var end := Play(t, run);
    var key := Authenticate(end, digest, credential, now).value;
    assert KeySound(end, key);
    assert RowSound(end, end.keys[key].app);
  }

  /** Deletion reaches the keys of that moment only: create_key does not ask for the
      application's status, and a key issued to a deleted application works once it is
      restored. */
  lemma KeyIssuedWhileDeletedWorks(t: Tables, app: Id, deletedAt: int, key: string, digest: string -> string,
                                   secret: string, scopes: set<string>, directory: Option<string>, expiresAt: int,
                                   now: int)
    requires t.tenantActive && app in t.apps && !t.apps[app].status.Deleted?
    requires HasRestoringOwner(t.owners, t.members, app)
    requires key !in t.keys && '.' !in key && key != "" && secret != "" && Ascii(secret) && now < expiresAt
    ensures var deleted := Next(t, DeleteApp(app, deletedAt)).tables;
            var issued := Next(deleted, CreateKey(key, app, digest(secret), scopes, directory, expiresAt)).tables;
            var restored := Next(issued, RestoreApp(app)).tables;
            Authenticate(restored, digest, SCHEME + (key + "." + secret), now) == Ok(key)
  {
    CredentialRoundTrip(key, secret);
    var deleted := Next(t, DeleteApp(app, deletedAt)).tables;
    var issued := Next(deleted, CreateKey(key, app, digest(secret), scopes, directory, expiresAt)).tables;
    assert issued.owners == t.owners && issued.members == t.members && issued.apps[app].status.Deleted?;
    assert issued.apps[app].principal == t.apps[app].principal;
  }
}
