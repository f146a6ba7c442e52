/** The user account: its roles and their permissions, the admin-panel gate
    and the display name the panel shows. */
module Users {
  import opened Common
  import opened Restrictions

  /** The three roles the seeder creates: 'admin', 'moderator' and 'user'. */
  datatype Role = Admin | Moderator | Member

  type UserId = string

  /** The permissions the seeder grants the 'user' role. */
  const MEMBER_PERMISSIONS: set<string> := {
    "topics.create", "topics.update.own", "topics.delete.own",
    "comments.create", "comments.delete.own",
    "reports.create", "reports.delete.own"}

  /** The moderator's base permissions: the user's plus moderation. The
      panel permissions it adds are granted only when some other seeder
      created them; none of them is `users.manage`. */
  const MODERATOR_PERMISSIONS: set<string> := MEMBER_PERMISSIONS + {
    "topics.moderate", "comments.moderate", "reports.status.update",
    "alerts.manage", "flags.manage", "restrictions.manage"}

  /** Every permission the seeder creates; the admin role gets them all. */
  const ALL_PERMISSIONS: set<string> := MODERATOR_PERMISSIONS + {
    "events.manage", "phones.manage", "trash.manage", "masses.manage",
    "users.manage", "bairros.manage"}

  function RolePermissions(r: Role): set<string>
  {
    match r
    case Admin => ALL_PERMISSIONS
    case Moderator => MODERATOR_PERMISSIONS
    case Member => MEMBER_PERMISSIONS
  }

  /** The default `notification_settings`: all four flags on. */
  const DEFAULT_NOTIFICATION_SETTINGS: map<string, Json> := map[
    "pushEnabled" := JBool(true), "alertsEnabled" := JBool(true),
    "eventsEnabled" := JBool(true), "reportsEnabled" := JBool(true)]

  /** A row of `users`. `password` stands for the stored hash: the hash is
      taken to be injective, so `Hash::check` is equality. */
  datatype User = User(
    id: UserId,
    phone: string,
    password: string,
    nome: Option<string>,
    email: Option<string>,
    bairroId: Option<string>,
    address: Option<map<string, Json>>,
    phoneVerified: bool,
    phoneVerifiedAt: Option<int>,
    roles: set<Role>,
    notificationSettings: map<string, Json>)

  predicate HasRole(u: User, r: Role)
  {
    r in u.roles
  }

  /** `hasAnyRole(['admin', 'moderator'])`. */
  predicate IsStaff(u: User)
  {
    Admin in u.roles || Moderator in u.roles
  }

  /** `$user->can($permission)` through the user's roles. */
  predicate Can(u: User, permission: string)
  {
    exists r :: r in u.roles && permission in RolePermissions(r)
  }

  /** `hasActiveRestriction($type, $scope)`: some active restriction of this
      user with this type and, when a scope is given, this scope. */
  predicate HasActiveRestriction(u: User, rows: seq<Restriction>, t: RestrictionType, scope: Option<RestrictionScope>, now: int)
  {
    exists r :: r in ActiveRows(rows, now) && r.userId == u.id && r.rtype == t && (scope.None? || r.scope == scope.value)
  }

  /** `canAccessPanel`: staff only, and not while a global login suspension
      is active. */
  predicate CanAccessPanel(u: User, rows: seq<Restriction>, now: int)
  {
    IsStaff(u) && !HasActiveRestriction(u, rows, SuspendLogin, Some(Global), now)
  }

  /** `getFilamentName`: `nome ?? email ?? phone ?? id`; the phone column is
      not nullable, so the id is never reached. */
  function FilamentName(u: User): (name: string)
    ensures u.nome.Some? ==> name == u.nome.value
    ensures u.nome.None? && u.email.Some? ==> name == u.email.value
    ensures u.nome.None? && u.email.None? ==> name == u.phone
  {
    u.nome.GetOr(u.email.GetOr(u.phone))
  }

  /** `users.manage` belongs to admins alone among the seeded roles. */
  lemma ManageUsersIsAdminOnly(u: User)
    ensures Can(u, "users.manage") <==> Admin in u.roles
  {
    if Can(u, "users.manage") {
      var r :| r in u.roles && "users.manage" in RolePermissions(r);
      assert "users.manage" !in MODERATOR_PERMISSIONS;
    } else {
      assert "users.manage" in RolePermissions(Admin);
    }
  }

  /** The panel gate: closed to everyone without a staff role; for staff,
      open exactly when no active global login suspension exists. */
  lemma PanelAccess(u: User, rows: seq<Restriction>, now: int)
    ensures !IsStaff(u) ==> !CanAccessPanel(u, rows, now)
    ensures IsStaff(u) ==> (CanAccessPanel(u, rows, now) <==>
      forall r :: r in rows && r.userId == u.id && r.rtype == SuspendLogin && r.scope == Global ==> !IsActive(r, now))
  {
    forall r | r in rows
      ensures r in ActiveRows(rows, now) <==> IsActive(r, now)
    {
      ActiveScopeIsActive(r, now);
    }
  }

  /** A plain member is refused the panel whatever restrictions exist. */
  lemma MemberCannotAccessPanel(u: User, rows: seq<Restriction>, now: int)
    requires u.roles == {Member}
    ensures !CanAccessPanel(u, rows, now)
  {
  }

  /** Revoking the user's only login suspension reopens the panel to staff. */
  lemma RevokingSuspensionReopensPanel(u: User, r: Restriction, actor: string, now: int, later: int)
    requires IsStaff(u) && r.userId == u.id && r.rtype == SuspendLogin && r.scope == Global
    requires IsActive(r, now)
    ensures !CanAccessPanel(u, [r], now)
    ensures CanAccessPanel(u, [Revoked(r, actor, now)], later)
  {
    PanelAccess(u, [r], now);
    PanelAccess(u, [Revoked(r, actor, now)], later);
    RevokedNeverActive(r, actor, now, later);
  }
}
