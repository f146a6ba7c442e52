/** The authorisation policies: the topic, comment and user policies, and
    the four admin-panel policies whose `before` hook answers for admins. */
module Policies {
  import opened Common
  import opened Users
  import Topics
  import Comments

  // ---------------------------------------------------------------
  // TopicPolicy
  // ---------------------------------------------------------------

  /** `view`: an active topic is public; any other only for its author or
      staff, and never for a guest. */
  predicate TopicView(viewer: Option<User>, t: Topics.Topic)
  {
    t.status == Topics.Active || (viewer.Some? && (viewer.value.id == t.userId || IsStaff(viewer.value)))
  }

  /** `create`: every signed-in user. */
  predicate TopicCreate(u: User)
  {
    true
  }

  /** `update`: staff always, the author only inside the edit window. */
  predicate TopicUpdate(u: User, t: Topics.Topic, now: int)
  {
    if IsStaff(u) then true else u.id == t.userId && Topics.IsEditableByAuthor(t, now)
  }

  /** `delete`: the author or staff. */
  predicate TopicDelete(u: User, t: Topics.Topic)
  {
    u.id == t.userId || IsStaff(u)
  }

  /** `hide`: staff only. */
  predicate TopicHide(u: User, t: Topics.Topic)
  {
    IsStaff(u)
  }

  /** `like`: anyone but the author. */
  predicate TopicLike(u: User, t: Topics.Topic)
  {
    u.id != t.userId
  }

  /** `save`: every signed-in user. */
  predicate TopicSave(u: User, t: Topics.Topic)
  {
    true
  }

  /** `report`: anyone but the author. */
  predicate TopicReport(u: User, t: Topics.Topic)
  {
    u.id != t.userId
  }

  /** Guests see active topics only; a signed-in user also sees their own
      topics whatever the status, and staff see every topic. */
  lemma TopicVisibility(viewer: Option<User>, t: Topics.Topic)
    ensures viewer.None? ==> (TopicView(viewer, t) <==> t.status == Topics.Active)
    ensures viewer.Some? && IsStaff(viewer.value) ==> TopicView(viewer, t)
    ensures viewer.Some? && viewer.value.id == t.userId ==> TopicView(viewer, t)
    ensures t.status != Topics.Active && viewer.Some? && !IsStaff(viewer.value) && viewer.value.id != t.userId ==> !TopicView(viewer, t)
  {
  }

  /** Staff may always update; anyone else only as the author and within
      86400 seconds of creation. */
  lemma TopicUpdateRule(u: User, t: Topics.Topic, now: int)
    ensures IsStaff(u) ==> TopicUpdate(u, t, now)
    ensures !IsStaff(u) ==> (TopicUpdate(u, t, now) <==> u.id == t.userId && now - t.createdAt <= 24 * HOUR)
  {
    Topics.EditWindow(t, now);
  }

  /** Hiding needs a staff role, deleting the authorship or a staff role, and
      the author is the one user who may neither like nor report. */
  lemma TopicModerationRules(u: User, t: Topics.Topic)
    ensures TopicHide(u, t) <==> Admin in u.roles || Moderator in u.roles
    ensures TopicDelete(u, t) <==> TopicHide(u, t) || u.id == t.userId
    ensures !TopicLike(u, t) <==> u.id == t.userId
    ensures TopicReport(u, t) <==> TopicLike(u, t)
  {
  }

  /** Creating a topic, saving one and creating a comment are open to every
      signed-in user, whatever their roles or the topic. */
  lemma OpenAbilities(u: User, t: Topics.Topic)
    ensures TopicCreate(u) && TopicSave(u, t) && CommentCreate(u)
  {
  }

  // ---------------------------------------------------------------
  // CommentPolicy
  // ---------------------------------------------------------------

  predicate CommentCreate(u: User)
  {
    true
  }

  /** `delete`: the author or staff. */
  predicate CommentDelete(u: User, c: Comments.Comment)
  {
    u.id == c.userId || IsStaff(u)
  }

  /** `like`: anyone but the author. */
  predicate CommentLike(u: User, c: Comments.Comment)
  {
    u.id != c.userId
  }

  /** `report`: anyone but the author. */
  predicate CommentReport(u: User, c: Comments.Comment)
  {
    u.id != c.userId
  }

  /** A plain member may delete exactly their own comments, and may like or
      report exactly the comments of others. */
  lemma CommentRules(u: User, c: Comments.Comment)
    requires !IsStaff(u)
    ensures CommentDelete(u, c) <==> u.id == c.userId
    ensures CommentLike(u, c) <==> !CommentDelete(u, c)
    ensures CommentReport(u, c) <==> !CommentDelete(u, c)
  {
  }

  // ---------------------------------------------------------------
  // UserPolicy
  // ---------------------------------------------------------------

  const MANAGE_USERS: string := "users.manage"

  predicate UserViewAny(u: User)
  {
    Can(u, MANAGE_USERS)
  }

  predicate UserView(u: User, model: User)
  {
    u.id == model.id || Can(u, MANAGE_USERS)
  }

  predicate UserCreate(u: User)
  {
    Can(u, MANAGE_USERS)
  }

  predicate UserUpdate(u: User, model: User)
  {
    u.id == model.id || Can(u, MANAGE_USERS)
  }

  /** `delete`: with the permission, and never oneself. */
  predicate UserDelete(u: User, model: User)
  {
    u.id != model.id && Can(u, MANAGE_USERS)
  }

  predicate UserRestore(u: User, model: User)
  {
    Can(u, MANAGE_USERS)
  }

  /** `forceDelete`: the admin role, and never oneself. */
  predicate UserForceDelete(u: User, model: User)
  {
    HasRole(u, Admin) && u.id != model.id
  }

  /** `manageRoles`: the admin role, whatever the target. */
  predicate UserManageRoles(u: User, model: User)
  {
    HasRole(u, Admin)
  }

  /** With the seeded permissions, every ability of the user policy comes
      down to the admin role and the identity of the target: a moderator
      manages no one, and no one deletes themselves. */
  lemma UserPolicyByRole(u: User, model: User)
    ensures UserViewAny(u) <==> Admin in u.roles
    ensures UserCreate(u) <==> Admin in u.roles
    ensures UserRestore(u, model) <==> Admin in u.roles
    ensures UserView(u, model) <==> u.id == model.id || Admin in u.roles
    ensures UserUpdate(u, model) <==> u.id == model.id || Admin in u.roles
    ensures UserDelete(u, model) <==> u.id != model.id && Admin in u.roles
    ensures UserForceDelete(u, model) <==> UserDelete(u, model)
    ensures UserManageRoles(u, model) <==> Admin in u.roles
  {
    ManageUsersIsAdminOnly(u);
  }

  /** A moderator without the admin role can neither manage roles nor list
      users. */
  lemma ModeratorManagesNoUsers(u: User, model: User)
    requires Moderator in u.roles && Admin !in u.roles
    ensures !UserManageRoles(u, model) && !UserViewAny(u) && !UserDelete(u, model)
  {
    UserPolicyByRole(u, model);
  }

  // ---------------------------------------------------------------
  // The panel policies with a `before` hook
  // ---------------------------------------------------------------

  /** The abilities these policies define. */
  datatype Ability = ViewAny | View | Create | Update | Delete

  /** The four policies: UserRestrictionPolicy, ContentFlagPolicy,
      ActivityPolicy and BairroPolicy. */
  datatype PanelPolicy = RestrictionPolicy | FlagPolicy | ActivityPolicy | BairroPolicy

  /** `before`: true for admins, null (no opinion) for everyone else. */
  function Before(u: User): (answer: Option<bool>)
    ensures answer.Some? <==> Admin in u.roles
    ensures answer.Some? ==> answer.value
  {
    if HasRole(u, Admin) then Some(true) else None
  }

  /** The ability methods themselves. The restriction and flag policies have
      identical methods: staff for everything but delete, which is admin. */
  predicate AbilityMethod(p: PanelPolicy, u: User, a: Ability)
  {
    match (p, a)
    case (ActivityPolicy, Create) => false
    case (ActivityPolicy, Update) => false
    case (BairroPolicy, Create) => HasRole(u, Admin)
    case (BairroPolicy, Update) => HasRole(u, Admin)
    case (_, Delete) => HasRole(u, Admin)
    case _ => IsStaff(u)
  }

  /** How the gate combines them: a non-null answer of `before` decides,
      otherwise the ability method does. */
  predicate Allows(p: PanelPolicy, u: User, a: Ability)
  {
    Before(u).GetOr(AbilityMethod(p, u, a))
  }

  /** Admins are granted every ability of every panel policy, including
      the activity create and update the methods themselves deny; for anyone
      else the method alone decides. */
  lemma BeforeDecides(p: PanelPolicy, u: User, a: Ability)
    ensures Admin in u.roles ==> Allows(p, u, a)
    ensures Admin !in u.roles ==> (Allows(p, u, a) <==> AbilityMethod(p, u, a))
    ensures Admin in u.roles && p == ActivityPolicy && (a == Create || a == Update) ==> !AbilityMethod(p, u, a)
  {
  }

  /** The whole table for non-admins: staff may view under every policy and
      create and update restrictions and flags; delete, bairro changes and
      activity changes belong to admins alone. */
  lemma NonAdminTable(p: PanelPolicy, u: User, a: Ability)
    requires Admin !in u.roles
    ensures a == ViewAny || a == View ==> (Allows(p, u, a) <==> Moderator in u.roles)
    ensures (p == RestrictionPolicy || p == FlagPolicy) && (a == Create || a == Update) ==> (Allows(p, u, a) <==> Moderator in u.roles)
    ensures (p == ActivityPolicy || p == BairroPolicy) && (a == Create || a == Update) ==> !Allows(p, u, a)
    ensures a == Delete ==> !Allows(p, u, a)
  {
  }

  /** Delete is admin-only under all four policies. */
  lemma DeleteIsAdminOnly(p: PanelPolicy, u: User)
    ensures Allows(p, u, Delete) <==> Admin in u.roles
  {
  }

  /** A user with neither staff role is refused every ability of every
      panel policy. */
  lemma NoRoleNoAccess(p: PanelPolicy, u: User, a: Ability)
    requires !IsStaff(u)
    ensures !Allows(p, u, a)
  {
  }
}
