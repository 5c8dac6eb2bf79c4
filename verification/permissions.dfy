/** The permission classes of users/permissions.py, as decisions over a principal. */
module Permissions {
  import opened Wrappers
  import opened Errors
  import opened Users

  /** The user attached to a request. An authenticated principal may lack a `role`
      attribute (`role == None`), which the source reads as "citizen". */
  datatype Principal =
    | Anonymous
    | Authenticated(id: UserId, username: string, email: string, role: Option<Role>, isStaff: bool, isSuperuser: bool)

  /** The principal of a logged-in user of this project's user model. */
  function AsPrincipal(u: User): Principal {
    Authenticated(u.id, u.username, u.email, Some(u.role), u.isStaff, u.isSuperuser)
  }

  /** `getattr(user, "role", "citizen")`. */
  function RoleOf(p: Principal): Role
    requires p.Authenticated?
  {
    p.role.GetOr(Citizen)
  }

  const SafeMethods: set<string> := {"GET", "HEAD", "OPTIONS"}

  /** `IsAdminRole.has_permission`. */
  predicate IsAdminRole(p: Principal) {
    if !p.Authenticated? then false
    else RoleOf(p) == Admin || p.isStaff || p.isSuperuser
  }

  /** `ReadOnlyOrAdmin.has_permission`. */
  predicate ReadOnlyOrAdmin(p: Principal, verb: string) {
    if verb in SafeMethods then true
    else p.Authenticated? && (RoleOf(p) == Admin || p.isStaff || p.isSuperuser)
  }

  /** The user recorded as the actor of a request: the user when authenticated. */
  function ActorId(p: Principal): (r: Option<UserId>)
    ensures r.None? <==> p.Anonymous?
    ensures r.Some? ==> r.value == p.id
  {
    if p.Authenticated? then Some(p.id) else None
  }

  /** The error a failed permission check produces: 401 without credentials,
      403 with credentials that are not good enough. The 401 assumes the first
      authentication class is the JWT one, which sends a `WWW-Authenticate`
      header; session authentication first would make it 403. */
  function Deny(p: Principal): (e: Error)
    ensures e == Unauthenticated || e == Forbidden
    ensures e == Unauthenticated <==> p.Anonymous?
  {
    if p.Authenticated? then Forbidden else Unauthenticated
  }

  /** `IsAdminRole` holds exactly for an authenticated principal with the admin role,
      the staff flag or the superuser flag; never for an anonymous one. */
  lemma IsAdminRoleCharacterization(p: Principal)
    ensures p.Anonymous? ==> !IsAdminRole(p)
    ensures IsAdminRole(p) <==>
      p.Authenticated? && (p.role == Some(Admin) || p.isStaff || p.isSuperuser)
  {
  }

  /** A principal without a role attribute is judged exactly as a citizen. */
  lemma MissingRoleActsAsCitizen(p: Principal, verb: string)
    requires p.Authenticated?
    ensures IsAdminRole(p.(role := None)) == IsAdminRole(p.(role := Some(Citizen)))
    ensures ReadOnlyOrAdmin(p.(role := None), verb) == ReadOnlyOrAdmin(p.(role := Some(Citizen)), verb)
  {
  }

  /** `ReadOnlyOrAdmin` lets every principal, anonymous included, use a safe verb,
      and for any other verb it agrees with `IsAdminRole`. */
  lemma ReadOnlyOrAdminSplit(p: Principal, verb: string)
    ensures verb in SafeMethods ==> ReadOnlyOrAdmin(p, verb)
    ensures verb !in SafeMethods ==> (ReadOnlyOrAdmin(p, verb) <==> IsAdminRole(p))
  {
  }

  /** `User.is_admin` and `IsAdminRole` differ only by the superuser flag: every
      `is_admin` user passes `IsAdminRole`, and a superuser passes it without being
      `is_admin`. */
  lemma IsAdminVersusIsAdminRole(u: User)
    ensures IsAdminRole(AsPrincipal(u)) <==> IsAdmin(u) || u.isSuperuser
    ensures IsAdmin(u) ==> IsAdminRole(AsPrincipal(u))
  {
  }

  /** The two admin predicates really do disagree: a citizen superuser without the
      staff flag. */
  lemma SuperuserCitizenDisagreement()
    ensures var u := User(1, "root", "", Citizen, false, true);
      !IsAdmin(u) && IsAdminRole(AsPrincipal(u))
  {
  }
}
