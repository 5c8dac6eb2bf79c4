/** The user model of users/models.py: a Django user extended with a role. */
module Users {
  import opened Wrappers

  type UserId = nat

  datatype Role = Citizen | Admin

  /** A user created without an explicit role is a citizen. */
  const DefaultRole: Role := Citizen

  /** The value stored in the `role` column. */
  function RoleName(r: Role): string {
    match r
    case Citizen => "citizen"
    case Admin => "admin"
  }

  datatype User = User(id: UserId, username: string, email: string, role: Role, isStaff: bool, isSuperuser: bool)

  /** `create_user` with the defaults of the model: no staff or superuser flag and
      the default role. The password is not modelled. */
  function NewUser(id: UserId, username: string, email: string): (u: User)
    ensures u.role == Citizen && !u.isStaff && !u.isSuperuser
    ensures u.id == id && u.username == username && u.email == email
  {
    User(id, username, email, DefaultRole, false, false)
  }

  /** `User.is_admin`: the admin role or the staff flag; the superuser flag plays no part. */
  predicate IsAdmin(u: User) {
    u.role == Admin || u.isStaff
  }

  /** The user with the given id, if any. */
  function FindUser(users: seq<User>, id: UserId): (r: Option<User>)
    ensures r.Some? ==> r.value in users && r.value.id == id
    ensures r.None? ==> forall u | u in users :: u.id != id
  {
    if |users| == 0 then None
    else if users[0].id == id then Some(users[0])
    else FindUser(users[1..], id)
  }

  /** `is_admin` holds for the admin role and for staff whatever the role, and it
      does not look at the superuser flag. */
  lemma IsAdminCases(u: User)
    ensures u.role == Admin ==> IsAdmin(u)
    ensures u.isStaff ==> IsAdmin(u)
    ensures IsAdmin(u) == IsAdmin(u.(isSuperuser := !u.isSuperuser))
    ensures !IsAdmin(u) <==> u.role == Citizen && !u.isStaff
  {
  }
}
