/** The account endpoints of users/urls.py: `register` and `me`. */
module Accounts {
  import opened Wrappers
  import opened Errors
  import opened Seqs
  import opened Text
  import opened Users
  import opened Permissions

  /** The body of a registration request. `role` is accepted and ignored. */
  datatype RegisterRequest = RegisterRequest(
    username: Option<string>, password: Option<string>, email: Option<string>, role: Option<string>)

  /** The user table, with the id the next user will get. */
  datatype Directory = Directory(users: seq<User>, nextId: UserId)

  /** The 201 payload of a successful registration. */
  datatype Registered = Registered(id: UserId, username: string, role: string)

  predicate UsernameTaken(users: seq<User>, name: string) {
    exists u | u in users :: u.username == name
  }

  ghost predicate UniqueUsernames(users: seq<User>) {
    KeysDistinct(users, NameOf)
  }

  function NameOf(u: User): string {
    u.username
  }

  /** `normalize_email`, which `create_user` applies: when the stripped address
      has an `@`, the part after its last `@` is lower-cased; otherwise the address
      is kept exactly as given. */
  function NormalizeEmail(e: string): (r: string)
    ensures LastIndexOf(Strip(e), '@').None? ==> r == e
    ensures var t := Strip(e); LastIndexOf(t, '@').Some? ==>
      var k := LastIndexOf(t, '@').value;
      && |r| == |t|
      && r[..k] == t[..k]
      && r[k] == '@'
      && EqualsIgnoringCase(r[k + 1..], t[k + 1..])
      && FoldCase(r[k + 1..]) == r[k + 1..]
  {
    var t := Strip(e);
    match LastIndexOf(t, '@')
    case None => e
    case Some(k) =>
      var r := t[..k] + "@" + FoldCase(t[k + 1..]);
      FoldCaseIdempotent(t[k + 1..]);
      assert r[k + 1..] == FoldCase(t[k + 1..]);
      r
  }

  /** Normalising an address twice is normalising it once. */
  lemma NormalizeEmailIdempotent(e: string)
    ensures NormalizeEmail(NormalizeEmail(e)) == NormalizeEmail(e)
  {
    var t := Strip(e);
    match LastIndexOf(t, '@')
    case None =>
    case Some(k) =>
      var local, domain := t[..k], t[k + 1..];
      var folded := FoldCase(domain);
      assert t == local + "@" + domain;
      forall j | 0 <= j < |domain| ensures folded[j] != '@' {
        assert domain[j] == t[k + 1 + j];
        FoldCharFacts(domain[j]);
      }
      if |domain| > 0 {
        FoldCharFacts(domain[|domain| - 1]);
      }
      NormalizeSplit(local, folded);
      FoldCaseIdempotent(domain);
  }

  /** An address made of a local part that does not start with whitespace, an `@`,
      and a domain that holds no `@` and does not end with whitespace normalises to
      the same local part and the lower-cased domain. */
  lemma NormalizeSplit(local: string, domain: string)
    requires |local| > 0 ==> !IsSpace(local[0])
    requires |domain| > 0 ==> !IsSpace(domain[|domain| - 1])
    requires forall j | 0 <= j < |domain| :: domain[j] != '@'
    ensures NormalizeEmail(local + "@" + domain) == local + "@" + FoldCase(domain)
  {
    var r := local + "@" + domain;
    SplitIsStripped(local, domain);
    SplitLastAt(local, domain);
    assert r[..|local|] == local && r[|local| + 1..] == domain;
  }

  lemma SplitIsStripped(local: string, domain: string)
    requires |local| > 0 ==> !IsSpace(local[0])
    requires |domain| > 0 ==> !IsSpace(domain[|domain| - 1])
    ensures Strip(local + "@" + domain) == local + "@" + domain
  {
    var r := local + "@" + domain;
    if |local| > 0 {
      assert r[0] == local[0];
    }
    if |domain| > 0 {
      assert r[|r| - 1] == domain[|domain| - 1];
    }
    StripTrimmed(r);
  }

  lemma SplitLastAt(local: string, domain: string)
    requires forall j | 0 <= j < |domain| :: domain[j] != '@'
    ensures LastIndexOf(local + "@" + domain, '@') == Some(|local|)
  {
    var r := local + "@" + domain;
    var k := |local|;
    forall j | k < j < |r| ensures r[j] != '@' {
      assert r[j] == domain[j - k - 1];
    }
    LastIndexOfUnique(r, '@', k);
  }

  /** `register`: both username and password must be given and non-empty, and the
      username must be free; the new user always gets the default role. */
  function Register(dir: Directory, req: RegisterRequest): (out: (Directory, Result<Registered, Error>))
    ensures out.1.Success? <==>
      Present(req.username) && Present(req.password) && !UsernameTaken(dir.users, req.username.value)
    ensures out.1.Failure? ==> out.0 == dir && out.1.error.ValidationError?
    ensures out.1.Success? ==>
      && |out.0.users| == |dir.users| + 1
      && out.0.users[..|dir.users|] == dir.users
      && out.0.nextId == dir.nextId + 1
      && var u := out.0.users[|dir.users|];
      && u.id == dir.nextId
      && u.username == req.username.value
      && u.email == NormalizeEmail(req.email.GetOr(""))
      && u.role == Citizen && !u.isStaff && !u.isSuperuser
      && out.1.value == Registered(u.id, u.username, "citizen")
    ensures UniqueUsernames(dir.users) ==> UniqueUsernames(out.0.users)
  {
    if !Present(req.username) || !Present(req.password) then
      (dir, Failure(ValidationError("username and password are required")))
    else if UsernameTaken(dir.users, req.username.value) then
      (dir, Failure(ValidationError("username already taken")))
    else
      var u := NewUser(dir.nextId, req.username.value, NormalizeEmail(req.email.GetOr("")));
      var users' := dir.users + [u];
      assert users'[..|dir.users|] == dir.users;
      assert forall i | 0 <= i < |dir.users| :: users'[i].username != u.username by {
        forall i | 0 <= i < |dir.users| ensures users'[i].username != u.username {
          assert users'[i] in dir.users;
        }
      }
      (Directory(users', dir.nextId + 1), Success(Registered(u.id, u.username, RoleName(u.role))))
  }

  /** Whatever role a client asks for, registration answers exactly as if it had
      asked for none. */
  lemma RegisterIgnoresRequestedRole(dir: Directory, req: RegisterRequest, role: Option<string>)
    ensures Register(dir, req.(role := role)) == Register(dir, req.(role := None))
  {
  }

  /** From a table whose usernames are unique, any run of registrations keeps them unique. */
  lemma {:induction false} RegistrationsKeepUsernamesUnique(dir: Directory, reqs: seq<RegisterRequest>)
    requires UniqueUsernames(dir.users)
    ensures UniqueUsernames(RegisterAll(dir, reqs).users)
    decreases |reqs|
  {
    if |reqs| > 0 {
      RegistrationsKeepUsernamesUnique(Register(dir, reqs[0]).0, reqs[1..]);
    }
  }

  /** The table after handling `reqs` one after another. */
  function RegisterAll(dir: Directory, reqs: seq<RegisterRequest>): Directory
    decreases |reqs|
  {
    if |reqs| == 0 then dir else RegisterAll(Register(dir, reqs[0]).0, reqs[1..])
  }

  /** The payload of `me`. */
  datatype Profile = Profile(id: UserId, username: string, email: string, role: string, isStaff: bool, isSuperuser: bool)

  /** `me`: only for an authenticated principal; a missing role reads as "citizen". */
  function Me(p: Principal): (r: Result<Profile, Error>)
    ensures r.Failure? <==> p.Anonymous?
    ensures r.Failure? ==> r.error == Unauthenticated
    ensures r.Success? ==> r.value.role == "citizen" || r.value.role == "admin"
    ensures r.Success? ==> (r.value.role == "admin" <==> p.role == Some(Admin))
    ensures r.Success? && p.role.None? ==> r.value.role == "citizen"
    ensures r.Success? ==>
      && r.value.id == p.id && r.value.username == p.username && r.value.email == p.email
      && r.value.isStaff == p.isStaff && r.value.isSuperuser == p.isSuperuser
  {
    if p.Anonymous? then Failure(Unauthenticated)
    else Success(Profile(p.id, p.username, p.email, RoleName(RoleOf(p)), p.isStaff, p.isSuperuser))
  }
}
