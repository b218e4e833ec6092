/** models/User.js: the account schema. `email` is lower-cased, must match
    the address pattern and is unique across the collection; `password`
    is selected out of every default read. */
module UserSchema {
  import opened Common
  import opened Text
  import opened Schema
  import Email

  datatype Role = Renter | Agent

  function RoleName(r: Role): string {
    match r
    case Renter => "renter"
    case Agent => "agent"
  }

  const RoleNames: set<string> := {"renter", "agent"}

  function ParseRole(s: string): (r: Option<Role>)
    ensures r.Some? <==> s in RoleNames
    ensures r.Some? ==> RoleName(r.value) == s
  {
    if s == "renter" then Some(Renter)
    else if s == "agent" then Some(Agent)
    else None
  }

  lemma ParseRoleName(r: Role)
    ensures ParseRole(RoleName(r)) == Some(r)
  {
  }

  const NameMaxLength: nat := 50
  const PasswordMinLength: nat := 6
  const DefaultRole := Renter
  const DefaultAvatar := "https://via.placeholder.com/150/667eea/white?text=User"

  datatype User = User(
    id: Id,
    name: string,
    email: string,
    password: string,
    role: Role,
    phone: Option<string>,
    avatar: string,
    createdAt: nat)

  /** A user as a default query returns it: every path but `password`. */
  datatype UserView = UserView(
    id: Id,
    name: string,
    email: string,
    role: Role,
    phone: Option<string>,
    avatar: string,
    createdAt: nat)

  datatype UserBody = UserBody(
    name: Option<string>,
    email: Option<string>,
    password: Option<string>,
    role: Option<string>,
    phone: Option<string>,
    avatar: Option<string>)

  /** What the schema guarantees of every stored account. */
  ghost predicate WellFormed(u: User) {
    && u.name != [] && Trimmed(u.name) && Utf16Length(u.name) <= NameMaxLength
    && Lower(u.email) == u.email && Email.MatchesPattern(u.email)
    && Utf16Length(u.password) >= PasswordMinLength
    && (u.phone.Some? ==> Trimmed(u.phone.value))
  }

  /** The `lowercase` setter on the email path. */
  function LowerOpt(v: Option<string>): (r: Option<string>)
    ensures r.None? <==> v.None?
    ensures r.Some? ==> r.value == Lower(v.value)
  {
    if v.Some? then Some(Lower(v.value)) else None
  }

  const Paths: set<string> := {"name", "email", "password", "role"}

  /** The report names only the schema's paths. */
  function Violations(body: UserBody): (r: set<Violation>)
    ensures forall x :: x in r ==> x.path in Paths
  {
    At("name", StringRule(TrimOpt(body.name), true, 0, Some(NameMaxLength)))
    + At("email", EmailRule(LowerOpt(body.email)))
    + At("password", StringRule(body.password, true, PasswordMinLength, None))
    + At("role", EnumRule(body.role, RoleNames))
  }

  /** The schema's rules in plain terms. */
  ghost predicate Acceptable(body: UserBody) {
    && body.name.Some? && Trim(body.name.value) != "" && Utf16Length(Trim(body.name.value)) <= NameMaxLength
    && body.email.Some? && Email.MatchesPattern(Lower(body.email.value))
    && body.password.Some? && Utf16Length(body.password.value) >= PasswordMinLength
    && (body.role.None? || ParseRole(body.role.value).Some?)
  }

  /** `minlength` counts UTF-16 code units: three characters above U+FFFF
      are a password of length 6, long enough. */
  lemma AstralPasswordLongEnough(body: UserBody)
    requires body.password == Some(seq(3, _ => '\U{1F511}'))
    ensures Violation("password", MinLength(PasswordMinLength)) !in Violations(body)
  {
    AstralLength('\U{1F511}', 3);
  }

  lemma ViolationsReference(body: UserBody)
    ensures Violations(body) == {} <==> Acceptable(body)
  {
    EmailRuleAccepts(body.email);
    NameRuleAccepts(body.name);
    PasswordRuleAccepts(body.password);
    UnionEmpty(At("name", StringRule(TrimOpt(body.name), true, 0, Some(NameMaxLength))),
               At("email", EmailRule(LowerOpt(body.email))),
               At("password", StringRule(body.password, true, PasswordMinLength, None)),
               At("role", EnumRule(body.role, RoleNames)));
  }

  /** The name path in plain terms: present, and non-empty and short
      enough once trimmed. */
  lemma NameRuleAccepts(name: Option<string>)
    ensures StringRule(TrimOpt(name), true, 0, Some(NameMaxLength)) == None <==>
      name.Some? && Trim(name.value) != "" && Utf16Length(Trim(name.value)) <= NameMaxLength
  {
  }

  /** The password path in plain terms: present and long enough. */
  lemma PasswordRuleAccepts(password: Option<string>)
    ensures StringRule(password, true, PasswordMinLength, None) == None <==>
      password.Some? && Utf16Length(password.value) >= PasswordMinLength
  {
  }

  /** The email path in plain terms: present and matching once lower-cased. */
  lemma EmailRuleAccepts(email: Option<string>)
    ensures EmailRule(LowerOpt(email)) == None <==> email.Some? && Email.MatchesPattern(Lower(email.value))
  {
    if email.Some? && Email.MatchesPattern(Lower(email.value)) {
      Email.PatternNonEmpty(Lower(email.value));
    }
  }

  /** `User.create(body)` before the unique index is consulted. */
  function Create(body: UserBody, id: Id, createdAt: nat): (r: Result<User>)
    ensures r.Ok? <==> Acceptable(body)
    ensures r.Invalid? ==> r.violations == Violations(body)
    ensures r.Ok? ==> WellFormed(r.value)
    ensures r.Ok? ==> && r.value.id == id && r.value.createdAt == createdAt
                      && r.value.name == Trim(body.name.value)
                      && r.value.email == Lower(body.email.value)
                      && r.value.password == body.password.value
                      && r.value.phone == TrimOpt(body.phone)
                      && (body.role.None? ==> r.value.role == DefaultRole)
                      && (body.role.Some? ==> RoleName(r.value.role) == body.role.value)
                      && r.value.avatar == OrElse(body.avatar, DefaultAvatar)
  {
    ViolationsReference(body);
    var v := Violations(body);
    if v != {} then Invalid(v)
    else
      LowerIdempotent(body.email.value);
      Ok(User(
        id := id,
        name := Trim(body.name.value),
        email := Lower(body.email.value),
        password := body.password.value,
        role := if body.role.Some? then ParseRole(body.role.value).value else DefaultRole,
        phone := TrimOpt(body.phone),
        avatar := OrElse(body.avatar, DefaultAvatar),
        createdAt := createdAt))
  }

  /** A default read: `select: false` leaves the password out. */
  function View(u: User): (v: UserView)
    ensures v.id == u.id && v.name == u.name && v.email == u.email && v.role == u.role
    ensures v.phone == u.phone && v.avatar == u.avatar && v.createdAt == u.createdAt
  {
    UserView(u.id, u.name, u.email, u.role, u.phone, u.avatar, u.createdAt)
  }

  /** Two accounts with the same stored fields but different passwords
      read the same. */
  lemma ViewHidesPassword(u: User, password: string)
    ensures View(u.(password := password)) == View(u)
  {
  }

  /** The unique index on `email`. */
  ghost predicate UniqueEmails(users: seq<User>) {
    forall i, j :: 0 <= i < j < |users| ==> users[i].email != users[j].email
  }

  function EmailTaken(users: seq<User>, email: string): (r: bool)
    ensures r <==> exists i :: 0 <= i < |users| && users[i].email == email
  {
    if users == [] then false
    else users[|users| - 1].email == email || EmailTaken(users[..|users| - 1], email)
  }

  /** The outcome of inserting one account. */
  datatype Insertion = Inserted(users: seq<User>, user: User) | Rejected(failure: Failure)

  /** Validation runs first; then the unique index refuses an address
      already on file with a duplicate-key error. */
  function Register(users: seq<User>, body: UserBody, id: Id, createdAt: nat): (r: Insertion)
    ensures r.Rejected? ==> r.failure.Status() == 400
    ensures !Acceptable(body) <==> r.Rejected? && r.failure == ValidationFailed(Violations(body))
    ensures r.Inserted? ==> Create(body, id, createdAt) == Ok(r.user) && r.users == users + [r.user]
    ensures Create(body, id, createdAt).Ok? ==>
      (r.Rejected? <==> EmailTaken(users, Lower(body.email.value)))
    ensures Create(body, id, createdAt).Ok? && EmailTaken(users, Lower(body.email.value)) ==>
      r == Rejected(DuplicateKey)
  {
    match Create(body, id, createdAt)
    case Invalid(v) => Rejected(ValidationFailed(v))
    case Ok(u) => if EmailTaken(users, u.email) then Rejected(DuplicateKey) else Inserted(users + [u], u)
  }

  /** No sequence of registrations puts two accounts on one address. */
  lemma {:induction false} RegisterKeepsEmailsUnique(users: seq<User>, body: UserBody, id: Id, createdAt: nat)
    requires UniqueEmails(users)
    ensures var r := Register(users, body, id, createdAt);
      r.Inserted? ==> UniqueEmails(r.users)
  {
    var r := Register(users, body, id, createdAt);
    if r.Inserted? {
      forall i, j | 0 <= i < j < |r.users| ensures r.users[i].email != r.users[j].email {
        if j == |users| {
          assert r.users[i] == users[i];
          assert !EmailTaken(users, r.user.email);
        }
      }
    }
  }
}
