/** The user directory (server/src/users/users.service.ts): accounts in
    insertion order with their identity counter. Password hashing is kept
    abstract: a `Crypto` value supplies the hash and the comparison, and the
    only thing assumed of it is that a password matches its own hash. */
module Users {
  import opened Wrappers
  import opened Domain

  /** A user row (server/src/entities/user.entity.ts). */
  datatype User = User(id: nat, username: string, email: string, passwordHash: string, role: UserRole)

  /** A user as sent to a client: the row without its password hash. */
  datatype PublicUser = PublicUser(id: nat, username: string, email: string, role: UserRole)

  function Public(u: User): (r: PublicUser)
    ensures r.id == u.id && r.username == u.username && r.email == u.email && r.role == u.role
  {
    PublicUser(u.id, u.username, u.email, u.role)
  }

  datatype Directory = Directory(users: seq<User>, nextId: nat)

  /** The hashing service: `hash` makes a stored hash, `matches(p, h)` says
      whether password `p` fits stored hash `h`. */
  datatype Crypto = Crypto(hash: string -> string, matches: (string, string) -> bool)

  /** What the model relies on: a password always matches its own hash. */
  ghost predicate Consistent(c: Crypto) {
    forall p :: c.matches(p, c.hash(p))
  }

  datatype UserError = UsernameExists | EmailExists | InvalidCredentials

  /** The text of the BadRequest each error raises. */
  function ErrorMessage(e: UserError): string {
    match e
    case UsernameExists => "Username already exists"
    case EmailExists => "Email already exists"
    case InvalidCredentials => "Invalid username/email or password"
  }

  function UserId(u: User): int { u.id }

  /** Generated ids are positive, below the counter and increasing in
      insertion order; usernames and emails are each unique (the columns'
      unique constraints). */
  predicate Valid(dir: Directory) {
    && dir.nextId >= 1
    && (forall i :: 0 <= i < |dir.users| ==> 1 <= dir.users[i].id < dir.nextId)
    && (forall i, j :: 0 <= i < j < |dir.users| ==> dir.users[i].id < dir.users[j].id)
    && (forall i, j :: 0 <= i < j < |dir.users| ==> dir.users[i].username != dir.users[j].username)
    && (forall i, j :: 0 <= i < j < |dir.users| ==> dir.users[i].email != dir.users[j].email)
  }

  const EmptyDirectory := Directory([], 1)

  predicate UsernameTaken(dir: Directory, username: string) {
    exists i :: 0 <= i < |dir.users| && dir.users[i].username == username
  }

  predicate EmailTaken(dir: Directory, email: string) {
    exists i :: 0 <= i < |dir.users| && dir.users[i].email == email
  }

  /** One disjunct of a `where: [{ username }, { email }]` query. */
  predicate MatchesEither(u: User, username: string, email: string) {
    u.username == username || u.email == email
  }

  /** `findOne` with a two-branch `where`: the first row, in directory order,
      matching either branch. */
  function FirstMatch(us: seq<User>, username: string, email: string): (r: Option<nat>)
    ensures r.Some? ==> r.value < |us| && MatchesEither(us[r.value], username, email)
    ensures r.Some? ==> forall j :: 0 <= j < r.value ==> !MatchesEither(us[j], username, email)
    ensures r.None? <==> forall j :: 0 <= j < |us| ==> !MatchesEither(us[j], username, email)
  {
    if |us| == 0 then None
    else if MatchesEither(us[0], username, email) then Some(0)
    else
      var rest := FirstMatch(us[1..], username, email);
      assert forall j :: 1 <= j < |us| ==> us[j] == us[1..][j - 1];
      if rest.None? then None else Some(rest.value + 1)
  }

  datatype Registered = Registered(dir: Directory, user: User)

  /** `register`: refused when the username or the email is already taken;
      otherwise appends an ordinary user storing the password's hash. */
  function Register(dir: Directory, c: Crypto, username: string, email: string, password: string)
    : (r: Result<Registered, UserError>)
    ensures r.Failure? <==> UsernameTaken(dir, username) || EmailTaken(dir, email)
    ensures UsernameTaken(dir, username) && !EmailTaken(dir, email) ==> r == Failure(UsernameExists)
    ensures !UsernameTaken(dir, username) && EmailTaken(dir, email) ==> r == Failure(EmailExists)
    ensures r.Success? ==> r.value.dir.users == dir.users + [r.value.user]
    ensures r.Success? ==> r.value.user.username == username && r.value.user.email == email
    ensures r.Success? ==> r.value.user.role == RoleUser && r.value.user.passwordHash == c.hash(password)
    ensures r.Success? && Valid(dir) ==> Valid(r.value.dir) && r.value.user.id !in set u <- dir.users :: u.id
  {
    match FirstMatch(dir.users, username, email)
    case Some(i) =>
      assert UsernameTaken(dir, username) || EmailTaken(dir, email);
      if dir.users[i].username == username then Failure(UsernameExists)
      else
        // the row matched one branch of the query, and not the username one
        Failure(EmailExists)
    case None =>
      var user := User(dir.nextId, username, email, c.hash(password), RoleUser);
      Success(Registered(Directory(dir.users + [user], dir.nextId + 1), user))
  }

  /** `login`: the first user whose username or email is the identifier,
      provided the password matches; both failures give the same error. */
  function Login(dir: Directory, c: Crypto, identifier: string, password: string)
    : (r: Result<PublicUser, UserError>)
    ensures r.Failure? ==> r.error == InvalidCredentials
    ensures r.Success? ==> exists i :: (0 <= i < |dir.users|
      && MatchesEither(dir.users[i], identifier, identifier)
      && c.matches(password, dir.users[i].passwordHash)
      && r.value == Public(dir.users[i]))
    ensures !UsernameTaken(dir, identifier) && !EmailTaken(dir, identifier) ==> r.Failure?
    ensures (forall i :: 0 <= i < |dir.users| ==> !c.matches(password, dir.users[i].passwordHash)) ==> r.Failure?
  {
    match FirstMatch(dir.users, identifier, identifier)
    case None => Failure(InvalidCredentials)
    case Some(i) =>
      var user := dir.users[i];
      if !c.matches(password, user.passwordHash) then Failure(InvalidCredentials)
      else Success(Public(user))
  }

  /** `findById`: the first user with that id, or null. */
  function FindById(us: seq<User>, id: int): (r: Option<User>)
    ensures r.None? <==> forall i :: 0 <= i < |us| ==> us[i].id != id
    ensures r.Some? ==> r.value in us && r.value.id == id
  {
    if |us| == 0 then None
    else if us[0].id == id then Some(us[0])
    else
      var rest := FindById(us[1..], id);
      assert forall i :: 1 <= i < |us| ==> us[i] == us[1..][i - 1];
      rest
  }

  /** In a valid directory the user with a given id is the one at its index. */
  lemma FindByIdUnique(dir: Directory, i: nat)
    requires Valid(dir) && i < |dir.users|
    ensures FindById(dir.users, dir.users[i].id) == Some(dir.users[i])
  {
    var r := FindById(dir.users, dir.users[i].id);
    var k :| 0 <= k < |dir.users| && dir.users[k] == r.value;
  }

  /** Login finds the one user the identifier names, when it names only one. */
  lemma {:induction false} LoginByUniqueName(dir: Directory, c: Crypto, i: nat, identifier: string, password: string)
    requires i < |dir.users| && MatchesEither(dir.users[i], identifier, identifier)
    requires forall j :: 0 <= j < |dir.users| && j != i ==> !MatchesEither(dir.users[j], identifier, identifier)
    ensures Login(dir, c, identifier, password).Success? <==> c.matches(password, dir.users[i].passwordHash)
    ensures Login(dir, c, identifier, password).Success? ==> Login(dir, c, identifier, password).value == Public(dir.users[i])
  {
    var m := FirstMatch(dir.users, identifier, identifier);
    assert m.Some?;
    assert m.value == i;
  }

  /** A newly registered user can log in by username with the same password,
      unless some earlier account already uses that username as its email. */
  lemma RegisterThenLogin(dir: Directory, c: Crypto, username: string, email: string, password: string)
    requires Valid(dir) && Consistent(c)
    requires Register(dir, c, username, email, password).Success?
    requires !EmailTaken(dir, username)
    ensures var reg := Register(dir, c, username, email, password).value;
      Login(reg.dir, c, username, password) == Success(Public(reg.user))
  {
    var reg := Register(dir, c, username, email, password).value;
    var n := |dir.users|;
    assert reg.dir.users[n] == reg.user;
    forall j | 0 <= j < |reg.dir.users| && j != n
      ensures !MatchesEither(reg.dir.users[j], username, username)
    {
      assert reg.dir.users[j] == dir.users[j];
    }
    LoginByUniqueName(reg.dir, c, n, username, password);
  }

  /** A newly registered user can log in by email, unless some earlier account
      already uses that email as its username. */
  lemma RegisterThenLoginByEmail(dir: Directory, c: Crypto, username: string, email: string, password: string)
    requires Valid(dir) && Consistent(c)
    requires Register(dir, c, username, email, password).Success?
    requires !UsernameTaken(dir, email)
    ensures var reg := Register(dir, c, username, email, password).value;
      Login(reg.dir, c, email, password) == Success(Public(reg.user))
  {
    var reg := Register(dir, c, username, email, password).value;
    var n := |dir.users|;
    assert reg.dir.users[n] == reg.user;
    forall j | 0 <= j < |reg.dir.users| && j != n
      ensures !MatchesEither(reg.dir.users[j], email, email)
    {
      assert reg.dir.users[j] == dir.users[j];
    }
    LoginByUniqueName(reg.dir, c, n, email, password);
  }

  /** Registration does not compare a username with existing emails: a user
      may take another account's email as username, and logging in with that
      name then reaches the earlier account, not the new one. */
  lemma UsernameShadowedByEmail(c: Crypto)
    requires Consistent(c)
    requires c.hash("pw-a") != c.hash("pw-b")
    ensures var dir := Directory([User(1, "alice", "bob", c.hash("pw-a"), RoleUser)], 2);
      && Register(dir, c, "bob", "bob@example.com", "pw-b").Success?
      && Login(Register(dir, c, "bob", "bob@example.com", "pw-b").value.dir, c, "bob", "pw-a")
         == Success(PublicUser(1, "alice", "bob", RoleUser))
  {
    var dir := Directory([User(1, "alice", "bob", c.hash("pw-a"), RoleUser)], 2);
    var reg := Register(dir, c, "bob", "bob@example.com", "pw-b");
    assert !UsernameTaken(dir, "bob");
    assert !EmailTaken(dir, "bob@example.com");
    assert reg.value.dir.users[0] == dir.users[0];
    assert FirstMatch(reg.value.dir.users, "bob", "bob") == Some(0);
  }
}
