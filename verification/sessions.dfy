/** The account endpoints (server/src/users/users.controller.ts) as
    transitions of the server session `{ userId, userRole }` together with
    the user directory. Request bodies are taken field by field; an absent
    field is `None`. */
module Sessions {
  import opened Wrappers
  import opened Domain
  import Users

  /** The session fields the server reads; unset and null are both `None`. */
  datatype Session = Session(userId: Option<int>, userRole: Option<UserRole>)

  const NoSession := Session(None, None)

  /** `if (!userId)`: a session is signed in when its user id is truthy. */
  predicate SignedIn(s: Session) {
    s.userId.Some? && s.userId.value != 0
  }

  /** JavaScript truthiness of an optional string field. */
  predicate Present(f: Option<string>) {
    f.Some? && f.value != ""
  }

  const FieldsRequired := "All fields are required"

  /** The session a user's sign-in leaves behind. */
  function SessionOf(u: Users.PublicUser): (r: Session)
    ensures SignedIn(r) <==> u.id != 0
  {
    Session(Some(u.id), Some(u.role))
  }

  /** The outcome of an endpoint: the directory and session afterwards and
      the reply, a public user or the BadRequest message. */
  datatype Outcome = Outcome(dir: Users.Directory, session: Session, reply: Result<Users.PublicUser, string>)

  /** `POST /users/register`: missing fields and service errors leave both
      directory and session as they were; success signs the new ordinary
      user in. */
  function Register(dir: Users.Directory, s: Session, c: Users.Crypto,
                    username: Option<string>, email: Option<string>, password: Option<string>): (r: Outcome)
    ensures !(Present(username) && Present(email) && Present(password)) ==>
      r == Outcome(dir, s, Failure(FieldsRequired))
    ensures r.reply.Failure? ==> r.dir == dir && r.session == s
    ensures r.reply.Success? ==> r.reply.value.role == RoleUser
    ensures r.reply.Success? ==> r.session == Session(Some(r.reply.value.id), Some(RoleUser))
    ensures r.reply.Success? ==> r.reply.value.username == username.value && r.reply.value.email == email.value
    ensures r.reply.Success? ==> (|r.dir.users| == |dir.users| + 1 && r.dir.users[..|dir.users|] == dir.users
      && Users.Public(r.dir.users[|dir.users|]) == r.reply.value)
    ensures Users.Valid(dir) ==> Users.Valid(r.dir)
    ensures Users.Valid(dir) && r.reply.Success? ==> SignedIn(r.session)
  {
    if !(Present(username) && Present(email) && Present(password)) then
      Outcome(dir, s, Failure(FieldsRequired))
    else
      match Users.Register(dir, c, username.value, email.value, password.value)
      case Failure(e) => Outcome(dir, s, Failure(Users.ErrorMessage(e)))
      case Success(reg) =>
        var u := Users.Public(reg.user);
        assert reg.dir.users[|dir.users|] == reg.user;
        Outcome(reg.dir, SessionOf(u), Success(u))
  }

  /** `POST /users/login`: missing fields and bad credentials leave the
      session as it was; success records the user's id and role. The
      directory never changes. */
  function Login(dir: Users.Directory, s: Session, c: Users.Crypto,
                 identifier: Option<string>, password: Option<string>): (r: Outcome)
    ensures r.dir == dir
    ensures !(Present(identifier) && Present(password)) ==> r == Outcome(dir, s, Failure(FieldsRequired))
    ensures r.reply.Failure? ==> r.session == s
    ensures r.reply.Failure? && Present(identifier) && Present(password) ==>
      r.reply.error == Users.ErrorMessage(Users.InvalidCredentials)
    ensures r.reply.Success? ==> r.session == Session(Some(r.reply.value.id), Some(r.reply.value.role))
    ensures r.reply.Success? ==> exists i :: 0 <= i < |dir.users| && Users.Public(dir.users[i]) == r.reply.value
  {
    if !(Present(identifier) && Present(password)) then
      Outcome(dir, s, Failure(FieldsRequired))
    else
      match Users.Login(dir, c, identifier.value, password.value)
      case Failure(e) => Outcome(dir, s, Failure(Users.ErrorMessage(e)))
      case Success(u) => Outcome(dir, SessionOf(u), Success(u))
  }

  /** `GET /users/me`: the signed-in user without the hash, or null when
      nobody is signed in or the id names no user. */
  function Me(dir: Users.Directory, s: Session): (r: Option<Users.PublicUser>)
    ensures !SignedIn(s) ==> r.None?
    ensures SignedIn(s) ==> (r.None? <==> forall i :: 0 <= i < |dir.users| ==> dir.users[i].id != s.userId.value)
    ensures r.Some? ==> r.value.id == s.userId.value
    ensures r.Some? ==> exists i :: 0 <= i < |dir.users| && Users.Public(dir.users[i]) == r.value
  {
    if !SignedIn(s) then None
    else
      match Users.FindById(dir.users, s.userId.value)
      case None => None
      case Some(u) => Some(Users.Public(u))
  }

  datatype LoggedOut = LoggedOut(session: Session, reply: Option<int>)

  /** `GET /users/logout`: clears both fields and replies with the cleared
      id, null; afterwards `me` answers null whatever the directory holds. */
  function Logout(s: Session): (r: LoggedOut)
    ensures !SignedIn(r.session) && r.session.userRole.None?
    ensures r.reply.None? && r.reply == r.session.userId
    ensures forall dir :: Me(dir, r.session).None?
  {
    LoggedOut(NoSession, NoSession.userId)
  }

  /** Registering signs the new user in: `me` then returns that user. */
  lemma RegisterThenMe(dir: Users.Directory, s: Session, c: Users.Crypto,
                       username: Option<string>, email: Option<string>, password: Option<string>)
    requires Users.Valid(dir)
    requires Register(dir, s, c, username, email, password).reply.Success?
    ensures var r := Register(dir, s, c, username, email, password);
      Me(r.dir, r.session) == Some(r.reply.value)
  {
    var r := Register(dir, s, c, username, email, password);
    Users.FindByIdUnique(r.dir, |dir.users|);
  }

  /** Logging in signs that user in: `me` then returns the same user. */
  lemma LoginThenMe(dir: Users.Directory, s: Session, c: Users.Crypto,
                    identifier: Option<string>, password: Option<string>)
    requires Users.Valid(dir)
    requires Login(dir, s, c, identifier, password).reply.Success?
    ensures var r := Login(dir, s, c, identifier, password);
      Me(r.dir, r.session) == Some(r.reply.value)
  {
    var r := Login(dir, s, c, identifier, password);
    var i :| 0 <= i < |dir.users| && Users.Public(dir.users[i]) == r.reply.value;
    Users.FindByIdUnique(dir, i);
  }
}
