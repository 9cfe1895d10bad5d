/** Start-up seeding (server/src/seed/seed.service.ts): on a database with
    no users, three accounts and two tickets are created; otherwise nothing
    happens. */
module Seed {
  import opened Wrappers
  import opened Domain
  import Users
  import Validation

  /** The two tables seeding writes. */
  datatype State = State(dir: Users.Directory, tickets: TicketTable)

  /** The three seeded accounts, ids taken from the counter in save order. */
  function SeedUsers(c: Users.Crypto, firstId: nat): (r: seq<Users.User>)
    ensures |r| == 3
    ensures forall i :: 0 <= i < 3 ==> r[i].id == firstId + i
    ensures r[0].role == RoleSystem && r[1].role == RoleAdmin && r[2].role == RoleUser
  {
    [ Users.User(firstId, "system", "system@test.com", c.hash("system"), RoleSystem),
      Users.User(firstId + 1, "admin", "admin@test.com", c.hash("admin"), RoleAdmin),
      Users.User(firstId + 2, "user", "user@test.com", c.hash("user123"), RoleUser) ]
  }

  /** The two seeded tickets, both open and owned by the seeded "user". */
  function SeedTickets(firstId: nat, owner: int, now: int): (r: seq<Ticket>)
    ensures |r| == 2
    ensures forall i :: 0 <= i < 2 ==> r[i].status == Open && r[i].owner == Some(owner) && r[i].id == firstId + i
    ensures r[0].priority == High && r[1].priority == Medium
  {
    [ Ticket(firstId, Some(owner), "Cannot login", "Login fails with wrong password error", Open, High, None, now),
      Ticket(firstId + 1, Some(owner), "Page crashes", "Dashboard crashes on load", Open, Medium, None, now) ]
  }

  /** `onModuleInit`: skipped when any user exists; otherwise appends the
      three accounts and then the two tickets owned by the ordinary one. */
  function OnModuleInit(st: State, c: Users.Crypto, now: int): (r: State)
    ensures |st.dir.users| > 0 ==> r == st
    ensures |st.dir.users| == 0 ==> |r.dir.users| == 3 && |r.tickets.rows| == |st.tickets.rows| + 2
    ensures |st.dir.users| == 0 ==>
      && r.dir.users[0].role == RoleSystem && r.dir.users[1].role == RoleAdmin && r.dir.users[2].role == RoleUser
      && r.dir.users[0].username == "system" && r.dir.users[1].username == "admin" && r.dir.users[2].username == "user"
    ensures |st.dir.users| == 0 ==> r.tickets.rows[..|st.tickets.rows|] == st.tickets.rows
    ensures |st.dir.users| == 0 ==> forall i :: |st.tickets.rows| <= i < |r.tickets.rows| ==>
      r.tickets.rows[i].status == Open && r.tickets.rows[i].owner == Some(r.dir.users[2].id)
    ensures |st.dir.users| == 0 ==>
      r.tickets.rows[|st.tickets.rows|].priority == High && r.tickets.rows[|st.tickets.rows| + 1].priority == Medium
    ensures Users.Valid(st.dir) ==> Users.Valid(r.dir)
    ensures |r.dir.users| > 0
  {
    if |st.dir.users| > 0 then st
    else
      var users := SeedUsers(c, st.dir.nextId);
      var dir := Users.Directory(users, st.dir.nextId + 3);
      var tickets := SeedTickets(st.tickets.nextId, users[2].id, now);
      State(dir, TicketTable(st.tickets.rows + tickets, st.tickets.nextId + 2))
  }

  /** Seeding a second time, at any instant, changes nothing. */
  lemma SeedIdempotent(st: State, c: Users.Crypto, now: int, later: int)
    ensures OnModuleInit(OnModuleInit(st, c, now), c, later) == OnModuleInit(st, c, now)
  {
  }

  /** Each seeded password opens its account, and the admin account is the
      one with the admin role. */
  lemma {:induction false} SeededAccountsLogIn(st: State, c: Users.Crypto, now: int)
    requires Users.Consistent(c) && |st.dir.users| == 0
    ensures var d := OnModuleInit(st, c, now).dir;
      && Users.Login(d, c, "system", "system").Success?
      && Users.Login(d, c, "admin", "admin") == Success(Users.PublicUser(d.users[1].id, "admin", "admin@test.com", RoleAdmin))
      && Users.Login(d, c, "user@test.com", "user123").Success?
  {
    var d := OnModuleInit(st, c, now).dir;
    assert d.users == SeedUsers(c, st.dir.nextId);
    SeededLogin(d, c, st.dir.nextId, 0, "system", "system");
    SeededLogin(d, c, st.dir.nextId, 1, "admin", "admin");
    SeededLogin(d, c, st.dir.nextId, 2, "user@test.com", "user123");
  }

  /** One seeded account, named by an identifier no other seeded account
      answers to, logs in with its seed password. */
  lemma SeededLogin(d: Users.Directory, c: Users.Crypto, firstId: nat, i: nat, identifier: string, password: string)
    requires Users.Consistent(c) && d.users == SeedUsers(c, firstId)
    requires (i, identifier, password) in {(0, "system", "system"), (1, "admin", "admin"), (2, "user@test.com", "user123")}
    ensures Users.Login(d, c, identifier, password) == Success(Users.Public(d.users[i]))
  {
    Users.LoginByUniqueName(d, c, i, identifier, password);
  }

  /** The seeded tickets would themselves pass the create-ticket rules. */
  lemma SeededTicketsValid(st: State, c: Users.Crypto, now: int)
    requires |st.dir.users| == 0
    ensures var r := OnModuleInit(st, c, now);
      forall i :: |st.tickets.rows| <= i < |r.tickets.rows| ==>
        Validation.ValidCreateTicket(Validation.CreateTicketDto(r.tickets.rows[i].title, r.tickets.rows[i].description))
  {
    Validation.PlainLength("Cannot login");
    Validation.PlainLength("Login fails with wrong password error");
    Validation.PlainLength("Page crashes");
    Validation.PlainLength("Dashboard crashes on load");
  }
}
