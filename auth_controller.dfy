/**
 * Registration and login. Registration refuses an email that already has an
 * account (409) and otherwise stores the user; its reply carries the
 * profile, never the password. Login answers the same 401 whether the email
 * is unknown or the password is wrong, and otherwise signs a token over the
 * user's id, role and email.
 *
 * Password checking and token signing are parameters: `checkPassword` stands
 * for the User model's method, `sign` for the token service.
 */
module AuthController {
  import opened Http
  import opened Validation
  import opened Schemas
  import opened Store
  import Routes

  const AlreadyRegistered := "Usuário já cadastrado"
  const InvalidCredentials := "Credenciais inválidas"

  /** The login reply: the signed token and the user's profile. */
  datatype Session = Session(token: string, user: Profile)

  /** A body field as the handler destructures it (the chains make sure the ones read here are present). */
  function BodyText(req: Request, name: string): string
  {
    Text(Routes.BodyField(req, name))
  }

  /** Some account has this email. */
  predicate Registered(users: map<int, User>, email: string)
  {
    exists id :: id in users && users[id].email == email
  }

  /** The keys of the accounts with this email. */
  function WithEmail(users: map<int, User>, email: string): (r: set<int>)
    ensures forall id :: id in r <==> id in users && users[id].email == email
  {
    set id | id in users && users[id].email == email
  }

  /** With unique emails, an email names at most one account. */
  lemma AtMostOneAccount(users: map<int, User>, email: string, a: int, b: int)
    requires UniqueUserEmails(users)
    requires a in WithEmail(users, email) && b in WithEmail(users, email)
    ensures a == b
  {
  }

  /** `User.findOne({ where: { email } })`: some account with that email, or none when there is none. */
  method FindByEmail(users: map<int, User>, email: string) returns (r: Option<int>)
    ensures r.Some? <==> Registered(users, email)
    ensures r.Some? ==> r.value in users && users[r.value].email == email
  {
    if !Registered(users, email) {
      return None;
    }
    var id :| id in users && users[id].email == email;
    r := Some(id);
  }

  /** A body that passes the register chain always makes a user, with the email and password sent. */
  lemma ValidBodyMakesUser(req: Request, lib: Lib)
    requires Errors(Routes.Register, req, lib) == []
    ensures NewUser(req.body).Some?
    ensures NewUser(req.body).value.email == BodyText(req, "email")
    ensures |NewUser(req.body).value.password| >= 6
  {
    Routes.RegisterMeaning(req, lib);
  }

  /** `register` (its route's validators included). */
  method Register(db: Db, req: Request, lib: Lib) returns (r: Reply<Profile>)
    requires db.Valid()
    modifies db`users, db`nextUser
    ensures db.Valid()
    ensures Errors(Routes.Register, req, lib) != [] ==> r == Invalid(Errors(Routes.Register, req, lib))
    ensures r.Conflict? <==> Errors(Routes.Register, req, lib) == [] && Registered(old(db.users), BodyText(req, "email"))
    ensures r.Conflict? ==> r.message == AlreadyRegistered
    ensures r.Created? <==> Errors(Routes.Register, req, lib) == [] && !Registered(old(db.users), BodyText(req, "email"))
    ensures !r.Created? ==> db.users == old(db.users) && db.nextUser == old(db.nextUser)
    ensures r.Created? ==>
              var id := old(db.nextUser);
              && id !in old(db.users)
              && NewUser(req.body).Some?
              && db.users == old(db.users)[id := NewUser(req.body).value]
              && db.nextUser == id + 1
              && r.value == ProfileOf(id, NewUser(req.body).value)
  {
    var errs := Errors(Routes.Register, req, lib);
    if errs != [] {
      return Invalid(errs);
    }
    ValidBodyMakesUser(req, lib);
    var email := BodyText(req, "email");
    var existing := FindByEmail(db.users, email);
    if existing.Some? {
      return Conflict(AlreadyRegistered);
    }
    var u := NewUser(req.body).value;
    var id := db.nextUser;
    db.users := db.users[id := u];
    db.nextUser := id + 1;
    r := Created(ProfileOf(id, u));
  }

  /** The claims a token for account `id` carries. */
  function ClaimsOf(id: int, u: User): (c: Claims)
    ensures c.id == id && c.role == u.role && c.email == u.email
  {
    Claims(id, u.role, u.email)
  }

  /** `login` (its route's validators included). */
  method Login(db: Db, req: Request, lib: Lib, checkPassword: (User, string) -> bool, sign: Claims -> string)
    returns (r: Reply<Session>)
    requires db.Valid()
    ensures Errors(Routes.Login, req, lib) != [] ==> r == Invalid(Errors(Routes.Login, req, lib))
    ensures Errors(Routes.Login, req, lib) == [] ==> r.Ok? || r == Unauthorized(InvalidCredentials)
    ensures r.Ok? <==>
              Errors(Routes.Login, req, lib) == []
              && exists id :: id in db.users && db.users[id].email == BodyText(req, "email")
                              && checkPassword(db.users[id], BodyText(req, "password"))
    ensures r.Ok? ==>
              var id := r.value.user.id;
              && id in db.users && db.users[id].email == BodyText(req, "email")
              && WithEmail(db.users, BodyText(req, "email")) == {id}
              && checkPassword(db.users[id], BodyText(req, "password"))
              && r.value.user == ProfileOf(id, db.users[id])
              && r.value.token == sign(ClaimsOf(id, db.users[id]))
  {
    var errs := Errors(Routes.Login, req, lib);
    if errs != [] {
      return Invalid(errs);
    }
    Routes.LoginMeaning(req, lib);
    var email, password := BodyText(req, "email"), BodyText(req, "password");
    var found := FindByEmail(db.users, email);
    if found.None? {
      return Unauthorized(InvalidCredentials);
    }
    var id := found.value;
    forall other | other in WithEmail(db.users, email)
      ensures other == id
    {
      AtMostOneAccount(db.users, email, other, id);
    }
    var user := db.users[id];
    if !checkPassword(user, password) {
      return Unauthorized(InvalidCredentials);
    }
    r := Ok(Session(sign(ClaimsOf(id, user)), ProfileOf(id, user)));
  }
}
