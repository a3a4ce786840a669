/** `POST /api/auth/register`: a new customer account with a unique email, a welcome
    loyalty entry and a week-long session cookie. */
module Register {
  import opened Wrappers
  import opened Schema

  datatype RegisterRequest = RegisterRequest(email: Option<string>, password: Option<string>,
                                             name: Option<string>, phone: Option<string>)

  datatype AccountDb = AccountDb(users: seq<User>, ledger: seq<LoyaltyEntry>)

  /** The `user` object of the reply: no password, no phone, no active flag. */
  datatype PublicUser = PublicUser(id: nat, email: string, name: string, role: Role)

  /** The reply body's user, the signed token and the cookie's `maxAge` in seconds. */
  datatype Registered = Registered(user: PublicUser, token: string, maxAge: nat)

  const WelcomePoints: nat := 100

  /** `60 * 60 * 24 * 7`: the cookie lives as long as the token's '7d' expiry. */
  const CookieMaxAge: nat := 60 * 60 * 24 * 7

  predicate EmailTaken(users: seq<User>, email: string) {
    exists i :: 0 <= i < |users| && users[i].email == email
  }

  predicate UniqueEmails(users: seq<User>) {
    forall i, j :: 0 <= i < j < |users| ==> users[i].id != users[j].id && users[i].email != users[j].email
  }

  predicate Present(x: Option<string>) {
    x.Some? && x.value != ""
  }

  /** The handler. `hash` stands for bcrypt and `sign` for signing the token from the
      user id, email and role; neither is looked into. New accounts are active, which is
      the column's default. */
  function RegisterUser(db: AccountDb, req: RegisterRequest, hash: string -> string,
                        sign: (nat, string, Role) -> string): (r: (Response<Registered>, AccountDb))
    ensures !Present(req.email) || !Present(req.password) || !Present(req.name) ==>
      r == (Err(400, "Email, password, and name are required"), db)
    ensures Present(req.email) && Present(req.password) && Present(req.name) && EmailTaken(db.users, req.email.value) ==>
      r == (Err(409, "User already exists with this email"), db)
    ensures r.0.Ok? <==>
      Present(req.email) && Present(req.password) && Present(req.name) && !EmailTaken(db.users, req.email.value)
    ensures r.0.Ok? ==>
      var u := r.0.value.user;
      && r.0.status == 200
      && (forall i :: 0 <= i < |db.users| ==> db.users[i].id < u.id)
      && r.1.users == db.users + [User(u.id, req.email.value, hash(req.password.value), req.name.value,
                                       NonEmptyOrNull(req.phone), USER, true)]
      && r.1.ledger == db.ledger + [LoyaltyEntry(u.id, None, WelcomePoints, EARNED)]
      && u == PublicUser(u.id, req.email.value, req.name.value, USER)
      && r.0.value.token == sign(u.id, req.email.value, USER)
      && r.0.value.maxAge == 604800
  {
    if !Present(req.email) || !Present(req.password) || !Present(req.name) then
      (Err(400, "Email, password, and name are required"), db)
    else if EmailTaken(db.users, req.email.value) then
      (Err(409, "User already exists with this email"), db)
    else
      var id := NextId(db.users, (x: User) => x.id);
      var user := User(id, req.email.value, hash(req.password.value), req.name.value,
                       NonEmptyOrNull(req.phone), USER, true);
      var ledger := db.ledger + [LoyaltyEntry(id, None, WelcomePoints, EARNED)];
      (Ok(200, Registered(PublicUser(id, user.email, user.name, user.role), sign(id, user.email, user.role),
                          CookieMaxAge)),
       AccountDb(db.users + [user], ledger))
  }

  /** A refused registration writes neither a user nor a loyalty entry. */
  lemma RejectedRegistrationWritesNothing(db: AccountDb, req: RegisterRequest, hash: string -> string,
                                          sign: (nat, string, Role) -> string)
    ensures RegisterUser(db, req, hash, sign).0.Err? ==> RegisterUser(db, req, hash, sign).1 == db
  {
  }

  /** Registration keeps ids and emails unique, and the stored account can be found by its email. */
  lemma RegistrationKeepsEmailsUnique(db: AccountDb, req: RegisterRequest, hash: string -> string,
                                      sign: (nat, string, Role) -> string)
    requires UniqueEmails(db.users)
    ensures var r := RegisterUser(db, req, hash, sign);
      UniqueEmails(r.1.users) && (r.0.Ok? ==> EmailTaken(r.1.users, req.email.value))
  {
    var r := RegisterUser(db, req, hash, sign);
    if r.0.Ok? {
      var users := r.1.users;
      forall i, j | 0 <= i < j < |users| ensures users[i].id != users[j].id && users[i].email != users[j].email {
        if j == |db.users| {
          assert users[i] == db.users[i];
          assert db.users[i].email != req.email.value;
        }
      }
      assert users[|db.users|].email == req.email.value;
    }
  }

  /** Registering twice with the same email: the second attempt is refused with 409 and
      the welcome bonus is written once. */
  lemma SecondRegistrationRefused(db: AccountDb, req: RegisterRequest, req2: RegisterRequest,
                                  hash: string -> string, sign: (nat, string, Role) -> string)
    requires RegisterUser(db, req, hash, sign).0.Ok?
    requires Present(req2.email) && Present(req2.password) && Present(req2.name) && req2.email == req.email
    ensures var db1 := RegisterUser(db, req, hash, sign).1;
      && RegisterUser(db1, req2, hash, sign) == (Err(409, "User already exists with this email"), db1)
      && |db1.ledger| == |db.ledger| + 1
  {
    var db1 := RegisterUser(db, req, hash, sign).1;
    assert db1.users[|db.users|].email == req.email.value;
  }
}
