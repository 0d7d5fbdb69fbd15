/**
 * The `/api/auth` router: `POST /register` and `POST /login`, each behind its
 * validator, answering with the public view of the user and a signed session token.
 */
module AuthRoutes {
  import opened Wrappers
  import opened Js
  import opened Validators
  import opened UserModel

  /** Seven days, in seconds. */
  const TokenTtl: nat := 60 * 60 * 24 * 7
  const BcryptRounds: nat := 12

  const EmailTaken: string := "Email d\U{e9}j\U{e0} utilis\U{e9}"
  const ServerError: string := "Erreur serveur"
  const BadCredentials: string := "Identifiants invalides"

  /** A signed JWT, kept symbolic: its `sub` claim and its lifetime in seconds. */
  datatype Token = Jwt(subject: ObjectId, expiresIn: nat)

  /** The user as the routes show it: no password digest, no `updatedAt`. */
  datatype PublicUser = PublicUser(id: ObjectId, email: string, name: Option<string>, createdAt: int)

  /** What a handler sends: `{ user, token }` with a status, or `{ error }` with a status. */
  datatype Reply = Session(status: nat, user: PublicUser, token: Token) | Failure(status: nat, error: string)

  /** Why `bcrypt.hash` or `bcrypt.compare` refused its input. */
  datatype HashError = DataRequired | NotAString

  /** `signToken(userId)`: a token for that user, valid for `TokenTtl` seconds. */
  function SignToken(id: ObjectId): (t: Token)
    ensures t.subject == id && t.expiresIn == 604800
  {
    Jwt(id, TokenTtl)
  }

  function Public(u: User): (p: PublicUser)
    ensures p.id == u.id && p.email == u.email && p.name == u.name && p.createdAt == u.createdAt
  {
    PublicUser(u.id, u.email, u.name, u.createdAt)
  }

  /** `bcrypt.hash(password, rounds)`: rejects anything but a string. */
  function Hash(password: JsValue, rounds: nat): (r: Result<Digest, HashError>)
    ensures r.Ok? <==> password.Str?
    ensures r.Ok? ==> r.value.secret == password.s && r.value.rounds == rounds
  {
    match password
    case Str(s) => Ok(Bcrypt(s, rounds))
    case Undefined => Err(DataRequired)
    case Null => Err(DataRequired)
    case _ => Err(NotAString)
  }

  /** `bcrypt.compare(password, digest)`: whether `password` is what was hashed; rejects non-strings. */
  function Compare(password: JsValue, digest: Digest): (r: Result<bool, HashError>)
    ensures r.Ok? <==> password.Str?
    ensures r.Ok? ==> (r.value <==> digest.secret == password.s)
  {
    match password
    case Str(s) => Ok(digest.secret == s)
    case Undefined => Err(DataRequired)
    case Null => Err(DataRequired)
    case _ => Err(NotAString)
  }

  /** A query or create value as Mongoose casts it to the schema's String type. */
  predicate Castable(v: JsValue)
  {
    !v.Undefined? && !v.Null?
  }

  /** The optional `name` path: absent when the body has none, else its string form. */
  function NameOf(v: JsValue): Option<string>
  {
    if Castable(v) then Some(ToJsString(v)) else None
  }

  /** The email the handlers look up, as the schema's setters leave it. */
  function EmailKey(v: JsValue): string
  {
    NormalizeEmail(ToJsString(v))
  }

  /** Some document already carries email `e`. */
  predicate Taken(c: Collection, e: string)
  {
    exists u :: u in c.users && u.email == e
  }

  // ---------------------------------------------------------------------------
  // Register

  /**
   * The part of the `/register` handler after the lookup found the email free:
   * hash the password, create the user, and map a failure to 409 when it is the
   * unique index (code 11000) and to 500 otherwise. `current` is the collection
   * as `create` finds it.
   */
  function Enroll(current: Collection, body: Body, now: int): (r: (Collection, Reply))
    requires Castable(body.email)
    ensures r.1.Failure? ==> r.0 == current
    ensures r.1.Failure? ==> r.1 == Failure(409, EmailTaken) || r.1 == Failure(500, ServerError)
    ensures r.1 == Failure(409, EmailTaken) <==>
              body.password.Str? && current.online && EmailKey(body.email) != "" && Taken(current, EmailKey(body.email))
    ensures r.1.Session? <==>
              body.password.Str? && current.online && EmailKey(body.email) != "" && !Taken(current, EmailKey(body.email))
    ensures r.1.Session? ==>
              var n := |current.users|;
              && r.1.status == 201
              && |r.0.users| == n + 1 && r.0.users[..n] == current.users && r.0.nextSerial == current.nextSerial + 1
              && var u := r.0.users[n];
                 && u.email == EmailKey(body.email) && body.password.Str? && u.password == Bcrypt(body.password.s, BcryptRounds)
                 && u.name == NameOf(body.name) && u.createdAt == now && u.id == ObjectId(current.nextSerial)
                 && r.1.user == Public(u) && r.1.token == SignToken(u.id)
  {
    var email := ToJsString(body.email);
    match Hash(body.password, BcryptRounds)
    case Err(_) => (current, Failure(500, ServerError))
    case Ok(digest) =>
      match Create(current, email, digest, NameOf(body.name), now)
      case Err(e) =>
        if ErrorCode(e) == Some(11000) then (current, Failure(409, EmailTaken))
        else (current, Failure(500, ServerError))
      case Ok((c', u)) =>
        assert c'.users == current.users + [u];
        assert c'.users[..|current.users|] == current.users;
        assert c'.users[|current.users|] == u;
        (c', Session(201, Public(u), SignToken(u.id)))
  }

  /**
   * The `/register` handler. `seen` is the collection when `findOne` runs and
   * `current` the collection when `create` runs, which a concurrent request may
   * have extended in between; that race is the only way to the 11000 branch.
   * The first component of the result is the collection afterwards.
   */
  function Register(seen: Collection, current: Collection, body: Body, now: int): (r: (Collection, Reply))
    requires Castable(body.email)
    ensures r.1.Failure? ==> r.0 == current
    ensures r.1.Failure? ==> r.1 == Failure(409, EmailTaken) || r.1 == Failure(500, ServerError)
    ensures r.1 == Failure(409, EmailTaken) <==>
              seen.online && (Taken(seen, EmailKey(body.email))
                              || (body.password.Str? && current.online && EmailKey(body.email) != ""
                                  && Taken(current, EmailKey(body.email))))
    ensures r.1.Session? <==>
              seen.online && !Taken(seen, EmailKey(body.email)) && body.password.Str?
              && current.online && EmailKey(body.email) != "" && !Taken(current, EmailKey(body.email))
    ensures r.1.Session? ==> r == Enroll(current, body, now)
  {
    match FindByEmail(seen, ToJsString(body.email))
    case Err(_) => (current, Failure(500, ServerError))
    case Ok(Some(_)) => (current, Failure(409, EmailTaken))
    case Ok(None) => Enroll(current, body, now)
  }

  /** Register keeps the collection's invariants. */
  lemma RegisterKeepsValid(seen: Collection, current: Collection, body: Body, now: int)
    requires Castable(body.email) && Valid(current)
    ensures Valid(Register(seen, current, body, now).0)
  {
    var r := Register(seen, current, body, now);
    if r.1.Session? {
      var email := ToJsString(body.email);
      var digest := Hash(body.password, BcryptRounds).value;
      var res := Create(current, email, digest, NameOf(body.name), now);
      CreateKeepsValid(current, email, digest, NameOf(body.name), now, res.value.0, res.value.1);
    }
  }

  /** Without a concurrent insert the duplicate-key branch is dead: 409 means `findOne` found the email. */
  lemma SequentialConflictIsLookup(c: Collection, body: Body, now: int)
    requires Castable(body.email)
    ensures Register(c, c, body, now).1 == Failure(409, EmailTaken) <==> c.online && Taken(c, EmailKey(body.email))
  {
  }

  // ---------------------------------------------------------------------------
  // Login

  /** How a login request ends: a reply, or a rejected promise that no handler turns into a response. */
  datatype LoginOutcome = Replied(reply: Reply) | Unanswered

  /** The `/login` handler. It has no `try`: a store outage or a non-string password leaves the request unanswered. */
  function Login(c: Collection, body: Body): (r: LoginOutcome)
    requires Castable(body.email)
    ensures r == Unanswered <==> !c.online || (Taken(c, EmailKey(body.email)) && !body.password.Str?)
    ensures r.Replied? ==> r.reply == Failure(401, BadCredentials) || r.reply.Session?
    ensures r.Replied? && r.reply.Session? ==>
              && r.reply.status == 200 && r.reply.token == SignToken(r.reply.user.id)
              && body.password.Str?
              && exists u :: u in c.users && u.email == EmailKey(body.email) && r.reply.user == Public(u)
                             && u.password.secret == body.password.s
  {
    match FindByEmail(c, ToJsString(body.email))
    case Err(_) => Unanswered
    case Ok(None) => Replied(Failure(401, BadCredentials))
    case Ok(Some(u)) =>
      match Compare(body.password, u.password)
      case Err(_) => Unanswered
      case Ok(ok) =>
        if !ok then Replied(Failure(401, BadCredentials))
        else Replied(Session(200, Public(u), SignToken(u.id)))
  }

  /** Logging in as a stored user with its password opens a session for that user. */
  lemma LoginAsStoredUser(c: Collection, body: Body, u: User)
    requires Castable(body.email) && Valid(c) && c.online && body.password.Str?
    requires u in c.users && u.email == EmailKey(body.email) && u.password.secret == body.password.s
    ensures Login(c, body) == Replied(Session(200, Public(u), SignToken(u.id)))
  {
    FindByEmailUnique(c, ToJsString(body.email), u);
  }

  /** In a valid collection, login succeeds exactly for the stored email and the password that was hashed. */
  lemma LoginSucceedsIff(c: Collection, body: Body)
    requires Castable(body.email) && Valid(c)
    ensures Login(c, body).Replied? && Login(c, body).reply.Session? <==>
              c.online && body.password.Str?
              && exists u :: u in c.users && u.email == EmailKey(body.email) && u.password.secret == body.password.s
  {
    if c.online && body.password.Str?
       && exists u :: u in c.users && u.email == EmailKey(body.email) && u.password.secret == body.password.s {
      var u :| u in c.users && u.email == EmailKey(body.email) && u.password.secret == body.password.s;
      LoginAsStoredUser(c, body, u);
    }
  }

  /**
   * An unknown email and a wrong password get the same answer, so the reply does
   * not reveal which accounts exist.
   */
  lemma LoginHidesWhichCheckFailed(c: Collection, unknown: Body, wrong: Body, u: User)
    requires Castable(unknown.email) && Castable(wrong.email) && Valid(c) && c.online
    requires !Taken(c, EmailKey(unknown.email))
    requires u in c.users && u.email == EmailKey(wrong.email)
    requires wrong.password.Str? && wrong.password.s != u.password.secret
    ensures Login(c, unknown) == Login(c, wrong) == Replied(Failure(401, BadCredentials))
  {
    FindByEmailUnique(c, ToJsString(wrong.email), u);
  }

  /** Registering and then logging in with the same credentials yields the same user and a fresh token for it. */
  lemma RegisterThenLogin(c: Collection, body: Body, now: int)
    requires Castable(body.email) && Valid(c)
    requires Register(c, c, body, now).1.Session?
    ensures var (c', reply) := Register(c, c, body, now);
            Login(c', body) == Replied(Session(200, reply.user, reply.token))
  {
    var (c', reply) := Register(c, c, body, now);
    RegisterKeepsValid(c, c, body, now);
    var u := c'.users[|c.users|];
    assert u in c'.users;
    FindByEmailUnique(c', ToJsString(body.email), u);
  }

  // ---------------------------------------------------------------------------
  // The routes: validator, then handler.

  /** What a route sends: the validator's 400, the handler's reply, or nothing at all. */
  datatype Response = Refused(verdict: Verdict) | Answered(reply: Reply) | NoResponse

  /** Both validators only pass bodies whose email the handlers can use as a query value. */
  lemma ValidatorsGuardHandlers(body: Option<Body>)
    ensures ValidateRegister(body).Pass? ==> Castable(FieldsOf(body).email)
    ensures ValidateRegisterAsWritten(body).Pass? ==> Castable(FieldsOf(body).email)
    ensures ValidateLogin(body).Pass? ==> Castable(FieldsOf(body).email)
  {
  }

  /** An email with the validated shape holds an '@', which normalisation keeps, so its key is not blank. */
  lemma ShapedEmailNotBlank(s: string)
    requires EmailShape(s)
    ensures NormalizeEmail(s) != ""
  {
    var i, j :| 1 <= i && i + 2 <= j && j + 2 <= |s| && s[i] == '@' && s[j] == '.';
    KeptCharacterNotBlank(s, i);
  }

  /** `POST /register` as mounted in the source, with the validator as written. */
  function RegisterRouteAsWritten(seen: Collection, current: Collection, body: Option<Body>, now: int)
    : (r: (Collection, Response))
    ensures r.1.Refused? <==> ValidateRegisterAsWritten(body).Reject?
    ensures r.1.Refused? ==> r.0 == current && r.1.verdict == ValidateRegisterAsWritten(body)
    ensures r.1.Answered? ==> r == (Register(seen, current, FieldsOf(body), now).0,
                                    Answered(Register(seen, current, FieldsOf(body), now).1))
    ensures !r.1.NoResponse?
  {
    var verdict := ValidateRegisterAsWritten(body);
    if verdict.Reject? then (current, Refused(verdict))
    else
      var (c', reply) := Register(seen, current, FieldsOf(body), now);
      (c', Answered(reply))
  }

  /**
   * `POST /register` with the corrected validator. A created user's password is
   * a string of at least 8 characters, and a 500 can only come from the store.
   */
  function RegisterRoute(seen: Collection, current: Collection, body: Option<Body>, now: int)
    : (r: (Collection, Response))
    ensures r.1.Refused? <==> ValidateRegister(body).Reject?
    ensures r.1.Refused? ==> r.0 == current && r.1.verdict == ValidateRegister(body)
    ensures !r.1.NoResponse?
    ensures r.1.Answered? ==> ValidateRegister(body).Pass?
                              && r == (Register(seen, current, FieldsOf(body), now).0,
                                       Answered(Register(seen, current, FieldsOf(body), now).1))
    ensures r.1.Answered? && r.1.reply.Session? ==>
              |r.0.users| == |current.users| + 1 && FieldsOf(body).password.Str? &&
              var u := r.0.users[|current.users|];
              && u.password == Bcrypt(FieldsOf(body).password.s, BcryptRounds)
              && Utf16Length(u.password.secret) >= MinPasswordLength
    ensures r.1 == Answered(Failure(500, ServerError)) ==> !seen.online || !current.online
  {
    var verdict := ValidateRegister(body);
    if verdict.Reject? then (current, Refused(verdict))
    else
      var b := FieldsOf(body);
      ShapedEmailNotBlank(b.email.s);
      RegisterValidated(seen, current, b, now);
      var (c', reply) := Register(seen, current, b, now);
      (c', Answered(reply))
  }

  /**
   * For a string password of at least 8 characters and a non-blank email, a
   * created user's digest is of that password at cost 12, and a 500 can only
   * come from a store that is down.
   */
  lemma RegisterValidated(seen: Collection, current: Collection, body: Body, now: int)
    requires Castable(body.email) && EmailKey(body.email) != ""
    requires body.password.Str? && Utf16Length(body.password.s) >= MinPasswordLength
    ensures var (c', reply) := Register(seen, current, body, now);
            && (reply.Session? ==> |c'.users| == |current.users| + 1
                                   && c'.users[|current.users|].password == Bcrypt(body.password.s, BcryptRounds))
            && (reply == Failure(500, ServerError) ==> !seen.online || !current.online)
  {
    var (c', reply) := Register(seen, current, body, now);
    if reply.Session? {
      assert (c', reply) == Enroll(current, body, now);
    }
  }

  /** `POST /login`: the validator, then the handler. */
  function LoginRoute(c: Collection, body: Option<Body>): (r: Response)
    ensures r.Refused? <==> ValidateLogin(body).Reject?
    ensures r.Refused? ==> r.verdict == BadRequest(CredentialsRequired)
    ensures r.NoResponse? <==> ValidateLogin(body).Pass? && Login(c, FieldsOf(body)).Unanswered?
    ensures r.NoResponse? ==> !c.online || !FieldsOf(body).password.Str?
    ensures r.Answered? ==> ValidateLogin(body).Pass? && Login(c, FieldsOf(body)) == Replied(r.reply)
    ensures r.Answered? ==> r.reply == Failure(401, BadCredentials) || r.reply.status == 200
  {
    var verdict := ValidateLogin(body);
    if verdict.Reject? then Refused(verdict)
    else
      match Login(c, FieldsOf(body))
      case Unanswered => NoResponse
      case Replied(reply) => Answered(reply)
  }

  /**
   * Through the route, a session is opened exactly for a body that passes the
   * validator and carries a stored email with the password that was hashed.
   */
  lemma LoginRouteSucceedsIff(c: Collection, body: Option<Body>)
    requires Valid(c)
    ensures LoginRoute(c, body).Answered? && LoginRoute(c, body).reply.Session? <==>
              && ValidateLogin(body).Pass? && c.online && FieldsOf(body).password.Str?
              && exists u :: u in c.users && u.email == EmailKey(FieldsOf(body).email)
                             && u.password.secret == FieldsOf(body).password.s
  {
    ValidatorsGuardHandlers(body);
    if ValidateLogin(body).Pass? {
      LoginSucceedsIff(c, FieldsOf(body));
    }
  }

  /**
   * A password the validator let through but bcrypt refuses ends in a 500 once
   * the email is found free: the rejection lands in the handler's `catch`.
   */
  lemma UnhashablePasswordIsServerError(seen: Collection, current: Collection, body: Body, now: int)
    requires Castable(body.email) && seen.online && !Taken(seen, EmailKey(body.email))
    requires !body.password.Str?
    ensures Register(seen, current, body, now) == (current, Failure(500, ServerError))
  {
  }

  lemma SampleEmailKey()
    ensures EmailKey(Str("a@b.c")) == "a@b.c"
  {
    assert ToLower("a@b.c") == "a@b.c";
    assert TrimStart("a@b.c") == "a@b.c";
    assert TrimEnd("a@b.c") == "a@b.c";
  }

  /**
   * With an online store and a fresh email, the number 1 as a password gets a
   * 500 from the route as written (bcrypt refuses a number) but a 400 from the
   * corrected one.
   */
  lemma NumericPasswordIsServerError(c: Collection, now: int)
    requires c.online && !Taken(c, "a@b.c")
    ensures var body := Some(Body(Str("a@b.c"), Num(1), Str("Ben")));
            && RegisterRouteAsWritten(c, c, body, now) == (c, Answered(Failure(500, ServerError)))
            && RegisterRoute(c, c, body, now) == (c, Refused(BadRequest(ShortPassword)))
  {
    var b := Body(Str("a@b.c"), Num(1), Str("Ben"));
    SampleEmailMatches();
    SampleNameOk();
    NumericPasswordPassesAsWritten(b);
    assert FieldsOf(Some(b)) == b;
    SampleEmailKey();
    UnhashablePasswordIsServerError(c, c, b, now);
  }
}
