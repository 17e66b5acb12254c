/** `login` and `register` of `src/controller/user.ts`. Each handler reads
    its JSON body (which may fail to parse), consults the users table,
    hashes or checks the password, signs a `{ user: { id } }` payload and
    answers with a JSON response; anything thrown on the way leaves through
    the shared catch block. A handler run is a pure function of the table,
    the oracles and the request; `register` also returns the table after
    its insert.
 */
module Controller {
  import opened JsRuntime
  import opened Store
  import opened Crypto

  const Incorrect := "Email or Password is incorrect"
  const AlreadyExists := "User already exists"
  const LoggedIn := "Successfully Logged in"
  const Created := "Successfully created account"
  const TokenType := "Bearer"

  datatype LoginRequest = LoginRequest(email: string, password: string)
  datatype RegisterRequest = RegisterRequest(username: string, email: string, password: string)

  /** The JSON bodies the handlers answer with. */
  datatype Body =
    | Message(message: string)
    | LoginData(message: string, email: string, tokenType: string, token: string)
    | RegisterData(message: string, username: string, email: string, tokenType: string, token: string)

  /** A handler either answers `c.json(body, status)` or throws. */
  datatype Outcome = Respond(status: int, body: Body) | Throw(error: Thrown)

  /** The refusal shared by an unknown email and a wrong password. */
  function LoginRefused(): Outcome {
    Respond(400, Message(Incorrect))
  }

  /** `login`, with the password check awaited (see `LoginAsWritten` for the
      code as it stands, which does not await it). */
  function Login(s: Store, o: Oracles, body: Attempt<LoginRequest>): (r: Outcome)
    ensures body.Throws? ==> r == Throw(Rethrow(body.error))
    ensures body.Ok? && GetUserByEmail(s, body.value.email).None? ==> r == LoginRefused()
    ensures body.Ok? && GetUserByEmail(s, body.value.email).Some? &&
            !o.verifyPassword(body.value.password, GetUserByEmail(s, body.value.email).value.password) ==>
              r == LoginRefused()
    // success needs a stored user whose hash accepts the password, and the
    // token is signed over that user's id
    ensures r.Respond? && r.status == 200 <==>
              && body.Ok?
              && GetUserByEmail(s, body.value.email).Some?
              && o.verifyPassword(body.value.password, GetUserByEmail(s, body.value.email).value.password)
              && o.sign(Claims(GetUserByEmail(s, body.value.email).value.id)).Ok?
    ensures r.Respond? && r.status == 200 ==>
              r.body == LoginData(LoggedIn, body.value.email, TokenType,
                                  o.sign(Claims(GetUserByEmail(s, body.value.email).value.id)).value)
    // a 400 comes only from the two refusals, and a signing failure is rethrown
    ensures r.Respond? && r.status == 400 <==>
              && body.Ok?
              && (|| GetUserByEmail(s, body.value.email).None?
                  || !o.verifyPassword(body.value.password, GetUserByEmail(s, body.value.email).value.password))
    ensures body.Ok? && GetUserByEmail(s, body.value.email).Some? &&
            o.verifyPassword(body.value.password, GetUserByEmail(s, body.value.email).value.password) &&
            o.sign(Claims(GetUserByEmail(s, body.value.email).value.id)).Throws? ==>
              r == Throw(Rethrow(o.sign(Claims(GetUserByEmail(s, body.value.email).value.id)).error))
    ensures r.Respond? ==> r.status in {200, 400}
  {
    match body
    case Throws(e) => Throw(Rethrow(e))
    case Ok(LoginRequest(email, password)) =>
      match GetUserByEmail(s, email)
      case None => LoginRefused()
      case Some(user) =>
        if !o.verifyPassword(password, user.password) then LoginRefused()
        else
          match o.sign(Claims(user.id))
          case Throws(e) => Throw(Rethrow(e))
          case Ok(token) => Respond(200, LoginData(LoggedIn, email, TokenType, token))
  }

  /** An unknown email and a wrong password get the same answer, so the
      response does not reveal whether an account exists. */
  lemma LoginIndistinguishable(s1: Store, s2: Store, o1: Oracles, o2: Oracles, email: string, password: string)
    requires GetUserByEmail(s1, email).None?
    requires GetUserByEmail(s2, email).Some?
    requires !o2.verifyPassword(password, GetUserByEmail(s2, email).value.password)
    ensures Login(s1, o1, Ok(LoginRequest(email, password))) == Login(s2, o2, Ok(LoginRequest(email, password)))
    ensures Login(s1, o1, Ok(LoginRequest(email, password))) == Respond(400, Message(Incorrect))
  {
  }

  /** `login` as written: `Bun.password.verify` is not awaited, so `isMatch`
      is a pending Promise, which is always truthy, and the mismatch branch
      is never taken. */
  function LoginAsWritten(s: Store, o: Oracles, body: Attempt<LoginRequest>): (r: Outcome)
    // it behaves like the intended handler given a checker that accepts
    // every password
    ensures r == Login(s, o.(verifyPassword := (password: string, hash: string) => true), body)
    // so it refuses only unknown emails
    ensures r.Respond? && r.status == 400 <==> body.Ok? && GetUserByEmail(s, body.value.email).None?
  {
    match body
    case Throws(e) => Throw(Rethrow(e))
    case Ok(LoginRequest(email, password)) =>
      match GetUserByEmail(s, email)
      case None => LoginRefused()
      case Some(user) =>
        // `!isMatch` is false for a pending Promise: straight on to signing
        match o.sign(Claims(user.id))
        case Throws(e) => Throw(Rethrow(e))
        case Ok(token) => Respond(200, LoginData(LoggedIn, email, TokenType, token))
  }

  /** Without the await, any password logs in to an existing account: where
      the intended handler refuses a wrong password, the code as written
      answers 200 with a token for that account. */
  lemma UnawaitedVerifyAcceptsWrongPassword(s: Store, o: Oracles, email: string, password: string)
    requires GetUserByEmail(s, email).Some?
    requires !o.verifyPassword(password, GetUserByEmail(s, email).value.password)
    requires o.sign(Claims(GetUserByEmail(s, email).value.id)).Ok?
    ensures Login(s, o, Ok(LoginRequest(email, password))) == LoginRefused()
    ensures LoginAsWritten(s, o, Ok(LoginRequest(email, password)))
         == Respond(200, LoginData(LoggedIn, email, TokenType, o.sign(Claims(GetUserByEmail(s, email).value.id)).value))
  {
  }

  /** The registration steps after the body is read, shared by `register`
      and the inline `/register` of `src/index.ts`: refuse a taken email,
      hash, insert, sign over the new id, answer. */
  function RegisterParsed(s: Store, o: Oracles, req: RegisterRequest): (r: (Outcome, Store))
    // a taken email is refused and nothing is inserted
    ensures GetUserByEmail(s, req.email).Some? ==> r == (Respond(400, Message(AlreadyExists)), s)
    // a failing hash inserts nothing
    ensures o.hash(req.password).Throws? ==> r.1 == s
    // otherwise exactly one row is appended, holding the hash, never the
    // plaintext unless the hasher returned it
    ensures r.1 != s ==>
              && GetUserByEmail(s, req.email).None?
              && o.hash(req.password).Ok?
              && r.1.rows == s.rows + [User(NextId(s), req.username, req.email, o.hash(req.password).value)]
    ensures GetUserByEmail(s, req.email).None? && o.hash(req.password).Ok? ==> r.1 != s
    // success echoes the submitted fields with a token over the new id
    ensures r.0.Respond? && r.0.status == 200 <==>
              r.1 != s && o.sign(Claims(NextId(s))).Ok?
    ensures r.0.Respond? && r.0.status == 200 ==>
              r.0.body == RegisterData(Created, req.username, req.email, TokenType, o.sign(Claims(NextId(s))).value)
    // a failure after the insert (the signer throwing) keeps the new row
    ensures r.0.Throw? && r.1 != s ==> r.0.error == Rethrow(o.sign(Claims(NextId(s))).error)
    // a 400 comes only from a taken email; a hash or sign failure is rethrown
    ensures r.0.Respond? && r.0.status == 400 <==> GetUserByEmail(s, req.email).Some?
    ensures GetUserByEmail(s, req.email).None? && o.hash(req.password).Throws? ==>
              r == (Throw(Rethrow(o.hash(req.password).error)), s)
    ensures GetUserByEmail(s, req.email).None? && o.hash(req.password).Ok? &&
            o.sign(Claims(NextId(s))).Throws? ==>
              r.0 == Throw(Rethrow(o.sign(Claims(NextId(s))).error))
    ensures r.0.Respond? ==> r.0.status in {200, 400}
  {
    match GetUserByEmail(s, req.email)
    case Some(_) => (Respond(400, Message(AlreadyExists)), s)
    case None =>
      match o.hash(req.password)
      case Throws(e) => (Throw(Rethrow(e)), s)
      case Ok(hashed) =>
        var (s', userId) := CreateUser(s, req.username, req.email, hashed);
        match o.sign(Claims(userId))
        case Throws(e) => (Throw(Rethrow(e)), s')
        case Ok(token) => (Respond(200, RegisterData(Created, req.username, req.email, TokenType, token)), s')
  }

  /** `register`: a body that fails to parse is caught and rethrown like
      every other error. */
  function Register(s: Store, o: Oracles, body: Attempt<RegisterRequest>): (r: (Outcome, Store))
    ensures body.Throws? ==> r == (Throw(Rethrow(body.error)), s)
    ensures body.Ok? ==> r == RegisterParsed(s, o, body.value)
  {
    match body
    case Throws(e) => (Throw(Rethrow(e)), s)
    case Ok(req) => RegisterParsed(s, o, req)
  }

  /** Registration keeps the table valid (ids and emails unique), and after
      an insert the new email looks up to the new row. */
  lemma RegisterKeepsValid(s: Store, o: Oracles, req: RegisterRequest)
    requires Valid(s)
    ensures Valid(RegisterParsed(s, o, req).1)
    ensures RegisterParsed(s, o, req).1 != s ==>
              GetUserByEmail(RegisterParsed(s, o, req).1, req.email)
              == Some(User(NextId(s), req.username, req.email, o.hash(req.password).value))
  {
    if GetUserByEmail(s, req.email).None? && o.hash(req.password).Ok? {
      CreateKeepsValid(s, req.username, req.email, o.hash(req.password).value);
    }
  }
}
