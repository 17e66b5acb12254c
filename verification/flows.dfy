/** Properties of whole request sequences: registering, logging in and
    presenting the token to the guard. They hold under the stated
    expectations of the oracles (`HashVerifies`, `SignVerifies`,
    `TokensAreWords`), which are hypotheses here, not facts proved of
    bcrypt or of hono's JWT code.
 */
module Flows {
  import opened JsRuntime
  import opened Store
  import opened Crypto
  import opened Controller
  import opened Middleware

  /** After a successful registration, in any table (emails need not be
      unique), logging in with the same email and
      password succeeds, with a token signed over the id the insert returned. */
  lemma RegisterThenLogin(s: Store, o: Oracles, req: RegisterRequest)
    requires HashVerifies(o)
    requires RegisterParsed(s, o, req).0.Respond? && RegisterParsed(s, o, req).0.status == 200
    ensures Login(RegisterParsed(s, o, req).1, o, Ok(LoginRequest(req.email, req.password)))
         == Respond(200, LoginData(LoggedIn, req.email, TokenType, o.sign(Claims(NextId(s))).value))
  {
    LookupAfterCreate(s, req.username, req.email, o.hash(req.password).value);
    var s' := RegisterParsed(s, o, req).1;
    assert GetUserByEmail(s', req.email).value.password == o.hash(req.password).value;
  }

  /** A second registration with an email that just registered is refused
      and leaves the table as the first registration left it. */
  lemma RegisterTwiceRefused(s: Store, o: Oracles, first: RegisterRequest, second: RegisterRequest)
    requires RegisterParsed(s, o, first).1 != s
    requires second.email == first.email
    ensures RegisterParsed(RegisterParsed(s, o, first).1, o, second)
         == (Respond(400, Message(AlreadyExists)), RegisterParsed(s, o, first).1)
  {
    LookupAfterCreate(s, first.username, first.email, o.hash(first.password).value);
  }

  /** A token the signer issued, presented as `Bearer <token>`, passes the
      guard: the verifier gets exactly that token, the claims it was signed
      from land in the context, and the next handler runs. */
  lemma IssuedTokenAdmitted(o: Oracles, claims: Claims, payload: Option<Claims>)
    requires SignVerifies(o) && TokensAreWords(o)
    requires o.sign(claims).Ok?
    ensures var ctx := Context(Some("Bearer " + o.sign(claims).value), payload);
            AuthMiddleware(ctx, o.verifyToken)
            == GuardRun([CallVerify(Some(o.sign(claims).value)), CallNext(ctx.(tokenPayload := Some(claims)))], None)
  {
    var token := o.sign(claims).value;
    assert "Bearer " + token == "Bearer" + [' '] + token + [];
    assert StartsWith("Bearer", "Bearer");
    GuardOnHeader("Bearer", token, [], payload, o.verifyToken);
  }

  /** Register, log in, and call a protected route with the login token:
      the guard admits the request and the claims it stores carry the id
      the registration created. */
  lemma RegisterLoginAccess(s: Store, o: Oracles, req: RegisterRequest)
    requires HashVerifies(o) && SignVerifies(o) && TokensAreWords(o)
    requires RegisterParsed(s, o, req).0.Respond? && RegisterParsed(s, o, req).0.status == 200
    ensures var login := Login(RegisterParsed(s, o, req).1, o, Ok(LoginRequest(req.email, req.password)));
            && login.Respond? && login.body.LoginData?
            && AuthMiddleware(Context(Some("Bearer " + login.body.token), None), o.verifyToken).thrown.None?
            && AuthMiddleware(Context(Some("Bearer " + login.body.token), None), o.verifyToken).steps[1].ctx.tokenPayload
               == Some(Claims(NextId(s)))
  {
    RegisterThenLogin(s, o, req);
    IssuedTokenAdmitted(o, Claims(NextId(s)), None);
  }
}
