/** The routes defined directly in `src/index.ts`: an inline `/register`
    handler that repeats the controller's steps, and an earlier
    `authMiddleware` guarding `/protected` that lacks the empty-token check.
 */
module App {
  import opened JsRuntime
  import opened Store
  import opened Crypto
  import opened Controller
  import opened Middleware

  /** The inline `/register`: the body is read before the `try`, so a body
      that fails to parse propagates as thrown instead of being rebuilt by
      the catch block; the remaining steps are the controller's. */
  function RegisterInline(s: Store, o: Oracles, body: Attempt<RegisterRequest>): (r: (Outcome, Store))
    ensures body.Throws? ==> r == (Throw(body.error), s)
    ensures body.Ok? && GetUserByEmail(s, body.value.email).Some? ==>
              r == (Respond(400, Message(AlreadyExists)), s)
    ensures body.Ok? && r.0.Respond? && r.0.status == 200 ==>
              && o.hash(body.value.password).Ok?
              && o.sign(Claims(NextId(s))).Ok?
              && r.1.rows == s.rows + [User(NextId(s), body.value.username, body.value.email,
                                            o.hash(body.value.password).value)]
              && r.0.body == RegisterData(Created, body.value.username, body.value.email, TokenType,
                                          o.sign(Claims(NextId(s))).value)
  {
    match body
    case Throws(e) => (Throw(e), s)
    case Ok(req) => RegisterParsed(s, o, req)
  }

  /** The two registration handlers agree on every body that parses; on one
      that does not, both throw with its message and leave the table alone,
      but only the controller passes it through the catch block, which turns
      it into a 500. */
  lemma RegisterVariantsAgree(s: Store, o: Oracles, body: Attempt<RegisterRequest>)
    ensures body.Ok? ==> RegisterInline(s, o, body) == Register(s, o, body)
    ensures body.Throws? ==>
              && RegisterInline(s, o, body).1 == s == Register(s, o, body).1
              && RegisterInline(s, o, body).0.error.message == Register(s, o, body).0.error.message
              && RegisterInline(s, o, body).0.error == body.error
              && Register(s, o, body).0.error == Rethrow(body.error)
              && (body.error.statusCode.None? ==> Register(s, o, body).0.error.status == Some(DefaultStatus))
  {
  }

  /** The `authMiddleware` of `src/index.ts`: the same header test, but the
      second segment goes to the verifier whether or not it exists or is empty. */
  function AuthMiddlewareV1<P>(ctx: Context<P>, verify: Option<string> -> Attempt<P>): (r: GuardRun<P>)
    ensures ctx.authorization.None? ==> r == GuardRun([], Some(Rejection()))
    ensures ctx.authorization.Some? && !StartsWith(ctx.authorization.value, "Bearer") ==>
              r == GuardRun([], Some(Rejection()))
    // past the header test the verifier is always called, even with `undefined`
    ensures ctx.authorization.Some? && StartsWith(ctx.authorization.value, "Bearer") ==>
              |r.steps| > 0 && r.steps[0] == CallVerify(TokenSegment(ctx.authorization.value))
    // the verifier is called once, and its answer alone decides the run
    ensures |r.steps| <= 2
    ensures ctx.authorization.Some? && StartsWith(ctx.authorization.value, "Bearer") ==>
              (r.thrown.None? <==> verify(TokenSegment(ctx.authorization.value)).Ok?)
    ensures r.thrown.None? <==> |r.steps| == 2
    ensures r.thrown.None? ==>
              (verify(r.steps[0].token).Ok? &&
               r.steps[1] == CallNext(ctx.(tokenPayload := Some(verify(r.steps[0].token).value))))
    ensures |r.steps| == 1 ==>
              (verify(r.steps[0].token).Throws? && r.thrown == Some(Rethrow(verify(r.steps[0].token).error)))
  {
    match ctx.authorization
    case None => GuardRun([], Some(Rejection()))
    case Some(header) =>
      if !StartsWith(header, "Bearer") then GuardRun([], Some(Rejection()))
      else
        var token := TokenSegment(header);
        match verify(token)
        case Throws(e) => GuardRun([CallVerify(token)], Some(Rethrow(e)))
        case Ok(payload) =>
          GuardRun([CallVerify(token), CallNext(ctx.(tokenPayload := Some(payload)))], None)
  }

  /** The two guards differ only on a missing or empty token: the later one
      refuses it without calling the verifier, the earlier one passes it to
      the verifier and lets the verifier's answer decide. Everywhere else
      they make the same calls and throw the same errors. */
  lemma GuardVariantsDiffer<P>(ctx: Context<P>, verify: Option<string> -> Attempt<P>)
    ensures var gap := ctx.authorization.Some? && StartsWith(ctx.authorization.value, "Bearer")
                       && TokenSegment(ctx.authorization.value) in {None, Some("")};
            && (!gap ==> AuthMiddleware(ctx, verify) == AuthMiddlewareV1(ctx, verify))
            && (gap ==> AuthMiddleware(ctx, verify) == GuardRun([], Some(Rejection())))
            && (gap ==> |AuthMiddlewareV1(ctx, verify).steps| > 0 && AuthMiddlewareV1(ctx, verify).steps[0] == CallVerify(TokenSegment(ctx.authorization.value)))
  {
  }

  /** On the bare header `Bearer` the earlier guard calls the verifier with
      `undefined`; a verifier that accepts it lets the request through with
      the payload it returns. */
  lemma BareSchemeReachesVerifier<P>(verify: Option<string> -> Attempt<P>)
    ensures AuthMiddlewareV1(Context(Some("Bearer"), None), verify).steps != []
    ensures AuthMiddlewareV1(Context(Some("Bearer"), None), verify).steps[0] == CallVerify(None)
    ensures verify(None).Ok? ==>
              AuthMiddlewareV1(Context(Some("Bearer"), None), verify)
              == GuardRun([CallVerify(None), CallNext(Context(Some("Bearer"), Some(verify(None).value)))], None)
    ensures AuthMiddleware(Context(Some("Bearer"), None), verify).steps == []
  {
    assert ' ' !in "Bearer";
    assert StartsWith("Bearer", "Bearer");
  }
}
