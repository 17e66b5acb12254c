/** `authMiddleware` of `src/middleware/auth.ts`: the per-request guard in
    front of protected routes. One run reads the Authorization header,
    rejects it unless it starts with `Bearer` and has a non-empty second
    space-separated segment, hands that segment to the token verifier, and
    on success stores the payload in the request context and calls the next
    handler once. A run is recorded as the calls it makes, in order, and
    the error it throws, if any. Every error raised inside the guard passes
    through the shared catch block (`Rethrow`), so the message survives but
    the status becomes the caught error's `statusCode`, which is undefined,
    so hono's constructor makes it 500.
 */
module Middleware {
  import opened JsRuntime

  const Unauthorized := "Unauthorized access"

  /** The request context as the guard sees it: the Authorization header
      and the `tokenPayload` slot a successful run fills. */
  datatype Context<P> = Context(authorization: Option<string>, tokenPayload: Option<P>)

  /** The calls a run makes: the token verifier (its argument may be
      `undefined`) and the next handler (with the context it runs in). */
  datatype Step<P> = CallVerify(token: Option<string>) | CallNext(ctx: Context<P>)

  datatype GuardRun<P> = GuardRun(steps: seq<Step<P>>, thrown: Option<Thrown>)

  /** The error thrown for a missing or malformed header, after the catch
      block: the 401 thrown inside the `try` comes out as a 500. */
  function Rejection(): (t: Thrown)
    ensures t.message == Unauthorized
    ensures t.status == Some(DefaultStatus)
  {
    Rethrow(HttpException(Some(401), Unauthorized))
  }

  /** The rejection the guard evidently means to send, with the catch block
      letting its own HTTPException through. */
  function IntendedRejection(): (t: Thrown)
    ensures t.message == Unauthorized
    ensures t.status == Some(401)
  {
    RethrowKeepingHttp(HttpException(Some(401), Unauthorized))
  }

  /** `header.split(' ')[1]`: `undefined` when the header has no space. */
  function TokenSegment(header: string): (t: Option<string>)
    ensures t.None? <==> ' ' !in header
    ensures t.Some? ==> ' ' !in t.value
  {
    var parts := Split(header, ' ');
    if |parts| > 1 then Some(parts[1]) else None
  }

  /** Splitting `a + x` where `a` holds no separator only extends the first segment. */
  lemma {:induction false} SplitAfterWord(a: string, x: string, sep: char)
    requires sep !in a
    ensures Split(a + x, sep)[0] == a + Split(x, sep)[0]
    ensures Split(a + x, sep)[1..] == Split(x, sep)[1..]
    decreases |a|
  {
    if |a| > 0 {
      assert (a + x)[1..] == a[1..] + x;
      assert (a + x)[0] == a[0];
      SplitAfterWord(a[1..], x, sep);
      assert a == [a[0]] + a[1..];
    } else {
      assert a + x == x;
    }
  }

  /** The token is exactly what lies between the first and the second
      space of the header (or the end of the header). */
  lemma TokenBetweenSpaces(a: string, t: string, rest: string)
    requires ' ' !in a && ' ' !in t
    requires rest == [] || rest[0] == ' '
    ensures TokenSegment(a + [' '] + t + rest) == Some(t)
  {
    var h := a + [' '] + t + rest;
    var x := [' '] + t + rest;
    assert h == a + x;
    SplitAfterWord(a, x, ' ');
    assert Split(x, ' ')[1] == t by {
      assert x[0] == ' ' && x[1..] == t + rest;
      assert Split(x, ' ') == [""] + Split(t + rest, ' ');
      SegmentBeforeSpace(t, rest);
    }
    assert Split(h, ' ')[1] == Split(x, ' ')[1] by {
      assert Split(h, ' ')[1..] == Split(x, ' ')[1..];
    }
  }

  /** A word followed by nothing or by a space is a whole first segment. */
  lemma SegmentBeforeSpace(t: string, rest: string)
    requires ' ' !in t
    requires rest == [] || rest[0] == ' '
    ensures Split(t + rest, ' ')[0] == t
  {
    SplitAfterWord(t, rest, ' ');
    if rest != [] {
      assert Split(rest, ' ') == [""] + Split(rest[1..], ' ');
    }
  }

  /** One run of the guard; `verify` is hono's `verify(token, secret)`. */
  function AuthMiddleware<P>(ctx: Context<P>, verify: Option<string> -> Attempt<P>): (r: GuardRun<P>)
    // a missing header, or one that does not begin with the six letters
    // `Bearer`, is refused before anything is called
    ensures ctx.authorization.None? ==> r == GuardRun([], Some(Rejection()))
    ensures ctx.authorization.Some? && !StartsWith(ctx.authorization.value, "Bearer") ==>
              r == GuardRun([], Some(Rejection()))
    // a missing or empty token is refused before the verifier is called
    ensures ctx.authorization.Some? && TokenSegment(ctx.authorization.value) in {None, Some("")} ==>
              r == GuardRun([], Some(Rejection()))
    // the verifier is called at most once, first, and only with a non-empty token
    ensures |r.steps| <= 2
    ensures |r.steps| > 0 ==> r.steps[0].CallVerify? && r.steps[0].token.Some? && r.steps[0].token.value != ""
    ensures |r.steps| > 0 ==> r.steps[0].token == TokenSegment(ctx.authorization.value)
    // next is called exactly once, last, and only when verification succeeded
    ensures r.thrown.None? <==> |r.steps| == 2
    ensures r.thrown.None? ==> verify(r.steps[0].token).Ok? && r.steps[1].CallNext?
    // the only change to the context is the verified payload
    ensures r.thrown.None? ==>
              r.steps[1].ctx == ctx.(tokenPayload := Some(verify(r.steps[0].token).value))
    // a verifier failure is rethrown with its message
    ensures |r.steps| == 1 ==>
              (verify(r.steps[0].token).Throws? && r.thrown == Some(Rethrow(verify(r.steps[0].token).error)))
  {
    match ctx.authorization
    case None => GuardRun([], Some(Rejection()))
    case Some(header) =>
      if !StartsWith(header, "Bearer") then GuardRun([], Some(Rejection()))
      else
        var token := TokenSegment(header);
        if token.None? || token.value == "" then GuardRun([], Some(Rejection()))
        else
          match verify(token)
          case Throws(e) => GuardRun([CallVerify(token)], Some(Rethrow(e)))
          case Ok(payload) =>
            GuardRun([CallVerify(token), CallNext(ctx.(tokenPayload := Some(payload)))], None)
  }

  /** The guard on a header written as `a t rest`, where `a` and `t` hold no
      space and `rest` is empty or starts with one: it is refused unless
      `a` starts with `Bearer` and `t` is non-empty; otherwise `t` goes to
      the verifier and the verifier's answer decides the run. */
  lemma GuardOnHeader<P>(a: string, t: string, rest: string, payload: Option<P>,
                         verify: Option<string> -> Attempt<P>)
    requires ' ' !in a && ' ' !in t
    requires rest == [] || rest[0] == ' '
    ensures var ctx := Context(Some(a + [' '] + t + rest), payload);
            var r := AuthMiddleware(ctx, verify);
            && (!StartsWith(a, "Bearer") || t == "" ==> r == GuardRun([], Some(Rejection())))
            && (StartsWith(a, "Bearer") && t != "" && verify(Some(t)).Ok? ==>
                  r == GuardRun([CallVerify(Some(t)), CallNext(ctx.(tokenPayload := Some(verify(Some(t)).value)))], None))
            && (StartsWith(a, "Bearer") && t != "" && verify(Some(t)).Throws? ==>
                  r == GuardRun([CallVerify(Some(t))], Some(Rethrow(verify(Some(t)).error))))
  {
    var h := a + [' '] + t + rest;
    TokenBetweenSpaces(a, t, rest);
    assert StartsWith(h, "Bearer") <==> StartsWith(a, "Bearer") by {
      if |a| >= 6 { assert h[..6] == a[..6]; }
      else if |h| >= 6 { assert h[|a|] == ' '; assert "Bearer"[|a|] != ' '; }
    }
  }

  /** A header with no space (`"Bearer"` itself) is refused without calling the verifier. */
  lemma BareSchemeRefused<P>(verify: Option<string> -> Attempt<P>)
    ensures AuthMiddleware(Context(Some("Bearer"), None), verify) == GuardRun([], Some(Rejection()))
  {
    assert ' ' !in "Bearer";
  }

  /** Two spaces after the scheme give an empty token, which is refused
      without calling the verifier, whatever follows. */
  lemma DoubleSpaceRefused<P>(rest: string, verify: Option<string> -> Attempt<P>)
    requires rest == [] || rest[0] == ' '
    ensures AuthMiddleware(Context(Some("Bearer" + " " + rest), None), verify) == GuardRun([], Some(Rejection()))
  {
    TokenBetweenSpaces("Bearer", "", rest);
    assert "Bearer" + " " + rest == "Bearer" + [' '] + "" + rest;
  }

  /** The prefix test has no trailing space: `Bearerx t` passes it and the
      verifier receives `t`. */
  lemma PrefixWithoutSpace<P>(verify: Option<string> -> Attempt<P>)
    ensures AuthMiddleware(Context(Some("Bearerx t"), None), verify).steps != []
    ensures AuthMiddleware(Context(Some("Bearerx t"), None), verify).steps[0] == CallVerify(Some("t"))
  {
    var h := "Bearerx t";
    assert StartsWith(h, "Bearer") by { assert h[..6] == "Bearer"; }
    assert TokenSegment(h) == Some("t") by {
      assert h == "Bearerx" + [' '] + "t" + "";
      TokenBetweenSpaces("Bearerx", "t", "");
    }
  }

  /** The rejection keeps the message but not the 401: the catch block
      rebuilds the error from `statusCode`, which an HTTPException lacks, so
      the constructor falls back to 500. With the intended catch block the
      two differ only in that status. */
  lemma RejectionStatus()
    ensures Rejection().status == Some(500) != Some(401) == IntendedRejection().status
    ensures Rejection() == IntendedRejection().(status := Some(500))
  {
  }
}
