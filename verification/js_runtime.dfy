/** The few pieces of JavaScript and hono runtime behaviour the server code
    leans on: `undefined`, thrown errors and the shared catch block,
    `String.prototype.length` (UTF-16 code units), `startsWith` and
    `split` with a one-character separator.
 */
module JsRuntime {

  /** A value that may be `undefined`. */
  datatype Option<+T> = None | Some(value: T)

  /** A thrown JavaScript error as a catch block sees it.
      `status` is the code of an HTTPException (None for any other error,
      such as a JSON syntax error or a JWT verification error);
      `statusCode` is the property of that name, which the catch blocks
      read and which hono's HTTPException does not define; `message` is
      the error's message. */
  datatype Thrown = Thrown(status: Option<int>, statusCode: Option<int>, message: string)

  /** The result of an awaited call that either returns or throws. */
  datatype Attempt<+T> = Ok(value: T) | Throws(error: Thrown)

  /** The status hono's HTTPException constructor gives itself when its
      `status` argument is `undefined` (a default parameter). */
  const DefaultStatus := 500

  /** `new HTTPException(status, { message })`. */
  function HttpException(status: Option<int>, message: string): (t: Thrown)
    ensures status.Some? ==> t.status == status
    ensures status.None? ==> t.status == Some(DefaultStatus)
    ensures t.statusCode.None? && t.message == message
  {
    Thrown(Some(if status.Some? then status.value else DefaultStatus), None, message)
  }

  /** The catch block every handler shares:
      `throw new HTTPException(e.statusCode, { message: e.message, cause: e })`.
      Since no error the handlers meet carries a `statusCode`, every error
      leaves it as a 500 with the caught message. */
  function Rethrow(e: Thrown): (r: Thrown)
    ensures r.message == e.message
    ensures r.status == (if e.statusCode.None? then Some(DefaultStatus) else e.statusCode)
    ensures r.statusCode.None?
  {
    HttpException(e.statusCode, e.message)
  }

  /** A code passed to an HTTPException does not survive the shared catch
      block: the rethrown error is a 500 with the same message, and a
      second pass changes nothing more. */
  lemma RethrowResetsStatus(code: int, message: string)
    ensures Rethrow(HttpException(Some(code), message)).status == Some(DefaultStatus)
    ensures Rethrow(HttpException(Some(code), message)).message == message
    ensures Rethrow(Rethrow(HttpException(Some(code), message))) == Rethrow(HttpException(Some(code), message))
  {
  }

  /** The catch block as evidently intended: an HTTPException passes
      through unchanged (`if (e instanceof HTTPException) throw e`), and
      any other error is rebuilt as before. */
  function RethrowKeepingHttp(e: Thrown): (r: Thrown)
    ensures e.status.Some? ==> r == e
    ensures e.status.None? ==> r == Rethrow(e)
  {
    if e.status.Some? then e else Rethrow(e)
  }

  /** The intended catch block keeps an HTTPException's code and message,
      differs from the written one exactly on HTTPExceptions whose code is
      not 500, and agrees with it on every other error. */
  lemma KeepingHttpDiffers(e: Thrown)
    requires e.statusCode.None?
    ensures e.status.Some? ==> RethrowKeepingHttp(e).status == e.status
    ensures RethrowKeepingHttp(e) == Rethrow(e)
            <==> e.status.None? || e == HttpException(Some(DefaultStatus), e.message)
  {
  }

  /** JavaScript's `s.length`: characters outside the Basic Multilingual
      Plane are stored as a surrogate pair and count twice. */
  function Utf16Length(s: string): (n: nat)
    ensures |s| <= n <= 2 * |s|
    ensures (forall i | 0 <= i < |s| :: s[i] as int < 0x1_0000) ==> n == |s|
    ensures (exists i | 0 <= i < |s| :: s[i] as int >= 0x1_0000) ==> n > |s|
  {
    if |s| == 0 then 0
    else (if s[0] as int < 0x1_0000 then 1 else 2) + Utf16Length(s[1..])
  }

  /** `s.startsWith(prefix)`. */
  predicate StartsWith(s: string, prefix: string): (b: bool)
    ensures b <==> |prefix| <= |s| && forall i | 0 <= i < |prefix| :: s[i] == prefix[i]
  {
    |prefix| <= |s| && s[..|prefix|] == prefix
  }

  /** Joins non-empty `parts` with `sep` between neighbours; the inverse of `Split`. */
  function Join(parts: seq<string>, sep: char): string
    requires |parts| >= 1
  {
    if |parts| == 1 then parts[0] else parts[0] + [sep] + Join(parts[1..], sep)
  }

  /** `s.split(sep)` for a one-character separator: every occurrence of
      `sep` cuts, so neighbouring separators give an empty segment, and the
      empty string splits into one empty segment. */
  function Split(s: string, sep: char): (parts: seq<string>)
    ensures |parts| >= 1
    ensures forall k | 0 <= k < |parts| :: sep !in parts[k]
    ensures Join(parts, sep) == s
    ensures |parts| == 1 <==> sep !in s
  {
    if |s| == 0 then [""]
    else
      var rest := Split(s[1..], sep);
      if s[0] == sep then
        assert s == [sep] + s[1..];
        [""] + rest
      else
        var parts := [[s[0]] + rest[0]] + rest[1..];
        assert parts[1..] == rest[1..];
        assert s == [s[0]] + s[1..];
        parts
  }
}
