/** The cryptographic calls the handlers make, as opaque functions:
    `Bun.password.hash(password, { algorithm: 'bcrypt', cost: 4 })`,
    `Bun.password.verify(password, hash)`, and hono's JWT `sign(payload,
    secret)` and `verify(token, secret)` with the secret
    `process.env.JWT_SECRET || ''` fixed for the life of the process.
    Their internals are not part of this model: nothing here depends on
    how they compute, and the properties they are expected to have are
    stated as predicates that the end-to-end lemmas take as hypotheses.
 */
module Crypto {
  import opened JsRuntime

  /** The token payload both handlers sign: `{ user: { id } }`. */
  datatype Claims = Claims(userId: int)

  datatype Oracles = Oracles(
    hash: string -> Attempt<string>,
    verifyPassword: (string, string) -> bool,
    sign: Claims -> Attempt<string>,
    verifyToken: Option<string> -> Attempt<Claims>)

  /** A hash the hasher produced verifies against its own password. */
  ghost predicate HashVerifies(o: Oracles) {
    forall p :: o.hash(p).Ok? ==> o.verifyPassword(p, o.hash(p).value)
  }

  /** A token the signer produced verifies back to the claims it was signed from. */
  ghost predicate SignVerifies(o: Oracles) {
    forall c :: o.sign(c).Ok? ==> o.verifyToken(Some(o.sign(c).value)) == Ok(c)
  }

  /** Signed tokens are non-empty and contain no space (a JWT is three
      base64url segments joined by dots). */
  ghost predicate TokensAreWords(o: Oracles) {
    forall c :: o.sign(c).Ok? ==> |o.sign(c).value| > 0 && ' ' !in o.sign(c).value
  }
}
