/**
 * The session-token rule of the external quality API client
 * (`ExternalQualityAPIService._is_token_valid` and the effect of `login`).
 */
module Session {
  import opened Wrappers
  import opened PyValue

  /** A successful login keeps the token for 30 minutes. */
  const TokenLifetime: real := 1800.0

  /** A token is renewed one minute before it expires. */
  const RenewalMargin: real := 60.0

  /**
   * `_is_token_valid` at clock reading `now`: the token (whatever JSON value
   * the login answer held) is truthy, and unless the expiry is unset (None or
   * 0, both falsy) the clock has not passed the renewal point.
   */
  predicate TokenValid(token: Value, expiry: Option<real>, now: real) {
    && Truthy(token)
    && !(expiry.Some? && expiry.value != 0.0 && now > expiry.value - RenewalMargin)
  }

  /** Whether `_is_token_valid` reads the clock at all: only once a truthy token and an expiry are set. */
  predicate ReadsClock(token: Value, expiry: Option<real>) {
    Truthy(token) && expiry.Some? && expiry.value != 0.0
  }

  /** No token, a null one, or an empty string is never valid, whatever the clock says. */
  lemma NoTokenInvalid(token: Value, expiry: Option<real>, now: real)
    requires token == Null || token == Str("") || token == Bool(false)
    ensures !TokenValid(token, expiry, now)
  {
  }

  /**
   * After a login at clock reading `t` that obtained the truthy token `tok`,
   * the token is valid exactly until 29 minutes have passed; a falsy token
   * obtained by a login is never valid, so the next check logs in again.
   */
  lemma ValidAfterLogin(tok: Value, t: real, now: real)
    requires t + TokenLifetime != 0.0
    ensures TokenValid(tok, Some(t + TokenLifetime), now) <==> Truthy(tok) && now <= t + TokenLifetime - RenewalMargin
    ensures Truthy(tok) ==> TokenValid(tok, Some(t + TokenLifetime), t)
  {
  }

  /** Validity does not depend on the clock when the clock is not read. */
  lemma ClockIrrelevantWhenUnread(token: Value, expiry: Option<real>, now1: real, now2: real)
    requires !ReadsClock(token, expiry)
    ensures TokenValid(token, expiry, now1) == TokenValid(token, expiry, now2)
  {
  }
}
