/** A password-reset token and its validity window (src/user/reset_token.rs). */
module ResetTokens {
  import opened Model

  /** `ResetToken::new` gives a token thirty minutes. */
  const TokenLifetime: int := 30 * Minute

  datatype ResetToken = ResetToken(userId: Uuid, token: Uuid, createdAt: Instant, expiresAt: Instant)

  /** `ResetToken::new`, with the clock reading `now` and the fresh identifier `token` passed in. */
  function NewToken(userId: Uuid, token: Uuid, now: Instant): (t: ResetToken)
    ensures t.userId == userId && t.token == token && t.createdAt == now
    ensures t.expiresAt - t.createdAt == 1800
    ensures IsValid(t, now)
  {
    ResetToken(userId, token, now, now + TokenLifetime)
  }

  /** `is_valid`: strictly before the expiry instant. */
  predicate IsValid(t: ResetToken, now: Instant) {
    now < t.expiresAt
  }

  /** A new token is usable for exactly the thirty minutes `[now, now + 1800)` after it is issued. */
  lemma NewTokenWindow(userId: Uuid, token: Uuid, now: Instant, t: Instant)
    requires now <= t
    ensures IsValid(NewToken(userId, token, now), t) <==> t < now + 1800
  {
  }

  /** Expiry is permanent: once invalid, a token stays invalid at every later instant. */
  lemma ExpiryIsPermanent(r: ResetToken, t: Instant, later: Instant)
    requires !IsValid(r, t) && t <= later
    ensures !IsValid(r, later)
  {
  }
}
