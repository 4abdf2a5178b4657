/** A login session and its validity window (src/user/session.rs). */
module Sessions {
  import opened Model

  /** `Session::new` gives a session one hour. */
  const SessionLifetime: int := 1 * Hour

  datatype Session = Session(id: Uuid, userId: Uuid, createdAt: Instant, expiresAt: Instant)

  /** `Session::new`, with the clock reading `now` and the fresh identifier `id` passed in. */
  function NewSession(id: Uuid, userId: Uuid, now: Instant): (s: Session)
    ensures s.id == id && s.userId == userId && s.createdAt == now
    ensures s.expiresAt - s.createdAt == 3600
    ensures IsValid(s, now)
  {
    Session(id, userId, now, now + SessionLifetime)
  }

  /** `is_valid`: strictly before the expiry instant. */
  predicate IsValid(s: Session, now: Instant) {
    now < s.expiresAt
  }

  /** A new session is valid for exactly the hour `[now, now + 3600)` that follows its creation. */
  lemma NewSessionWindow(id: Uuid, userId: Uuid, now: Instant, t: Instant)
    requires now <= t
    ensures IsValid(NewSession(id, userId, now), t) <==> t < now + 3600
  {
  }

  /** Expiry is permanent: once invalid, a session stays invalid at every later instant. */
  lemma ExpiryIsPermanent(s: Session, t: Instant, later: Instant)
    requires !IsValid(s, t) && t <= later
    ensures !IsValid(s, later)
  {
  }
}
