/** The session store (src/user/session_repository.rs): a vector of sessions. */
module SessionRepo {
  import opened Common
  import opened Model
  import opened Sessions
  import Seqs

  ghost predicate UniqueIds(sessions: seq<Session>) {
    forall i, j :: 0 <= i < j < |sessions| ==> sessions[i].id != sessions[j].id
  }

  /** The store after `retain(|s| s.id != id)`. */
  function Without(sessions: seq<Session>, id: Uuid): (r: seq<Session>)
    ensures forall s :: s in r <==> s in sessions && s.id != id
    ensures |r| <= |sessions|
  {
    Seqs.Filter(sessions, (s: Session) => s.id != id)
  }

  /** The store after `retain(|s| s.is_valid())` at instant `now`. */
  function Unexpired(sessions: seq<Session>, now: Instant): (r: seq<Session>)
    ensures forall s :: s in r <==> s in sessions && IsValid(s, now)
    ensures |r| <= |sessions|
  {
    Seqs.Filter(sessions, (s: Session) => IsValid(s, now))
  }

  /** Removing an id that is absent changes nothing; so removing twice is removing once. */
  lemma WithoutAbsent(sessions: seq<Session>, id: Uuid)
    ensures (forall s :: s in sessions ==> s.id != id) ==> Without(sessions, id) == sessions
  {
    if forall s :: s in sessions ==> s.id != id {
      Seqs.FilterKeepsAll(sessions, (s: Session) => s.id != id);
    }
  }

  lemma WithoutIdempotent(sessions: seq<Session>, id: Uuid)
    ensures Without(Without(sessions, id), id) == Without(sessions, id)
  {
    WithoutAbsent(Without(sessions, id), id);
  }

  /** Removal keeps the other sessions in their original order: it distributes over a split. */
  lemma WithoutConcat(a: seq<Session>, b: seq<Session>, id: Uuid)
    ensures Without(a + b, id) == Without(a, id) + Without(b, id)
  {
    Seqs.FilterConcat(a, b, (s: Session) => s.id != id);
  }

  /** A sweep where every session is still valid changes nothing; so a second sweep at the same
      instant is a no-op. */
  lemma UnexpiredAllValid(sessions: seq<Session>, now: Instant)
    ensures (forall s :: s in sessions ==> IsValid(s, now)) ==> Unexpired(sessions, now) == sessions
  {
    if forall s :: s in sessions ==> IsValid(s, now) {
      Seqs.FilterKeepsAll(sessions, (s: Session) => IsValid(s, now));
    }
  }

  lemma UnexpiredIdempotent(sessions: seq<Session>, now: Instant)
    ensures Unexpired(Unexpired(sessions, now), now) == Unexpired(sessions, now)
  {
    UnexpiredAllValid(Unexpired(sessions, now), now);
  }

  /** The sweep keeps the surviving sessions in their original order. */
  lemma UnexpiredConcat(a: seq<Session>, b: seq<Session>, now: Instant)
    ensures Unexpired(a + b, now) == Unexpired(a, now) + Unexpired(b, now)
  {
    Seqs.FilterConcat(a, b, (s: Session) => IsValid(s, now));
  }

  /** A sweep removes something exactly when some session has expired. */
  lemma UnexpiredShrinks(sessions: seq<Session>, now: Instant)
    ensures |Unexpired(sessions, now)| < |sessions| <==> exists s :: s in sessions && !IsValid(s, now)
  {
    Seqs.FilterShrinks(sessions, (s: Session) => IsValid(s, now));
  }

  class SessionRepository {
    var sessions: seq<Session>

    /** `SessionRepository::new`. */
    constructor ()
      ensures sessions == []
    {
      sessions := [];
    }

    /** `add_session`: push at the end. */
    method AddSession(session: Session)
      modifies this
      ensures sessions == old(sessions) + [session]
      ensures old(FindBySessionId(session.id)).None? ==> FindBySessionId(session.id) == Some(session)
      ensures old(UniqueIds(sessions)) && old(FindBySessionId(session.id)).None? ==> UniqueIds(sessions)
    {
      sessions := sessions + [session];
    }

    /** `find_by_session_id`: the first session with identifier `id`. */
    function FindBySessionId(id: Uuid): (r: Option<Session>)
      reads this
      ensures r.None? <==> forall s :: s in sessions ==> s.id != id
      ensures r.Some? ==> r.value in sessions && r.value.id == id
      ensures r.Some? ==> exists i :: (0 <= i < |sessions| && sessions[i] == r.value
                                        && forall j :: 0 <= j < i ==> sessions[j].id != id)
    {
      Seqs.Find(sessions, (s: Session) => s.id == id)
    }

    /** `validate_session`: the first session with that id exists and is valid at `now`. */
    function ValidateSession(id: Uuid, now: Instant): (valid: bool)
      reads this
      ensures (forall s :: s in sessions ==> s.id != id) ==> !valid
      ensures valid ==> exists s :: s in sessions && s.id == id && IsValid(s, now)
      ensures FindBySessionId(id).Some? ==> valid == IsValid(FindBySessionId(id).value, now)
      ensures UniqueIds(sessions) ==> (valid <==> exists s :: s in sessions && s.id == id && IsValid(s, now))
    {
      match FindBySessionId(id)
      case Some(s) => IsValid(s, now)
      case None => false
    }

    /** `remove_session`: drop every session with identifier `id`, keep the rest in order. */
    method RemoveSession(id: Uuid)
      modifies this
      ensures sessions == Without(old(sessions), id)
      ensures FindBySessionId(id).None?
      ensures old(FindBySessionId(id)).None? ==> sessions == old(sessions)
    {
      WithoutAbsent(sessions, id);
      sessions := Without(sessions, id);
    }

    /** `clean_expired_sessions`: keep exactly the sessions still valid at `now`, in order. */
    method CleanExpiredSessions(now: Instant)
      modifies this
      ensures sessions == Unexpired(old(sessions), now)
      ensures forall s :: s in sessions ==> IsValid(s, now)
      ensures (forall s :: s in old(sessions) ==> IsValid(s, now)) ==> sessions == old(sessions)
    {
      UnexpiredAllValid(sessions, now);
      sessions := Unexpired(sessions, now);
    }
  }
}
