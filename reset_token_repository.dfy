/** The reset-token store (src/user/reset_token_repository.rs): a vector of tokens. */
module TokenRepo {
  import opened Common
  import opened Model
  import opened ResetTokens
  import Seqs

  ghost predicate UniqueTokens(tokens: seq<ResetToken>) {
    forall i, j :: 0 <= i < j < |tokens| ==> tokens[i].token != tokens[j].token
  }

  /** The store after `retain(|t| &t.token != token)`. */
  function Without(tokens: seq<ResetToken>, token: Uuid): (r: seq<ResetToken>)
    ensures forall t :: t in r <==> t in tokens && t.token != token
    ensures |r| <= |tokens|
  {
    Seqs.Filter(tokens, (t: ResetToken) => t.token != token)
  }

  /** The store after `retain(|t| t.is_valid())` at instant `now`. */
  function Unexpired(tokens: seq<ResetToken>, now: Instant): (r: seq<ResetToken>)
    ensures forall t :: t in r <==> t in tokens && IsValid(t, now)
    ensures |r| <= |tokens|
  {
    Seqs.Filter(tokens, (t: ResetToken) => IsValid(t, now))
  }

  /** Removing a token that is absent changes nothing; so removing twice is removing once. */
  lemma WithoutAbsent(tokens: seq<ResetToken>, token: Uuid)
    ensures (forall t :: t in tokens ==> t.token != token) ==> Without(tokens, token) == tokens
  {
    if forall t :: t in tokens ==> t.token != token {
      Seqs.FilterKeepsAll(tokens, (t: ResetToken) => t.token != token);
    }
  }

  lemma WithoutIdempotent(tokens: seq<ResetToken>, token: Uuid)
    ensures Without(Without(tokens, token), token) == Without(tokens, token)
  {
    WithoutAbsent(Without(tokens, token), token);
  }

  /** Removal keeps the other tokens in their original order. */
  lemma WithoutConcat(a: seq<ResetToken>, b: seq<ResetToken>, token: Uuid)
    ensures Without(a + b, token) == Without(a, token) + Without(b, token)
  {
    Seqs.FilterConcat(a, b, (t: ResetToken) => t.token != token);
  }

  /** A sweep where every token is still valid changes nothing. */
  lemma UnexpiredAllValid(tokens: seq<ResetToken>, now: Instant)
    ensures (forall t :: t in tokens ==> IsValid(t, now)) ==> Unexpired(tokens, now) == tokens
  {
    if forall t :: t in tokens ==> IsValid(t, now) {
      Seqs.FilterKeepsAll(tokens, (t: ResetToken) => IsValid(t, now));
    }
  }

  lemma UnexpiredIdempotent(tokens: seq<ResetToken>, now: Instant)
    ensures Unexpired(Unexpired(tokens, now), now) == Unexpired(tokens, now)
  {
    UnexpiredAllValid(Unexpired(tokens, now), now);
  }

  /** The sweep keeps the surviving tokens in their original order. */
  lemma UnexpiredConcat(a: seq<ResetToken>, b: seq<ResetToken>, now: Instant)
    ensures Unexpired(a + b, now) == Unexpired(a, now) + Unexpired(b, now)
  {
    Seqs.FilterConcat(a, b, (t: ResetToken) => IsValid(t, now));
  }

  class ResetTokenRepository {
    var tokens: seq<ResetToken>

    /** `ResetTokenRepository::new`. */
    constructor ()
      ensures tokens == []
    {
      tokens := [];
    }

    /** `add_token`: push at the end. */
    method AddToken(token: ResetToken)
      modifies this
      ensures tokens == old(tokens) + [token]
      ensures old(FindToken(token.token)).None? ==> FindToken(token.token) == Some(token)
      ensures old(UniqueTokens(tokens)) && old(FindToken(token.token)).None? ==> UniqueTokens(tokens)
    {
      tokens := tokens + [token];
    }

    /** `find_token`: the first token record with identifier `token`. */
    function FindToken(token: Uuid): (r: Option<ResetToken>)
      reads this
      ensures r.None? <==> forall t :: t in tokens ==> t.token != token
      ensures r.Some? ==> r.value in tokens && r.value.token == token
      ensures r.Some? ==> exists i :: (0 <= i < |tokens| && tokens[i] == r.value
                                        && forall j :: 0 <= j < i ==> tokens[j].token != token)
    {
      Seqs.Find(tokens, (t: ResetToken) => t.token == token)
    }

    /** `remove_token`: drop every record with identifier `token`, keep the rest in order. */
    method RemoveToken(token: Uuid)
      modifies this
      ensures tokens == Without(old(tokens), token)
      ensures FindToken(token).None?
      ensures old(FindToken(token)).None? ==> tokens == old(tokens)
    {
      WithoutAbsent(tokens, token);
      tokens := Without(tokens, token);
    }

    /** `clean_expired`: keep exactly the tokens still valid at `now`, in order. */
    method CleanExpired(now: Instant)
      modifies this
      ensures tokens == Unexpired(old(tokens), now)
      ensures forall t :: t in tokens ==> IsValid(t, now)
      ensures (forall t :: t in old(tokens) ==> IsValid(t, now)) ==> tokens == old(tokens)
    {
      UnexpiredAllValid(tokens, now);
      tokens := Unexpired(tokens, now);
    }
  }
}
