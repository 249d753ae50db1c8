/**
 * The vote endpoint (`vote_poll`) as one atomic transition of the store.
 *
 * The checks run in a fixed order and the first failure ends the request:
 * unknown poll, option not in the poll, rate limit, repeat voter. Only the
 * first two leave the store untouched: from the rate-limit step on, the
 * attempt has already been logged. An admitted vote appends its record and
 * applies the counter update to the poll.
 */
module Admission {
  import opened Wrappers
  import opened Polls
  import opened RateLimit
  import opened PollStore

  /** What the endpoint answers: the updated poll (200) or one of 404, 400, 429, 409. */
  datatype Outcome =
    | Voted(poll: Poll)
    | NotFound
    | InvalidOption
    | RateLimited
    | AlreadyVoted
  {
    predicate IsRejection() { !Voted? }
  }

  /**
   * One vote request. `voterId` is the resolved voter identity, `ipHash`
   * the salted digest of the client address and `now` the request time.
   */
  function Vote(s: Store, pollId: string, optionId: string, voterId: string, ipHash: string, now: int, limits: Limits)
    : (r: (Outcome, Store))
    // unknown poll, or an option the poll does not have: nothing at all changes
    ensures r.0 == NotFound <==> pollId !in s.polls
    ensures r.0 == InvalidOption <==> pollId in s.polls && !HasOption(s.polls[pollId], optionId)
    ensures r.0 in {NotFound, InvalidOption} ==> r.1 == s
    // past those checks, the attempt is always logged
    ensures pollId in s.polls && HasOption(s.polls[pollId], optionId) ==>
      r.1.attempts == s.attempts + [Attempt(pollId, ipHash, now)]
    ensures r.0 == RateLimited <==>
      pollId in s.polls && HasOption(s.polls[pollId], optionId) && !LastAllowed(r.1.attempts, limits)
    ensures r.0 == AlreadyVoted <==>
      pollId in s.polls && HasOption(s.polls[pollId], optionId) && LastAllowed(r.1.attempts, limits)
      && HasVoted(s.votes, pollId, voterId)
    // every rejection leaves polls and votes as they were
    ensures r.0.IsRejection() ==> r.1.polls == s.polls && r.1.votes == s.votes
    // an admitted vote: one new record, one counted vote on that poll, nothing else
    ensures r.0.Voted? ==>
      && pollId in s.polls && HasOption(s.polls[pollId], optionId)
      && !HasVoted(s.votes, pollId, voterId)
      && r.1.votes == s.votes + [VoteRecord(pollId, optionId, voterId, ipHash, now)]
      && r.0.poll == CountVote(s.polls[pollId], optionId, now)
      && r.1.polls == s.polls[pollId := r.0.poll]
    ensures UniqueVoters(s.votes) ==> UniqueVoters(r.1.votes)
  {
    if pollId !in s.polls then (NotFound, s)
    else if !HasOption(s.polls[pollId], optionId) then (InvalidOption, s)
    else
      var (allowed, attempts) := CheckAndRecord(s.attempts, pollId, ipHash, now, limits);
      var logged := s.(attempts := attempts);
      if !allowed then (RateLimited, logged)
      else
        match InsertVote(s.votes, VoteRecord(pollId, optionId, voterId, ipHash, now))
        case None => (AlreadyVoted, logged)
        case Some(votes) =>
          var poll := CountVote(s.polls[pollId], optionId, now);
          (Voted(poll), logged.(votes := votes, polls := s.polls[pollId := poll]))
  }

  /**
   * A request whose poll and option exist is admitted exactly when the rate
   * limiter lets it through and the voter holds no ballot on the poll yet.
   */
  lemma VotedIff(s: Store, pollId: string, optionId: string, voterId: string, ipHash: string, now: int, limits: Limits)
    requires pollId in s.polls && HasOption(s.polls[pollId], optionId)
    ensures Vote(s, pollId, optionId, voterId, ipHash, now, limits).0.Voted? <==>
      && CountSince(s.attempts, pollId, ipHash, now - limits.window) + (if limits.window >= 0 then 1 else 0) <= limits.maxAttempts
      && BallotsOf(s.votes, pollId, voterId) == 0
  {
    BallotsOfIffVoted(s.votes, pollId, voterId);
  }

  /**
   * Repeating a request that was rejected for its poll, its option or its
   * voter gets the same answer and changes nothing but the attempt log.
   */
  lemma RepeatRejectionIsStable(s: Store, pollId: string, optionId: string, voterId: string, ipHash: string, now: int, later: int, limits: Limits)
    requires Vote(s, pollId, optionId, voterId, ipHash, now, limits).0 in {NotFound, InvalidOption, AlreadyVoted}
    ensures var (o1, s1) := Vote(s, pollId, optionId, voterId, ipHash, now, limits);
      var (o2, s2) := Vote(s1, pollId, optionId, voterId, ipHash, later, limits);
      (o2 == o1 || o2 == RateLimited) && s2.polls == s.polls && s2.votes == s.votes
  {
  }

  /**
   * A request refused by the rate limiter and repeated at the same instant
   * is refused again: the refused attempt was logged and the count only
   * grows. Polls and votes stay as they were.
   */
  lemma RateLimitedRetryIsRefused(s: Store, pollId: string, optionId: string, voterId: string, ipHash: string, now: int, limits: Limits)
    requires Vote(s, pollId, optionId, voterId, ipHash, now, limits).0 == RateLimited
    ensures var (_, s1) := Vote(s, pollId, optionId, voterId, ipHash, now, limits);
      var (o2, s2) := Vote(s1, pollId, optionId, voterId, ipHash, now, limits);
      o2 == RateLimited && s2.polls == s.polls && s2.votes == s.votes
  {
    var s1 := Vote(s, pollId, optionId, voterId, ipHash, now, limits).1;
    var a := Attempt(pollId, ipHash, now);
    assert s1.attempts == s.attempts + [a];
    assert CheckAndRecord(s.attempts, pollId, ipHash, now, limits).1 == s1.attempts;
    RefusedStaysRefused(s.attempts, pollId, ipHash, now, limits);
  }
}
