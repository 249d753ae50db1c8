/**
 * The two write endpoints, `POST /polls` and `POST /polls/{id}/vote`, as
 * steps of one sequential state machine, and what holds along any run of
 * them: the store invariant, the growth of every poll, and the limit on
 * admissions per address and window.
 */
module Service {
  import opened Wrappers
  import opened Validation
  import opened ClientIp
  import opened Polls
  import opened RateLimit
  import opened PollStore
  import opened Admission
  import opened Invariants

  /**
   * A write request with everything the handler draws from outside:
   * minted ids, the request time, the raw header and cookie values.
   */
  datatype Request =
    | CreateRequest(question: string, options: seq<string>, pollId: string, mint: nat -> string, now: int)
    | VoteRequest(pollId: string, optionId: string, cookie: Option<string>, mintedVoterId: string,
                  forwardedFor: string, peer: Option<string>, now: int)

  datatype Reply =
    | Created(poll: Poll)                        // 200 with the new poll
    | CreateRejected(errors: seq<FieldError>)    // 422: the body failed validation
    | CreateFailed                               // the minted poll id was already taken
    | VoteRejected                               // 422: empty option id
    | Answered(outcome: Outcome)                 // the vote endpoint's answer

  /** The vote endpoint accepted the request past the rate limiter (admitted or already voted). */
  predicate PassedLimiter(reply: Reply) {
    reply.Answered? && (reply.outcome.Voted? || reply.outcome == AlreadyVoted)
  }

  /**
   * The rate-limit key a vote request is logged under: the salted hash
   * (`digest`) of the forwarded address, else of the peer host, else of
   * `"unknown"`.
   */
  function RateKey(req: Request, digest: string -> string): (r: string)
    requires req.VoteRequest?
    ensures ForwardedAddress(req.forwardedFor) != "" ==> r == digest(ForwardedAddress(req.forwardedFor))
    ensures ForwardedAddress(req.forwardedFor) == "" && req.peer.Some? && req.peer.value != "" ==> r == digest(req.peer.value)
    ensures ForwardedAddress(req.forwardedFor) == "" && (req.peer.None? || req.peer.value == "") ==> r == digest(Unknown)
  {
    digest(ClientAddress(req.forwardedFor, req.peer))
  }

  /**
   * The answer and store of a vote request that passed body validation:
   * the vote transition for the cookie's voter when the cookie is set and
   * non-empty, and for the freshly minted voter otherwise.
   */
  function HandleVote(s: Store, req: Request, limits: Limits, digest: string -> string): (r: (Outcome, Store))
    requires req.VoteRequest?
    ensures req.cookie.Some? && req.cookie.value != "" ==>
      r == Vote(s, req.pollId, req.optionId, req.cookie.value, RateKey(req, digest), req.now, limits)
    ensures req.cookie.None? || req.cookie.value == "" ==>
      r == Vote(s, req.pollId, req.optionId, req.mintedVoterId, RateKey(req, digest), req.now, limits)
  {
    Vote(s, req.pollId, req.optionId, VoterIdentity(req.cookie, req.mintedVoterId), RateKey(req, digest), req.now, limits)
  }

  /**
   * One request handled against the store. A creation body that fails
   * validation is answered with its field errors; a valid one creates the
   * poll unless its minted id is taken. A vote body with an empty option id
   * is rejected; any other vote request gets the vote transition's answer.
   */
  function Step(s: Store, req: Request, limits: Limits, digest: string -> string): (r: (Reply, Store))
    ensures req.CreateRequest? && ValidatePollRequest(req.question, req.options).Err? ==>
      r == (CreateRejected(ValidatePollRequest(req.question, req.options).error), s)
    ensures req.CreateRequest? && ValidatePollRequest(req.question, req.options).Ok? && req.pollId in s.polls ==>
      r == (CreateFailed, s)
    ensures req.CreateRequest? && ValidatePollRequest(req.question, req.options).Ok? && req.pollId !in s.polls ==>
      var valid := ValidatePollRequest(req.question, req.options).value;
      var poll := NewPoll(req.pollId, valid.question, valid.options, req.mint, req.now);
      r == (Created(poll), s.(polls := s.polls[req.pollId := poll]))
    ensures req.VoteRequest? && req.optionId == "" ==> r == (VoteRejected, s)
    ensures req.VoteRequest? && req.optionId != "" ==>
      r == (Answered(HandleVote(s, req, limits, digest).0), HandleVote(s, req, limits, digest).1)
    ensures r.0.Answered? <==> req.VoteRequest? && req.optionId != ""
  {
    if req.CreateRequest? then
      match ValidatePollRequest(req.question, req.options) {
        case Err(errors) => (CreateRejected(errors), s)
        case Ok(valid) =>
          match CreatePoll(s, req.pollId, valid.question, valid.options, req.mint, req.now) {
            case Err(_) => (CreateFailed, s)
            case Ok((poll, s')) => (Created(poll), s')
          }
      }
    else if ValidateVoteRequest(req.optionId).Err? then (VoteRejected, s)
    else
      var (o, s') := HandleVote(s, req, limits, digest);
      (Answered(o), s')
  }

  /** The replies to a sequence of requests handled one after another, and the final store. */
  function Run(s: Store, reqs: seq<Request>, limits: Limits, digest: string -> string): (r: (seq<Reply>, Store))
    ensures |r.0| == |reqs|
    decreases |reqs|
  {
    if |reqs| == 0 then ([], s)
    else
      var (reply, s1) := Step(s, reqs[0], limits, digest);
      var (replies, s2) := Run(s1, reqs[1..], limits, digest);
      ([reply] + replies, s2)
  }

  lemma StepPreservesInv(s: Store, req: Request, limits: Limits, digest: string -> string)
    requires Inv(s)
    ensures Inv(Step(s, req, limits, digest).1)
  {
    if req.CreateRequest? {
      var v := ValidatePollRequest(req.question, req.options);
      if v.Ok? {
        CreatePreservesInv(s, req.pollId, v.value.question, v.value.options, req.mint, req.now);
      }
    } else {
      VotePreservesInv(s, req.pollId, req.optionId, VoterIdentity(req.cookie, req.mintedVoterId), RateKey(req, digest), req.now, limits);
    }
  }

  /**
   * From the empty store (or any consistent one), after any sequence of
   * requests: every poll's option counters sum to its total, the total is
   * the number of records for the poll, and no voter holds two records on
   * one poll.
   */
  lemma {:induction false} RunPreservesInv(s: Store, reqs: seq<Request>, limits: Limits, digest: string -> string)
    requires Inv(s)
    ensures Inv(Run(s, reqs, limits, digest).1)
    decreases |reqs|
  {
    if |reqs| > 0 {
      StepPreservesInv(s, reqs[0], limits, digest);
      RunPreservesInv(Step(s, reqs[0], limits, digest).1, reqs[1..], limits, digest);
    }
  }

  /** The at-most-one-vote guarantee along any run started from the empty store. */
  lemma OneBallotPerVoter(reqs: seq<Request>, limits: Limits, digest: string -> string, pollId: string, voterId: string)
    ensures BallotsOf(Run(Empty, reqs, limits, digest).1.votes, pollId, voterId) <= 1
  {
    EmptyInv();
    RunPreservesInv(Empty, reqs, limits, digest);
    AtMostOneBallot(Run(Empty, reqs, limits, digest).1.votes, pollId, voterId);
  }

  /**
   * How a stored poll may change: its id, question, creation time, option
   * ids and texts never do; its version and total never go down.
   */
  predicate Evolves(before: Poll, after: Poll) {
    && after.id == before.id && after.question == before.question && after.createdAt == before.createdAt
    && Ids(after.options) == Ids(before.options) && Texts(after.options) == Texts(before.options)
    && after.version >= before.version && after.totalVotes >= before.totalVotes
  }

  /** A single request never removes a poll and only lets stored polls evolve. */
  lemma StepEvolves(s: Store, req: Request, limits: Limits, digest: string -> string, pollId: string)
    requires pollId in s.polls
    ensures var s' := Step(s, req, limits, digest).1;
      pollId in s'.polls && Evolves(s.polls[pollId], s'.polls[pollId])
  {
    var s' := Step(s, req, limits, digest).1;
    if req.CreateRequest? {
      var v := ValidatePollRequest(req.question, req.options);
      if v.Ok? {
        var c := CreatePoll(s, req.pollId, v.value.question, v.value.options, req.mint, req.now);
        if c.Ok? {
          assert s'.polls == s.polls[req.pollId := c.value.0];
        }
      }
      assert s'.polls[pollId] == s.polls[pollId];
    } else if req.optionId != "" {
      var (o, _) := HandleVote(s, req, limits, digest);
      if o.Voted? && req.pollId == pollId {
        assert s'.polls[pollId] == CountVote(s.polls[pollId], req.optionId, req.now);
      } else {
        assert s'.polls[pollId] == s.polls[pollId];
      }
    }
  }

  /**
   * Along any run, every stored poll stays stored, keeps its question and
   * options, and its version never decreases. The positional update of an
   * admitted vote therefore always finds the option it was checked against.
   */
  lemma {:induction false} RunEvolves(s: Store, reqs: seq<Request>, limits: Limits, digest: string -> string, pollId: string)
    requires pollId in s.polls
    ensures var s' := Run(s, reqs, limits, digest).1;
      pollId in s'.polls && Evolves(s.polls[pollId], s'.polls[pollId])
    decreases |reqs|
  {
    if |reqs| > 0 {
      var s1 := Step(s, reqs[0], limits, digest).1;
      StepEvolves(s, reqs[0], limits, digest, pollId);
      RunEvolves(s1, reqs[1..], limits, digest, pollId);
    }
  }

  /**
   * The vote requests of `reqs` on `pollId`, from address digest `ipHash`,
   * stamped within `[from, to]`, that got past the rate limiter.
   */
  function PassedWithin(reqs: seq<Request>, replies: seq<Reply>, digest: string -> string,
                        pollId: string, ipHash: string, from: int, to: int): nat
    requires |replies| == |reqs|
  {
    if |reqs| == 0 then 0
    else
      var req := reqs[0];
      PassedWithin(reqs[1..], replies[1..], digest, pollId, ipHash, from, to)
        + (if req.VoteRequest? && req.pollId == pollId && RateKey(req, digest) == ipHash
              && from <= req.now <= to && PassedLimiter(replies[0]) then 1 else 0)
  }

  lemma AllowedAfterAppend(log: seq<Attempt>, a: Attempt, pollId: string, ipHash: string, from: int, to: int, limits: Limits)
    ensures AllowedWithin(log + [a], pollId, ipHash, from, to, limits) ==
      AllowedWithin(log, pollId, ipHash, from, to, limits)
        + (if IsFrom(a, pollId, ipHash) && from <= a.attemptedAt <= to && LastAllowed(log + [a], limits) then 1 else 0)
  {
    assert (log + [a])[..|log|] == log;
  }

  /** Each request that passes the limiter adds one allowed entry to the attempt log. */
  lemma StepPassedIsLogged(s: Store, req: Request, limits: Limits, digest: string -> string,
                           pollId: string, ipHash: string, from: int, to: int)
    ensures var (reply, s') := Step(s, req, limits, digest);
      AllowedWithin(s.attempts, pollId, ipHash, from, to, limits)
        + (if req.VoteRequest? && req.pollId == pollId && RateKey(req, digest) == ipHash
              && from <= req.now <= to && PassedLimiter(reply) then 1 else 0)
      <= AllowedWithin(s'.attempts, pollId, ipHash, from, to, limits)
  {
    var (reply, s') := Step(s, req, limits, digest);
    if req.VoteRequest? && req.optionId != "" && req.pollId in s.polls && HasOption(s.polls[req.pollId], req.optionId) {
      AllowedAfterAppend(s.attempts, Attempt(req.pollId, RateKey(req, digest), req.now), pollId, ipHash, from, to, limits);
    }
  }

  lemma {:induction false} RunPassedIsLogged(s: Store, reqs: seq<Request>, limits: Limits, digest: string -> string,
                                             pollId: string, ipHash: string, from: int, to: int)
    ensures var (replies, s') := Run(s, reqs, limits, digest);
      AllowedWithin(s.attempts, pollId, ipHash, from, to, limits)
        + PassedWithin(reqs, replies, digest, pollId, ipHash, from, to)
      <= AllowedWithin(s'.attempts, pollId, ipHash, from, to, limits)
    decreases |reqs|
  {
    if |reqs| > 0 {
      var (reply, s1) := Step(s, reqs[0], limits, digest);
      StepPassedIsLogged(s, reqs[0], limits, digest, pollId, ipHash, from, to);
      RunPassedIsLogged(s1, reqs[1..], limits, digest, pollId, ipHash, from, to);
    }
  }

  /**
   * However the requests are interleaved, within any span no longer than
   * the window at most `maxAttempts` vote requests of one address on one
   * poll get past the rate limiter, and so at most that many are admitted.
   */
  lemma RunAdmissionsBounded(s: Store, reqs: seq<Request>, limits: Limits, digest: string -> string,
                             pollId: string, ipHash: string, from: int, to: int)
    requires to - from <= limits.window
    ensures PassedWithin(reqs, Run(s, reqs, limits, digest).0, digest, pollId, ipHash, from, to)
      <= if limits.maxAttempts < 0 then 0 else limits.maxAttempts
  {
    RunPassedIsLogged(s, reqs, limits, digest, pollId, ipHash, from, to);
    AllowedPerWindowBounded(Run(s, reqs, limits, digest).1.attempts, pollId, ipHash, from, to, limits);
  }
}
