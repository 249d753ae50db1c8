/**
 * The abstract store behind the service: the `polls` collection, the
 * `votes` collection with its unique `(poll_id, voter_id)` index, and the
 * `vote_attempts` log. Each is a plain value; the store operations are
 * pure functions from one store to the next.
 */
module PollStore {
  import opened Wrappers
  import opened Polls
  import opened RateLimit

  /** One row of the `votes` collection. */
  datatype VoteRecord = VoteRecord(pollId: string, optionId: string, voterId: string, ipHash: string, createdAt: int)

  datatype Store = Store(polls: map<string, Poll>, votes: seq<VoteRecord>, attempts: seq<Attempt>)

  const Empty: Store := Store(map[], [], [])

  /** The unique index on `(poll_id, voter_id)` already holds this key. */
  predicate HasVoted(votes: seq<VoteRecord>, pollId: string, voterId: string) {
    exists i :: 0 <= i < |votes| && votes[i].pollId == pollId && votes[i].voterId == voterId
  }

  /** No two records share a `(poll_id, voter_id)` key. */
  predicate UniqueVoters(votes: seq<VoteRecord>) {
    forall i, j :: 0 <= i < j < |votes| ==>
      votes[i].pollId != votes[j].pollId || votes[i].voterId != votes[j].voterId
  }

  /** The number of records for one poll. */
  function VotesFor(votes: seq<VoteRecord>, pollId: string): nat {
    if |votes| == 0 then 0
    else VotesFor(votes[..|votes| - 1], pollId) + (if votes[|votes| - 1].pollId == pollId then 1 else 0)
  }

  /** The number of records for one option of one poll. */
  function Tally(votes: seq<VoteRecord>, pollId: string, optionId: string): nat {
    if |votes| == 0 then 0
    else
      var last := votes[|votes| - 1];
      Tally(votes[..|votes| - 1], pollId, optionId) + (if last.pollId == pollId && last.optionId == optionId then 1 else 0)
  }

  /** The number of records one voter holds on one poll. */
  function BallotsOf(votes: seq<VoteRecord>, pollId: string, voterId: string): nat {
    if |votes| == 0 then 0
    else
      var last := votes[|votes| - 1];
      BallotsOf(votes[..|votes| - 1], pollId, voterId) + (if last.pollId == pollId && last.voterId == voterId then 1 else 0)
  }

  /** A voter holds a ballot exactly when the unique index has the key. */
  lemma {:induction false} BallotsOfIffVoted(votes: seq<VoteRecord>, pollId: string, voterId: string)
    ensures BallotsOf(votes, pollId, voterId) > 0 <==> HasVoted(votes, pollId, voterId)
  {
    if |votes| > 0 {
      var prefix := votes[..|votes| - 1];
      BallotsOfIffVoted(prefix, pollId, voterId);
      if HasVoted(prefix, pollId, voterId) {
        var i :| 0 <= i < |prefix| && prefix[i].pollId == pollId && prefix[i].voterId == voterId;
        assert votes[i] == prefix[i];
      }
      if HasVoted(votes, pollId, voterId) {
        var i :| 0 <= i < |votes| && votes[i].pollId == pollId && votes[i].voterId == voterId;
        if i < |prefix| { assert prefix[i] == votes[i]; }
      }
    }
  }

  /** Under the unique index every voter holds at most one ballot per poll. */
  lemma {:induction false} AtMostOneBallot(votes: seq<VoteRecord>, pollId: string, voterId: string)
    requires UniqueVoters(votes)
    ensures BallotsOf(votes, pollId, voterId) <= 1
  {
    if |votes| > 0 {
      var prefix := votes[..|votes| - 1];
      var last := votes[|votes| - 1];
      assert UniqueVoters(prefix);
      AtMostOneBallot(prefix, pollId, voterId);
      if last.pollId == pollId && last.voterId == voterId {
        BallotsOfIffVoted(prefix, pollId, voterId);
        if HasVoted(prefix, pollId, voterId) {
          var i :| 0 <= i < |prefix| && prefix[i].pollId == pollId && prefix[i].voterId == voterId;
          assert false;
        }
      }
    }
  }

  /**
   * The insert into `votes` guarded by the unique index: refused (`None`)
   * when the key is taken, otherwise the record is appended.
   */
  function InsertVote(votes: seq<VoteRecord>, record: VoteRecord): (r: Option<seq<VoteRecord>>)
    ensures r.None? <==> HasVoted(votes, record.pollId, record.voterId)
    ensures r.Some? ==> r.value == votes + [record]
    ensures r.Some? && UniqueVoters(votes) ==> UniqueVoters(r.value)
  {
    if HasVoted(votes, record.pollId, record.voterId) then None
    else
      var r := votes + [record];
      assert forall i :: 0 <= i < |votes| ==> r[i] == votes[i];
      Some(r)
  }

  datatype CreateError = DuplicatePollId

  /**
   * `create_poll` on validated input: inserts the new poll document under a
   * freshly minted id, one minted id per option text. An id already in use
   * makes the insert fail and the store stays as it was.
   */
  function CreatePoll(s: Store, pollId: string, question: string, texts: seq<string>, mint: nat -> string, now: int)
    : (r: Result<(Poll, Store), CreateError>)
    ensures r.Err? <==> pollId in s.polls
    ensures r.Err? ==> r.error == DuplicatePollId
    ensures r.Ok? ==> var (poll, s') := r.value;
      && poll == NewPoll(pollId, question, texts, mint, now)
      && s'.polls == s.polls[pollId := poll]
      && s'.votes == s.votes && s'.attempts == s.attempts
  {
    if pollId in s.polls then Err(DuplicatePollId)
    else
      var poll := NewPoll(pollId, question, texts, mint, now);
      Ok((poll, s.(polls := s.polls[pollId := poll])))
  }
}
