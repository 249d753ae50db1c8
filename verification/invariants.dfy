/**
 * The consistency the store keeps from creation through every vote:
 * the vote records are the ground truth and the poll counters a cache
 * that always agrees with them.
 */
module Invariants {
  import opened Polls
  import opened RateLimit
  import opened PollStore
  import opened Admission

  /** The counter option `k` should show: its tally if it is the first option with its id, else zero. */
  function ExpectedCounter(votes: seq<VoteRecord>, poll: Poll, k: nat): nat
    requires k < |poll.options|
  {
    var ids := Ids(poll.options);
    if FirstIndex(ids, ids[k]) == k then Tally(votes, poll.id, ids[k]) else 0
  }

  /** The counters of `poll` agree with each other and with the vote records. */
  predicate CountersAgree(votes: seq<VoteRecord>, poll: Poll) {
    && SumVotes(poll.options) == poll.totalVotes
    && poll.totalVotes == VotesFor(votes, poll.id)
    && poll.version == poll.totalVotes + 1
    && forall k :: 0 <= k < |poll.options| ==> poll.options[k].votes == ExpectedCounter(votes, poll, k)
  }

  /** Every record names a stored poll and one of that poll's options. */
  predicate RecordsResolve(s: Store) {
    forall i :: 0 <= i < |s.votes| ==>
      s.votes[i].pollId in s.polls && HasOption(s.polls[s.votes[i].pollId], s.votes[i].optionId)
  }

  predicate Inv(s: Store) {
    && (forall pollId :: pollId in s.polls ==> s.polls[pollId].id == pollId && CountersAgree(s.votes, s.polls[pollId]))
    && UniqueVoters(s.votes)
    && RecordsResolve(s)
  }

  lemma EmptyInv()
    ensures Inv(Empty)
  {
  }

  /** Counts of a poll no record names are zero. */
  lemma {:induction false} UnnamedPollHasNoVotes(votes: seq<VoteRecord>, pollId: string, optionId: string)
    requires forall i :: 0 <= i < |votes| ==> votes[i].pollId != pollId
    ensures VotesFor(votes, pollId) == 0 && Tally(votes, pollId, optionId) == 0
  {
    if |votes| > 0 {
      UnnamedPollHasNoVotes(votes[..|votes| - 1], pollId, optionId);
    }
  }

  /** Appending a record moves only the counts it belongs to. */
  lemma CountsAfterAppend(votes: seq<VoteRecord>, record: VoteRecord, pollId: string, optionId: string)
    ensures VotesFor(votes + [record], pollId) == VotesFor(votes, pollId) + (if record.pollId == pollId then 1 else 0)
    ensures Tally(votes + [record], pollId, optionId) ==
      Tally(votes, pollId, optionId) + (if record.pollId == pollId && record.optionId == optionId then 1 else 0)
  {
    assert (votes + [record])[..|votes|] == votes;
  }

  /** A created poll starts consistent, and the other polls are not disturbed. */
  lemma CreatePreservesInv(s: Store, pollId: string, question: string, texts: seq<string>, mint: nat -> string, now: int)
    requires Inv(s)
    ensures CreatePoll(s, pollId, question, texts, mint, now).Ok? ==>
      Inv(CreatePoll(s, pollId, question, texts, mint, now).value.1)
  {
    var r := CreatePoll(s, pollId, question, texts, mint, now);
    if r.Ok? {
      var (poll, s') := r.value;
      forall k | 0 <= k < |poll.options|
        ensures poll.options[k].votes == ExpectedCounter(s'.votes, poll, k)
      {
        UnnamedPollHasNoVotes(s.votes, pollId, Ids(poll.options)[k]);
      }
      UnnamedPollHasNoVotes(s.votes, pollId, "");
    }
  }

  /** The option counters of the poll that received a vote still match the records. */
  lemma CountedPollAgrees(votes: seq<VoteRecord>, poll: Poll, optionId: string, voterId: string, ipHash: string, now: int)
    requires HasOption(poll, optionId)
    requires CountersAgree(votes, poll)
    ensures CountersAgree(votes + [VoteRecord(poll.id, optionId, voterId, ipHash, now)], CountVote(poll, optionId, now))
  {
    var record := VoteRecord(poll.id, optionId, voterId, ipHash, now);
    var votes' := votes + [record];
    var poll' := CountVote(poll, optionId, now);
    var ids := Ids(poll.options);
    var f := FirstIndex(ids, optionId);
    CountsAfterAppend(votes, record, poll.id, optionId);
    forall k | 0 <= k < |poll'.options|
      ensures poll'.options[k].votes == ExpectedCounter(votes', poll', k)
    {
      CountsAfterAppend(votes, record, poll.id, ids[k]);
      assert Ids(poll'.options) == ids;
      if k != f {
        assert poll'.options[k] == poll.options[k];
        if ids[k] == optionId {
          assert FirstIndex(ids, ids[k]) == f;
        }
      }
    }
  }

  /** Every vote request, whatever its outcome, keeps the invariant. */
  lemma VotePreservesInv(s: Store, pollId: string, optionId: string, voterId: string, ipHash: string, now: int, limits: Limits)
    requires Inv(s)
    ensures Inv(Vote(s, pollId, optionId, voterId, ipHash, now, limits).1)
  {
    var (o, s') := Vote(s, pollId, optionId, voterId, ipHash, now, limits);
    if o.Voted? {
      var poll := s.polls[pollId];
      var record := VoteRecord(pollId, optionId, voterId, ipHash, now);
      CountedPollAgrees(s.votes, poll, optionId, voterId, ipHash, now);
      forall q | q in s'.polls && q != pollId
        ensures CountersAgree(s'.votes, s'.polls[q])
      {
        var other := s.polls[q];
        CountsAfterAppend(s.votes, record, q, "");
        forall k | 0 <= k < |other.options|
          ensures other.options[k].votes == ExpectedCounter(s'.votes, other, k)
        {
          CountsAfterAppend(s.votes, record, q, Ids(other.options)[k]);
        }
      }
      assert Ids(o.poll.options) == Ids(poll.options);
      forall i | 0 <= i < |s'.votes|
        ensures s'.votes[i].pollId in s'.polls && HasOption(s'.polls[s'.votes[i].pollId], s'.votes[i].optionId)
      {
        if i < |s.votes| {
          assert s'.votes[i] == s.votes[i];
        }
      }
    }
  }
}
