/**
 * Poll documents: their shape, the document `create_poll` builds, the
 * counter update an admitted vote applies, and `serialize_poll`.
 * Timestamps are integers; their ISO rendering is not modelled.
 */
module Polls {
  import opened Wrappers

  /** One answer of a poll. */
  datatype PollOption = PollOption(id: string, text: string, votes: nat)

  /** A stored poll document. */
  datatype Poll = Poll(
    id: string,
    question: string,
    createdAt: int,
    updatedAt: int,
    version: nat,
    totalVotes: nat,
    options: seq<PollOption>)

  /** The option ids, in order. */
  function Ids(options: seq<PollOption>): (r: seq<string>)
    ensures |r| == |options|
    ensures forall k :: 0 <= k < |r| ==> r[k] == options[k].id
  {
    seq(|options|, k requires 0 <= k < |options| => options[k].id)
  }

  /** The option texts, in order. */
  function Texts(options: seq<PollOption>): (r: seq<string>)
    ensures |r| == |options|
    ensures forall k :: 0 <= k < |r| ==> r[k] == options[k].text
  {
    seq(|options|, k requires 0 <= k < |options| => options[k].text)
  }

  /** The sum of the option counters. */
  function SumVotes(options: seq<PollOption>): nat {
    if |options| == 0 then 0 else SumVotes(options[..|options| - 1]) + options[|options| - 1].votes
  }

  /** The query `{"_id": poll_id, "options.id": option_id}` matches this poll. */
  predicate HasOption(poll: Poll, optionId: string) {
    optionId in Ids(poll.options)
  }

  /** The position of the first occurrence of `id`: the element the positional `$` operator selects. */
  function FirstIndex(ids: seq<string>, id: string): (k: nat)
    requires id in ids
    ensures k < |ids| && ids[k] == id
    ensures id !in ids[..k]
  {
    if ids[0] == id then 0
    else
      assert ids == [ids[0]] + ids[1..];
      var k := FirstIndex(ids[1..], id);
      assert ids[..k + 1] == [ids[0]] + ids[1..][..k];
      k + 1
  }

  /**
   * The document `create_poll` inserts: one option per text, in order, each
   * with the id minted for it (`mint(k)` for the k-th) and no votes, at
   * version 1 with no votes in total.
   */
  function NewPoll(id: string, question: string, texts: seq<string>, mint: nat -> string, now: int): (p: Poll)
    ensures p.id == id && p.question == question
    ensures p.version == 1 && p.totalVotes == 0
    ensures p.createdAt == now && p.updatedAt == now
    ensures Texts(p.options) == texts
    ensures forall k :: 0 <= k < |p.options| ==> p.options[k].id == mint(k) && p.options[k].votes == 0
    ensures SumVotes(p.options) == 0
  {
    var options := seq(|texts|, k requires 0 <= k < |texts| => PollOption(mint(k), texts[k], 0));
    NoVotesSumToZero(options);
    Poll(id, question, now, now, 1, 0, options)
  }

  /** Options whose counters are all zero sum to zero. */
  lemma {:induction false} NoVotesSumToZero(options: seq<PollOption>)
    requires forall k :: 0 <= k < |options| ==> options[k].votes == 0
    ensures SumVotes(options) == 0
  {
    if |options| > 0 {
      NoVotesSumToZero(options[..|options| - 1]);
    }
  }

  /** Raising one counter by one raises the sum by one. */
  lemma {:induction false} SumAfterIncrement(options: seq<PollOption>, k: nat)
    requires k < |options|
    ensures SumVotes(options[k := options[k].(votes := options[k].votes + 1)]) == SumVotes(options) + 1
  {
    var updated := options[k := options[k].(votes := options[k].votes + 1)];
    var n := |options| - 1;
    if k == n {
      assert updated[..n] == options[..n];
    } else {
      assert updated[..n] == options[..n][k := options[k].(votes := options[k].votes + 1)];
      SumAfterIncrement(options[..n], k);
    }
  }

  /**
   * The update an admitted vote applies: `$inc` of the first option with
   * that id, of `total_votes` and of `version`, and `$set` of `updated_at`.
   */
  function CountVote(poll: Poll, optionId: string, now: int): (r: Poll)
    requires HasOption(poll, optionId)
    ensures r.id == poll.id && r.question == poll.question && r.createdAt == poll.createdAt
    ensures r.updatedAt == now
    ensures r.version == poll.version + 1 && r.totalVotes == poll.totalVotes + 1
    ensures Ids(r.options) == Ids(poll.options) && Texts(r.options) == Texts(poll.options)
    ensures SumVotes(r.options) == SumVotes(poll.options) + 1
    ensures var k := FirstIndex(Ids(poll.options), optionId);
      && r.options[k].votes == poll.options[k].votes + 1
      && forall j :: 0 <= j < |r.options| && j != k ==> r.options[j] == poll.options[j]
  {
    var k := FirstIndex(Ids(poll.options), optionId);
    var options := poll.options[k := poll.options[k].(votes := poll.options[k].votes + 1)];
    SumAfterIncrement(poll.options, k);
    assert Ids(options) == Ids(poll.options);
    assert Texts(options) == Texts(poll.options);
    poll.(updatedAt := now, version := poll.version + 1, totalVotes := poll.totalVotes + 1, options := options)
  }

  /** A poll document as read back from the store, where `total_votes` and `options` may be missing. */
  datatype PollDocument = PollDocument(
    id: string,
    question: string,
    createdAt: int,
    updatedAt: int,
    version: nat,
    totalVotes: Option<nat>,
    options: Option<seq<PollOption>>)

  datatype ReadError = PollNotFound

  /** The document the store holds for `poll`: every field present. */
  function ToDocument(poll: Poll): PollDocument {
    PollDocument(poll.id, poll.question, poll.createdAt, poll.updatedAt, poll.version,
                 Some(poll.totalVotes), Some(poll.options))
  }

  /** `serialize_poll`: no document is a 404; a missing counter reads as 0 and missing options as none. */
  function Serialize(doc: Option<PollDocument>): (r: Result<Poll, ReadError>)
    ensures doc.None? <==> r == Err(PollNotFound)
    ensures doc.Some? ==> r.Ok? && r.value.id == doc.value.id && r.value.version == doc.value.version
    ensures doc.Some? && doc.value.totalVotes.None? ==> r.value.totalVotes == 0
    ensures doc.Some? && doc.value.options.None? ==> r.value.options == []
    ensures doc.Some? ==> && r.value.question == doc.value.question
                          && r.value.createdAt == doc.value.createdAt
                          && r.value.updatedAt == doc.value.updatedAt
    ensures doc.Some? && doc.value.totalVotes.Some? ==> r.value.totalVotes == doc.value.totalVotes.value
    ensures doc.Some? && doc.value.options.Some? ==> r.value.options == doc.value.options.value
  {
    match doc
    case None => Err(PollNotFound)
    case Some(d) =>
      Ok(Poll(d.id, d.question, d.createdAt, d.updatedAt, d.version,
              d.totalVotes.GetOr(0), d.options.GetOr([])))
  }

  /** A stored poll serializes to itself: the defaults never apply to documents `create_poll` wrote. */
  lemma SerializeStored(poll: Poll)
    ensures Serialize(Some(ToDocument(poll))) == Ok(poll)
  {
  }
}
