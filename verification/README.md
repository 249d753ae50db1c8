# Poll vote admission, modelled in Dafny

This project models the write side of the "Simple Poll API" backend
(`backend/main.py`): validation of the poll-creation body, extraction of
the client address used for rate limiting, the poll document built by
`create_poll`, and the vote endpoint `vote_poll`. The vote endpoint is a
single atomic transition over an abstract store. The store holds three
things:

- the `polls` collection, as a map from poll id to a poll document;
- the `votes` collection, with its unique `(poll_id, voter_id)` index;
- the append-only `vote_attempts` log.

On top of single transitions the model defines runs of create and vote
requests, and proves what holds along every run:

- the option counters sum to the poll total;
- the total equals the number of vote records; the first option carrying
  an id has a counter equal to the number of records naming that id, and
  any later option with the same id stays at 0;
- `version` is always `total_votes + 1`, so it never decreases;
- no voter holds two records on one poll;
- within any span no longer than the window, at most the configured number
  of attempts from one address on one poll get past the rate limiter.

Files, one module each:

| file | module | what it holds |
|---|---|---|
| wrappers.dfy | Wrappers | `Option` and `Result` |
| text.dfy | Text | Python's `str.strip()` and `split(",")[0]` |
| validation.dfy | Validation | `CreatePollRequest` and `VoteRequest` validation |
| client_ip.dfy | ClientIp | `get_client_ip` and the voter-id cookie fallback |
| polls.dfy | Polls | poll documents, `create_poll`'s document, the counter update, `serialize_poll` |
| rate_limit.dfy | RateLimit | the attempt log and the sliding-window decision |
| poll_store.dfy | PollStore | the store, the unique vote index, poll creation |
| admission.dfy | Admission | the `vote_poll` transition |
| invariants.dfy | Invariants | the store invariant and its preservation |
| service.dfy | Service | requests, runs and the properties of runs |
| scenarios.dfy | Scenarios | worked examples, proved on concrete inputs |

Four behaviours of `vote_poll` in `backend/main.py` shape the model:

- Every attempt that passes the poll and option checks is logged before it
  is counted. A refused (429) attempt therefore stays in the log and
  counts against later ones, and a repeat voter (409) also uses up an
  attempt. Among the handler's answers, only 404 and 400 leave the store
  fully untouched; so does the 422 for an empty `option_id`, which comes
  before the handler runs.
- The limit is strict: an attempt is refused when the count, including
  itself, is greater than the maximum (`attempts > RATE_LIMIT_MAX_ATTEMPTS`).
- A vote for an unknown poll is answered 404 whatever the non-empty option
  id; 400 needs an existing poll without that option.
- The counter update uses the positional `$` operator. It raises the
  counter of the first option with the chosen id. Option ids are minted
  at random and are not assumed distinct.

## Model

| member | source | states |
|---|---|---|
| Text.Strip | backend/main.py:48 | the stripped text is no longer than the input, has no whitespace (in Python's `isspace` sense) at either end, and is empty exactly when the input is all whitespace |
| Text.StripIsTrim | backend/main.py:48 | the stripped text is a slice of the input with only whitespace on either side of it and no whitespace at either of its own ends |
| Text.TrimIsUnique | backend/main.py:48 | any two such trimmed slices of one string are equal, so stripping is fully determined |
| Text.StripEmptyIff | backend/main.py:49-50 | a text strips to nothing exactly when every character of it is whitespace |
| Text.StripIdempotent | backend/main.py:56 | stripping an already stripped text changes nothing |
| Text.FirstField | backend/main.py:79 | the first comma-separated field is the prefix before the first comma, or the whole text when there is none |
| Validation.ValidateQuestion | backend/main.py:42-51 | the raw question must be 1 to 500 characters and not all whitespace; the accepted value is its trim; each failure has its own error |
| Validation.CleanOptions | backend/main.py:56 | the cleaned list is no longer than the input and every entry of it is a non-empty text with no surrounding whitespace |
| Validation.CleanOptionsAppend | backend/main.py:56 | cleaning a concatenation is the concatenation of the cleanings: entries are handled one by one and their order is kept |
| Validation.CleanOptionsSingle | backend/main.py:56 | a single entry is dropped when it is all whitespace and otherwise kept in stripped form |
| Validation.CleanOptionTexts | backend/main.py:56 | a list of non-empty, already stripped texts passes through cleaning unchanged |
| Validation.CleanOptionsIdempotent | backend/main.py:56 | cleaning a cleaned option list changes nothing |
| Validation.ValidateOptions | backend/main.py:53-61 | options are accepted exactly when 2 to 20 cleaned entries remain; the accepted value is the cleaned list; fewer gives the too-few error, more the too-many error |
| Validation.ValidatePollRequest | backend/main.py:41-61 | the body is accepted exactly when both fields are; a rejection reports each failing field's error exactly once, the question's first, and nothing else |
| Validation.ValidateVoteRequest | backend/main.py:64-65 | the vote body is accepted exactly when its option id is non-empty |
| ClientIp.ForwardedAddress | backend/main.py:79 | the address is the whitespace trim of the header's first comma-separated field: it holds no comma, has no surrounding whitespace, and is empty exactly when that field is all whitespace |
| ClientIp.ForwardedAddressIsFirstField | backend/main.py:77-79 | the address taken from `x-forwarded-for` is the piece of the header before its first comma with only whitespace before it and only whitespace between it and that comma (or the end) |
| ClientIp.ClientAddress | backend/main.py:76-84 | the client address is never empty; a non-blank first forwarded field wins, then a non-empty peer host, then `"unknown"` |
| ClientIp.VoterIdentity | backend/main.py:188 | a non-empty `voter_id` cookie is the voter identity; otherwise the freshly minted id is |
| Polls.FirstIndex | backend/main.py:223-225 | the positional update selects the first option carrying the id, and that option exists |
| Polls.NewPoll | backend/main.py:155-165 | a new poll has version 1, no votes, and one option per text in order, each with its minted id and zero votes |
| Polls.SumAfterIncrement | backend/main.py:225 | raising one option counter by one raises the sum of the counters by one |
| Polls.CountVote | backend/main.py:222-228 | an admitted vote raises the chosen option's counter, the total and the version by exactly one and sets the update time; ids, texts, the question and every other option stay the same |
| Polls.Serialize | backend/main.py:91-102 | no document is a not-found error; otherwise id, question, version and both timestamps are carried over, a present total and present options are carried over, a missing total reads as 0 and missing options as an empty list |
| Polls.SerializeStored | backend/main.py:91-102 | a stored poll document serializes back to the same poll |
| RateLimit.CountSince | backend/main.py:203-205 | the count of log entries for the poll and address stamped at or after the start of the window is zero exactly when no entry matches, and equals the log's length exactly when every entry does |
| RateLimit.CountSinceAppend | backend/main.py:203-205 | the count over a log split in two is the sum of the counts over the parts, so with the one-entry case it is exactly the number of matching entries |
| RateLimit.CheckAndRecord | backend/main.py:200-206 | the attempt is appended first; it is allowed exactly when the earlier attempts of that poll and address within the window, plus itself, do not exceed the maximum |
| RateLimit.RefusedStaysRefused | backend/main.py:200-207 | an attempt the limiter refused, repeated at the same instant, is refused again, because the refused attempt stays in the log |
| RateLimit.AllowedPerWindowBounded | backend/main.py:200-207 | in any attempt log, within any span no longer than the window, at most the maximum number of one address's attempts on one poll were allowed |
| PollStore.BallotsOfIffVoted | backend/main.py:133 | a voter holds a record on a poll exactly when the unique index holds that key |
| PollStore.AtMostOneBallot | backend/main.py:133 | with unique keys, a voter holds at most one record per poll |
| PollStore.InsertVote | backend/main.py:209-220 | the vote insert is refused exactly when the key is taken; otherwise it appends the record and keeps the keys unique |
| PollStore.CreatePoll | backend/main.py:150-166 | creation fails only on a poll id already in use, leaving the store as it was; otherwise it adds the new poll document and leaves votes and attempts alone |
| Admission.Vote | backend/main.py:193-230 | the checks run in order: unknown poll gives 404, a missing option 400, and neither changes anything; otherwise the attempt is logged and a refused attempt gives 429, a repeat voter 409; rejections leave polls and votes unchanged; an admitted vote appends one record and counts it on its poll only |
| Admission.VotedIff | backend/main.py:200-220 | a request for an existing poll and option is admitted exactly when the limiter allows it and the voter holds no record on the poll |
| Admission.RepeatRejectionIsStable | backend/main.py:193-220 | repeating a request refused with 404, 400 or 409 gets the same answer or 429, and never changes polls or votes |
| Admission.RateLimitedRetryIsRefused | backend/main.py:200-207 | a vote answered 429 and repeated at the same instant is answered 429 again, and polls and votes stay unchanged |
| Invariants.CreatePreservesInv | backend/main.py:155-166 | a created poll starts with counters that match the (empty) records for it, and the store invariant still holds |
| Invariants.CountedPollAgrees | backend/main.py:222-228 | after an admitted vote the poll's counters still sum to its total, match the record count, and the first option carrying each id counts the records naming that id while later options with the same id stay at 0 |
| Invariants.VotePreservesInv | backend/main.py:193-230 | every vote request, whatever its answer, keeps the store invariant |
| Service.RateKey | backend/main.py:189 | the rate-limit key is the digest of the forwarded address when there is one, else of the peer host, else of `"unknown"` |
| Service.HandleVote | backend/main.py:188-189 | a vote request is decided by the vote transition for the cookie's voter when the cookie is set and non-empty, otherwise for the freshly minted voter |
| Service.Step | backend/main.py:150-230 | an invalid creation body is answered with its field errors and changes nothing; a valid one fails on a taken poll id and otherwise adds exactly the new poll; an empty option id is rejected and changes nothing; every other vote request gets the vote transition's answer and store |
| Service.StepPreservesInv | backend/main.py:150-230 | every handled request keeps the store invariant |
| Service.RunPreservesInv | backend/main.py:155-165 | along any run the counters sum to the totals, totals equal the record counts, versions are totals plus one, and keys stay unique |
| Service.OneBallotPerVoter | backend/main.py:133 | along any run from the empty store, no voter holds more than one record on any poll |
| Service.StepEvolves | backend/main.py:222-228 | one request never removes a poll, never changes its question, option ids or texts, and never lowers its version or total |
| Service.RunEvolves | backend/main.py:222-230 | the same along any run, so the update after the vote insert always finds the option it was checked against |
| Service.RunPassedIsLogged | backend/main.py:200-207 | every vote request that got past the limiter left an allowed entry in the attempt log |
| Service.RunAdmissionsBounded | backend/main.py:200-207 | along any run, within any span no longer than the window, at most the maximum number of one address's vote requests on one poll get past the limiter |
| Scenarios.LunchRequestValidates | backend/main.py:41-61 | `"Lunch?"` with `"Pizza"` and `" Sushi "` validates to the trimmed texts |
| Scenarios.LunchPoll | backend/main.py:150-230 | voter A votes Pizza, repeats and gets 409, voter B votes Sushi: two votes in total, one per option |
| Scenarios.FourthAttemptLimited | backend/main.py:200-207 | with a maximum of 3 per 60-second window, four attempts within ten seconds: three pass and the fourth is refused |

## Left out

- FastAPI routing, CORS, status codes and the `/` and `GET /polls/{id}` endpoints: answers are the `Reply` and `Outcome` datatypes; reading a poll is modelled by `Polls.Serialize` alone.
- Environment configuration: the window and the maximum are a `Limits` parameter, with the defaults 60 and 15 as constants; parsing the environment is not modelled.
- The MongoDB client, startup, shutdown and index creation: the unique `(poll_id, voter_id)` index is modelled as the membership check in `PollStore.InsertVote`; the other indexes only speed up queries.
- `hash_ip` (salted SHA-256): the digest is the `digest` function parameter of `Service.Step`; `Admission.Vote` takes the digest directly.
- `secrets.token_urlsafe` and `uuid4`: minted poll ids, option ids (`mint`) and voter ids are inputs of the requests.
- `asyncio.Event` notification and the event stream: concurrency and streaming, outside this sequential model.
- Races between the separate store calls and crash windows between the vote insert and the counter update: each request is one atomic step.
- `datetime` and ISO formatting: times are integers in one unit shared by the window; `updated_at` is kept as an integer.
- Setting the `voter_id` cookie on success, and the `share_path` field of the create response: response plumbing.
- The 400 answer after a counter update that matched nothing (backend/main.py:229-230): it cannot happen in a sequential run, since `Service.RunEvolves` shows options never change after creation.
- A store failure during `create_poll` other than a taken poll id: a taken id is `CreateFailed`; other storage faults are not modelled.
- Text.Strip: its own contract does not locate the result inside the input; that characterisation is the lemma `Text.StripIsTrim`, and `Text.TrimIsUnique` shows it fixes the result.
- Validation.CleanOptions: its own contract does not state which entries survive or in what order; `Validation.CleanOptionsAppend` and `Validation.CleanOptionsSingle` state that entry by entry.
- A 429 retried later: once older attempts have left the window the retry may be admitted, so `Admission.RateLimitedRetryIsRefused` promises a repeat 429 only for a retry at the same instant.
- Starlette header handling: `forwardedFor` is the header value the request object returns (`""` when absent).
