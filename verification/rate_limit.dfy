/**
 * The per-(poll, address) sliding-window limiter of the vote endpoint.
 *
 * Every attempt that reaches the limiter is first appended to the attempt
 * log; the limiter then counts the log entries for the same poll and
 * address digest stamped no earlier than `now - window` (the new entry
 * included) and refuses the attempt when that count exceeds the maximum.
 * A refused attempt therefore stays in the log and weighs on later ones.
 */
module RateLimit {

  /** The configured defaults: a 60-second window and 15 attempts per window. */
  const DefaultWindowSeconds: int := 60
  const DefaultMaxAttempts: int := 15

  datatype Limits = Limits(window: int, maxAttempts: int)

  const DefaultLimits: Limits := Limits(DefaultWindowSeconds, DefaultMaxAttempts)

  /** One row of the attempt log. */
  datatype Attempt = Attempt(pollId: string, ipHash: string, attemptedAt: int)

  predicate IsFrom(a: Attempt, pollId: string, ipHash: string) {
    a.pollId == pollId && a.ipHash == ipHash
  }

  /** The filter of the limiter's count: this poll, this address, stamped at or after `since`. */
  predicate CountedSince(a: Attempt, pollId: string, ipHash: string, since: int) {
    IsFrom(a, pollId, ipHash) && a.attemptedAt >= since
  }

  /** `count_documents` over the log: entries of this poll and address stamped at or after `since`. */
  function CountSince(log: seq<Attempt>, pollId: string, ipHash: string, since: int): (n: nat)
    ensures n <= |log|
    ensures n == 0 <==> forall i :: 0 <= i < |log| ==> !CountedSince(log[i], pollId, ipHash, since)
    ensures n == |log| <==> forall i :: 0 <= i < |log| ==> CountedSince(log[i], pollId, ipHash, since)
  {
    if |log| == 0 then 0
    else
      var prefix := log[..|log| - 1];
      assert forall i :: 0 <= i < |prefix| ==> prefix[i] == log[i];
      CountSince(prefix, pollId, ipHash, since)
        + (if CountedSince(log[|log| - 1], pollId, ipHash, since) then 1 else 0)
  }

  /**
   * The count splits over any cut of the log, so (with the one-entry case
   * the contract fixes) it is exactly the number of matching entries.
   */
  lemma {:induction false} CountSinceAppend(a: seq<Attempt>, b: seq<Attempt>, pollId: string, ipHash: string, since: int)
    ensures CountSince(a + b, pollId, ipHash, since) == CountSince(a, pollId, ipHash, since) + CountSince(b, pollId, ipHash, since)
    decreases |b|
  {
    if |b| == 0 {
      assert a + b == a;
    } else {
      var b' := b[..|b| - 1];
      assert (a + b)[..|a + b| - 1] == a + b';
      assert (a + b)[|a + b| - 1] == b[|b| - 1];
      CountSinceAppend(a, b', pollId, ipHash, since);
    }
  }

  /** Appending an entry never lowers the count. */
  lemma CountSinceGrows(log: seq<Attempt>, a: Attempt, pollId: string, ipHash: string, since: int)
    ensures CountSince(log + [a], pollId, ipHash, since) >= CountSince(log, pollId, ipHash, since)
  {
    assert (log + [a])[..|log|] == log;
  }

  /**
   * A refused attempt stays in the log, so the same attempt repeated at the
   * same instant is refused again.
   */
  lemma RefusedStaysRefused(log: seq<Attempt>, pollId: string, ipHash: string, now: int, limits: Limits)
    requires !CheckAndRecord(log, pollId, ipHash, now, limits).0
    ensures !CheckAndRecord(CheckAndRecord(log, pollId, ipHash, now, limits).1, pollId, ipHash, now, limits).0
  {
    CountSinceGrows(log, Attempt(pollId, ipHash, now), pollId, ipHash, now - limits.window);
  }

  /** Entries of this poll and address stamped within `[from, to]`. */
  function CountWithin(log: seq<Attempt>, pollId: string, ipHash: string, from: int, to: int): nat {
    if |log| == 0 then 0
    else
      var last := log[|log| - 1];
      CountWithin(log[..|log| - 1], pollId, ipHash, from, to)
        + (if IsFrom(last, pollId, ipHash) && from <= last.attemptedAt <= to then 1 else 0)
  }

  /** The verdict on the last entry of `log`, taken right after it was appended. */
  predicate LastAllowed(log: seq<Attempt>, limits: Limits)
    requires |log| > 0
  {
    var last := log[|log| - 1];
    CountSince(log, last.pollId, last.ipHash, last.attemptedAt - limits.window) <= limits.maxAttempts
  }

  /**
   * Records the attempt, then decides on it. The attempt is allowed exactly
   * when the earlier entries within the window, plus the new entry itself
   * (which falls inside its own window unless the window is negative), do
   * not exceed the maximum.
   */
  function CheckAndRecord(log: seq<Attempt>, pollId: string, ipHash: string, now: int, limits: Limits)
    : (r: (bool, seq<Attempt>))
    ensures r.1 == log + [Attempt(pollId, ipHash, now)]
    ensures r.0 <==>
      CountSince(log, pollId, ipHash, now - limits.window) + (if limits.window >= 0 then 1 else 0) <= limits.maxAttempts
    ensures r.0 <==> LastAllowed(r.1, limits)
  {
    var recorded := log + [Attempt(pollId, ipHash, now)];
    assert recorded[..|recorded| - 1] == log;
    (CountSince(recorded, pollId, ipHash, now - limits.window) <= limits.maxAttempts, recorded)
  }

  /** Entries of this poll and address within `[from, to]` that the limiter allowed when they were recorded. */
  function AllowedWithin(log: seq<Attempt>, pollId: string, ipHash: string, from: int, to: int, limits: Limits): nat {
    if |log| == 0 then 0
    else
      var last := log[|log| - 1];
      AllowedWithin(log[..|log| - 1], pollId, ipHash, from, to, limits)
        + (if IsFrom(last, pollId, ipHash) && from <= last.attemptedAt <= to && LastAllowed(log, limits) then 1 else 0)
  }

  lemma {:induction false} AllowedAreRecorded(log: seq<Attempt>, pollId: string, ipHash: string, from: int, to: int, limits: Limits)
    ensures AllowedWithin(log, pollId, ipHash, from, to, limits) <= CountWithin(log, pollId, ipHash, from, to)
  {
    if |log| > 0 {
      AllowedAreRecorded(log[..|log| - 1], pollId, ipHash, from, to, limits);
    }
  }

  /** Entries within `[from, to]` are among those stamped at or after any `since <= from`. */
  lemma {:induction false} WithinIsSince(log: seq<Attempt>, pollId: string, ipHash: string, since: int, from: int, to: int)
    requires since <= from
    ensures CountWithin(log, pollId, ipHash, from, to) <= CountSince(log, pollId, ipHash, since)
  {
    if |log| > 0 {
      WithinIsSince(log[..|log| - 1], pollId, ipHash, since, from, to);
    }
  }

  /**
   * The limiter's guarantee: over any span of time no longer than the
   * window, at most `maxAttempts` attempts of one address on one poll are
   * allowed (none when the maximum is negative), however many are made.
   */
  lemma {:induction false} AllowedPerWindowBounded(log: seq<Attempt>, pollId: string, ipHash: string, from: int, to: int, limits: Limits)
    requires to - from <= limits.window
    ensures AllowedWithin(log, pollId, ipHash, from, to, limits) <= if limits.maxAttempts < 0 then 0 else limits.maxAttempts
  {
    if |log| > 0 {
      var prefix := log[..|log| - 1];
      var last := log[|log| - 1];
      AllowedPerWindowBounded(prefix, pollId, ipHash, from, to, limits);
      if IsFrom(last, pollId, ipHash) && from <= last.attemptedAt <= to && LastAllowed(log, limits) {
        AllowedAreRecorded(prefix, pollId, ipHash, from, to, limits);
        WithinIsSince(log, pollId, ipHash, last.attemptedAt - limits.window, from, to);
      }
    }
  }
}
