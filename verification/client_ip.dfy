/**
 * Identity inputs of a vote request: the client address used for rate
 * limiting (`get_client_ip`) and the voter identity taken from the
 * `voter_id` cookie. Hashing the address with the process salt is a
 * foreign computation and stays outside the model; its digest is an
 * input of the vote transition.
 */
module ClientIp {
  import opened Wrappers
  import opened Text

  /** The address reported when neither the header nor the connection yields one. */
  const Unknown: string := "unknown"

  /** The trimmed first comma-separated field of an `x-forwarded-for` value. */
  function ForwardedAddress(forwardedFor: string): (r: string)
    ensures IsStripped(r) && |r| <= |forwardedFor|
    ensures ',' !in r
    ensures r == "" <==> AllSpace(FirstField(forwardedFor))
    ensures IsTrimOf(r, FirstField(forwardedFor))
  {
    StripKeeps(FirstField(forwardedFor));
    StripIsTrim(FirstField(forwardedFor));
    Strip(FirstField(forwardedFor))
  }

  /**
   * The forwarded address is a contiguous piece of the header that lies
   * before its first comma, with only whitespace between it and the start
   * of the header or that comma.
   */
  lemma ForwardedAddressIsFirstField(forwardedFor: string) returns (lo: nat, hi: nat)
    ensures lo <= hi <= |forwardedFor|
    ensures ForwardedAddress(forwardedFor) == forwardedFor[lo..hi]
    ensures ',' !in forwardedFor[..hi] && AllSpace(forwardedFor[..lo])
    ensures hi <= |FirstField(forwardedFor)| && AllSpace(forwardedFor[hi..|FirstField(forwardedFor)|])
  {
    var field := FirstField(forwardedFor);
    lo, hi := StripBounds(field);
    InsidePrefix(forwardedFor, |field|, lo, hi);
  }

  /** Facts about slices of the prefix `s[..n]` carried over to slices of `s` itself. */
  lemma InsidePrefix(s: string, n: nat, lo: nat, hi: nat)
    requires lo <= hi <= n <= |s|
    requires ',' !in s[..n] && AllSpace(s[..n][..lo]) && AllSpace(s[..n][hi..])
    ensures ',' !in s[..hi] && AllSpace(s[..lo]) && AllSpace(s[hi..n])
    ensures s[..n][lo..hi] == s[lo..hi]
  {
    assert s[..hi] == s[..n][..hi];
    assert forall c :: c in s[..n][..hi] ==> c in s[..n];
    assert s[..lo] == s[..n][..lo];
    assert s[hi..n] == s[..n][hi..];
  }

  /**
   * The client address of a request. `forwardedFor` is the value of the
   * `x-forwarded-for` header, or `""` when the header is absent; `peer` is
   * the connection's host, `None` when the server knows no client.
   */
  function ClientAddress(forwardedFor: string, peer: Option<string>): (r: string)
    ensures r != ""
    ensures ForwardedAddress(forwardedFor) != "" ==> r == ForwardedAddress(forwardedFor)
    ensures ForwardedAddress(forwardedFor) == "" && peer.Some? && peer.value != "" ==> r == peer.value
    ensures ForwardedAddress(forwardedFor) == "" && (peer.None? || peer.value == "") ==> r == Unknown
  {
    if forwardedFor != "" && ForwardedAddress(forwardedFor) != "" then ForwardedAddress(forwardedFor)
    else if peer.Some? && peer.value != "" then peer.value
    else Unknown
  }

  /** The voter identity: the `voter_id` cookie when it is present and non-empty, else the freshly minted one. */
  function VoterIdentity(cookie: Option<string>, minted: string): (r: string)
    ensures cookie.Some? && cookie.value != "" ==> r == cookie.value
    ensures cookie.None? || cookie.value == "" ==> r == minted
  {
    if cookie.Some? && cookie.value != "" then cookie.value else minted
  }
}
