/**
 * The string helpers the request handling relies on: Python's `str.strip()`
 * with no argument and the first field of `str.split(",")`.
 * Python's `str` holds code points, lone surrogates included; the model
 * restricts strings to Unicode scalar values. No surrogate is whitespace,
 * so stripping is unaffected.
 */
module Text {

  /** The characters Python's `str.isspace()` accepts, i.e. the ones `str.strip()` removes. */
  predicate IsSpace(c: char) {
    || c == ' ' || c == '\t' || c == '\n' || c == '\r'
    || c == '\U{0B}' || c == '\U{0C}'
    || ('\U{1C}' <= c <= '\U{1F}')
    || c == '\U{85}' || c == '\U{A0}' || c == '\U{1680}'
    || ('\U{2000}' <= c <= '\U{200A}')
    || c == '\U{2028}' || c == '\U{2029}' || c == '\U{202F}'
    || c == '\U{205F}' || c == '\U{3000}'
  }

  /** Every character of `s` is whitespace. */
  predicate AllSpace(s: string) {
    forall i :: 0 <= i < |s| ==> IsSpace(s[i])
  }

  /** Neither the first nor the last character of `s` is whitespace. */
  predicate IsStripped(s: string) {
    |s| == 0 || (!IsSpace(s[0]) && !IsSpace(s[|s| - 1]))
  }

  /**
   * `r` is what remains of `s` once the surrounding whitespace is cut away:
   * a slice of `s` with nothing but whitespace on either side of it and
   * no whitespace at either of its own ends.
   */
  ghost predicate IsTrimOf(r: string, s: string) {
    && IsStripped(r)
    && exists lo, hi :: 0 <= lo <= hi <= |s| && r == s[lo..hi] && AllSpace(s[..lo]) && AllSpace(s[hi..])
  }

  /** `s` with its leading whitespace removed (`str.lstrip()`). */
  function TrimStart(s: string): (r: string)
    ensures |r| <= |s| && r == s[|s| - |r|..]
    ensures AllSpace(s[..|s| - |r|])
    ensures |r| > 0 ==> !IsSpace(r[0])
  {
    if |s| > 0 && IsSpace(s[0]) then TrimStart(s[1..]) else s
  }

  /** `s` with its trailing whitespace removed (`str.rstrip()`). */
  function TrimEnd(s: string): (r: string)
    ensures |r| <= |s| && r == s[..|r|]
    ensures AllSpace(s[|r|..])
    ensures |r| > 0 ==> !IsSpace(r[|r| - 1])
  {
    if |s| > 0 && IsSpace(s[|s| - 1]) then TrimEnd(s[..|s| - 1]) else s
  }

  /** Python's `s.strip()`: both ends of `s` cleared of whitespace. */
  function Strip(s: string): (r: string)
    ensures |r| <= |s| && IsStripped(r)
    ensures r == [] <==> AllSpace(s)
  {
    TrimEmptyIff(s);
    TrimEnd(TrimStart(s))
  }

  /** Trimming leaves nothing exactly when there was nothing but whitespace. */
  lemma TrimEmptyIff(s: string)
    ensures TrimEnd(TrimStart(s)) == [] <==> AllSpace(s)
  {
    var t := TrimStart(s);
    var n := |s| - |t|;
    if t == [] {
      assert s[..n] == s;
    } else {
      assert s[n] == t[0];
      assert t[0..] == t;
    }
  }

  /** Where the stripped text sits in its input: between two runs of whitespace. */
  lemma StripBounds(s: string) returns (lo: nat, hi: nat)
    ensures lo <= hi <= |s| && Strip(s) == s[lo..hi]
    ensures AllSpace(s[..lo]) && AllSpace(s[hi..])
  {
    var t := TrimStart(s);
    var r := TrimEnd(t);
    lo := |s| - |t|;
    hi := lo + |r|;
    assert s[lo..hi] == r;
    assert s[hi..] == t[|r|..];
  }

  /** Stripping only removes characters: everything in the result comes from the input. */
  lemma StripKeeps(s: string)
    ensures forall c :: c in Strip(s) ==> c in s
  {
    var lo, hi := StripBounds(s);
    assert forall c :: c in s[lo..hi] ==> c in s;
  }

  /** What `Strip` returns is the trim of its input (and, by `TrimIsUnique`, the only one). */
  lemma StripIsTrim(s: string)
    ensures IsTrimOf(Strip(s), s)
  {
    var lo, hi := StripBounds(s);
  }

  /** Stripping a whole string of whitespace leaves nothing, and only such a string strips to nothing. */
  lemma StripEmptyIff(s: string)
    ensures Strip(s) == "" <==> AllSpace(s)
  {
    var r := Strip(s);
    StripIsTrim(s);
    var lo, hi :| 0 <= lo <= hi <= |s| && r == s[lo..hi] && AllSpace(s[..lo]) && AllSpace(s[hi..]);
    if r == "" {
      forall i | 0 <= i < |s| ensures IsSpace(s[i]) {
        if i < lo { assert s[..lo][i] == s[i]; } else { assert s[hi..][i - hi] == s[i]; }
      }
    } else {
      assert s[lo] == r[0];
    }
  }

  /**
   * There is only one way to trim a string: any two slices that both satisfy
   * `IsTrimOf` for the same `s` are equal, so `Strip` is fully determined by it.
   */
  lemma TrimIsUnique(r1: string, r2: string, s: string)
    requires IsTrimOf(r1, s) && IsTrimOf(r2, s)
    ensures r1 == r2
  {
    var lo1, hi1 :| 0 <= lo1 <= hi1 <= |s| && r1 == s[lo1..hi1] && AllSpace(s[..lo1]) && AllSpace(s[hi1..]);
    var lo2, hi2 :| 0 <= lo2 <= hi2 <= |s| && r2 == s[lo2..hi2] && AllSpace(s[..lo2]) && AllSpace(s[hi2..]);
    if r1 == [] || r2 == [] {
      EmptyTrimMeansAllSpace(r1, s, lo1, hi1);
      EmptyTrimMeansAllSpace(r2, s, lo2, hi2);
    } else {
      SameBounds(s, lo1, hi1, lo2, hi2);
      SameBounds(s, lo2, hi2, lo1, hi1);
    }
  }

  /** When one of two candidate trims is empty, `s` is all whitespace and so both are empty. */
  lemma EmptyTrimMeansAllSpace(r: string, s: string, lo: int, hi: int)
    requires 0 <= lo <= hi <= |s| && r == s[lo..hi] && AllSpace(s[..lo]) && AllSpace(s[hi..])
    requires IsStripped(r)
    ensures r == [] <==> AllSpace(s)
  {
    if r == [] {
      forall i | 0 <= i < |s| ensures IsSpace(s[i]) {
        if i < lo { assert s[..lo][i] == s[i]; } else { assert s[hi..][i - hi] == s[i]; }
      }
    } else {
      assert s[lo] == r[0];
    }
  }

  /** Two non-empty trims of `s` start and end at the same positions. */
  lemma SameBounds(s: string, lo1: int, hi1: int, lo2: int, hi2: int)
    requires 0 <= lo1 < hi1 <= |s| && IsStripped(s[lo1..hi1]) && AllSpace(s[..lo1]) && AllSpace(s[hi1..])
    requires 0 <= lo2 < hi2 <= |s| && IsStripped(s[lo2..hi2]) && AllSpace(s[..lo2]) && AllSpace(s[hi2..])
    ensures lo1 <= lo2 && hi2 <= hi1
  {
  }

  /** A string that is already stripped is its own strip. */
  lemma StripStripped(s: string)
    requires IsStripped(s)
    ensures Strip(s) == s
  {
    assert IsTrimOf(s, s) by {
      assert s == s[0..|s|] && s[..0] == [] && s[|s|..] == [];
    }
    StripIsTrim(s);
    TrimIsUnique(Strip(s), s, s);
  }

  /** Stripping twice is stripping once. */
  lemma StripIdempotent(s: string)
    ensures Strip(Strip(s)) == Strip(s)
  {
    StripStripped(Strip(s));
  }

  /**
   * Python's `s.split(",")[0]`: the text before the first comma, or all of
   * `s` when it contains none (including `""` for the empty string).
   */
  function FirstField(s: string): (r: string)
    ensures |r| <= |s| && r == s[..|r|]
    ensures ',' !in r
    ensures |r| == |s| || s[|r|] == ','
  {
    if |s| == 0 || s[0] == ',' then "" else [s[0]] + FirstField(s[1..])
  }
}
