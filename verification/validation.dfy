/**
 * Validation of the poll-creation and vote request bodies
 * (`CreatePollRequest` and `VoteRequest` in backend/main.py).
 *
 * The question field first passes its declared length bounds on the raw
 * text, then the field validator strips it and rejects a blank result.
 * The options validator keeps the stripped, non-blank entries in their
 * original order and bounds how many remain. Errors of both fields are
 * reported together, as the request model does.
 */
module Validation {
  import opened Wrappers
  import opened Text

  const MinQuestionLength: nat := 1
  const MaxQuestionLength: nat := 500
  const MinOptions: nat := 2
  const MaxOptions: nat := 20

  datatype FieldError =
    | QuestionTooShort   // raw question shorter than MinQuestionLength
    | QuestionTooLong    // raw question longer than MaxQuestionLength
    | QuestionBlank      // "question cannot be empty"
    | TooFewOptions      // "at least 2 non-empty options are required"
    | TooManyOptions     // "maximum 20 options allowed"
    | OptionIdEmpty      // vote body with an empty `option_id`

  /** A creation request that passed validation. */
  datatype PollRequest = PollRequest(question: string, options: seq<string>)

  /** The `question` field: length bounds on the raw text, then strip and reject blank. */
  function ValidateQuestion(raw: string): (r: Result<string, FieldError>)
    ensures r.Ok? <==> MinQuestionLength <= |raw| <= MaxQuestionLength && !AllSpace(raw)
    ensures r.Ok? ==> IsTrimOf(r.value, raw) && 0 < |r.value| <= MaxQuestionLength
    ensures |raw| < MinQuestionLength ==> r == Err(QuestionTooShort)
    ensures |raw| > MaxQuestionLength ==> r == Err(QuestionTooLong)
    ensures r.Err? && MinQuestionLength <= |raw| <= MaxQuestionLength ==> r == Err(QuestionBlank)
  {
    StripEmptyIff(raw);
    StripIsTrim(raw);
    if |raw| < MinQuestionLength then Err(QuestionTooShort)
    else if |raw| > MaxQuestionLength then Err(QuestionTooLong)
    else
      var text := Strip(raw);
      if text == "" then Err(QuestionBlank) else Ok(text)
  }

  /** A usable option text: non-empty, with no surrounding whitespace. */
  predicate IsOptionText(x: string) {
    x != "" && IsStripped(x)
  }

  predicate AllOptionTexts(r: seq<string>) {
    forall k :: 0 <= k < |r| ==> IsOptionText(r[k])
  }

  /** The list comprehension of the options validator: stripped entries, blank ones dropped, order kept. */
  function CleanOptions(items: seq<string>): (r: seq<string>)
    ensures |r| <= |items|
    ensures AllOptionTexts(r)
  {
    if |items| == 0 then []
    else
      var text := Strip(items[0]);
      var rest := CleanOptions(items[1..]);
      if text == "" then rest
      else
        ConsOptionText(text, rest);
        [text] + rest
  }

  lemma ConsOptionText(x: string, r: seq<string>)
    requires IsOptionText(x) && AllOptionTexts(r)
    ensures AllOptionTexts([x] + r)
  {
  }

  /** Cleaning distributes over concatenation: each entry is handled on its own and the order is kept. */
  lemma {:induction false} CleanOptionsAppend(a: seq<string>, b: seq<string>)
    ensures CleanOptions(a + b) == CleanOptions(a) + CleanOptions(b)
  {
    if |a| == 0 {
      assert a + b == b;
    } else {
      assert (a + b)[0] == a[0];
      assert (a + b)[1..] == a[1..] + b;
      CleanOptionsAppend(a[1..], b);
    }
  }

  /** A single entry survives, stripped, exactly when it is not all whitespace. */
  lemma CleanOptionsSingle(x: string)
    ensures AllSpace(x) ==> CleanOptions([x]) == []
    ensures !AllSpace(x) ==> CleanOptions([x]) == [Strip(x)]
  {
    StripEmptyIff(x);
    assert [x][1..] == [];
  }

  /** A list of usable option texts is its own cleaning. */
  lemma {:induction false} CleanOptionTexts(r: seq<string>)
    requires AllOptionTexts(r)
    ensures CleanOptions(r) == r
  {
    if |r| > 0 {
      assert AllOptionTexts(r[1..]) by {
        forall k | 0 <= k < |r[1..]| ensures IsOptionText(r[1..][k]) {
          assert r[1..][k] == r[k + 1];
        }
      }
      CleanOptionTexts(r[1..]);
      assert [r[0]] + r[1..] == r;
    }
  }

  /** Cleaning an already cleaned list changes nothing. */
  lemma CleanOptionsIdempotent(items: seq<string>)
    ensures CleanOptions(CleanOptions(items)) == CleanOptions(items)
  {
    CleanOptionTexts(CleanOptions(items));
  }

  /** The `options` field: cleaned entries, at least MinOptions and at most MaxOptions of them. */
  function ValidateOptions(items: seq<string>): (r: Result<seq<string>, FieldError>)
    ensures r.Ok? <==> MinOptions <= |CleanOptions(items)| <= MaxOptions
    ensures r.Ok? ==> r.value == CleanOptions(items)
    ensures r.Ok? ==> AllOptionTexts(r.value)
    ensures |CleanOptions(items)| < MinOptions ==> r == Err(TooFewOptions)
    ensures |CleanOptions(items)| > MaxOptions ==> r == Err(TooManyOptions)
  {
    var cleaned := CleanOptions(items);
    if |cleaned| < MinOptions then Err(TooFewOptions)
    else if |cleaned| > MaxOptions then Err(TooManyOptions)
    else Ok(cleaned)
  }

  /** The whole creation body: accepted when both fields are, otherwise each failing field's error once, question first. */
  function ValidatePollRequest(question: string, options: seq<string>): (r: Result<PollRequest, seq<FieldError>>)
    ensures r.Ok? <==> ValidateQuestion(question).Ok? && ValidateOptions(options).Ok?
    ensures r.Ok? ==> IsTrimOf(r.value.question, question) && r.value.question != ""
    ensures r.Ok? ==> r.value.options == CleanOptions(options)
    ensures r.Ok? ==> MinOptions <= |r.value.options| <= MaxOptions
    ensures r.Err? ==> 1 <= |r.error| <= 2
    ensures r.Err? ==> forall e :: e in r.error <==>
      (ValidateQuestion(question) == Err(e) || ValidateOptions(options) == Err(e))
    ensures r.Err? ==>
      |r.error| == (if ValidateQuestion(question).Err? then 1 else 0) + (if ValidateOptions(options).Err? then 1 else 0)
    ensures r.Err? && ValidateQuestion(question).Err? ==> r.error[0] == ValidateQuestion(question).error
  {
    var q := ValidateQuestion(question);
    var o := ValidateOptions(options);
    if q.Ok? && o.Ok? then Ok(PollRequest(q.value, o.value))
    else if q.Ok? then Err([o.error])
    else if o.Ok? then Err([q.error])
    else Err([q.error, o.error])
  }

  /** The vote body: its `option_id` must be at least one character long. */
  function ValidateVoteRequest(optionId: string): (r: Result<string, FieldError>)
    ensures r.Ok? <==> optionId != ""
    ensures r.Ok? ==> r.value == optionId
  {
    if |optionId| >= 1 then Ok(optionId) else Err(OptionIdEmpty)
  }
}
