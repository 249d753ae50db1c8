/** Worked examples: the model evaluated on small concrete inputs, with the results proved. */
module Scenarios {
  import opened Wrappers
  import opened Text
  import opened Validation
  import opened Polls
  import opened RateLimit
  import opened PollStore
  import opened Admission

  /** The creation body of the example, surrounding blanks included, validates to the trimmed texts. */
  lemma LunchRequestValidates()
    ensures ValidatePollRequest("Lunch?", ["Pizza", " Sushi "]) == Ok(PollRequest("Lunch?", ["Pizza", "Sushi"]))
  {
    LunchQuestionValidates();
    LunchOptionsValidate();
  }

  lemma LunchQuestionValidates()
    ensures ValidateQuestion("Lunch?") == Ok("Lunch?")
  {
    StripStripped("Lunch?");
    StripEmptyIff("Lunch?");
  }

  lemma LunchOptionsValidate()
    ensures ValidateOptions(["Pizza", " Sushi "]) == Ok(["Pizza", "Sushi"])
  {
    CleanLunchOptions();
  }

  lemma CleanLunchOptions()
    ensures CleanOptions(["Pizza", " Sushi "]) == ["Pizza", "Sushi"]
  {
    CleanPizza();
    CleanSushi();
    CleanOptionsAppend(["Pizza"], [" Sushi "]);
    assert ["Pizza"] + [" Sushi "] == ["Pizza", " Sushi "];
  }

  lemma CleanPizza()
    ensures CleanOptions(["Pizza"]) == ["Pizza"]
  {
    StripPizza();
    CleanOptionsSingle("Pizza");
  }

  lemma CleanSushi()
    ensures CleanOptions([" Sushi "]) == ["Sushi"]
  {
    StripSushi();
    CleanOptionsSingle(" Sushi ");
  }

  lemma StripPizza()
    ensures Strip("Pizza") == "Pizza"
  {
    StripStripped("Pizza");
  }

  lemma StripSushi()
    ensures Strip(" Sushi ") == "Sushi"
  {
    assert " Sushi "[1..] == "Sushi ";
    assert TrimStart("Sushi ") == "Sushi ";
    assert "Sushi "[..5] == "Sushi";
    assert TrimEnd("Sushi") == "Sushi";
  }

  function LunchIds(k: nat): string {
    if k == 0 then "p" else "s"
  }

  /**
   * Create "Lunch?" with Pizza and Sushi; voter A picks Pizza, tries again
   * and is refused, voter B picks Sushi: two votes in total, one each.
   */
  lemma LunchPoll()
    ensures var created := CreatePoll(Empty, "X", "Lunch?", ["Pizza", "Sushi"], LunchIds, 0);
      && created.Ok?
      && var (o1, s1) := Vote(created.value.1, "X", "p", "A", "h", 1, DefaultLimits);
      && var (o2, s2) := Vote(s1, "X", "p", "A", "h", 2, DefaultLimits);
      && var (o3, s3) := Vote(s2, "X", "s", "B", "h", 3, DefaultLimits);
      && o1.Voted? && o1.poll.totalVotes == 1 && o1.poll.options[0].votes == 1
      && o2 == AlreadyVoted && s2.polls == s1.polls
      && o3.Voted? && o3.poll.totalVotes == 2 && o3.poll.options[0].votes == 1 && o3.poll.options[1].votes == 1
  {
    var created := CreatePoll(Empty, "X", "Lunch?", ["Pizza", "Sushi"], LunchIds, 0);
    var s0 := created.value.1;
    var poll := s0.polls["X"];
    assert Ids(poll.options) == ["p", "s"];
    assert FirstIndex(["p", "s"], "p") == 0;
    assert FirstIndex(["p", "s"], "s") == 1;
    var (o1, s1) := Vote(s0, "X", "p", "A", "h", 1, DefaultLimits);
    assert CountSince([], "X", "h", 1 - 60) == 0;
    assert o1.Voted?;
    assert HasVoted(s1.votes, "X", "A") by { assert s1.votes[0].voterId == "A"; }
    var (o2, s2) := Vote(s1, "X", "p", "A", "h", 2, DefaultLimits);
    assert CountSince(s1.attempts, "X", "h", 2 - 60) == 1;
    assert o2 == AlreadyVoted;
    assert !HasVoted(s2.votes, "X", "B");
    var (o3, s3) := Vote(s2, "X", "s", "B", "h", 3, DefaultLimits);
    assert CountSince(s2.attempts, "X", "h", 3 - 60) == 2;
  }

  /**
   * With at most 3 attempts per 60-second window, four attempts from one
   * address within ten seconds: the first three pass, the fourth is refused.
   */
  lemma FourthAttemptLimited()
    ensures var limits := Limits(60, 3);
      var (a1, l1) := CheckAndRecord([], "X", "h", 0, limits);
      var (a2, l2) := CheckAndRecord(l1, "X", "h", 3, limits);
      var (a3, l3) := CheckAndRecord(l2, "X", "h", 6, limits);
      var (a4, l4) := CheckAndRecord(l3, "X", "h", 9, limits);
      a1 && a2 && a3 && !a4 && |l4| == 4
  {
    var l1 := [Attempt("X", "h", 0)];
    var l2 := l1 + [Attempt("X", "h", 3)];
    var l3 := l2 + [Attempt("X", "h", 6)];
    assert l1[..0] == [];
    assert l2[..1] == l1;
    assert l3[..2] == l2;
    assert CountSince(l1, "X", "h", 3 - 60) == 1;
    assert CountSince(l1, "X", "h", 6 - 60) == 1;
    assert CountSince(l2, "X", "h", 6 - 60) == 2;
    assert CountSince(l1, "X", "h", 9 - 60) == 1;
    assert CountSince(l2, "X", "h", 9 - 60) == 2;
    assert CountSince(l3, "X", "h", 9 - 60) == 3;
  }
}
