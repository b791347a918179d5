/** `checkAnswers` of script.js: every zone is judged correct or incorrect,
    and the result is shown as a score line and a feedback message. */
module Scoring {
  import opened Wrappers
  import opened Cards
  import opened Zones
  import opened Text

  /** `totalPossibleMatches`, fixed at 3 whatever the number of zones. */
  const TotalPossibleMatches: nat := 3

  const AllCorrectMessage: string := "All answers are correct! Great job!"

  /** A zone is correct when it holds exactly two cards, both for the zone's
      question, with different tags. */
  predicate ZoneCorrect(z: Zone)
  {
    |z.held| == 2 &&
    z.held[0].questionId == z.questionId && z.held[1].questionId == z.questionId &&
    z.held[0].kind != z.held[1].kind
  }

  /** The number of correct zones. */
  function CountCorrect(zs: seq<Zone>): (n: nat)
    ensures n <= |zs|
    decreases |zs|
  {
    if zs == [] then 0
    else CountCorrect(zs[..|zs| - 1]) + (if ZoneCorrect(zs[|zs| - 1]) then 1 else 0)
  }

  /** The text of the score display. */
  function ScoreText(score: nat): string
  {
    "Score: " + Show(score) + " / " + Show(TotalPossibleMatches)
  }

  /** The feedback message for a number of incorrect zones. */
  function FeedbackText(incorrect: nat): string
  {
    if incorrect == 0 then AllCorrectMessage
    else "You have " + Show(incorrect) + " incorrect match(es)."
  }

  /** The score a score line reports. */
  function ReadScore(text: string): Option<nat>
  {
    Between(text, "Score: ", " / " + Show(TotalPossibleMatches))
  }

  /** The number of incorrect zones a feedback message reports. */
  function ReadFeedback(text: string): Option<nat>
  {
    if text == AllCorrectMessage then Some(0)
    else Between(text, "You have ", " incorrect match(es).")
  }

  /** The score line reports the score it was made from. */
  lemma ScoreTextReports(score: nat)
    ensures ReadScore(ScoreText(score)) == Some(score)
  {
    BetweenShow("Score: ", score, " / " + Show(TotalPossibleMatches));
    assert ScoreText(score) == "Score: " + Show(score) + (" / " + Show(TotalPossibleMatches));
  }

  /** The feedback is the all-correct message exactly when no zone is
      incorrect, and otherwise it reports the number of incorrect zones. */
  lemma FeedbackTextReports(incorrect: nat)
    ensures FeedbackText(incorrect) == AllCorrectMessage <==> incorrect == 0
    ensures ReadFeedback(FeedbackText(incorrect)) == Some(incorrect)
  {
    if incorrect > 0 {
      var t := FeedbackText(incorrect);
      assert t[0] == 'Y' != AllCorrectMessage[0];
      BetweenShow("You have ", incorrect, " incorrect match(es).");
    }
  }

  /** `checkAnswers`: one pass over the zones with the `score` and
      `incorrectCount` accumulators. Every zone counts once, either way. */
  method Tally(zones: seq<Zone>) returns (score: nat, incorrect: nat)
    ensures score == CountCorrect(zones)
    ensures score + incorrect == |zones|
  {
    score, incorrect := 0, 0;
    for i := 0 to |zones|
      invariant score == CountCorrect(zones[..i])
      invariant score + incorrect == i
    {
      assert zones[..i + 1][..i] == zones[..i];
      if |zones[i].held| == 2 {
        var q := zones[i].questionId;
        var card1, card2 := zones[i].held[0], zones[i].held[1];
        if card1.questionId == q && card2.questionId == q && card1.kind != card2.kind {
          score := score + 1;
        } else {
          incorrect := incorrect + 1;
        }
      } else {
        incorrect := incorrect + 1;
      }
    }
    assert zones[..|zones|] == zones;
  }

  /** Every zone is counted correct exactly when all zones are correct. */
  lemma {:induction false} AllCorrectIff(zs: seq<Zone>)
    ensures CountCorrect(zs) == |zs| <==> forall i :: 0 <= i < |zs| ==> ZoneCorrect(zs[i])
    decreases |zs|
  {
    if zs != [] {
      var init := zs[..|zs| - 1];
      AllCorrectIff(init);
      assert forall i :: 0 <= i < |init| ==> init[i] == zs[i];
    }
  }

  /** The score is zero exactly when no zone is correct. */
  lemma {:induction false} NoneCorrectIff(zs: seq<Zone>)
    ensures CountCorrect(zs) == 0 <==> forall i :: 0 <= i < |zs| ==> !ZoneCorrect(zs[i])
    decreases |zs|
  {
    if zs != [] {
      var init := zs[..|zs| - 1];
      NoneCorrectIff(init);
      assert forall i :: 0 <= i < |init| ==> init[i] == zs[i];
    }
  }

  /** With three zones the score lies between 0 and `totalPossibleMatches`,
      and the feedback praises the player exactly when all three are correct. */
  lemma ThreeZones(zs: seq<Zone>)
    requires |zs| == 3
    ensures CountCorrect(zs) <= TotalPossibleMatches
    ensures FeedbackText(|zs| - CountCorrect(zs)) == AllCorrectMessage
            <==> forall i :: 0 <= i < |zs| ==> ZoneCorrect(zs[i])
  {
    AllCorrectIff(zs);
    FeedbackTextReports(|zs| - CountCorrect(zs));
  }

  /** For zones holding deck cards: a zone is correct exactly when it holds
      the two deck cards of its question, in either order. */
  lemma CorrectIsTheQuestionsPair(z: Zone)
    requires forall i :: 0 <= i < |z.held| ==> z.held[i] in Deck()
    ensures ZoneCorrect(z) <==>
            1 <= z.questionId <= 3 &&
            (z.held == [CardFor(z.questionId, Udl), CardFor(z.questionId, Di)] ||
             z.held == [CardFor(z.questionId, Di), CardFor(z.questionId, Udl)])
  {
    DeckShape();
    if ZoneCorrect(z) {
      var q := z.questionId;
      var c0, c1 := z.held[0], z.held[1];
      DeckUnique(c0, CardFor(q, c0.kind));
      DeckUnique(c1, CardFor(q, c1.kind));
      assert z.held == [c0, c1];
    }
  }

  /** Scenario: all three zones correctly paired scores 3 / 3 with the
      all-correct message. */
  lemma ScenarioAllCorrect()
    ensures var d := Deck();
            var zs := [Zone(1, [d[0], d[3]]), Zone(2, [d[4], d[1]]), Zone(3, [d[2], d[5]])];
            CountCorrect(zs) == 3 && ScoreText(CountCorrect(zs)) == "Score: 3 / 3"
            && FeedbackText(|zs| - CountCorrect(zs)) == AllCorrectMessage
  {
    var d := Deck();
    var zs := [Zone(1, [d[0], d[3]]), Zone(2, [d[4], d[1]]), Zone(3, [d[2], d[5]])];
    AllCorrectIff(zs);
    assert Show(3) == "3";
  }

  /** Scenario: one zone empty and two zones correct scores 2 / 3 and
      reports one incorrect match. */
  lemma ScenarioOneEmpty()
    ensures var d := Deck();
            var zs := [Zone(1, []), Zone(2, [d[1], d[4]]), Zone(3, [d[5], d[2]])];
            CountCorrect(zs) == 2 && ScoreText(CountCorrect(zs)) == "Score: 2 / 3"
            && FeedbackText(|zs| - CountCorrect(zs)) == "You have 1 incorrect match(es)."
  {
    var d := Deck();
    var ys := [Zone(1, []), Zone(2, [d[1], d[4]]), Zone(3, [d[5], d[2]])];
    assert CountCorrect(ys) == 2 by {
      assert ys[..2] == [ys[0], ys[1]] && ys[..2][..1] == [ys[0]] && [ys[0]][..0] == [];
      assert CountCorrect([ys[0]]) == 0;
      assert CountCorrect(ys[..2]) == 1;
    }
    assert ScoreText(2) == "Score: 2 / 3" by {
      assert Show(2) == "2" && Show(3) == "3";
    }
    assert FeedbackText(1) == "You have 1 incorrect match(es)." by {
      assert Show(1) == "1";
    }
  }
}
