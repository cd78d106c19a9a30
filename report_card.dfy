/**
 * The report card shown for each answered question after the quiz: its
 * header, the result label, the code block and how each option is marked.
 */
module ReportCard {
  import opened Wrappers
  import opened Types
  import opened Text
  import opened Scoring
  import opened QuizCard

  /** `isBonus ? 'High Stakes Question' : 'Question ${index + 1}'`. */
  function Header(isBonus: bool, index: nat): (h: string)
    ensures isBonus ==> h == "High Stakes Question"
    ensures !isBonus ==> |h| > 9 && h[..9] == "Question " && DecimalValue(h[9..]) == index + 1
    ensures !isBonus ==> h[9] != '0' && forall i :: 9 <= i < |h| ==> '0' <= h[i] <= '9'
  {
    if isBonus then "High Stakes Question"
    else
      var digits := DecimalString(index + 1);
      DecimalRoundTrip(index + 1);
      assert ("Question " + digits)[9..] == digits;
      "Question " + digits
  }

  /** How many points a label announces: "+p points" or "-p points". */
  function PointsLabel(p: int): string {
    if p >= 0 then "+" + DecimalString(p) + " points" else "-" + DecimalString(-p) + " points"
  }

  /** The result label: points for a bonus question, "Correct" or "Incorrect" otherwise. */
  function ResultLabel(isBonus: bool, isCorrect: bool): (shown: string)
    ensures (shown == "Correct" || shown == "+10 points") <==> isCorrect
    ensures (shown == "+10 points" || shown == "-8 points") <==> isBonus
    ensures !isBonus && !isCorrect ==> shown == "Incorrect"
  {
    if isCorrect then (if isBonus then "+10 points" else "Correct")
    else (if isBonus then "-8 points" else "Incorrect")
  }

  /** A bonus answer's label announces exactly the points the final score gives it. */
  lemma BonusLabelMatchesScore(a: Answer)
    requires a.isBonus
    ensures ResultLabel(a.isBonus, a.isCorrect) == PointsLabel(BonusFor(a))
  {
    if a.isCorrect {
      assert DecimalString(10) == "10";
      assert PointsLabel(BonusFor(a)) == "+" + "10" + " points";
    } else {
      assert DecimalString(8) == "8";
      assert PointsLabel(BonusFor(a)) == "-" + "8" + " points";
    }
  }

  /** The report's code block: shown whenever the text has "```cpp", image or not. */
  function ReportCode(text: string): (r: Option<string>)
    ensures r.Some? <==> Contains(text, CppFence)
    ensures r.Some? ==> r.value == FencedCode(text)
  {
    if Contains(text, CppFence) then Some(FencedCode(text)) else None
  }

  /** Where the question card shows a code block, the report shows the same one. */
  lemma ReportShowsCardCode(text: string)
    ensures CodeBlock(text).Some? ==> ReportCode(text) == CodeBlock(text)
  {
  }

  /**
   * The option's class on the report: the correct option green, the
   * selected one red when the answer is wrong, the rest neutral.
   */
  function ReportMark(correctAnswer: int, selectedAnswer: Option<int>, isCorrect: bool, index: int): (r: Mark)
    ensures r == Correct <==> index == correctAnswer
    ensures r == Wrong <==> index != correctAnswer && selectedAnswer == Some(index) && !isCorrect
    ensures selectedAnswer.None? ==> r != Wrong
  {
    if index == correctAnswer then Correct
    else if selectedAnswer == Some(index) && !isCorrect then Wrong
    else Neutral
  }

  /**
   * For an answer recorded as the quiz records it (correct exactly when
   * the selected option is the correct one, a timeout selecting nothing),
   * the report marks every option as the answered question card did.
   */
  lemma ReportMatchesCard(correctAnswer: int, selectedAnswer: Option<int>, isCorrect: bool, index: int)
    requires isCorrect <==> selectedAnswer == Some(correctAnswer)
    ensures ReportMark(correctAnswer, selectedAnswer, isCorrect, index) == OptionMark(true, selectedAnswer, correctAnswer, index)
  {
  }
}
