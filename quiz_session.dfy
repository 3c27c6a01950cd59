/** One quiz session: the question index, the chosen option, the score and
    the finished flag of the quiz page, with its click handlers and the
    closing message (client/src/pages/quiz.tsx). */
module QuizSession {
  import opened Common
  import opened Data
  import opened QuizGen

  /** What the quiz route's id selects: the proverbs sentinel, or a lesson
      number (None when the id does not parse as an integer). */
  datatype QuizId = ProverbsQuiz | LessonQuiz(id: Option<int>)

  /** The route id "proverbs" is the sentinel; any other id is read as an
      integer, `parsed` being that reading. */
  function RouteQuizId(param: string, parsed: Option<int>): (q: QuizId)
    ensures q.ProverbsQuiz? <==> param == "proverbs"
    ensures q.LessonQuiz? ==> q.id == parsed
  {
    if param == "proverbs" then ProverbsQuiz else LessonQuiz(parsed)
  }

  /** The questions the page asks for a route id: the default-size quiz for a
      lesson number. The sentinel and an unparsable id select no card, since
      no card's lesson equals them, so they get no questions. */
  method QuizForRoute(allCards: seq<Flashcard>, param: string, parsed: Option<int>) returns (qs: seq<QuizQuestion>)
    ensures param == "proverbs" || parsed.None? ==> qs == []
    ensures param != "proverbs" && parsed.Some? ==>
      && |qs| == Min(DefaultQuestionCount, |DeckCards(allCards, parsed.value)|)
      && multiset(Cards(qs)) <= multiset(DeckCards(allCards, parsed.value))
      && forall i :: 0 <= i < |qs| ==> WellFormed(qs[i], DistractorPool(allCards, parsed.value))
  {
    var quizId := RouteQuizId(param, parsed);
    match quizId {
      case ProverbsQuiz => qs := [];
      case LessonQuiz(id) =>
        match id {
          case None => qs := [];
          case Some(n) => qs := GenerateQuiz(allCards, n, DefaultQuestionCount);
        }
    }
  }

  /** Math.round(score / total * 100) on exact rationals: halves round up. */
  function Percentage(score: int, total: int): int
    requires total > 0
  {
    (200 * score + total) / (2 * total)
  }

  const Outstanding := "Outstanding!"
  const WellDone := "Well done!"
  const GoodEffort := "Good effort!"

  /** The closing message. With no questions the percentage is not a number,
      every comparison fails and the message is the last one. */
  function ResultMessage(score: int, total: nat): string {
    if total == 0 then GoodEffort
    else if Percentage(score, total) >= 90 then Outstanding
    else if Percentage(score, total) >= 70 then WellDone
    else GoodEffort
  }

  lemma DivAtLeast(a: int, b: int, c: int)
    requires b > 0
    ensures a / b >= c <==> a >= c * b
  {
    var q, r := a / b, a % b;
    assert a == b * q + r && 0 <= r < b;
    if q >= c {
      assert b * q >= b * c;
    } else {
      assert q <= c - 1;
      assert b * q <= b * (c - 1);
    }
  }

  /** The thresholds in exact terms: 89.5% already rounds to 90 and 69.5%
      to 70, so the messages split at 179/200 and 139/200 of the questions. */
  lemma MessageThresholds(score: int, total: nat)
    requires total > 0
    ensures ResultMessage(score, total) == Outstanding <==> 200 * score >= 179 * total
    ensures ResultMessage(score, total) == WellDone <==> 139 * total <= 200 * score < 179 * total
    ensures ResultMessage(score, total) == GoodEffort <==> 200 * score < 139 * total
  {
    DivAtLeast(200 * score + total, 2 * total, 90);
    DivAtLeast(200 * score + total, 2 * total, 70);
  }

  /** A score between none and all of the questions gives a percentage
      between 0 and 100; a full score gives 100, and a score still reads as
      100 once it is within half a percent of full. */
  lemma PercentageBounds(score: int, total: int)
    requires total > 0 && 0 <= score <= total
    ensures 0 <= Percentage(score, total) <= 100
    ensures Percentage(score, total) == 100 <==> 200 * score >= 199 * total
    ensures score == total ==> Percentage(score, total) == 100
  {
    DivAtLeast(200 * score + total, 2 * total, 0);
    DivAtLeast(200 * score + total, 2 * total, 100);
    DivAtLeast(200 * score + total, 2 * total, 101);
  }

  /** More correct answers never give a lesser message. */
  lemma MessageMonotonic(s1: int, s2: int, total: nat)
    requires total > 0 && s1 <= s2
    ensures ResultMessage(s1, total) == Outstanding ==> ResultMessage(s2, total) == Outstanding
    ensures ResultMessage(s1, total) == WellDone ==> ResultMessage(s2, total) != GoodEffort
  {
    MessageThresholds(s1, total);
    MessageThresholds(s2, total);
  }

  class QuizGame {
    var questions: seq<QuizQuestion>
    var currentQuestionIndex: int
    var selectedOption: Option<int>
    var score: int
    var isFinished: bool

    /** The session invariant: at most one point per question asked so far,
        counting the current one only once it is answered, and never more
        than the number of questions; a finished session stands on its last
        question, answered. */
    ghost predicate Valid()
      reads this
    {
      && 0 <= score
      && 0 <= currentQuestionIndex
      && (|questions| > 0 ==> currentQuestionIndex < |questions|)
      && score <= currentQuestionIndex + (if selectedOption.Some? then 1 else 0) <= |questions|
      && (isFinished ==> selectedOption.Some? && currentQuestionIndex == |questions| - 1)
    }

    /** A fresh session over a question set. */
    constructor (qs: seq<QuizQuestion>)
      ensures Valid()
      ensures questions == qs
      ensures currentQuestionIndex == 0 && selectedOption == None && score == 0 && !isFinished
    {
      questions := qs;
      currentQuestionIndex, selectedOption, score, isFinished := 0, None, 0, false;
    }

    /** A new question set resets the whole session. */
    method Reset(qs: seq<QuizQuestion>)
      modifies this
      ensures Valid()
      ensures questions == qs
      ensures currentQuestionIndex == 0 && selectedOption == None && score == 0 && !isFinished
    {
      questions := qs;
      currentQuestionIndex := 0;
      selectedOption := None;
      score := 0;
      isFinished := false;
    }

    /** Clicking option `index`: ignored once an option is chosen; otherwise
        records the choice and scores one point exactly when it is the
        correct option. */
    method HandleOptionClick(index: int)
      requires Valid()
      requires selectedOption.None? ==> |questions| > 0
      modifies this
      ensures Valid()
      ensures questions == old(questions) && currentQuestionIndex == old(currentQuestionIndex)
      ensures isFinished == old(isFinished)
      ensures old(selectedOption).Some? ==> selectedOption == old(selectedOption) && score == old(score)
      ensures old(selectedOption).None? ==>
        && selectedOption == Some(index)
        && score == old(score) + (if index == questions[currentQuestionIndex].correctOptionIndex then 1 else 0)
    {
      if selectedOption.Some? {
        return;
      }
      selectedOption := Some(index);
      var isCorrect := index == questions[currentQuestionIndex].correctOptionIndex;
      if isCorrect {
        score := score + 1;
      }
    }

    /** Moving on, offered only once the current question is answered: to
        the next question with no choice made, or, on the last question, to
        the finished state with index and score kept. */
    method HandleNext()
      requires Valid() && selectedOption.Some?
      modifies this
      ensures Valid()
      ensures questions == old(questions) && score == old(score)
      ensures old(currentQuestionIndex) < |questions| - 1 ==>
        && currentQuestionIndex == old(currentQuestionIndex) + 1
        && selectedOption == None
        && isFinished == old(isFinished)
      ensures old(currentQuestionIndex) >= |questions| - 1 ==>
        && currentQuestionIndex == old(currentQuestionIndex)
        && selectedOption == old(selectedOption)
        && isFinished
    {
      if currentQuestionIndex < |questions| - 1 {
        currentQuestionIndex := currentQuestionIndex + 1;
        selectedOption := None;
      } else {
        isFinished := true;
      }
    }

    /** The message shown when the session is over: the score is then out of
        a non-empty question set, and the message is fixed by where it falls
        against the rounding thresholds. */
    function Message(): (m: string)
      requires Valid() && isFinished
      reads this
      ensures 0 <= score <= |questions| && |questions| > 0
      ensures m == Outstanding <==> 200 * score >= 179 * |questions|
      ensures m == WellDone <==> 139 * |questions| <= 200 * score < 179 * |questions|
      ensures m == GoodEffort <==> 200 * score < 139 * |questions|
    {
      MessageThresholds(score, |questions|);
      ResultMessage(score, |questions|)
    }
  }

  /** What a session can show at the end: a score out of the number of
      questions and one of the three messages matching it. */
  lemma FinishedSummary(score: int, total: nat)
    requires 0 <= score <= total && total > 0
    ensures 0 <= Percentage(score, total) <= 100
    ensures ResultMessage(score, total) == Outstanding <==> Percentage(score, total) >= 90
    ensures score == total ==> ResultMessage(score, total) == Outstanding
  {
    PercentageBounds(score, total);
  }
}
