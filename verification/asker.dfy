/** The state transitions of `AskerComponent`: answering the shown question and moving
    on to the next one. */
module Asker {
  import opened Results
  import opened Corpus
  import AnswerIndexPipe

  datatype AskerState = Loading | Asking | Wrong | Right

  datatype Difficulty = Impossible | Difficult | JustRight | Easy | Obvious

  /** The component's fields. `state` and `question` are unset until the first load
      starts and the first question arrives. */
  datatype Asker = Asker(
    state: Option<AskerState>,
    question: Option<ShuffledQuestion>,
    correctStreak: int,
    difficulty: Option<Difficulty>,
    feedbackComment: string)

  /** A freshly constructed component. An unset comment is falsy, like "". */
  const Initial := Asker(None, None, 0, None, "")

  /** The player picked an answer equal to the correct one. */
  predicate Hits(q: ShuffledQuestion, index: int) {
    0 <= index < |q.shuffledAnswers| && q.shuffledAnswers[index] == q.question.correctAnswer
  }

  /** `answerIndex`. An index past the answers selects `undefined`, which is never the
      correct answer; with no question loaded the read throws. */
  function AnswerIndex(a: Asker, index: int): (r: Result<Asker>)
    ensures r.Err? <==> a.question.None?
    ensures r.Err? ==> r.error == TypeError
    ensures r.Ok? ==> r.value.state == Some(Right) || r.value.state == Some(Wrong)
    ensures r.Ok? ==> (r.value.state == Some(Right) <==> Hits(a.question.value, index))
    ensures r.Ok? ==> r.value.correctStreak == if Hits(a.question.value, index) then a.correctStreak + 1 else 0
    ensures r.Ok? ==> r.value.question == a.question
    ensures r.Ok? ==> r.value.difficulty.None? && r.value.feedbackComment == ""
  {
    if a.question.None? then Err(TypeError)
    else
      var q := a.question.value;
      var selected := if 0 <= index < |q.shuffledAnswers| then Some(q.shuffledAnswers[index]) else None;
      var answered :=
        if selected == Some(q.question.correctAnswer) then
          a.(state := Some(Right), correctStreak := a.correctStreak + 1)
        else
          a.(state := Some(Wrong), correctStreak := 0);
      Ok(answered.(difficulty := None, feedbackComment := ""))
  }

  /** The effect of `onClickNextQuestion`: whether feedback was submitted, and the
      component once `loadQuestion` has started. */
  datatype NextStep = NextStep(asker: Asker, feedbackSubmitted: bool)

  /** `onClickNextQuestion`. Feedback goes out only when a difficulty was chosen or a
      comment typed; the old question stays until the new one arrives. */
  function NextQuestion(a: Asker): (r: NextStep)
    ensures r.feedbackSubmitted <==> a.difficulty.Some? || a.feedbackComment != ""
    ensures r.asker.state == Some(Loading)
    ensures r.asker == a.(state := Some(Loading))
  {
    var submit := a.difficulty.Some? || Arrays.Truthy(a.feedbackComment);
    NextStep(a.(state := Some(Loading)), submit)
  }

  /** The subscription in `loadQuestion`: the new question is shown and asked. */
  function Arrive(a: Asker, q: ShuffledQuestion): (r: Asker)
    ensures r.state == Some(Asking) && r.question == Some(q)
    ensures r.correctStreak == a.correctStreak
    ensures r.difficulty == a.difficulty && r.feedbackComment == a.feedbackComment
  {
    a.(state := Some(Asking), question := Some(q))
  }

  /** Answering resets the feedback, so moving straight on submits none. */
  lemma AnsweredThenNextSubmitsNothing(a: Asker, index: int)
    requires a.question.Some?
    ensures AnswerIndex(a, index).Ok?
    ensures !NextQuestion(AnswerIndex(a, index).value).feedbackSubmitted
  {
  }

  /** A question as `getShuffled` delivers it offers its correct answer at some position,
      and picking that position is right. */
  lemma CorrectAnswerOffered(a: Asker, q: ShuffledQuestion) returns (index: int)
    requires multiset(q.shuffledAnswers) == multiset([q.question.correctAnswer] + q.question.wrongAnswers)
    ensures 0 <= index < |q.shuffledAnswers|
    ensures AnswerIndex(Arrive(a, q), index).Ok?
    ensures AnswerIndex(Arrive(a, q), index).value.state == Some(Right)
  {
    assert q.question.correctAnswer in multiset(q.shuffledAnswers);
    index :| 0 <= index < |q.shuffledAnswers| && q.shuffledAnswers[index] == q.question.correctAnswer;
  }

  /** Every answer of a delivered question gets a letter. */
  lemma EveryAnswerLabelled(q: ShuffledQuestion, index: int)
    requires |q.shuffledAnswers| <= 4 && 0 <= index < |q.shuffledAnswers|
    ensures AnswerIndexPipe.Transform(index).Some?
  {
  }

  /** One round of play: a question arrives, the player picks `index`, then asks for the
      next question. */
  datatype Round = Round(question: ShuffledQuestion, index: int)

  function PlayRound(a: Asker, round: Round): (r: Asker)
    ensures r.state == Some(Loading)
    ensures r.question == Some(round.question)
  {
    var answered := AnswerIndex(Arrive(a, round.question), round.index).value;
    NextQuestion(answered).asker
  }

  /** Rounds played in order. */
  function Play(a: Asker, rounds: seq<Round>): (r: Asker)
    decreases |rounds|
  {
    if |rounds| == 0 then a else PlayRound(Play(a, rounds[..|rounds| - 1]), rounds[|rounds| - 1])
  }

  /** The number of right answers at the end of `rounds` since the last wrong one. */
  function TrailingHits(rounds: seq<Round>): (n: nat)
    ensures n <= |rounds|
    decreases |rounds|
  {
    if |rounds| == 0 then 0
    else
      var last := rounds[|rounds| - 1];
      if Hits(last.question, last.index) then TrailingHits(rounds[..|rounds| - 1]) + 1 else 0
  }

  /** The streak counts the right answers since the last wrong one, carried over from the
      starting streak when there has been no wrong one. */
  lemma {:induction false} StreakIsTrailingRun(a: Asker, rounds: seq<Round>)
    ensures Play(a, rounds).correctStreak ==
      if TrailingHits(rounds) == |rounds| then a.correctStreak + |rounds| else TrailingHits(rounds)
  {
    if |rounds| > 0 {
      StreakIsTrailingRun(a, rounds[..|rounds| - 1]);
    }
  }

  /** A fresh component cannot be answered before its first question arrives, and from
      then on its streak is exactly the run of right answers since the last wrong one. */
  lemma {:induction false} FreshStreak(rounds: seq<Round>, index: int)
    ensures AnswerIndex(Initial, index) == Err(TypeError)
    ensures Play(Initial, rounds).correctStreak == TrailingHits(rounds)
  {
    StreakIsTrailingRun(Initial, rounds);
  }
}
