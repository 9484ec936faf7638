/** `QuestionService`: one attempt picks a strategy and a fresh extractor; `get` retries
    failed attempts and `getShuffled` also retries when the answers are degenerate.
    The source retries without bound; here each attempt reads its own tape, and the
    supplied tapes bound the number of attempts. */
module Service {
  import opened Results
  import opened Random
  import opened Arrays
  import opened Sets
  import opened Corpus
  import opened Extractor
  import opened Strategies

  datatype Strategy =
    | ForStorylineWhichStoryline
    | ForEpisodeForStorylineWhichStoryline
    | ForColdOpenWhichStoryline
    | ForEpisodeForStorylineWhichColdOpen
    | ForEpisodeWhoSaidWhatQuote

  /** The array `get` draws a strategy from, in its order. */
  const Registry: seq<Strategy> :=
    [ ForStorylineWhichStoryline, ForEpisodeForStorylineWhichStoryline, ForColdOpenWhichStoryline,
      ForEpisodeForStorylineWhichColdOpen, ForEpisodeWhoSaidWhatQuote ]

  /** `randomElement` over the registry: the draw's fifth of [0, 1) picks the strategy. */
  function PickStrategy(d: Draw): (s: Strategy)
    ensures s in Registry
    ensures forall i :: 0 <= i < |Registry| && i as real / 5.0 <= d < (i + 1) as real / 5.0 ==>
      s == Registry[i]
  {
    RandomIndexIsFloor(|Registry|, d);
    Registry[RandomIndex(|Registry|, d)]
  }

  /** The correct answer is a fact of `e`, the credit names `e`, and there are one to
      three distractors. */
  ghost predicate FromEpisode(e: Episode, q: Question) {
    && q.correctAnswerContext == CreditOf(e)
    && (|| q.correctAnswer in e.storylines
        || q.correctAnswer in e.coldOpens
        || exists g :: g in e.quotes && q.correctAnswer in GroupSpeakers(g))
    && 1 <= |q.wrongAnswers| <= 3
  }

  function Generate(s: Strategy, ex: EpisodeExtractor, rng: Rng): (r: Result<Drawn<Question>>)
    requires ex.Valid()
    ensures r.Ok? ==> ex.HasTarget() && FromEpisode(ex.Target(), r.value.value)
  {
    match s
    case ForStorylineWhichStoryline =>
      var r := StorylineForStoryline(ex, rng, false);
      if r.Ok? then
        assert r.value.value.correctAnswer in multiset(ex.Target().storylines);
        r
      else r
    case ForEpisodeForStorylineWhichStoryline =>
      var r := StorylineForStoryline(ex, rng, true);
      if r.Ok? then
        assert r.value.value.correctAnswer in multiset(ex.Target().storylines);
        r
      else r
    case ForColdOpenWhichStoryline => StorylineForColdOpen(ex, rng)
    case ForEpisodeForStorylineWhichColdOpen => ColdOpenForStoryline(ex, rng)
    case ForEpisodeWhoSaidWhatQuote => WhoSaidQuote(ex, rng)
  }

  /** Every strategy is picked by some draw: the first one of its fifth. */
  lemma EveryStrategyReachable(s: Strategy)
    ensures exists d: Draw :: PickStrategy(d) == s
  {
    var i := match s
      case ForStorylineWhichStoryline => 0
      case ForEpisodeForStorylineWhichStoryline => 1
      case ForColdOpenWhichStoryline => 2
      case ForEpisodeForStorylineWhichColdOpen => 3
      case ForEpisodeWhoSaidWhatQuote => 4;
    var d: Draw := i as real / 5.0;
    assert Registry[i] == s && i as real / 5.0 <= d < (i + 1) as real / 5.0;
    assert PickStrategy(d) == s;
  }

  /** One pass of `get`: a strategy, then (inside `extractor`) a target episode. The
      strategy's last draw is the question's `id`: the draw is consumed; its value is not
      kept. */
  function Attempt(corpus: seq<Episode>, rng: Rng): (r: Result<Drawn<Question>>)
    ensures |corpus| == 0 ==> r.Err?
    ensures r.Ok? ==> exists i :: 0 <= i < |corpus| && FromEpisode(corpus[i], r.value.value)
    ensures var g := Generate(PickStrategy(rng.Peek()), NewExtractor(corpus, rng.Next().Peek()),
                              rng.Next().Next());
      && (r.Ok? <==> g.Ok?)
      && (r.Err? ==> r.error == g.error)
      && (r.Ok? ==> r.value.value == g.value.value
                    && r.value.rng.tape == g.value.rng.tape && r.value.rng.pos == g.value.rng.pos + 1)
  {
    var strategy := PickStrategy(rng.Peek());
    var ex := NewExtractor(corpus, rng.Next().Peek());
    var r := Generate(strategy, ex, rng.Next().Next());
    if r.Ok? then
      assert FromEpisode(corpus[ex.target.value], r.value.value);
      Ok(Drawn(r.value.value, r.value.rng.Next()))
    else r
  }

  /** `applyShuffledAnswers`: the correct answer and the distractors, shuffled together;
      the `filter` throws on the first falsy entry. */
  function ApplyShuffledAnswers(q: Question, rng: Rng): (r: Result<Drawn<ShuffledQuestion>>)
    ensures r.Ok? <==> Truthy(q.correctAnswer) && forall w :: w in q.wrongAnswers ==> Truthy(w)
    ensures r.Err? ==> r.error == FalsyAnswer
    ensures r.Ok? ==> r.value.value.question == q
    ensures r.Ok? ==>
      multiset(r.value.value.shuffledAnswers) == multiset([q.correctAnswer] + q.wrongAnswers)
    ensures r.Ok? ==> forall a :: a in r.value.value.shuffledAnswers ==> Truthy(a)
  {
    var answers := Shuffle(Concat([q.correctAnswer], q.wrongAnswers), rng);
    PermutationKeepsMembers(answers.value, [q.correctAnswer] + q.wrongAnswers);
    if forall a :: a in answers.value ==> Truthy(a) then
      Ok(Drawn(ShuffledQuestion(q, answers.value), answers.rng))
    else
      Err(FalsyAnswer)
  }

  /** The retry of `get` for any attempt: the first tape whose attempt succeeds. */
  function FirstOk<T>(attempt: Tape -> Result<T>, tapes: seq<Tape>): (r: Result<(T, nat)>)
    ensures r.Err? <==> forall k :: 0 <= k < |tapes| ==> attempt(tapes[k]).Err?
    ensures r.Err? ==> r.error == Exhausted
    ensures r.Ok? ==>
      && r.value.1 < |tapes|
      && attempt(tapes[r.value.1]) == Ok(r.value.0)
      && forall k :: 0 <= k < r.value.1 ==> attempt(tapes[k]).Err?
    decreases |tapes|
  {
    if |tapes| == 0 then Err(Exhausted)
    else
      match attempt(tapes[0])
      case Ok(v) => Ok((v, 0))
      case Err(_) =>
        var r := FirstOk(attempt, tapes[1..]);
        assert forall k :: 1 <= k < |tapes| ==> tapes[1..][k - 1] == tapes[k];
        if r.Ok? then Ok((r.value.0, r.value.1 + 1)) else r
  }

  /** Tape `t` yields nothing to deliver: its attempt fails, or its delivery does. */
  predicate Undelivered<T, U>(attempt: Tape -> Result<T>, deliver: T -> Result<U>, t: Tape) {
    attempt(t).Err? || deliver(attempt(t).value).Err?
  }

  /** The retry of `getShuffled` for any attempt and any delivery step: the first tape
      whose attempt succeeds and whose result is then delivered. A failed delivery
      restarts with the tapes after the one that produced it. */
  function FirstDelivered<T, U>(attempt: Tape -> Result<T>, deliver: T -> Result<U>, tapes: seq<Tape>)
    : (r: Result<(U, nat)>)
    ensures r.Err? <==> forall k :: 0 <= k < |tapes| ==> Undelivered(attempt, deliver, tapes[k])
    ensures r.Err? ==> r.error == Exhausted
    ensures r.Ok? ==>
      && r.value.1 < |tapes|
      && attempt(tapes[r.value.1]).Ok?
      && deliver(attempt(tapes[r.value.1]).value) == Ok(r.value.0)
      && forall k :: 0 <= k < r.value.1 ==> Undelivered(attempt, deliver, tapes[k])
    decreases |tapes|
  {
    match FirstOk(attempt, tapes)
    case Err(e) => Err(e)
    case Ok((v, k)) =>
      match deliver(v)
      case Ok(u) => Ok((u, k))
      case Err(_) =>
        assert forall j :: 0 <= j <= k ==> Undelivered(attempt, deliver, tapes[j]);
        var rest := tapes[k + 1..];
        var r := FirstDelivered(attempt, deliver, rest);
        assert forall j :: k + 1 <= j < |tapes| ==> rest[j - (k + 1)] == tapes[j];
        if r.Ok? then Ok((r.value.0, r.value.1 + k + 1)) else r
  }

  /** A question from attempt number `attempt`, with the generator where it stopped. */
  datatype Generated = Generated(question: Question, rng: Rng, attempt: nat)

  /** `get`: the first attempt that produces a question. */
  function Get(corpus: seq<Episode>, tapes: seq<Tape>): (r: Result<Generated>)
    ensures r.Err? <==> forall k :: 0 <= k < |tapes| ==> Attempt(corpus, Fresh(tapes[k])).Err?
    ensures r.Err? ==> r.error == Exhausted
    ensures r.Ok? ==>
      && r.value.attempt < |tapes|
      && Attempt(corpus, Fresh(tapes[r.value.attempt])) == Ok(Drawn(r.value.question, r.value.rng))
      && forall k :: 0 <= k < r.value.attempt ==> Attempt(corpus, Fresh(tapes[k])).Err?
  {
    var r := FirstOk((t: Tape) => Attempt(corpus, Fresh(t)), tapes);
    if r.Ok? then Ok(Generated(r.value.0.value, r.value.0.rng, r.value.1)) else Err(r.error)
  }

  /** The answer shuffle applied to an attempt's question, from where the attempt stopped. */
  function Deliver(d: Drawn<Question>): Result<ShuffledQuestion> {
    var r := ApplyShuffledAnswers(d.value, d.rng);
    if r.Ok? then Ok(r.value.value) else Err(r.error)
  }

  /** Attempt `t` produces a question whose answers pass `applyShuffledAnswers`. */
  predicate Delivers(corpus: seq<Episode>, t: Tape) {
    var a := Attempt(corpus, Fresh(t));
    a.Ok? && Deliver(a.value).Ok?
  }

  datatype Delivered = Delivered(question: ShuffledQuestion, attempt: nat)

  /** `getShuffled`: `get`, then the answer shuffle, restarting on a degenerate answer set. */
  function GetShuffled(corpus: seq<Episode>, tapes: seq<Tape>): (r: Result<Delivered>)
    ensures r.Err? <==> forall k :: 0 <= k < |tapes| ==> !Delivers(corpus, tapes[k])
    ensures r.Err? ==> r.error == Exhausted
    ensures r.Ok? ==>
      var k := r.value.attempt;
      && k < |tapes|
      && Delivers(corpus, tapes[k])
      && Deliver(Attempt(corpus, Fresh(tapes[k])).value) == Ok(r.value.question)
      && forall j :: 0 <= j < k ==> !Delivers(corpus, tapes[j])
  {
    var attempt := (t: Tape) => Attempt(corpus, Fresh(t));
    assert forall t :: Undelivered(attempt, Deliver, t) <==> !Delivers(corpus, t);
    var r := FirstDelivered(attempt, Deliver, tapes);
    if r.Ok? then Ok(Delivered(r.value.0, r.value.1)) else Err(r.error)
  }

  /** What the presentation layer receives: a question about one corpus episode whose
      two to four answers are a permutation of the correct answer and the distractors,
      all non-empty. */
  lemma DeliveredQuestion(corpus: seq<Episode>, tapes: seq<Tape>)
    requires GetShuffled(corpus, tapes).Ok?
    ensures var sq := GetShuffled(corpus, tapes).value.question;
      && (exists i :: 0 <= i < |corpus| && FromEpisode(corpus[i], sq.question))
      && multiset(sq.shuffledAnswers) == multiset([sq.question.correctAnswer] + sq.question.wrongAnswers)
      && 2 <= |sq.shuffledAnswers| <= 4
      && forall a :: a in sq.shuffledAnswers ==> Truthy(a)
  {
    var r := GetShuffled(corpus, tapes).value;
    var a := Attempt(corpus, Fresh(tapes[r.attempt]));
    var d := ApplyShuffledAnswers(a.value.value, a.value.rng);
    assert d.value.value == r.question;
    assert |r.question.shuffledAnswers| == |multiset(r.question.shuffledAnswers)|;
  }

  /** A who-said question never has a falsy answer: the correct and the wrong speakers
      all come from groups whose every speaker is non-empty. */
  lemma WhoSaidAnswersAreTruthy(ex: EpisodeExtractor, rng: Rng, rng': Rng)
    requires ex.Valid() && WhoSaidQuote(ex, rng).Ok?
    ensures ApplyShuffledAnswers(WhoSaidQuote(ex, rng).value.value, rng').Ok?
  {
    var q := WhoSaidQuote(ex, rng).value.value;
    var g :| AsksWhoSaid(ex, g, q);
    var quote: Quote :| quote in g && quote.speaker == q.correctAnswer;
    SeasonSpeakersMembers(ex);
    forall w | w in q.wrongAnswers
      ensures Truthy(w)
    {
      assert SeasonSpeaker(ex, w);
      var g', quote': Quote :| SeasonGroup(ex, g') && quote' in g' && quote'.speaker == w;
    }
  }
}
