/** The five question strategies of `QuestionService`. Each combines one correct answer
    drawn from the target episode with distractors drawn from its season siblings. */
module Strategies {
  import opened Results
  import opened Random
  import opened Arrays
  import opened Sets
  import opened Corpus
  import opened Extractor

  function Min(a: int, b: int): int {
    if a < b then a else b
  }

  const AlsoHappening := "What is also happening?"

  /** `In this episode: {title} where this is happening:`. */
  function InTitledEpisode(title: string): string {
    "In this episode: " + title + " where this is happening:"
  }

  lemma FirstTwo<T>(p: seq<T>)
    requires |p| >= 2
    ensures multiset{p[0], p[1]} <= multiset(p)
  {
    assert p == [p[0], p[1]] + p[2..];
  }

  /** The distractors of a storyline or cold-open question: `slice(0, 3)` of a shuffled
      sibling pool, so at most three entries, all from siblings of the target. */
  ghost predicate SeasonDistractors(ex: EpisodeExtractor, field: Episode -> seq<string>, wrong: seq<string>) {
    && |wrong| == Min(3, |SeasonFacts(ex, field)|)
    && multiset(wrong) <= multiset(SeasonFacts(ex, field))
    && forall w :: w in wrong ==> exists j :: ex.IsSibling(j) && w in field(ex.episodes[j])
  }

  lemma TakeFromPool(ex: EpisodeExtractor, field: Episode -> seq<string>, pool: seq<string>)
    requires multiset(pool) == multiset(SeasonFacts(ex, field))
    ensures SeasonDistractors(ex, field, Take(pool, 3))
  {
    var wrong := Take(pool, 3);
    PermutationKeepsMembers(pool, SeasonFacts(ex, field));
    forall w | w in wrong
      ensures exists j :: ex.IsSibling(j) && w in field(ex.episodes[j])
    {
      assert w in multiset(wrong);
      SeasonFactsMembers(ex, field, w);
    }
  }

  /** `forSeasonForStorylineWhichStorylineHappened` (`named == false`) and
      `forSeasonForEpisodeForStorylineWhichStorylineHappened` (`named == true`):
      two storylines of the target, one shown and one the answer. */
  function StorylineForStoryline(ex: EpisodeExtractor, rng: Rng, named: bool): (r: Result<Drawn<Question>>)
    requires ex.Valid()
    ensures r.Err? <==>
      || !ex.HasTarget()
      || |ex.Target().storylines| < 2
      || forall j :: ex.IsSibling(j) ==> |ex.episodes[j].storylines| == 0
    ensures r.Ok? ==>
      var q := r.value.value;
      && ex.HasTarget()
      && q.questionText.center.Fact?
      && multiset{q.questionText.center.text, q.correctAnswer} <= multiset(ex.Target().storylines)
      && SeasonDistractors(ex, StorylinesOf, q.wrongAnswers)
      && 1 <= |q.wrongAnswers| <= 3
      && q.context == (if named then InSeasonEpisode(ex.Target().season, ex.Target().episode)
                       else InSeason(ex.Target().season))
      && q.correctAnswerContext == CreditOf(ex.Target())
  {
    var storylines :- Storylines(ex, rng);
    var questionStoryline := storylines.value[0];
    var answerStoryline := storylines.value[1];
    var season :- StorylinesFromSameSeason(ex, storylines.rng);
    var target := ex.Target();
    FirstTwo(storylines.value);
    TakeFromPool(ex, StorylinesOf, season.value);
    SeasonFactsEmpty(ex, StorylinesOf);
    Ok(Drawn(
      Question(
        if named then InSeasonEpisode(target.season, target.episode) else InSeason(target.season),
        QuestionText(
          if named then InTitledEpisode(target.title) else "In the episode where this is happening:",
          Fact(questionStoryline),
          AlsoHappening),
        answerStoryline,
        Take(season.value, 3),
        CreditOf(target)),
      season.rng))
  }

  /** `forSeasonForColdOpenWhichStorylineHappened`: a cold open shown, a storyline asked. */
  function StorylineForColdOpen(ex: EpisodeExtractor, rng: Rng): (r: Result<Drawn<Question>>)
    requires ex.Valid()
    ensures r.Err? <==>
      || !ex.HasTarget()
      || |ex.Target().coldOpens| == 0
      || |ex.Target().storylines| < 2
      || forall j :: ex.IsSibling(j) ==> |ex.episodes[j].storylines| == 0
    ensures r.Ok? ==>
      var q := r.value.value;
      && ex.HasTarget()
      && q.questionText.center.Fact?
      && q.questionText.center.text in ex.Target().coldOpens
      && q.correctAnswer in ex.Target().storylines
      && SeasonDistractors(ex, StorylinesOf, q.wrongAnswers)
      && 1 <= |q.wrongAnswers| <= 3
      && q.context == InSeason(ex.Target().season)
      && q.correctAnswerContext == CreditOf(ex.Target())
  {
    var coldOpens :- ColdOpens(ex, rng);
    var questionColdOpen := coldOpens.value[0];
    var storylines :- Storylines(ex, coldOpens.rng);
    var answerStoryline := storylines.value[0];
    var season :- StorylinesFromSameSeason(ex, storylines.rng);
    var target := ex.Target();
    assert questionColdOpen in multiset(coldOpens.value);
    assert answerStoryline in multiset(storylines.value);
    TakeFromPool(ex, StorylinesOf, season.value);
    SeasonFactsEmpty(ex, StorylinesOf);
    Ok(Drawn(
      Question(
        InSeason(target.season),
        QuestionText("In the episode with this cold open:", Fact(questionColdOpen), AlsoHappening),
        answerStoryline,
        Take(season.value, 3),
        CreditOf(target)),
      season.rng))
  }

  /** `forSeasonForEpisodeForStorylineWhichColdopenHappened`: a storyline shown, a cold
      open asked, distractors from the siblings' cold opens. */
  function ColdOpenForStoryline(ex: EpisodeExtractor, rng: Rng): (r: Result<Drawn<Question>>)
    requires ex.Valid()
    ensures r.Err? <==>
      || !ex.HasTarget()
      || |ex.Target().storylines| < 2
      || |ex.Target().coldOpens| == 0
      || forall j :: ex.IsSibling(j) ==> |ex.episodes[j].coldOpens| == 0
    ensures r.Ok? ==>
      var q := r.value.value;
      && ex.HasTarget()
      && q.questionText.center.Fact?
      && q.questionText.center.text in ex.Target().storylines
      && q.correctAnswer in ex.Target().coldOpens
      && SeasonDistractors(ex, ColdOpensOf, q.wrongAnswers)
      && 1 <= |q.wrongAnswers| <= 3
      && q.context == InSeasonEpisode(ex.Target().season, ex.Target().episode)
      && q.correctAnswerContext == CreditOf(ex.Target())
  {
    var storylines :- Storylines(ex, rng);
    var questionStoryline := storylines.value[0];
    var coldOpens :- ColdOpens(ex, storylines.rng);
    var answerColdOpen := coldOpens.value[0];
    var season :- ColdOpensFromSameSeason(ex, coldOpens.rng);
    var target := ex.Target();
    assert questionStoryline in multiset(storylines.value);
    assert answerColdOpen in multiset(coldOpens.value);
    TakeFromPool(ex, ColdOpensOf, season.value);
    SeasonFactsEmpty(ex, ColdOpensOf);
    Ok(Drawn(
      Question(
        InSeasonEpisode(target.season, target.episode),
        QuestionText(InTitledEpisode(target.title), Fact(questionStoryline), AlsoHappening),
        answerColdOpen,
        Take(season.value, 3),
        CreditOf(target)),
      season.rng))
  }

  /** Three episodes of one season, with two storylines each. */
  function ThreeEpisodes(): seq<Episode> {
    [ Episode(1, "One", "1", [], ["A", "B"], []),
      Episode(1, "Two", "2", [], ["C", "D"], []),
      Episode(1, "Three", "3", [], ["E", "F"], []) ]
  }

  /** Targeting the first of `ThreeEpisodes`, the storyline question succeeds, since the
      four sibling storylines fill all three distractor slots. */
  lemma ThreeEpisodeSeason(rng: Rng)
    ensures
      var r := StorylineForStoryline(EpisodeExtractor(ThreeEpisodes(), Some(0)), rng, false);
      && r.Ok?
      && r.value.value.correctAnswer in ["A", "B"]
      && |r.value.value.wrongAnswers| == 3
      && forall w :: w in r.value.value.wrongAnswers ==> w in ["C", "D", "E", "F"]
  {
    var ex := EpisodeExtractor(ThreeEpisodes(), Some(0));
    ThreeEpisodeFacts(ex);
    var q := StorylineForStoryline(ex, rng, false).value.value;
    assert q.correctAnswer in multiset(["A", "B"]);
    forall w | w in q.wrongAnswers
      ensures w in ["C", "D", "E", "F"]
    {
      assert w in multiset(q.wrongAnswers);
    }
  }

  lemma ThreeEpisodeFacts(ex: EpisodeExtractor)
    requires ex == EpisodeExtractor(ThreeEpisodes(), Some(0))
    ensures ex.Valid() && ex.HasTarget() && ex.Target().storylines == ["A", "B"]
    ensures SeasonFacts(ex, StorylinesOf) == ["C", "D", "E", "F"]
  {
    assert MapField(StorylinesOf, Siblings(ex)) == [["C", "D"], ["E", "F"]] by {
      ThreeEpisodeSiblings(ex);
    }
    assert Join([["C", "D"], ["E", "F"]]) == ["C", "D", "E", "F"] by {
      assert Join([["E", "F"]]) == ["E", "F"];
    }
  }

  lemma ThreeEpisodeSiblings(ex: EpisodeExtractor)
    requires ex == EpisodeExtractor(ThreeEpisodes(), Some(0))
    ensures Siblings(ex) == [ThreeEpisodes()[1], ThreeEpisodes()[2]]
  {
    assert ex.IsSibling(1) && ex.IsSibling(2) && !ex.IsSibling(0);
    assert SiblingIndices(ex, 3) == [1, 2] by {
      assert SiblingIndices(ex, 1) == [];
      assert SiblingIndices(ex, 2) == [1];
    }
    var sib := Siblings(ex);
    assert |sib| == 2 && sib[0] == ex.episodes[1] && sib[1] == ex.episodes[2];
  }

  /** The quote as shown: every line spoken by `selected` has its speaker blanked. */
  function Blank(g: QuoteGroup, selected: string): (r: seq<Line>)
    ensures |r| == |g|
    ensures forall i :: 0 <= i < |g| ==> r[i].content == g[i].content
    ensures forall i :: 0 <= i < |g| ==> (r[i].speaker.None? <==> g[i].speaker == selected)
    ensures forall i :: 0 <= i < |g| && r[i].speaker.Some? ==> r[i].speaker.value == g[i].speaker
  {
    seq(|g|, i requires 0 <= i < |g| =>
      Line(if g[i].speaker == selected then None else Some(g[i].speaker), g[i].content))
  }

  /** Writes `name` into every blank: what a player who answers `name` reconstructs. */
  function Fill(lines: seq<Line>, name: string): (r: seq<Quote>)
    ensures |r| == |lines|
  {
    seq(|lines|, i requires 0 <= i < |lines| =>
      Quote(if lines[i].speaker.Some? then lines[i].speaker.value else name, lines[i].content))
  }

  /** Filling the blanks with the correct answer restores the quote exactly. */
  lemma BlankThenFill(g: QuoteGroup, selected: string)
    ensures Fill(Blank(g, selected), selected) == g
  {
    var r := Fill(Blank(g, selected), selected);
    assert forall i :: 0 <= i < |g| ==> r[i] == g[i];
  }

  /** The distinct season speakers who say nothing in `g`: the candidates for wrong answers. */
  ghost function OutsideSpeakers(ex: EpisodeExtractor, g: QuoteGroup): set<string> {
    (set s | s in SeasonSpeakers(ex)) - (set s | s in GroupSpeakers(g))
  }

  lemma OutsideCount(ex: EpisodeExtractor, season: seq<string>, g: QuoteGroup)
    requires Distinct(season)
    requires forall s :: s in season <==> s in SeasonSpeakers(ex)
    ensures |Difference(season, GroupSpeakers(g))| == |OutsideSpeakers(ex, g)|
  {
    var d := Difference(season, GroupSpeakers(g));
    assert (set s | s in d) == OutsideSpeakers(ex, g);
    DistinctCard(d);
  }

  /** What a successful who-said question promises about the group `g` it quotes. */
  ghost predicate AsksWhoSaid(ex: EpisodeExtractor, g: QuoteGroup, q: Question)
    requires ex.HasTarget()
  {
    && g in ex.Target().quotes && ValidGroup(g)
    && q.correctAnswer in GroupSpeakers(g)
    && |q.wrongAnswers| == 3
    && Distinct(q.wrongAnswers)
    && (forall w :: w in q.wrongAnswers ==> w in SeasonSpeakers(ex) && w !in GroupSpeakers(g))
    && q.questionText.center == Quotation(Blank(g, q.correctAnswer))
    && q.context == InSeasonEpisode(ex.Target().season, ex.Target().episode)
    && q.correctAnswerContext == CreditOf(ex.Target())
  }

  lemma WrongSpeakers(ex: EpisodeExtractor, g: QuoteGroup, season: seq<string>, shuffled: seq<string>)
    requires Distinct(season) && forall s :: s in season <==> s in SeasonSpeakers(ex)
    requires multiset(shuffled) == multiset(Difference(season, GroupSpeakers(g)))
    ensures |Take(shuffled, 3)| == Min(3, |OutsideSpeakers(ex, g)|)
    ensures Distinct(Take(shuffled, 3))
    ensures forall w :: w in Take(shuffled, 3) ==> w in SeasonSpeakers(ex) && w !in GroupSpeakers(g)
  {
    OutsideCount(ex, season, g);
    TakeThreeOutside(season, GroupSpeakers(g), shuffled);
  }

  /** The first three of a shuffled difference: as many as there are, up to three,
      distinct, and all from `season` and outside `inside`. */
  lemma TakeThreeOutside(season: seq<string>, inside: seq<string>, shuffled: seq<string>)
    requires Distinct(season)
    requires multiset(shuffled) == multiset(Difference(season, inside))
    ensures |Take(shuffled, 3)| == Min(3, |Difference(season, inside)|)
    ensures Distinct(Take(shuffled, 3))
    ensures forall w :: w in Take(shuffled, 3) ==> w in season && w !in inside
  {
    var pool := Difference(season, inside);
    PermutationKeepsDistinct(pool, shuffled);
    PermutationKeepsMembers(pool, shuffled);
    var wrong := Take(shuffled, 3);
    assert forall w :: w in wrong ==> w in shuffled;
  }

  /** The part of the who-said strategy after the quote `g` and the season's speakers
      are drawn: pick three outside speakers and one speaker of `g` to blank. */
  function AskWhoSaid(ex: EpisodeExtractor, g: QuoteGroup, season: seq<string>, rng: Rng)
    : (r: Result<Drawn<Question>>)
    requires ex.HasTarget() && g in ex.Target().quotes && ValidGroup(g)
    requires Distinct(season) && forall s :: s in season <==> s in SeasonSpeakers(ex)
    ensures r.Err? <==> |OutsideSpeakers(ex, g)| < 3
    ensures r.Ok? ==> AsksWhoSaid(ex, g, r.value.value)
  {
    var correctSpeakers := GroupSpeakers(g);
    var wrongPool := Shuffle(Difference(season, correctSpeakers), rng);
    var wrongSpeakers := Take(wrongPool.value, 3);
    var selection := Shuffle(correctSpeakers, wrongPool.rng);
    assert g[0] in g;
    assert |selection.value| > 0;
    var selectedSpeaker := selection.value[0];
    WrongSpeakers(ex, g, season, wrongPool.value);
    if |wrongSpeakers| < 3 then Err(TooFewWrongSpeakers)
    else
      assert selectedSpeaker in multiset(selection.value);
      Ok(Drawn(WhoSaidQuestion(ex, g, selectedSpeaker, wrongSpeakers), selection.rng))
  }

  /** The question object itself: the target's title, the quote with `selected` blanked,
      and the drawn outsiders as distractors. */
  function WhoSaidQuestion(ex: EpisodeExtractor, g: QuoteGroup, selected: string, wrong: seq<string>)
    : (q: Question)
    requires ex.HasTarget() && g in ex.Target().quotes && ValidGroup(g)
    requires selected in GroupSpeakers(g) && |wrong| == 3 && Distinct(wrong)
    requires forall w :: w in wrong ==> w in SeasonSpeakers(ex) && w !in GroupSpeakers(g)
    ensures AsksWhoSaid(ex, g, q)
  {
    var target := ex.Target();
    Question(
      InSeasonEpisode(target.season, target.episode),
      QuestionText(
        "In this episode: " + target.title + " with this quote:",
        Quotation(Blank(g, selected)),
        "Who is the missing speaker?"),
      selected,
      wrong,
      CreditOf(target))
  }

  lemma NoSeasonGroupsNoOutsiders(ex: EpisodeExtractor, g: QuoteGroup)
    requires |SeasonGroups(ex)| == 0
    ensures |OutsideSpeakers(ex, g)| == 0
  {
    assert SeasonSpeakers(ex) == [];
  }

  /** `forSeasonForEpisodeWhoSaidWhatQuote`: a quote of the target with one speaker
      blanked; three speakers of the season who are not in the quote as distractors. */
  function WhoSaidQuote(ex: EpisodeExtractor, rng: Rng): (r: Result<Drawn<Question>>)
    requires ex.Valid()
    ensures !ex.HasTarget() || (forall g :: g in ex.Target().quotes ==> !ValidGroup(g)) ==> r.Err?
    ensures ex.HasTarget() && (forall g :: g in ex.Target().quotes && ValidGroup(g) ==> |OutsideSpeakers(ex, g)| < 3)
      ==> r.Err?
    ensures ex.HasTarget() && (exists g :: g in ex.Target().quotes && ValidGroup(g))
      && (forall g :: g in ex.Target().quotes && ValidGroup(g) ==> |OutsideSpeakers(ex, g)| >= 3)
      ==> r.Ok?
    ensures r.Ok? ==> ex.HasTarget() && exists g :: AsksWhoSaid(ex, g, r.value.value)
  {
    var quotes :- Quotes(ex, rng);
    if |quotes.value| == 0 then Err(TypeError)
    else
      var questionQuote := quotes.value[0];
      assert questionQuote in quotes.value;
      if |SeasonGroups(ex)| == 0 then
        NoSeasonGroupsNoOutsiders(ex, questionQuote);
        SpeakersFromSameSeason(ex, quotes.rng).PropagateFailure()
      else
        var season := SpeakersFromSameSeason(ex, quotes.rng).value;
        AskWhoSaid(ex, questionQuote, season.value, season.rng)
  }
}
