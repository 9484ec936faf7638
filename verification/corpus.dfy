/** The records the engine reads (an episode corpus) and the questions it produces. */
module Corpus {
  import opened Results
  import opened Arrays
  import opened Sets

  datatype Quote = Quote(speaker: string, content: string)

  /** One exchange: consecutive lines of dialogue. */
  type QuoteGroup = seq<Quote>

  datatype Episode = Episode(
    season: int,
    title: string,
    episode: string,
    coldOpens: seq<string>,
    storylines: seq<string>,
    quotes: seq<QuoteGroup>)

  function StorylinesOf(e: Episode): seq<string> {
    e.storylines
  }

  function ColdOpensOf(e: Episode): seq<string> {
    e.coldOpens
  }

  function QuotesOf(e: Episode): seq<QuoteGroup> {
    e.quotes
  }

  /** Where a question is set: `In Season N` or `In Season N Episode E`. */
  datatype Locator = InSeason(season: int) | InSeasonEpisode(season: int, episode: string)

  /** `The episode was: S{season}E{episode} {title}`. */
  datatype Credit = Credit(season: int, episode: string, title: string)

  function CreditOf(e: Episode): Credit {
    Credit(e.season, e.episode, e.title)
  }

  /** A rendered line of a quote; `None` is the blank where the speaker's name was. */
  datatype Line = Line(speaker: Option<string>, content: string)

  /** The focal fact of a question: a storyline or cold open, or a quote with a blank. */
  datatype Center = Fact(text: string) | Quotation(lines: seq<Line>)

  datatype QuestionText = QuestionText(prefix: string, center: Center, suffix: string)

  datatype Question = Question(
    context: Locator,
    questionText: QuestionText,
    correctAnswer: string,
    wrongAnswers: seq<string>,
    correctAnswerContext: Credit)

  /** `{...question, shuffledAnswers}`. */
  datatype ShuffledQuestion = ShuffledQuestion(question: Question, shuffledAnswers: seq<string>)

  /** The quote filter of the extractor: a non-empty group whose every speaker is truthy. */
  predicate ValidGroup(g: QuoteGroup) {
    |g| > 0 && forall q :: q in g ==> Truthy(q.speaker)
  }

  /** The positions among the first `n` groups that pass the filter: increasing, and
      all of them. */
  function ValidIndices(gs: seq<QuoteGroup>, n: nat): (r: seq<nat>)
    requires n <= |gs|
    ensures forall k :: 0 <= k < |r| ==> r[k] < n && ValidGroup(gs[r[k]])
    ensures forall k, l :: 0 <= k < l < |r| ==> r[k] < r[l]
    ensures forall i :: 0 <= i < n && ValidGroup(gs[i]) ==> i in r
  {
    if n == 0 then []
    else ValidIndices(gs, n - 1) + (if ValidGroup(gs[n - 1]) then [n - 1] else [])
  }

  /** `filter` over the first `n` groups. */
  function KeepValidUpTo(gs: seq<QuoteGroup>, n: nat): seq<QuoteGroup>
    requires n <= |gs|
  {
    if n == 0 then []
    else KeepValidUpTo(gs, n - 1) + (if ValidGroup(gs[n - 1]) then [gs[n - 1]] else [])
  }

  /** A filter that keeps `s[i]` or not extends a map from the kept elements to their
      positions. */
  lemma IndexMapSnoc<T>(s: seq<T>, kept: seq<T>, idx: seq<nat>, i: nat, take: bool)
    requires i < |s| && |kept| == |idx|
    requires forall k :: 0 <= k < |idx| ==> idx[k] < |s| && kept[k] == s[idx[k]]
    ensures var r, ix := kept + (if take then [s[i]] else []), idx + (if take then [i] else []);
      |r| == |ix| && forall k :: 0 <= k < |ix| ==> ix[k] < |s| && r[k] == s[ix[k]]
  {
  }

  /** The filtered prefix holds the groups at exactly the positions that pass, in their
      original order. */
  lemma {:induction false} KeepValidOrder(gs: seq<QuoteGroup>, n: nat)
    requires n <= |gs|
    ensures |KeepValidUpTo(gs, n)| == |ValidIndices(gs, n)|
    ensures forall k :: 0 <= k < |KeepValidUpTo(gs, n)| ==>
      KeepValidUpTo(gs, n)[k] == gs[ValidIndices(gs, n)[k]]
  {
    if n > 0 {
      KeepValidOrder(gs, n - 1);
      IndexMapSnoc(gs, KeepValidUpTo(gs, n - 1), ValidIndices(gs, n - 1), n - 1, ValidGroup(gs[n - 1]));
    }
  }

  /** One more element seen by a filter: the count of `g` among those kept tracks its count
      among those seen, when `g` passes, and stays at zero when it does not. */
  lemma FilterCountStep<T>(kept: seq<T>, seen: seq<T>, x: T, take: bool, g: T, pass: bool)
    requires multiset(kept)[g] == if pass then multiset(seen)[g] else 0
    requires x == g ==> take == pass
    ensures multiset(kept + if take then [x] else [])[g] == if pass then multiset(seen + [x])[g] else 0
  {
    var last := if take then [x] else [];
    assert multiset(kept + last) == multiset(kept) + multiset(last);
    assert multiset(seen + [x]) == multiset(seen) + multiset{x};
  }

  /** Each group occurs in the filtered prefix as often as in the prefix when it passes,
      and not at all otherwise. */
  lemma {:induction false} KeepValidCount(gs: seq<QuoteGroup>, n: nat, g: QuoteGroup)
    requires n <= |gs|
    ensures multiset(KeepValidUpTo(gs, n))[g] == if ValidGroup(g) then multiset(gs[..n])[g] else 0
  {
    if n > 0 {
      KeepValidCount(gs, n - 1, g);
      var x := gs[n - 1];
      PrefixSnoc(gs, n);
      FilterCountStep(KeepValidUpTo(gs, n - 1), gs[..n - 1], x, ValidGroup(x), g, ValidGroup(g));
    }
  }

  /** `filter` with that predicate: the groups that pass, each as often as it occurs
      (their order is the subject of `KeepValidInOrder`). */
  function KeepValid(gs: seq<QuoteGroup>): (r: seq<QuoteGroup>)
    ensures forall g :: g in r <==> g in gs && ValidGroup(g)
    ensures multiset(r) <= multiset(gs)
    ensures forall g :: multiset(r)[g] == if ValidGroup(g) then multiset(gs)[g] else 0
  {
    assert gs[..|gs|] == gs;
    var r := KeepValidUpTo(gs, |gs|);
    forall g
      ensures multiset(r)[g] == if ValidGroup(g) then multiset(gs)[g] else 0
    {
      KeepValidCount(gs, |gs|, g);
    }
    assert forall g :: g in r <==> g in multiset(r);
    assert forall g :: g in gs <==> g in multiset(gs);
    r
  }

  /** `filter` keeps order: the kept groups are those at the passing positions, in
      increasing order of position. */
  lemma KeepValidInOrder(gs: seq<QuoteGroup>)
    ensures |KeepValid(gs)| == |ValidIndices(gs, |gs|)|
    ensures forall k :: 0 <= k < |KeepValid(gs)| ==> KeepValid(gs)[k] == gs[ValidIndices(gs, |gs|)[k]]
  {
    KeepValidOrder(gs, |gs|);
  }

  function SpeakerNames(g: QuoteGroup): (r: seq<string>)
    ensures |r| == |g|
    ensures forall i :: 0 <= i < |g| ==> r[i] == g[i].speaker
  {
    seq(|g|, i requires 0 <= i < |g| => g[i].speaker)
  }

  /** A `Set` filled by adding the speaker of every quote of every group, in order. */
  function CollectSpeakers(acc: seq<string>, gs: seq<QuoteGroup>): (r: seq<string>)
    ensures Distinct(acc) ==> Distinct(r)
    ensures forall s :: s in r <==> s in acc || exists g, q :: g in gs && q in g && q.speaker == s
    decreases |gs|
  {
    if |gs| == 0 then acc
    else
      var acc' := AddAll(acc, SpeakerNames(gs[0]));
      var r := CollectSpeakers(acc', gs[1..]);
      assert forall s :: s in acc' <==> s in acc || exists q :: q in gs[0] && q.speaker == s by {
        forall s
          ensures s in SpeakerNames(gs[0]) <==> exists q :: q in gs[0] && q.speaker == s
        {
          if s in SpeakerNames(gs[0]) {
            var i :| 0 <= i < |gs[0]| && SpeakerNames(gs[0])[i] == s;
            assert gs[0][i] in gs[0];
          }
        }
      }
      assert forall g :: g in gs <==> g == gs[0] || g in gs[1..];
      r
  }

  /** The distinct speakers of one group, in order of first appearance. */
  function GroupSpeakers(g: QuoteGroup): (r: seq<string>)
    ensures Distinct(r)
    ensures forall s :: s in r <==> exists q :: q in g && q.speaker == s
  {
    CollectSpeakers([], [g])
  }
}
