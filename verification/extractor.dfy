/** `EpisodeExtractor`: one target episode drawn from the corpus, and shuffled views of
    its facts and of the facts of its season siblings. Every view is a shuffled copy;
    every accessor fails instead of returning too little. */
module Extractor {
  import opened Results
  import opened Random
  import opened Arrays
  import opened Sets
  import opened Corpus

  /** The target is held by its position in the corpus: the source tells the target
      apart from the other episodes by object identity, not by contents. */
  datatype EpisodeExtractor = EpisodeExtractor(episodes: seq<Episode>, target: Option<nat>) {

    /** The state the constructor establishes: a target exactly when the corpus is non-empty. */
    predicate Valid() {
      (target.Some? <==> |episodes| > 0) && (target.Some? ==> target.value < |episodes|)
    }

    predicate HasTarget() {
      target.Some? && target.value < |episodes|
    }

    function Target(): Episode
      requires HasTarget()
    {
      episodes[target.value]
    }

    /** Episode `j` is another episode of the target's season. */
    predicate IsSibling(j: int) {
      && HasTarget()
      && 0 <= j < |episodes|
      && j != target.value
      && episodes[j].season == Target().season
    }
  }

  /** `new EpisodeExtractor(episodes)`: draws the target with `randomElement`. */
  function NewExtractor(episodes: seq<Episode>, d: Draw): (ex: EpisodeExtractor)
    ensures ex.Valid() && ex.episodes == episodes
    ensures ex.HasTarget() <==> |episodes| > 0
    ensures ex.HasTarget() ==> ex.Target() in episodes
  {
    var i := RandomIndex(|episodes|, d);
    EpisodeExtractor(episodes, if i < |episodes| then Some(i) else None)
  }

  /** The positions of the target's siblings among the first `n` episodes, in increasing
      order: each is a sibling, and every sibling below `n` is there. */
  function SiblingIndices(ex: EpisodeExtractor, n: nat): (r: seq<nat>)
    requires n <= |ex.episodes|
    ensures forall k :: 0 <= k < |r| ==> r[k] < n && ex.IsSibling(r[k])
    ensures forall k, l :: 0 <= k < l < |r| ==> r[k] < r[l]
    ensures forall j :: 0 <= j < n && ex.IsSibling(j) ==> j in r
  {
    if n == 0 then []
    else SiblingIndices(ex, n - 1) + (if ex.IsSibling(n - 1) then [n - 1] else [])
  }

  /** The `filter` selecting the target's siblings among the first `n` episodes, in order:
      the episode at each sibling position, once. */
  function SiblingsUpTo(ex: EpisodeExtractor, n: nat): (r: seq<Episode>)
    requires n <= |ex.episodes|
    ensures |r| == |SiblingIndices(ex, n)|
    ensures forall k :: 0 <= k < |r| ==> r[k] == ex.episodes[SiblingIndices(ex, n)[k]]
    ensures forall e :: e in r <==> exists j :: 0 <= j < n && ex.IsSibling(j) && ex.episodes[j] == e
  {
    if n == 0 then []
    else
      var r := SiblingsUpTo(ex, n - 1) + (if ex.IsSibling(n - 1) then [ex.episodes[n - 1]] else []);
      r
  }

  function Siblings(ex: EpisodeExtractor): (r: seq<Episode>)
    ensures |r| == |SiblingIndices(ex, |ex.episodes|)|
    ensures forall k :: 0 <= k < |r| ==> r[k] == ex.episodes[SiblingIndices(ex, |ex.episodes|)[k]]
    ensures forall e :: e in r <==> exists j :: ex.IsSibling(j) && ex.episodes[j] == e
  {
    SiblingsUpTo(ex, |ex.episodes|)
  }

  /** `.map(...)` of a field over a list of episodes. */
  function MapField<T>(field: Episode -> seq<T>, es: seq<Episode>): (r: seq<seq<T>>)
    ensures |r| == |es|
    ensures forall i :: 0 <= i < |es| ==> r[i] == field(es[i])
  {
    seq(|es|, i requires 0 <= i < |es| => field(es[i]))
  }

  /** Reference pool: a field of every sibling, concatenated in corpus order, unshuffled. */
  function SeasonFacts<T>(ex: EpisodeExtractor, field: Episode -> seq<T>): seq<T> {
    Join(MapField(field, Siblings(ex)))
  }

  /** Every entry of the pool comes from some sibling. */
  lemma SeasonFactsSound<T>(ex: EpisodeExtractor, field: Episode -> seq<T>, x: T)
    requires x in SeasonFacts(ex, field)
    ensures exists j :: ex.IsSibling(j) && x in field(ex.episodes[j])
  {
    var idx := SiblingIndices(ex, |ex.episodes|);
    var xss := MapField(field, Siblings(ex));
    JoinMembers(xss, x);
    var i :| 0 <= i < |xss| && x in xss[i];
    assert xss[i] == field(ex.episodes[idx[i]]);
  }

  /** Every entry of every sibling is in the pool. */
  lemma SeasonFactsComplete<T>(ex: EpisodeExtractor, field: Episode -> seq<T>, x: T, j: nat)
    requires ex.IsSibling(j) && x in field(ex.episodes[j])
    ensures x in SeasonFacts(ex, field)
  {
    var idx := SiblingIndices(ex, |ex.episodes|);
    var xss := MapField(field, Siblings(ex));
    assert j in idx;
    var k :| 0 <= k < |idx| && idx[k] == j;
    assert x in xss[k];
    JoinMembers(xss, x);
  }

  lemma SeasonFactsMembers<T>(ex: EpisodeExtractor, field: Episode -> seq<T>, x: T)
    ensures x in SeasonFacts(ex, field) <==> exists j :: ex.IsSibling(j) && x in field(ex.episodes[j])
  {
    if x in SeasonFacts(ex, field) {
      SeasonFactsSound(ex, field, x);
    }
    if exists j :: ex.IsSibling(j) && x in field(ex.episodes[j]) {
      var j :| ex.IsSibling(j) && x in field(ex.episodes[j]);
      SeasonFactsComplete(ex, field, x, j);
    }
  }

  /** The pool is empty exactly when no sibling has any entry in that field. */
  lemma SeasonFactsEmpty<T>(ex: EpisodeExtractor, field: Episode -> seq<T>)
    ensures |SeasonFacts(ex, field)| == 0 <==> forall j :: ex.IsSibling(j) ==> |field(ex.episodes[j])| == 0
  {
    var pool := SeasonFacts(ex, field);
    if |pool| > 0 {
      SeasonFactsMembers(ex, field, pool[0]);
    }
    if exists j :: ex.IsSibling(j) && |field(ex.episodes[j])| > 0 {
      var j :| ex.IsSibling(j) && |field(ex.episodes[j])| > 0;
      SeasonFactsMembers(ex, field, field(ex.episodes[j])[0]);
    }
  }

  /** The common shape of the three `get...FromSameSeason` string accessors: flatten the
      siblings' field, shuffle, and fail when nothing is left. */
  function SeasonPool(ex: EpisodeExtractor, field: Episode -> seq<string>, failure: Failure, rng: Rng)
    : (r: Result<Drawn<seq<string>>>)
    ensures r.Err? <==> |SeasonFacts(ex, field)| == 0
    ensures r.Ok? ==> multiset(r.value.value) == multiset(SeasonFacts(ex, field))
  {
    var pool :- Flatten(MapField(field, Siblings(ex)));
    var shuffled := Shuffle(pool, rng);
    if |shuffled.value| == 0 then Err(failure) else Ok(shuffled)
  }

  /** `getStorylines`. */
  function Storylines(ex: EpisodeExtractor, rng: Rng): (r: Result<Drawn<seq<string>>>)
    requires ex.Valid()
    ensures r.Err? <==> !ex.HasTarget() || |ex.Target().storylines| < 2
    ensures r.Ok? ==> multiset(r.value.value) == multiset(ex.Target().storylines)
    ensures r.Ok? ==> |r.value.value| == |ex.Target().storylines|
  {
    if !ex.HasTarget() || |ex.Target().storylines| < 2 then Err(TooFewStorylines)
    else Ok(Shuffle(ex.Target().storylines, rng))
  }

  /** `getStorylinesFromSameSeason`. */
  function StorylinesFromSameSeason(ex: EpisodeExtractor, rng: Rng): (r: Result<Drawn<seq<string>>>)
    ensures r.Err? <==> forall j :: ex.IsSibling(j) ==> |ex.episodes[j].storylines| == 0
    ensures r.Ok? ==> multiset(r.value.value) == multiset(SeasonFacts(ex, StorylinesOf))
    ensures r.Ok? ==> forall s :: s in r.value.value <==>
      exists j :: ex.IsSibling(j) && s in ex.episodes[j].storylines
  {
    var r := SeasonPool(ex, StorylinesOf, NoSeasonStorylines, rng);
    SeasonFactsEmpty(ex, StorylinesOf);
    forall s ensures s in SeasonFacts(ex, StorylinesOf) <==> exists j :: ex.IsSibling(j) && s in ex.episodes[j].storylines {
      SeasonFactsMembers(ex, StorylinesOf, s);
    }
    if r.Ok? then PermutationKeepsMembers(r.value.value, SeasonFacts(ex, StorylinesOf)); r else r
  }

  /** `getColdOpens`. */
  function ColdOpens(ex: EpisodeExtractor, rng: Rng): (r: Result<Drawn<seq<string>>>)
    requires ex.Valid()
    ensures r.Err? <==> !ex.HasTarget() || |ex.Target().coldOpens| == 0
    ensures r.Ok? ==> multiset(r.value.value) == multiset(ex.Target().coldOpens)
    ensures r.Ok? ==> |r.value.value| == |ex.Target().coldOpens|
  {
    if !ex.HasTarget() || |ex.Target().coldOpens| == 0 then Err(NoColdOpens)
    else Ok(Shuffle(ex.Target().coldOpens, rng))
  }

  /** `getColdOpensFromSameSeason`. */
  function ColdOpensFromSameSeason(ex: EpisodeExtractor, rng: Rng): (r: Result<Drawn<seq<string>>>)
    ensures r.Err? <==> forall j :: ex.IsSibling(j) ==> |ex.episodes[j].coldOpens| == 0
    ensures r.Ok? ==> multiset(r.value.value) == multiset(SeasonFacts(ex, ColdOpensOf))
    ensures r.Ok? ==> forall s :: s in r.value.value <==>
      exists j :: ex.IsSibling(j) && s in ex.episodes[j].coldOpens
  {
    var r := SeasonPool(ex, ColdOpensOf, NoSeasonColdOpens, rng);
    SeasonFactsEmpty(ex, ColdOpensOf);
    forall s ensures s in SeasonFacts(ex, ColdOpensOf) <==> exists j :: ex.IsSibling(j) && s in ex.episodes[j].coldOpens {
      SeasonFactsMembers(ex, ColdOpensOf, s);
    }
    if r.Ok? then PermutationKeepsMembers(r.value.value, SeasonFacts(ex, ColdOpensOf)); r else r
  }

  /** `getQuotes`: the check looks at the unfiltered groups, so the filtered, shuffled
      result can be empty. */
  function Quotes(ex: EpisodeExtractor, rng: Rng): (r: Result<Drawn<seq<QuoteGroup>>>)
    requires ex.Valid()
    ensures r.Err? <==> !ex.HasTarget() || |ex.Target().quotes| == 0
    ensures r.Ok? ==> multiset(r.value.value) == multiset(KeepValid(ex.Target().quotes))
    ensures r.Ok? ==> forall g :: g in r.value.value <==> g in ex.Target().quotes && ValidGroup(g)
  {
    if !ex.HasTarget() || |ex.Target().quotes| == 0 then Err(NoQuotes)
    else
      var r := Shuffle(KeepValid(ex.Target().quotes), rng);
      PermutationKeepsMembers(r.value, KeepValid(ex.Target().quotes));
      Ok(r)
  }

  /** A usable quote group of one of the target's siblings. */
  ghost predicate SeasonGroup(ex: EpisodeExtractor, g: QuoteGroup) {
    ValidGroup(g) && exists j :: ex.IsSibling(j) && g in ex.episodes[j].quotes
  }

  /** `s` speaks in a usable quote group of one of the target's siblings. */
  ghost predicate SeasonSpeaker(ex: EpisodeExtractor, s: string) {
    exists g, q: Quote :: SeasonGroup(ex, g) && q in g && q.speaker == s
  }

  /** Reference list of the usable sibling groups, in corpus order. */
  function SeasonGroups(ex: EpisodeExtractor): seq<QuoteGroup> {
    KeepValid(SeasonFacts(ex, QuotesOf))
  }

  lemma SeasonGroupsMembers(ex: EpisodeExtractor)
    ensures forall g :: g in SeasonGroups(ex) <==> SeasonGroup(ex, g)
    ensures |Siblings(ex)| == 0 ==> |SeasonGroups(ex)| == 0
  {
    forall g
      ensures g in SeasonGroups(ex) <==> SeasonGroup(ex, g)
    {
      SeasonFactsMembers(ex, QuotesOf, g);
    }
  }

  /** `getQuotesFromSameSeason`: a shuffled copy of the usable sibling groups. */
  function QuotesFromSameSeason(ex: EpisodeExtractor, rng: Rng): (r: Result<Drawn<seq<QuoteGroup>>>)
    ensures r.Err? <==> |SeasonGroups(ex)| == 0
    ensures r.Ok? ==> multiset(r.value.value) == multiset(SeasonGroups(ex))
    ensures r.Ok? ==> forall g :: g in r.value.value <==> g in SeasonGroups(ex)
  {
    var pool :- Flatten(MapField(QuotesOf, Siblings(ex)));
    var shuffled := Shuffle(KeepValid(pool), rng);
    PermutationKeepsMembers(shuffled.value, SeasonGroups(ex));
    if |shuffled.value| == 0 then Err(NoSeasonQuotes)
    else Ok(shuffled)
  }

  /** The sibling quote accessor fails exactly when no sibling has a usable group, and
      otherwise returns exactly those groups. */
  lemma QuotesFromSameSeasonGroups(ex: EpisodeExtractor, rng: Rng)
    ensures QuotesFromSameSeason(ex, rng).Err? <==> forall g :: !SeasonGroup(ex, g)
    ensures QuotesFromSameSeason(ex, rng).Ok? ==>
      forall g :: g in QuotesFromSameSeason(ex, rng).value.value <==> SeasonGroup(ex, g)
  {
    SeasonGroupsMembers(ex);
    if |SeasonGroups(ex)| > 0 {
      assert SeasonGroup(ex, SeasonGroups(ex)[0]);
    }
  }

  lemma NonEmptyGroupsHaveSpeakers(gs: seq<QuoteGroup>)
    requires |gs| > 0 && ValidGroup(gs[0])
    ensures |CollectSpeakers([], gs)| > 0
  {
    assert gs[0][0] in gs[0];
    assert gs[0][0].speaker in CollectSpeakers([], gs);
  }

  /** Reference list of the distinct speakers of the usable sibling groups. */
  function SeasonSpeakers(ex: EpisodeExtractor): seq<string> {
    CollectSpeakers([], SeasonGroups(ex))
  }

  lemma SeasonSpeakersMembers(ex: EpisodeExtractor)
    ensures forall s :: s in SeasonSpeakers(ex) <==> SeasonSpeaker(ex, s)
  {
    SeasonGroupsMembers(ex);
  }

  /** `getSpeakersFromSameSeason`: the distinct speakers of the usable sibling groups.
      Every usable group has a speaker, so it fails only when the groups are missing. */
  function SpeakersFromSameSeason(ex: EpisodeExtractor, rng: Rng): (r: Result<Drawn<seq<string>>>)
    ensures r.Err? <==> |SeasonGroups(ex)| == 0
    ensures r.Ok? ==> Distinct(r.value.value)
    ensures r.Ok? ==> forall s :: s in r.value.value <==> s in SeasonSpeakers(ex)
  {
    var groups :- QuotesFromSameSeason(ex, rng);
    var speakers := CollectSpeakers([], groups.value);
    NonEmptyGroupsHaveSpeakers(groups.value);
    if |speakers| == 0 then Err(NoSeasonSpeakers)
    else Ok(Drawn(speakers, groups.rng))
  }
}
