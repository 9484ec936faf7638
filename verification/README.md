# OfficeTrivia question engine, modelled in Dafny

OfficeTrivia asks multiple-choice trivia questions about the episodes of *The Office*.
This project models the engine that turns an episode corpus into a question, and the
few client-side steps that consume it:

- `Random`, `Arrays`, `Sets`: the array helpers (`randomElement`, the Fisher-Yates
  `shuffle`, `concat`, `flatten`, `slice(0, n)`, `truthy`) and the `Set` difference.
  Every `Math.random()` reads the next draw, a real in [0, 1), from an explicit tape.
  `shuffle` is modelled both functionally (`Shuffle`) and in place (`ShuffleInPlace`),
  and the two are proved equal.
- `Corpus`: episodes, quote groups and the question records.
- `Extractor`: `EpisodeExtractor`, which draws a target episode and hands out shuffled
  copies of its facts and of the facts of its *siblings*. A sibling is another episode
  of the target's season. Episodes are told apart by position, as the source tells
  them apart by object identity.
- `Strategies`: the five question strategies of `QuestionService`.
- `Service`: one generation attempt (a strategy, then an extractor), the retry loops
  of `get` and `getShuffled`, and `applyShuffledAnswers`.
- `Prototype`: the earlier stand-alone generator `InWhichEpisodeForStoryline`, both as
  a pure function and run against the corpus arrays that its `flatten`, `shuffle` and
  `length = 3` may rewrite.
- `Asker` and `AnswerIndexPipe`: the answer and next-question transitions of the asker
  component, and the letter labels of the answers.

Failures are values. A `throw` of the source is an `Err` with a `Failure` naming the
check. Reading a property of `undefined` is `Err(TypeError)`, and so is `reduce` on an
empty array.

The source retries a failed attempt without bound. Here each attempt reads its own
tape, and the list of tapes given to `Get` and `GetShuffled` bounds the attempts. When
the list runs out, the result is `Err(Exhausted)`.

The model follows the code in these respects:
- Only the who-said strategy insists on three distractors. The storyline and cold-open
  strategies take `slice(0, 3)` of the sibling pool, so they give one to three. A
  delivered question therefore has two to four answers (`Service.DeliveredQuestion`).
- `getQuotes` checks the unfiltered quote groups of the target. If none survives the
  speaker filter, the who-said strategy fails with a `TypeError` on the missing first
  group, not with the "no quotes" error.
- Distractors are never compared with the correct answer. A distractor equal to it is
  possible, and `Asker.AnswerIndex` then treats both positions as right.
- A season of three episodes with two storylines each does produce a storyline question
  (`Strategies.ThreeEpisodeSeason`). The four sibling storylines fill all three slots.
- `getSpeakersFromSameSeason` cannot reach its "no speakers" error. Every group it reads
  is non-empty, and every speaker in it is non-empty
  (`Extractor.NonEmptyGroupsHaveSpeakers`).

## Model

| member | source | states |
|---|---|---|
| Random.RandomIndex | trivia-engine/arrays.ts:1-3 | `floor(len * draw)` is a valid index of any non-empty array |
| Random.RandomIndexIsFloor | trivia-engine/arrays.ts:1-3 | the index is the whole number at or just below `len * draw`: at most the scaled draw, and more than it less one |
| Random.RandomElement | trivia-engine/arrays.ts:1-3 | an element of the array exactly when the array is non-empty, otherwise `undefined` |
| Arrays.Swap | trivia-engine/arrays.ts:16-18 | the two positions exchange their values; every other position keeps its value; same multiset |
| Arrays.ShuffleFrom | trivia-engine/arrays.ts:10-19 | the loop from `currentIndex == k` permutes the array, leaves positions from `k` on untouched, and reads exactly `k` draws |
| Arrays.Shuffle | trivia-engine/arrays.ts:5-22 | `shuffle` returns a permutation of its input and reads one draw per element |
| Arrays.SwapAt | trivia-engine/arrays.ts:16-18 | the three assignments through `temporaryValue` exchange the two positions and leave every other one alone |
| Arrays.ShuffleInPlace | trivia-engine/arrays.ts:5-22 | the in-place loop returns the array it was given, and leaves it holding exactly the functional `Shuffle` of its old contents, with the same draws consumed |
| Arrays.Concat | trivia-engine/arrays.ts:24-26 | all of the first array, then all of the second |
| Arrays.ReduceConcatIsJoin | trivia-engine/arrays.ts:28-30 | folding `concat` from the left over the rest equals the accumulator followed by the in-order join of the rest |
| Arrays.Flatten | trivia-engine/arrays.ts:28-30 | fails with a `TypeError` exactly on an empty outer array; otherwise the inner arrays joined in order |
| Arrays.JoinMembers | trivia-engine/arrays.ts:28-30 | an element is in the flattened array exactly when it is in one of the inner arrays |
| Arrays.JoinEmpty | trivia-engine/arrays.ts:28-30 | the flattened array is empty exactly when every inner array is empty |
| Arrays.Take | office-trivia/src/app/question/question.service.ts:269-271 | `slice(0, n)` has `min(n, length)` elements, each at its original position |
| Sets.Add | office-trivia/src/app/question/question.service.ts:384-385 | `Set.add`: the members grow by exactly the added element, and no duplicate appears |
| Sets.AddAll | office-trivia/src/app/question/question.service.ts:114-116 | adding many: the members are the old ones plus the added ones, still without duplicates |
| Sets.Delete | office-trivia/src/app/util/sets.ts:3 | `Set.delete`: the members lose exactly that element, and no duplicate appears |
| Sets.Difference | office-trivia/src/app/util/sets.ts:1-5 | `difference(a, b)` holds exactly the members of `a` that are not in `b`, and stays duplicate-free |
| Sets.DifferenceIsWithout | office-trivia/src/app/util/sets.ts:1-5 | the difference iterates in the order of `a`: it equals the order-preserving filter of `a` by "not in `b`" |
| Sets.PermutationKeepsDistinct | office-trivia/src/app/question/question.service.ts:386-390 | shuffling the elements of a `Set` cannot create a duplicate |
| Corpus.KeepValid | office-trivia/src/app/question/question.service.ts:77-81 | the quote filter keeps exactly the non-empty groups whose every speaker is non-empty, each as often as it occurs |
| Corpus.ValidIndices | office-trivia/src/app/question/question.service.ts:77-81 | the positions the filter lets through are increasing, each passes, and every passing position is among them |
| Corpus.KeepValidInOrder | office-trivia/src/app/question/question.service.ts:77-81 | the filter keeps order: its k-th group is the group at the k-th passing position, and it keeps as many groups as there are passing positions |
| Corpus.CollectSpeakers | office-trivia/src/app/question/question.service.ts:112-116 | adding every speaker of every group to a `Set` gives exactly the speakers of those groups, with no duplicates |
| Corpus.GroupSpeakers | office-trivia/src/app/question/question.service.ts:384-385 | the correct speakers of a quote: exactly the speakers in the group, without duplicates |
| Extractor.NewExtractor | office-trivia/src/app/question/question.service.ts:63-65 | the extractor has a target exactly when the corpus is non-empty, and the target is an episode of the corpus |
| Extractor.SiblingIndices | office-trivia/src/app/question/question.service.ts:88-93 | the positions the sibling filter keeps: increasing, each a sibling, and every sibling among them |
| Extractor.SiblingsUpTo | office-trivia/src/app/question/question.service.ts:88-93 | the sibling filter over a prefix of the corpus is the episodes at exactly those positions, in corpus order, so each sibling appears once |
| Extractor.Siblings | office-trivia/src/app/question/question.service.ts:88-93 | the sibling filter is exactly the episodes of the target's season other than the target itself, each once, in corpus order |
| Extractor.SeasonFactsMembers | office-trivia/src/app/question/question.service.ts:171-181 | an item is in the flattened sibling pool exactly when some sibling has it |
| Extractor.SeasonFactsSound | office-trivia/src/app/question/question.service.ts:171-181 | every item of the flattened sibling pool belongs to some sibling |
| Extractor.SeasonFactsComplete | office-trivia/src/app/question/question.service.ts:171-181 | every item of every sibling is in the flattened sibling pool |
| Extractor.SeasonFactsEmpty | office-trivia/src/app/question/question.service.ts:184-189 | the sibling pool is empty exactly when every sibling's field is empty |
| Extractor.SeasonPool | office-trivia/src/app/question/question.service.ts:138-159 | a `...FromSameSeason` accessor fails exactly when the sibling pool is empty, and otherwise returns a permutation of it |
| Extractor.Storylines | office-trivia/src/app/question/question.service.ts:161-169 | fails exactly when there is no target or it has fewer than two storylines; otherwise a permutation of them |
| Extractor.StorylinesFromSameSeason | office-trivia/src/app/question/question.service.ts:171-192 | fails exactly when every sibling lacks storylines; otherwise a permutation of all sibling storylines |
| Extractor.ColdOpens | office-trivia/src/app/question/question.service.ts:128-136 | fails exactly when there is no target or it has no cold open; otherwise a permutation of them |
| Extractor.ColdOpensFromSameSeason | office-trivia/src/app/question/question.service.ts:138-159 | fails exactly when every sibling lacks cold opens; otherwise a permutation of all sibling cold opens |
| Extractor.Quotes | office-trivia/src/app/question/question.service.ts:67-83 | fails exactly when there is no target or it has no quote group at all; otherwise a permutation of its groups that pass the speaker filter, which may be none |
| Extractor.SeasonGroupsMembers | office-trivia/src/app/question/question.service.ts:85-100 | the filtered sibling groups are exactly the usable groups of the siblings |
| Extractor.QuotesFromSameSeason | office-trivia/src/app/question/question.service.ts:85-109 | fails exactly when no usable sibling group exists; otherwise a permutation of the usable sibling groups, with their multiplicities |
| Extractor.QuotesFromSameSeasonGroups | office-trivia/src/app/question/question.service.ts:85-109 | the same, stated over the groups themselves: an error iff no sibling has a usable group, membership iff a sibling has the group |
| Extractor.NonEmptyGroupsHaveSpeakers | office-trivia/src/app/question/question.service.ts:111-123 | a usable group always contributes a speaker, so the "no speakers" error cannot follow a successful group lookup |
| Extractor.SeasonSpeakersMembers | office-trivia/src/app/question/question.service.ts:111-116 | the season speakers are exactly the speakers in usable sibling groups |
| Extractor.SpeakersFromSameSeason | office-trivia/src/app/question/question.service.ts:111-126 | fails exactly when no usable sibling group exists; otherwise the distinct season speakers |
| Strategies.TakeFromPool | office-trivia/src/app/question/question.service.ts:269-271 | the first three of a shuffled sibling pool: `min(3, pool size)` items, all drawn from siblings, none repeated beyond the pool |
| Strategies.StorylineForStoryline | office-trivia/src/app/question/question.service.ts:262-319 | fails exactly when the target is missing, has fewer than two storylines, or no sibling has one. Otherwise it shows one storyline and asks another, both distinct positions of the target's storylines, with one to three sibling distractors |
| Strategies.StorylineForColdOpen | office-trivia/src/app/question/question.service.ts:322-347 | fails exactly when the target lacks a cold open or two storylines, or no sibling has a storyline. Otherwise it shows a target cold open and asks a target storyline, with one to three sibling storylines as distractors |
| Strategies.ColdOpenForStoryline | office-trivia/src/app/question/question.service.ts:350-377 | fails exactly when the target lacks two storylines or a cold open, or no sibling has a cold open. Otherwise it shows a target storyline and asks a target cold open, with one to three sibling cold opens as distractors |
| Strategies.ThreeEpisodeFacts | office-trivia/src/app/question/question.service.ts:171-192 | for three two-storyline episodes in one season, the first one's sibling pool is the other four storylines in corpus order |
| Strategies.ThreeEpisodeSeason | office-trivia/src/app/question/question.service.ts:262-288 | three two-storyline episodes in one season: the question succeeds, with three distractors from the siblings and the answer from the target |
| Strategies.Blank | office-trivia/src/app/question/question.service.ts:400-411 | every line keeps its content; exactly the lines of the selected speaker lose their speaker |
| Strategies.BlankThenFill | office-trivia/src/app/question/question.service.ts:400-411 | filling every blank with the correct answer restores the quote |
| Strategies.OutsideCount | office-trivia/src/app/question/question.service.ts:386-398 | the difference array is as long as the set of season speakers absent from the quote |
| Strategies.TakeThreeOutside | office-trivia/src/app/question/question.service.ts:386-390 | the first three of a shuffled difference number `min(3, size of the difference)`, are distinct, and all come from the first set and lie outside the second |
| Strategies.WrongSpeakers | office-trivia/src/app/question/question.service.ts:386-390 | the wrong speakers are `min(3, outsiders)` distinct season speakers, none of whom speaks in the quote |
| Strategies.AskWhoSaid | office-trivia/src/app/question/question.service.ts:384-427 | fails exactly when fewer than three season speakers are absent from the quote. Otherwise the answer is a speaker of the quote, that speaker is blanked, and there are three distinct wrong speakers from the season |
| Strategies.WhoSaidQuote | office-trivia/src/app/question/question.service.ts:380-428 | fails when the target has no usable quote, or no usable quote has three outside speakers. Succeeds when every usable quote has them. A success quotes a usable group of the target |
| Service.PickStrategy | office-trivia/src/app/question/question.service.ts:211-218 | a draw in the `i`-th fifth of [0, 1) picks the `i`-th registered strategy |
| Service.EveryStrategyReachable | office-trivia/src/app/question/question.service.ts:211-218 | every one of the five strategies is picked by some draw |
| Service.Generate | office-trivia/src/app/question/question.service.ts:211-219 | a question from any strategy credits the target episode, answers with a fact of it, and has one to three distractors |
| Service.Attempt | office-trivia/src/app/question/question.service.ts:211-219 | an empty corpus always fails; the attempt fails, with the same error, exactly when the strategy picked by the first draw fails on the target picked by the second; otherwise it returns that strategy's question, which is about some episode of the corpus, and consumes one more draw (the question's `id`) after the strategy's own |
| Service.ApplyShuffledAnswers | office-trivia/src/app/question/question.service.ts:238-252 | succeeds exactly when every answer is non-empty, failing otherwise; the question is kept and the answers are a permutation of the correct one and the distractors |
| Service.FirstOk | office-trivia/src/app/question/question.service.ts:211-226 | the retry returns the first successful attempt and fails only when every attempt fails |
| Service.FirstDelivered | office-trivia/src/app/question/question.service.ts:228-236 | the outer retry returns the first attempt that both generates and shuffles, and fails only when none does |
| Service.Get | office-trivia/src/app/question/question.service.ts:211-226 | `get` yields the question of the first attempt that succeeds; it fails only when every attempt fails |
| Service.GetShuffled | office-trivia/src/app/question/question.service.ts:228-236 | `getShuffled` yields the shuffled question of the first attempt that passes both steps; it fails only when none does |
| Service.DeliveredQuestion | office-trivia/src/app/question/question.service.ts:228-252 | a delivered question is about a corpus episode, and has two to four non-empty answers that permute the correct one and the distractors |
| Service.WhoSaidAnswersAreTruthy | office-trivia/src/app/question/question.service.ts:380-428 | a who-said question always passes the answer check: all its answers are speakers of usable groups |
| Prototype.SetLength | trivia-engine/modules/inWhichEpisode-Storyline.ts:40 | `length = n` keeps the first `n` entries and pads the rest with `undefined` |
| Prototype.SiblingPool | trivia-engine/modules/inWhichEpisode-Storyline.ts:28-38 | fails exactly when the target has no sibling; otherwise a permutation of the sibling storylines, which may be empty |
| Prototype.Generate | trivia-engine/modules/inWhichEpisode-Storyline.ts:13-50 | fails exactly when the corpus is empty, the target has fewer than two storylines, or it has no sibling. Otherwise it shows one storyline and asks another of the target. It gives exactly three distractor cells, defined exactly at the positions the sibling pool fills, each a sibling storyline |
| Prototype.Write | trivia-engine/arrays.ts:16-18 | after an in-place write the array reads as the new entries; only a corpus array being written changes the corpus, and then no other corpus array changes |
| Prototype.ReduceRefJoins | trivia-engine/arrays.ts:28-30 | `reduce(concat)` with at least one step returns an array `concat` made, holding the accumulator's entries and then the rest in order |
| Prototype.FlattenRef | trivia-engine/arrays.ts:28-30 | `flatten` fails with a `TypeError` on an empty list, returns the one array itself for a one-element list, and a new array otherwise; its entries are all the arrays' entries in order |
| Prototype.RewritePool | trivia-engine/modules/inWhichEpisode-Storyline.ts:28-40 | the in-place shuffle and `length = 3` leave the pool holding three cells of its shuffled entries, and change a corpus array only when the pool is that array |
| Prototype.GenerateOn | trivia-engine/modules/inWhichEpisode-Storyline.ts:13-50 | run against the corpus arrays, a generation changes an episode's storylines only when the pool was not copied, the episode is the target's sole sibling, and its array then holds the distractors |
| Prototype.ShuffleFromCells | trivia-engine/arrays.ts:5-22 | shuffling an array of cells gives the cells of the shuffled entries, reading the same draws |
| Prototype.GenerateOnAgrees | trivia-engine/modules/inWhichEpisode-Storyline.ts:13-50 | the run against the corpus arrays succeeds exactly when `Generate` does, and asks the same question, with or without the copy |
| Prototype.StorylinesAfter | trivia-engine/modules/inWhichEpisode-Storyline.ts:28-40 | as written, a generation changes at most one episode's storylines: the sole sibling's, which become the distractor cells |
| Prototype.SoleSiblingOverwritten | trivia-engine/modules/inWhichEpisode-Storyline.ts:28-40 | as written, with exactly one sibling, that sibling's storylines are replaced by the question's three distractor cells and no other episode's change |
| Prototype.SoleSiblingPool | trivia-engine/modules/inWhichEpisode-Storyline.ts:28-40 | with one sibling, `flatten` hands back that sibling's own array, which ends up holding the distractor cells |
| Prototype.SoleSiblingIsPadded | trivia-engine/modules/inWhichEpisode-Storyline.ts:28-40 | counterexample: a sibling with the single storyline "C" is left holding "C", `undefined`, `undefined` |
| Prototype.CopiedPoolKeepsCorpus | trivia-engine/modules/inWhichEpisode-Storyline.ts:28-40 | corrected: with the pool copied, generating leaves every episode's storylines as they were |
| Asker.AnswerIndex | office-trivia/src/app/asker/asker.component.ts:54-66 | fails with a `TypeError` exactly when no question is loaded. Otherwise the state becomes RIGHT exactly when the picked position holds the correct answer; the streak then grows by one, and otherwise it resets to zero. The rating and comment are cleared |
| Asker.NextQuestion | office-trivia/src/app/asker/asker.component.ts:68-74 | feedback is submitted exactly when a difficulty was chosen or a comment typed; the state becomes LOADING and nothing else changes |
| Asker.Arrive | office-trivia/src/app/asker/asker.component.ts:43-51 | an arriving question is shown and asked; the streak, the rating and the comment are kept |
| Asker.AnsweredThenNextSubmitsNothing | office-trivia/src/app/asker/asker.component.ts:54-74 | moving on straight after answering submits no feedback |
| Asker.CorrectAnswerOffered | office-trivia/src/app/asker/asker.component.ts:54-63 | every delivered question offers its correct answer at a position that answers RIGHT |
| Asker.EveryAnswerLabelled | office-trivia/src/app/asker/answer-index.pipe.ts:7-19 | every position of a question with at most four answers gets a letter |
| Asker.PlayRound | office-trivia/src/app/asker/asker.component.ts:43-74 | after answering and moving on, the component is loading and still holds the question just answered |
| Asker.FreshStreak | office-trivia/src/app/asker/asker.component.ts:31-63 | a fresh component throws when answered before a question arrives; from then on its streak is exactly the run of right answers since the last wrong one |
| Asker.StreakIsTrailingRun | office-trivia/src/app/asker/asker.component.ts:57-63 | over any run of rounds, the streak counts the right answers since the last wrong one, added to the starting streak when none was wrong |
| AnswerIndexPipe.Transform | office-trivia/src/app/asker/answer-index.pipe.ts:7-19 | a letter from "A" to "D" exactly for positions 0 to 3, `null` otherwise |
| AnswerIndexPipe.TransformRoundTrip | office-trivia/src/app/asker/answer-index.pipe.ts:7-19 | every labelled position can be read back from its letter |
| AnswerIndexPipe.LetterRoundTrip | office-trivia/src/app/asker/answer-index.pipe.ts:7-19 | every letter from "A" to "D" is the label of the position it reads back as |
| AnswerIndexPipe.TransformInjective | office-trivia/src/app/asker/answer-index.pipe.ts:7-19 | distinct positions never share a letter |

## Left out

- HTTP loading of the episode and "that's what she said" files, and RxJS scheduling: the corpus is a parameter, and a subscription is one function call (`Asker.Arrive`).
- `ThatsWhatSheSaid` records: loaded by the service but used by no strategy.
- The `id` field of a question, which is `Math.random()`: its draw is consumed, but its value is not kept in the question.
- The rendered strings for context, credit and quote markup: these are the structured `Locator`, `Credit` and `Line` values, so HTML escaping is not modelled.
- The `episodes` field of an episode record, which no operation of the engine reads.
- The ETL scripts, `main.ts`, `generate-question.ts`, the generator base class and Angular module wiring: they are outside the engine.
- `submitFeedback` has an empty body, so only the decision to call it is modelled. The template bindings that set the rating and the comment are outside the component's code.
- office-trivia/src/app/util/arrays.ts is not part of this model. The app's helpers are taken to be those of trivia-engine/arrays.ts, with `truthy` meaning defined and non-empty.
- The aliasing of the app's storyline and cold-open sibling accessors (question.service.ts:139-149, 172-182): like the prototype, with a single sibling `flatten` returns that sibling's own array, and `shuffle` reorders it in place. No length changes and every later read shuffles it again, so the model treats these accessors as pure. `getQuotesFromSameSeason` is not affected: it shuffles the fresh array that `filter` returns.
- Non-integer and non-number inputs to the answer-index pipe: its input is an integer here.
- Service.Get: the source retries forever; the model bounds the attempts by the supplied tapes and reports `Exhausted` after the last one.
- Service.GetShuffled: bounded by the supplied tapes in the same way as `Get`.
- Strategies.WhoSaidQuote: success is stated for corpora where every usable quote of the target has three outside speakers. When only some do, the outcome depends on which group the shuffle puts first, and the contract does not decide it.
- Arrays.ShuffleInPlace: its contract speaks of the array's old contents and so depends on heap state. The in-place loop is tied to the functional `Shuffle`, which carries the counted contracts.
- Arrays.SwapAt: its contract relates the array to its old contents, as `ShuffleInPlace`'s does; the functional `Swap` it is tied to carries the counted contract.
- Episodes that lack a `quotes`, `storylines` or `coldOpens` field. The ETL deletes an empty `quotes` field, and the target accessors read all three with `?.`. A field missing from the first sibling makes `reduce(concat)` call `concat` on `undefined` and throw a `TypeError`. Missing from a later sibling, it appends `undefined` to the pool. Missing `quotes` from the only sibling makes `.filter` throw. The model gives every episode all three fields, so an absent field behaves as an empty one and those paths succeed.
- The initially unset feedback comment is modelled as the empty string. Both are falsy, and truthiness is the only test applied to it.

## Findings

| source | as written | input that shows it | evidently intended | confidence | as-written member | corrected member |
|---|---|---|---|---|---|---|
| trivia-engine/modules/inWhichEpisode-Storyline.ts:28-40 | `flatten` is `reduce(concat)` without a seed, so for a single sibling it returns that sibling's own `storylines` array. `shuffle` then permutes it in place, and `length = 3` truncates or pads it, so the shared corpus is rewritten | Season 1 with episodes One (storylines A, B) and Two (storyline C), first draw below 0.5 so One is the target: afterwards Two holds C, `undefined`, `undefined` | distractors built in a fresh array, leaving every episode's storylines unchanged | medium, not executed | Prototype.GenerateOn (with `copyPool` false), Prototype.FlattenRef, Prototype.SoleSiblingOverwritten, Prototype.SoleSiblingIsPadded | Prototype.GenerateOn (with `copyPool` true), Prototype.StorylinesAfter, Prototype.CopiedPoolKeepsCorpus |
