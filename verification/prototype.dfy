/** The earlier single-strategy generator `InWhichEpisodeForStoryline`. It differs from
    the service's storyline strategy in two ways: it sets the distractor array's length
    to 3 (truncating, or padding with `undefined` holes) instead of slicing, and it
    does not fail when the siblings have no storylines. */
module Prototype {
  import opened Results
  import opened Random
  import opened Arrays
  import opened Corpus
  import opened Extractor
  import opened Strategies

  /** The prototype's question: one text, and distractors that may be `undefined`. */
  datatype ProtoQuestion = ProtoQuestion(
    context: Locator,
    questionText: string,
    correctAnswer: string,
    wrongAnswers: seq<Option<string>>)

  function Prompt(storyline: string): string {
    "In the episode where this is happening:\n" + storyline + "\nWhat is also happening?"
  }

  /** An array's entries as cells: `None` is a hole, which reads as `undefined`. */
  function Cells<T>(s: seq<T>): (r: seq<Option<T>>)
    ensures |r| == |s|
    ensures forall i :: 0 <= i < |s| ==> r[i] == Some(s[i])
  {
    seq(|s|, i requires 0 <= i < |s| => Some(s[i]))
  }

  /** `array.length = n` on cells: truncates, or pads with holes. */
  function Resize<T>(cells: seq<Option<T>>, n: nat): (r: seq<Option<T>>)
    ensures |r| == n
    ensures forall i :: 0 <= i < n ==> r[i] == if i < |cells| then cells[i] else None
  {
    seq(n, i requires 0 <= i < n => if i < |cells| then cells[i] else None)
  }

  /** `array.length = n` on an array without holes. */
  function SetLength<T>(s: seq<T>, n: nat): (r: seq<Option<T>>)
    ensures |r| == n
    ensures forall i :: 0 <= i < n ==> r[i] == if i < |s| then Some(s[i]) else None
  {
    Resize(Cells(s), n)
  }

  /** The prototype's distractor pool: the siblings' storylines, flattened and shuffled.
      `flatten` fails on an empty list of siblings, but an empty pool passes. */
  function SiblingPool(ex: EpisodeExtractor, rng: Rng): (r: Result<Drawn<seq<string>>>)
    ensures r.Err? <==> |Siblings(ex)| == 0
    ensures r.Ok? ==> multiset(r.value.value) == multiset(SeasonFacts(ex, StorylinesOf))
    ensures r.Ok? ==> forall s :: s in r.value.value ==>
      exists j :: ex.IsSibling(j) && s in ex.episodes[j].storylines
  {
    var pool :- Flatten(MapField(StorylinesOf, Siblings(ex)));
    var shuffled := Shuffle(pool, rng);
    PermutationKeepsMembers(shuffled.value, pool);
    forall s | s in pool
      ensures exists j :: ex.IsSibling(j) && s in ex.episodes[j].storylines
    {
      SeasonFactsMembers(ex, StorylinesOf, s);
    }
    Ok(shuffled)
  }

  /** `InWhichEpisodeForStoryline.generate`. */
  function Generate(episodes: seq<Episode>, rng: Rng): (r: Result<Drawn<ProtoQuestion>>)
    ensures var ex := NewExtractor(episodes, rng.Peek());
      r.Err? <==> !ex.HasTarget() || |ex.Target().storylines| < 2 || |Siblings(ex)| == 0
    ensures var ex := NewExtractor(episodes, rng.Peek());
      r.Ok? ==>
        var q := r.value.value;
        && ex.HasTarget()
        && q.context == InSeason(ex.Target().season)
        && (exists shown :: q.questionText == Prompt(shown)
              && multiset{shown, q.correctAnswer} <= multiset(ex.Target().storylines))
        && |q.wrongAnswers| == 3
        && (forall i :: 0 <= i < 3 ==> (q.wrongAnswers[i].Some? <==> i < |SeasonFacts(ex, StorylinesOf)|))
        && (forall i :: 0 <= i < 3 && q.wrongAnswers[i].Some? ==>
              exists j :: ex.IsSibling(j) && q.wrongAnswers[i].value in ex.episodes[j].storylines)
  {
    var ex := NewExtractor(episodes, rng.Peek());
    var storylines :- Storylines(ex, rng.Next());
    var questionStoryline := storylines.value[0];
    var answerStoryline := storylines.value[1];
    var sameSeason :- SiblingPool(ex, storylines.rng);
    FirstTwo(storylines.value);
    PaddedPool(ex, sameSeason.value);
    Ok(Drawn(
      ProtoQuestion(InSeason(ex.Target().season), Prompt(questionStoryline), answerStoryline,
                    SetLength(sameSeason.value, 3)),
      sameSeason.rng.Next()))
  }

  /** The three distractor cells cut from a sibling pool: filled exactly as far as the
      pool reaches, each filled cell a sibling storyline. */
  lemma PaddedPool(ex: EpisodeExtractor, pool: seq<string>)
    requires multiset(pool) == multiset(SeasonFacts(ex, StorylinesOf))
    requires forall s :: s in pool ==> exists j :: ex.IsSibling(j) && s in ex.episodes[j].storylines
    ensures var w := SetLength(pool, 3);
      && (forall i :: 0 <= i < 3 ==> (w[i].Some? <==> i < |SeasonFacts(ex, StorylinesOf)|))
      && (forall i :: 0 <= i < 3 && w[i].Some? ==>
            exists j :: ex.IsSibling(j) && w[i].value in ex.episodes[j].storylines)
  {
    assert |pool| == |SeasonFacts(ex, StorylinesOf)| by {
      assert |multiset(pool)| == |multiset(SeasonFacts(ex, StorylinesOf))|;
    }
    var w := SetLength(pool, 3);
    assert forall i :: 0 <= i < 3 && w[i].Some? ==> w[i].value in pool;
  }

  /** Every episode's `storylines` array, by corpus position, as cells. */
  type Heap = seq<seq<Option<string>>>

  /** The corpus arrays before anything runs. */
  function StorylineTable(episodes: seq<Episode>): (t: Heap)
    ensures |t| == |episodes|
  {
    seq(|episodes|, i requires 0 <= i < |episodes| => Cells(episodes[i].storylines))
  }

  /** An array as the prototype handles it: the `storylines` array of corpus episode
      `episode` itself, or an array that `concat` or `slice` made. */
  datatype ArrayRef = Owned(episode: nat) | Made(cells: seq<Option<string>>)

  predicate Points(heap: Heap, a: ArrayRef) {
    a.Owned? ==> a.episode < |heap|
  }

  function Read(heap: Heap, a: ArrayRef): seq<Option<string>>
    requires Points(heap, a)
  {
    if a.Owned? then heap[a.episode] else a.cells
  }

  /** Every array of a list, read. */
  function Reads(heap: Heap, refs: seq<ArrayRef>): (r: seq<seq<Option<string>>>)
    requires forall k :: 0 <= k < |refs| ==> Points(heap, refs[k])
    ensures |r| == |refs|
    ensures forall k :: 0 <= k < |refs| ==> r[k] == Read(heap, refs[k])
  {
    seq(|refs|, k requires 0 <= k < |refs| => Read(heap, refs[k]))
  }

  /** The corpus after an array has been rewritten, and the array itself. */
  datatype Store = Store(heap: Heap, written: ArrayRef)

  /** Rewrites array `a` in place. Other readers see the change exactly when `a` is an
      array of the corpus. */
  function Write(heap: Heap, a: ArrayRef, cells: seq<Option<string>>): (r: Store)
    requires Points(heap, a)
    ensures |r.heap| == |heap| && Points(r.heap, r.written)
    ensures Read(r.heap, r.written) == cells
    ensures r.written.Owned? <==> a.Owned?
    ensures a.Owned? ==> r.written == a
    ensures forall j :: 0 <= j < |heap| && a != Owned(j) ==> r.heap[j] == heap[j]
  {
    if a.Owned? then Store(heap[a.episode := cells], a) else Store(heap, Made(cells))
  }

  /** `concat`: a new array holding both arrays' entries. */
  function ConcatRef(heap: Heap, a: ArrayRef, b: ArrayRef): (r: ArrayRef)
    requires Points(heap, a) && Points(heap, b)
    ensures r.Made? && Read(heap, r) == Read(heap, a) + Read(heap, b)
  {
    Made(Concat(Read(heap, a), Read(heap, b)))
  }

  /** `reduce(concat)` with `acc` as the accumulator. */
  function ReduceRef(heap: Heap, acc: ArrayRef, rest: seq<ArrayRef>): ArrayRef
    requires Points(heap, acc) && forall k :: 0 <= k < |rest| ==> Points(heap, rest[k])
    decreases |rest|
  {
    if |rest| == 0 then acc else ReduceRef(heap, ConcatRef(heap, acc, rest[0]), rest[1..])
  }

  /** A fold with at least one step returns an array `concat` made; its entries are the
      accumulator's, then the rest joined in order. */
  lemma {:induction false} ReduceRefJoins(heap: Heap, acc: ArrayRef, rest: seq<ArrayRef>)
    requires Points(heap, acc) && forall k :: 0 <= k < |rest| ==> Points(heap, rest[k])
    ensures Points(heap, ReduceRef(heap, acc, rest))
    ensures Read(heap, ReduceRef(heap, acc, rest)) == Read(heap, acc) + Join(Reads(heap, rest))
    ensures |rest| > 0 ==> ReduceRef(heap, acc, rest).Made?
    decreases |rest|
  {
    if |rest| > 0 {
      var acc' := ConcatRef(heap, acc, rest[0]);
      ReduceRefJoins(heap, acc', rest[1..]);
      ReadsJoin(heap, acc, rest);
    }
  }

  lemma ReadsJoin(heap: Heap, acc: ArrayRef, rest: seq<ArrayRef>)
    requires |rest| > 0 && Points(heap, acc) && forall k :: 0 <= k < |rest| ==> Points(heap, rest[k])
    ensures Read(heap, ConcatRef(heap, acc, rest[0])) + Join(Reads(heap, rest[1..]))
      == Read(heap, acc) + Join(Reads(heap, rest))
  {
    var rs := Reads(heap, rest);
    assert Reads(heap, rest[1..]) == rs[1..];
    assert Join(rs) == rs[0] + Join(rs[1..]);
    var a, b, c := Read(heap, acc), rs[0], Join(rs[1..]);
    assert (a + b) + c == a + (b + c);
  }

  /** `flatten` on arrays: the entries of all of them in order, in the one array of a
      one-element list itself and in a new array otherwise. */
  function FlattenRef(heap: Heap, refs: seq<ArrayRef>): (r: Result<ArrayRef>)
    requires forall k :: 0 <= k < |refs| ==> Points(heap, refs[k])
    ensures r.Ok? <==> |refs| > 0
    ensures r.Err? ==> r.error == TypeError
    ensures r.Ok? ==> Points(heap, r.value) && Read(heap, r.value) == Join(Reads(heap, refs))
    ensures |refs| == 1 ==> r == Ok(refs[0])
    ensures |refs| > 1 ==> r.Ok? && r.value.Made?
  {
    if |refs| == 0 then Err(TypeError)
    else
      ReduceRefJoins(heap, refs[0], refs[1..]);
      assert Reads(heap, refs) == [Read(heap, refs[0])] + Reads(heap, refs[1..]);
      Ok(ReduceRef(heap, refs[0], refs[1..]))
  }

  /** The corpus arrays at the given positions. */
  function OwnedRefs(heap: Heap, idx: seq<nat>): (r: seq<ArrayRef>)
    requires forall k :: 0 <= k < |idx| ==> idx[k] < |heap|
    ensures |r| == |idx|
    ensures forall k :: 0 <= k < |idx| ==> r[k] == Owned(idx[k]) && Points(heap, r[k])
  {
    seq(|idx|, k requires 0 <= k < |idx| => Owned(idx[k]))
  }

  /** What `generate` leaves: its question, and every episode's `storylines` array. */
  datatype Outcome = Outcome(question: ProtoQuestion, heap: Heap)

  /** The in-place `shuffle` of the pool, then `length = 3` on it. Only the pool's own
      array changes, and it ends up holding the three distractor cells. */
  function RewritePool(heap: Heap, pool: ArrayRef, rng: Rng): (r: Drawn<Store>)
    requires Points(heap, pool)
    ensures |r.value.heap| == |heap| && Points(r.value.heap, r.value.written)
    ensures Read(r.value.heap, r.value.written) == Resize(Shuffle(Read(heap, pool), rng).value, 3)
    ensures r.rng == Shuffle(Read(heap, pool), rng).rng
    ensures pool.Owned? ==> r.value.written == pool
    ensures forall j :: 0 <= j < |heap| && r.value.heap[j] != heap[j] ==>
      pool == Owned(j) && r.value.heap[j] == Read(r.value.heap, r.value.written)
  {
    var shuffled := Shuffle(Read(heap, pool), rng);
    var afterShuffle := Write(heap, pool, shuffled.value);
    var resized := Write(afterShuffle.heap, afterShuffle.written,
                         Resize(Read(afterShuffle.heap, afterShuffle.written), 3));
    Drawn(resized, shuffled.rng)
  }

  /** The pool `flatten` returns is a corpus array only for a single sibling, whose
      array it then is. */
  lemma OwnedPool(episodes: seq<Episode>, ex: EpisodeExtractor, flat: ArrayRef)
    requires ex.episodes == episodes
    requires var heap := StorylineTable(episodes);
      FlattenRef(heap, OwnedRefs(heap, SiblingIndices(ex, |episodes|))) == Ok(flat)
    ensures flat.Owned? ==> ex.IsSibling(flat.episode) && |Siblings(ex)| == 1
  {
  }

  /** `generate` run against the corpus arrays. The target's storylines are shuffled in a
      `slice()` copy. The distractor pool is the array `flatten` returns, which the
      in-place `shuffle` and `length = 3` rewrite; with `copyPool` the pool is a
      `slice()` of it instead. */
  function GenerateOn(episodes: seq<Episode>, rng: Rng, copyPool: bool): (r: Result<Drawn<Outcome>>)
    ensures r.Ok? ==> |r.value.value.heap| == |episodes|
    ensures r.Ok? ==> forall j :: 0 <= j < |episodes| && r.value.value.heap[j] != StorylineTable(episodes)[j] ==>
      var ex := NewExtractor(episodes, rng.Peek());
      && !copyPool
      && ex.IsSibling(j) && |Siblings(ex)| == 1
      && r.value.value.heap[j] == r.value.value.question.wrongAnswers
  {
    var heap := StorylineTable(episodes);
    var ex := NewExtractor(episodes, rng.Peek());
    var storylines :- Storylines(ex, rng.Next());
    var flat :- FlattenRef(heap, OwnedRefs(heap, SiblingIndices(ex, |episodes|)));
    OwnedPool(episodes, ex, flat);
    var pool := if copyPool then Made(Read(heap, flat)) else flat;
    var rewritten := RewritePool(heap, pool, storylines.rng);
    var store := rewritten.value;
    OnlySoleSiblingWritten(ex, heap, flat, copyPool, pool, store);
    Ok(Drawn(
      Outcome(
        ProtoQuestion(InSeason(ex.Target().season), Prompt(storylines.value[0]), storylines.value[1],
                      Read(store.heap, store.written)),
        store.heap),
      rewritten.rng.Next()))
  }

  /** Whatever the rewrite changed is the array of the one sibling, and never a copy. */
  lemma OnlySoleSiblingWritten(ex: EpisodeExtractor, heap: Heap, flat: ArrayRef, copyPool: bool,
                               pool: ArrayRef, store: Store)
    requires Points(heap, flat)
    requires flat.Owned? ==> ex.IsSibling(flat.episode) && |Siblings(ex)| == 1
    requires pool == if copyPool then Made(Read(heap, flat)) else flat
    requires |store.heap| == |heap| && Points(store.heap, store.written)
    requires forall j :: 0 <= j < |heap| && store.heap[j] != heap[j] ==>
      pool == Owned(j) && store.heap[j] == Read(store.heap, store.written)
    ensures forall j :: 0 <= j < |heap| && store.heap[j] != heap[j] ==>
      && !copyPool && ex.IsSibling(j) && |Siblings(ex)| == 1
      && store.heap[j] == Read(store.heap, store.written)
  {
  }

  /** Shuffling the first `k` cells agrees with wrapping the shuffled entries, draws included. */
  ghost predicate CellsAgree<T>(s: seq<T>, k: nat, rng: Rng)
    requires k <= |s|
  {
    ShuffleFrom(Cells(s), k, rng).value == Cells(ShuffleFrom(s, k, rng).value)
    && ShuffleFrom(Cells(s), k, rng).rng == ShuffleFrom(s, k, rng).rng
  }

  /** Cells commute with the shuffle: it moves positions, whatever they hold. */
  lemma {:induction false} ShuffleFromCells<T>(s: seq<T>, k: nat, rng: Rng)
    requires k <= |s|
    ensures CellsAgree(s, k, rng)
    decreases k, 1
  {
    if k > 0 {
      CellsTurn(s, k, rng);
    }
  }

  /** One turn of the loop, with agreement for the rest of the loop by induction. */
  lemma {:induction false} CellsTurn<T>(s: seq<T>, k: nat, rng: Rng)
    requires 0 < k <= |s|
    ensures CellsAgree(s, k, rng)
    decreases k, 0
  {
    var s' := Swap(s, k - 1, RandomIndex(k, rng.Peek()));
    ShuffleFromCells(s', k - 1, rng.Next());
    CellsInduct(s, s', k, rng);
  }

  /** The inductive step: agreement after one turn of the loop gives agreement before it. */
  lemma CellsInduct<T>(s: seq<T>, s': seq<T>, k: nat, rng: Rng)
    requires 0 < k <= |s| && s' == Swap(s, k - 1, RandomIndex(k, rng.Peek()))
    requires CellsAgree(s', k - 1, rng.Next())
    ensures CellsAgree(s, k, rng)
  {
    CellsStep(s, s', k, rng);
    ShuffleStep(s, s', k, rng);
  }

  /** One turn of the loop on cells is the same turn on the entries. */
  lemma CellsStep<T>(s: seq<T>, s': seq<T>, k: nat, rng: Rng)
    requires 0 < k <= |s| && s' == Swap(s, k - 1, RandomIndex(k, rng.Peek()))
    ensures ShuffleFrom(Cells(s), k, rng) == ShuffleFrom(Cells(s'), k - 1, rng.Next())
  {
    SwapCells(s, k - 1, RandomIndex(k, rng.Peek()));
    ShuffleStep(Cells(s), Cells(s'), k, rng);
  }

  lemma SwapCells<T>(s: seq<T>, i: nat, j: nat)
    requires i < |s| && j < |s|
    ensures Swap(Cells(s), i, j) == Cells(Swap(s, i, j))
  {
    var c := Swap(Cells(s), i, j);
    assert forall m :: 0 <= m < |s| ==> c[m] == Cells(Swap(s, i, j))[m];
  }

  lemma {:induction false} JoinCells<T>(xss: seq<seq<T>>, css: seq<seq<Option<T>>>)
    requires |css| == |xss| && forall k :: 0 <= k < |xss| ==> css[k] == Cells(xss[k])
    ensures Join(css) == Cells(Join(xss))
    decreases |xss|
  {
    if |xss| > 0 {
      JoinCells(xss[1..], css[1..]);
      assert Cells(xss[0] + Join(xss[1..])) == Cells(xss[0]) + Cells(Join(xss[1..]));
    }
  }

  /** The corpus arrays of the siblings hold the sibling storylines, in sibling order. */
  lemma SiblingCells(episodes: seq<Episode>, ex: EpisodeExtractor)
    requires ex.episodes == episodes
    ensures var refs := OwnedRefs(StorylineTable(episodes), SiblingIndices(ex, |episodes|));
      Join(Reads(StorylineTable(episodes), refs)) == Cells(SeasonFacts(ex, StorylinesOf))
  {
    var heap := StorylineTable(episodes);
    var idx := SiblingIndices(ex, |episodes|);
    var refs := OwnedRefs(heap, idx);
    var xss := MapField(StorylinesOf, Siblings(ex));
    forall k | 0 <= k < |xss|
      ensures Reads(heap, refs)[k] == Cells(xss[k])
    {
      assert Siblings(ex)[k] == episodes[idx[k]];
    }
    JoinCells(xss, Reads(heap, refs));
  }

  /** The run against the corpus arrays asks the question `Generate` describes, with or
      without the copy. */
  lemma GenerateOnAgrees(episodes: seq<Episode>, rng: Rng, copyPool: bool)
    ensures GenerateOn(episodes, rng, copyPool).Ok? <==> Generate(episodes, rng).Ok?
    ensures GenerateOn(episodes, rng, copyPool).Ok? ==>
      GenerateOn(episodes, rng, copyPool).value.value.question == Generate(episodes, rng).value.value
  {
    var ex := NewExtractor(episodes, rng.Peek());
    var heap := StorylineTable(episodes);
    if Storylines(ex, rng.Next()).Ok? && |Siblings(ex)| > 0 {
      var storylines := Storylines(ex, rng.Next()).value;
      SiblingCells(episodes, ex);
      var flat := FlattenRef(heap, OwnedRefs(heap, SiblingIndices(ex, |episodes|))).value;
      var pool := if copyPool then Made(Read(heap, flat)) else flat;
      RewriteAgrees(heap, pool, SeasonFacts(ex, StorylinesOf), storylines.rng);
    }
  }

  /** Rewriting a pool that holds `facts` leaves the distractors `Generate` cuts from them,
      and reads the same draws. */
  lemma RewriteAgrees(heap: Heap, pool: ArrayRef, facts: seq<string>, rng: Rng)
    requires Points(heap, pool) && Read(heap, pool) == Cells(facts)
    ensures var r := RewritePool(heap, pool, rng);
      Read(r.value.heap, r.value.written) == SetLength(Shuffle(facts, rng).value, 3)
      && r.rng == Shuffle(facts, rng).rng
  {
    ShuffleFromCells(facts, |facts|, rng);
    assert Resize(Cells(Shuffle(facts, rng).value), 3) == SetLength(Shuffle(facts, rng).value, 3);
  }

  /** The storylines of every episode after `generate`: unchanged when it throws. */
  function StorylinesAfter(episodes: seq<Episode>, rng: Rng, copyPool: bool): (t: Heap)
    ensures |t| == |episodes|
    ensures forall i :: 0 <= i < |episodes| && t[i] != StorylineTable(episodes)[i] ==>
      var ex := NewExtractor(episodes, rng.Peek());
      && !copyPool
      && Generate(episodes, rng).Ok?
      && ex.IsSibling(i) && |Siblings(ex)| == 1
      && t[i] == Generate(episodes, rng).value.value.wrongAnswers
  {
    GenerateOnAgrees(episodes, rng, copyPool);
    match GenerateOn(episodes, rng, copyPool)
    case Ok(run) => run.value.heap
    case Err(_) => StorylineTable(episodes)
  }

  /** A season of two episodes, the second with a single storyline. */
  function TwoEpisodeSeason(): seq<Episode> {
    [Episode(1, "One", "1", [], ["A", "B"], []), Episode(1, "Two", "2", [], ["C"], [])]
  }

  /** As written: when `generate` asks about the first episode of `TwoEpisodeSeason`,
      its sole sibling is left with three storyline cells, two of them `undefined`. */
  lemma SoleSiblingIsPadded(rng: Rng)
    requires rng.Peek() < 0.5
    ensures StorylineTable(TwoEpisodeSeason())[1] == [Some("C")]
    ensures StorylinesAfter(TwoEpisodeSeason(), rng, false)[1] == [Some("C"), None, None]
  {
    SoleSiblingBefore();
    var ex := SoleSiblingAnswers(TwoEpisodeSeason(), rng);
    SoleSiblingOverwritten(TwoEpisodeSeason(), rng, 1);
  }

  lemma SoleSiblingBefore()
    ensures StorylineTable(TwoEpisodeSeason())[1] == [Some("C")]
  {
    assert Cells(["C"])[0] == Some("C");
  }

  /** As written: whenever exactly one sibling contributes and `generate` succeeds, that
      sibling's storylines become the question's three distractor cells, and no other
      episode's change. */
  lemma SoleSiblingOverwritten(episodes: seq<Episode>, rng: Rng, j: nat)
    requires Generate(episodes, rng).Ok?
    requires var ex := NewExtractor(episodes, rng.Peek());
      |Siblings(ex)| == 1 && ex.IsSibling(j)
    ensures j < |episodes|
    ensures StorylinesAfter(episodes, rng, false) ==
      StorylineTable(episodes)[j := Generate(episodes, rng).value.value.wrongAnswers]
  {
    var ex := NewExtractor(episodes, rng.Peek());
    var heap := StorylineTable(episodes);
    var idx := SiblingIndices(ex, |episodes|);
    assert idx == [j] by {
      assert j in idx;
      assert |idx| == 1;
    }
    GenerateOnAgrees(episodes, rng, false);
    SoleSiblingRewritten(episodes, rng, ex, j);
  }

  lemma SoleSiblingRewritten(episodes: seq<Episode>, rng: Rng, ex: EpisodeExtractor, j: nat)
    requires ex == NewExtractor(episodes, rng.Peek())
    requires SiblingIndices(ex, |episodes|) == [j] && j < |episodes|
    requires GenerateOn(episodes, rng, false).Ok?
    ensures var run := GenerateOn(episodes, rng, false).value.value;
      run.heap == StorylineTable(episodes)[j := run.question.wrongAnswers]
  {
    var heap := StorylineTable(episodes);
    var run := GenerateOn(episodes, rng, false).value.value;
    SoleSiblingPool(episodes, rng, ex, j);
    forall i | 0 <= i < |episodes| && run.heap[i] != heap[i]
      ensures i == j
    {
      assert i in SiblingIndices(ex, |episodes|);
    }
    OnlyOneChanged(heap, run.heap, j);
  }

  lemma OnlyOneChanged(heap: Heap, heap': Heap, j: nat)
    requires |heap'| == |heap| && j < |heap|
    requires forall i :: 0 <= i < |heap| && heap'[i] != heap[i] ==> i == j
    ensures heap' == heap[j := heap'[j]]
  {
  }

  /** With one sibling, the pool is that sibling's own array, and it ends up holding
      the distractor cells. */
  lemma SoleSiblingPool(episodes: seq<Episode>, rng: Rng, ex: EpisodeExtractor, j: nat)
    requires ex == NewExtractor(episodes, rng.Peek())
    requires SiblingIndices(ex, |episodes|) == [j] && j < |episodes|
    requires GenerateOn(episodes, rng, false).Ok?
    ensures GenerateOn(episodes, rng, false).value.value.heap[j] ==
      GenerateOn(episodes, rng, false).value.value.question.wrongAnswers
  {
    var heap := StorylineTable(episodes);
    var run := GenerateOn(episodes, rng, false).value.value;
    var storylines := Storylines(ex, rng.Next()).value;
    assert FlattenRef(heap, OwnedRefs(heap, [j])) == Ok(Owned(j));
    var rewritten := RewritePool(heap, Owned(j), storylines.rng).value;
    assert run.heap == rewritten.heap && run.question.wrongAnswers == Read(rewritten.heap, rewritten.written);
  }

  /** The prototype's distractors for `TwoEpisodeSeason`: the sole sibling's one
      storyline, then two holes. */
  lemma SoleSiblingAnswers(corpus: seq<Episode>, rng: Rng) returns (ex: EpisodeExtractor)
    requires corpus == TwoEpisodeSeason() && rng.Peek() < 0.5
    ensures ex == NewExtractor(corpus, rng.Peek())
    ensures |Siblings(ex)| == 1 && ex.IsSibling(1)
    ensures Generate(corpus, rng).Ok?
    ensures Generate(corpus, rng).value.value.wrongAnswers == [Some("C"), None, None]
  {
    ex := NewExtractor(corpus, rng.Peek());
    assert ex == EpisodeExtractor(corpus, Some(0)) by {
      RandomIndexIsFloor(2, rng.Peek());
    }
    SoleSibling(ex);
    var generated := Generate(corpus, rng);
    assert generated.Ok?;
    var wrong := generated.value.value.wrongAnswers;
    assert wrong[0].Some? && !wrong[1].Some? && !wrong[2].Some?;
    var j :| ex.IsSibling(j) && wrong[0].value in ex.episodes[j].storylines;
    assert j == 1;
    PaddedCells(wrong, "C");
  }

  lemma PaddedCells(w: seq<Option<string>>, s: string)
    requires |w| == 3 && w[0] == Some(s) && w[1] == None && w[2] == None
    ensures w == [Some(s), None, None]
  {
  }

  /** The facts about the two-episode season that the counterexample rests on. */
  lemma SoleSibling(ex: EpisodeExtractor)
    requires ex == EpisodeExtractor(TwoEpisodeSeason(), Some(0))
    ensures forall j :: ex.IsSibling(j) <==> j == 1
    ensures Siblings(ex) == [ex.episodes[1]]
    ensures SeasonFacts(ex, StorylinesOf) == ["C"]
  {
    SoleSiblingIndex(ex);
    assert Siblings(ex) == [ex.episodes[1]];
    assert MapField(StorylinesOf, Siblings(ex)) == [["C"]];
    assert Join([["C"]]) == ["C"] by {
      assert Join([["C"]][1..]) == [];
    }
  }

  /** Only the second episode shares the first one's season. */
  lemma SoleSiblingIndex(ex: EpisodeExtractor)
    requires ex == EpisodeExtractor(TwoEpisodeSeason(), Some(0))
    ensures forall j :: ex.IsSibling(j) <==> j == 1
    ensures SiblingIndices(ex, |ex.episodes|) == [1]
  {
    assert ex.IsSibling(1);
    assert SiblingIndices(ex, 1) == [];
  }

  /** Corrected: with the pool copied before it is shuffled and resized, generating
      leaves every episode's storylines as they were. */
  lemma CopiedPoolKeepsCorpus(episodes: seq<Episode>, rng: Rng)
    ensures StorylinesAfter(episodes, rng, true) == StorylineTable(episodes)
  {
    var t := StorylinesAfter(episodes, rng, true);
    assert forall i :: 0 <= i < |episodes| ==> t[i] == StorylineTable(episodes)[i];
  }
}
