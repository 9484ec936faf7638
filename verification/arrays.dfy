/** The array helpers of the engine: `randomElement` (see `Random`), the Fisher-Yates
    `shuffle`, `concat`, `flatten`, `truthy` and `Array.prototype.slice(0, n)`. */
module Arrays {
  import opened Results
  import opened Random

  /** `truthy` on a string: defined and non-empty. */
  predicate Truthy(s: string) {
    |s| > 0
  }

  /** The two assignments through `temporaryValue` in one step of `shuffle`. */
  function Swap<T>(s: seq<T>, i: nat, j: nat): (r: seq<T>)
    requires i < |s| && j < |s|
    ensures |r| == |s| && multiset(r) == multiset(s)
    ensures r[i] == s[j] && r[j] == s[i]
    ensures forall k :: 0 <= k < |s| && k != i && k != j ==> r[k] == s[k]
  {
    s[i := s[j]][j := s[i]]
  }

  /** The `while` loop of `shuffle`, entered with `currentIndex == k`. Each step draws
      `randomIndex` below `k`, decrements `k`, and swaps positions `k` and `randomIndex`,
      so both swapped positions lie in `[0, k)` and the suffix from `k` on is final. */
  function ShuffleFrom<T>(s: seq<T>, k: nat, rng: Rng): (r: Drawn<seq<T>>)
    requires k <= |s|
    ensures |r.value| == |s| && multiset(r.value) == multiset(s)
    ensures r.value[k..] == s[k..]
    ensures r.rng.tape == rng.tape && r.rng.pos == rng.pos + k
    decreases k
  {
    if k == 0 then Drawn(s, rng)
    else
      var randomIndex := RandomIndex(k, rng.Peek());
      var s' := Swap(s, k - 1, randomIndex);
      assert s'[k..] == s[k..];
      ShuffleFrom(s', k - 1, rng.Next())
  }

  /** One turn of the loop: the swap at `k - 1`, then the rest of the loop. */
  lemma ShuffleStep<T>(s: seq<T>, s': seq<T>, k: nat, rng: Rng)
    requires 0 < k <= |s| && s' == Swap(s, k - 1, RandomIndex(k, rng.Peek()))
    ensures ShuffleFrom(s, k, rng) == ShuffleFrom(s', k - 1, rng.Next())
  {
  }

  /** `shuffle`: a permutation of its input that reads exactly one draw per element. */
  function Shuffle<T>(s: seq<T>, rng: Rng): (r: Drawn<seq<T>>)
    ensures |r.value| == |s| && multiset(r.value) == multiset(s)
    ensures r.rng.tape == rng.tape && r.rng.pos == rng.pos + |s|
  {
    ShuffleFrom(s, |s|, rng)
  }

  /** A prefix grows by one element at a time, in count as in order. */
  lemma PrefixSnoc<T>(s: seq<T>, n: nat)
    requires 0 < n <= |s|
    ensures s[..n] == s[..n - 1] + [s[n - 1]]
    ensures multiset(s[..n]) == multiset(s[..n - 1]) + multiset{s[n - 1]}
  {
  }

  /** A permutation has the same members as the sequence it permutes. */
  lemma PermutationKeepsMembers<T>(a: seq<T>, b: seq<T>)
    requires multiset(a) == multiset(b)
    ensures |a| == |b|
    ensures forall x :: x in a <==> x in b
  {
    assert |a| == |multiset(a)| == |multiset(b)| == |b|;
    forall x
      ensures x in a <==> x in b
    {
      assert x in a <==> x in multiset(a);
      assert x in b <==> x in multiset(b);
    }
  }

  /** The swap through `temporaryValue` in the body of `shuffle`. */
  method SwapAt<T>(a: array<T>, i: nat, j: nat)
    requires i < a.Length && j < a.Length
    modifies a
    ensures a[..] == Swap(old(a[..]), i, j)
  {
    var temporaryValue := a[i];
    a[i] := a[j];
    a[j] := temporaryValue;
  }

  /** `shuffle` as the source writes it: in place, returning the array it was given. */
  method ShuffleInPlace<T>(a: array<T>, rng: Rng) returns (r: array<T>, rng': Rng)
    modifies a
    ensures r == a
    ensures Drawn(a[..], rng') == Shuffle(old(a[..]), rng)
    ensures multiset(a[..]) == multiset(old(a[..]))
  {
    var currentIndex := a.Length;
    rng' := rng;
    while currentIndex != 0
      invariant 0 <= currentIndex <= a.Length
      invariant ShuffleFrom(a[..], currentIndex, rng') == Shuffle(old(a[..]), rng)
      decreases currentIndex
    {
      ghost var before, rngBefore := a[..], rng';
      var randomIndex := RandomIndex(currentIndex, rng'.Peek());
      rng' := rng'.Next();
      currentIndex := currentIndex - 1;
      SwapAt(a, currentIndex, randomIndex);
      ShuffleStep(before, a[..], currentIndex + 1, rngBefore);
    }
    r := a;
  }

  /** `concat(arrayA, arrayB)`: all of `a`, then all of `b`. */
  function Concat<T>(a: seq<T>, b: seq<T>): (r: seq<T>)
    ensures |r| == |a| + |b|
    ensures r[..|a|] == a && r[|a|..] == b
  {
    a + b
  }

  /** Reference definition: the inner sequences one after the other, in order. */
  function Join<T>(xss: seq<seq<T>>): seq<T> {
    if |xss| == 0 then [] else xss[0] + Join(xss[1..])
  }

  /** `reduce(concat)` once the first inner array has been taken as the accumulator. */
  function ReduceConcat<T>(acc: seq<T>, rest: seq<seq<T>>): seq<T>
    decreases |rest|
  {
    if |rest| == 0 then acc else ReduceConcat(Concat(acc, rest[0]), rest[1..])
  }

  lemma {:induction false} ReduceConcatIsJoin<T>(acc: seq<T>, rest: seq<seq<T>>)
    ensures ReduceConcat(acc, rest) == acc + Join(rest)
    decreases |rest|
  {
    if |rest| > 0 {
      ReduceConcatIsJoin(acc + rest[0], rest[1..]);
      assert acc + rest[0] + Join(rest[1..]) == acc + (rest[0] + Join(rest[1..]));
    }
  }

  /** `flatten`: `reduce` without a seed, so an empty outer array is a `TypeError`. */
  function Flatten<T>(xss: seq<seq<T>>): (r: Result<seq<T>>)
    ensures r.Ok? <==> |xss| > 0
    ensures r.Ok? ==> r.value == Join(xss)
    ensures r.Err? ==> r.error == TypeError
  {
    if |xss| == 0 then Err(TypeError)
    else
      ReduceConcatIsJoin(xss[0], xss[1..]);
      Ok(ReduceConcat(xss[0], xss[1..]))
  }

  lemma {:induction false} JoinMembers<T>(xss: seq<seq<T>>, x: T)
    ensures x in Join(xss) <==> exists i :: 0 <= i < |xss| && x in xss[i]
    decreases |xss|
  {
    if |xss| > 0 {
      JoinMembers(xss[1..], x);
      if x in Join(xss[1..]) {
        var i :| 0 <= i < |xss[1..]| && x in xss[1..][i];
        assert x in xss[i + 1];
      }
      if exists i :: 0 <= i < |xss| && x in xss[i] {
        var i :| 0 <= i < |xss| && x in xss[i];
        if i > 0 {
          assert x in xss[1..][i - 1];
        }
      }
    }
  }

  lemma {:induction false} JoinEmpty<T>(xss: seq<seq<T>>)
    ensures |Join(xss)| == 0 <==> forall i :: 0 <= i < |xss| ==> |xss[i]| == 0
    decreases |xss|
  {
    if |xss| > 0 {
      JoinEmpty(xss[1..]);
      if forall i :: 0 <= i < |xss[1..]| ==> |xss[1..][i]| == 0 {
        forall i | 1 <= i < |xss|
          ensures |xss[i]| == 0
        {
          assert xss[i] == xss[1..][i - 1];
        }
      }
    }
  }

  /** `slice(0, n)`: the first `n` elements, or all of them when there are fewer. */
  function Take<T>(s: seq<T>, n: nat): (r: seq<T>)
    ensures |r| == if |s| < n then |s| else n
    ensures forall i :: 0 <= i < |r| ==> r[i] == s[i]
    ensures multiset(r) <= multiset(s)
  {
    if |s| <= n then s
    else
      assert s == s[..n] + s[n..];
      s[..n]
  }
}
