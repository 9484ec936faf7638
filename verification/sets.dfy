/** The JS `Set` operations the engine uses. A `Set` iterates in insertion order and
    holds each value once, so it is modelled as a duplicate-free sequence. */
module Sets {

  predicate Distinct<T(==)>(s: seq<T>) {
    forall i, j :: 0 <= i < j < |s| ==> s[i] != s[j]
  }

  /** `Set.prototype.add`: appends `x` unless it is already present. */
  function Add<T(==,!new)>(s: seq<T>, x: T): (r: seq<T>)
    ensures Distinct(s) ==> Distinct(r)
    ensures forall y :: y in r <==> y in s || y == x
  {
    if x in s then s else s + [x]
  }

  /** Adds every element of `xs`, in order (a `forEach` calling `add`). */
  function AddAll<T(==,!new)>(s: seq<T>, xs: seq<T>): (r: seq<T>)
    ensures Distinct(s) ==> Distinct(r)
    ensures forall y :: y in r <==> y in s || y in xs
    decreases |xs|
  {
    if |xs| == 0 then s else AddAll(Add(s, xs[0]), xs[1..])
  }

  lemma DistinctCons<T>(x: T, rest: seq<T>)
    requires Distinct(rest) && x !in rest
    ensures Distinct([x] + rest)
  {
    forall i, j | 0 <= i < j < |[x] + rest|
      ensures ([x] + rest)[i] != ([x] + rest)[j]
    {
      if i > 0 {
        assert ([x] + rest)[i] == rest[i - 1] && ([x] + rest)[j] == rest[j - 1];
      } else {
        assert ([x] + rest)[j] in rest;
      }
    }
  }

  lemma DistinctTail<T>(s: seq<T>)
    requires |s| > 0 && Distinct(s)
    ensures Distinct(s[1..]) && s[0] !in s[1..]
  {
    forall i, j | 0 <= i < j < |s[1..]|
      ensures s[1..][i] != s[1..][j]
    {
      assert s[1..][i] == s[i + 1] && s[1..][j] == s[j + 1];
    }
  }

  /** `Set.prototype.delete`: removes `x` and keeps the order of the rest. */
  function Delete<T(==,!new)>(s: seq<T>, x: T): (r: seq<T>)
    ensures forall y :: y in r <==> y in s && y != x
    ensures multiset(r) <= multiset(s) && |r| <= |s|
    ensures Distinct(s) ==> Distinct(r)
  {
    if |s| == 0 then []
    else
      var rest := Delete(s[1..], x);
      assert s == [s[0]] + s[1..];
      if s[0] == x then rest
      else
        assert Distinct(s) ==> Distinct([s[0]] + rest) by {
          if Distinct(s) {
            DistinctTail(s);
            DistinctCons(s[0], rest);
          }
        }
        [s[0]] + rest
  }

  /** `difference(setA, setB)`: a copy of `a` from which each element of `b` is deleted. */
  function Difference<T(==,!new)>(a: seq<T>, b: seq<T>): (r: seq<T>)
    ensures forall x :: x in r <==> x in a && x !in b
    ensures multiset(r) <= multiset(a) && |r| <= |a|
    ensures Distinct(a) ==> Distinct(r)
    decreases |b|
  {
    if |b| == 0 then a else Difference(Delete(a, b[0]), b[1..])
  }

  /** Reference definition: the elements of `a` that are not in `b`, in their order in `a`. */
  function Without<T(==)>(a: seq<T>, b: seq<T>): seq<T> {
    if |a| == 0 then [] else (if a[0] in b then [] else [a[0]]) + Without(a[1..], b)
  }

  lemma {:induction false} DeleteIsWithout<T(!new)>(s: seq<T>, x: T)
    ensures Delete(s, x) == Without(s, [x])
  {
    if |s| > 0 {
      DeleteIsWithout(s[1..], x);
    }
  }

  lemma {:induction false} WithoutNothing<T>(a: seq<T>)
    ensures Without(a, []) == a
  {
    if |a| > 0 {
      WithoutNothing(a[1..]);
    }
  }

  lemma {:induction false} WithoutTwice<T>(a: seq<T>, b: seq<T>)
    requires |b| > 0
    ensures Without(Without(a, [b[0]]), b[1..]) == Without(a, b)
  {
    if |a| > 0 {
      WithoutTwice(a[1..], b);
      var w := Without(a, [b[0]]);
      if a[0] != b[0] {
        assert w == [a[0]] + Without(a[1..], [b[0]]);
        assert w[1..] == Without(a[1..], [b[0]]);
        assert a[0] in b <==> a[0] in b[1..] by {
          if a[0] in b {
            var i :| 0 <= i < |b| && b[i] == a[0];
            assert b[1..][i - 1] == a[0];
          }
        }
      } else {
        assert w == Without(a[1..], [b[0]]);
        assert a[0] in b;
      }
    }
  }

  /** Deleting the elements of `b` one after another keeps the survivors in their order:
      the `Set` that `difference` returns iterates as `a` did, minus `b`. */
  lemma {:induction false} DifferenceIsWithout<T(!new)>(a: seq<T>, b: seq<T>)
    ensures Difference(a, b) == Without(a, b)
    decreases |b|, 1
  {
    if |b| == 0 {
      WithoutNothing(a);
    } else {
      DifferenceStep(a, b);
    }
  }

  /** The first deletion, with the rest of `b` by induction. */
  lemma {:induction false} DifferenceStep<T(!new)>(a: seq<T>, b: seq<T>)
    requires |b| > 0
    ensures Difference(a, b) == Without(a, b)
    decreases |b|, 0
  {
    var rest := Delete(a, b[0]);
    assert Difference(a, b) == Difference(rest, b[1..]);
    DifferenceIsWithout(rest, b[1..]);
    DeleteIsWithout(a, b[0]);
    WithoutTwice(a, b);
  }

  /** A duplicate-free sequence has as many elements as its set of members. */
  lemma {:induction false} DistinctCard<T>(a: seq<T>)
    requires Distinct(a)
    ensures |set x | x in a| == |a|
  {
    if |a| > 0 {
      DistinctTail(a);
      DistinctCard(a[1..]);
      assert (set x | x in a) == {a[0]} + (set x | x in a[1..]);
    }
  }

  lemma {:induction false} DistinctMultiplicity<T>(a: seq<T>, x: T)
    requires Distinct(a)
    ensures multiset(a)[x] <= 1
  {
    if |a| > 0 {
      DistinctTail(a);
      DistinctMultiplicity(a[1..], x);
      assert a == [a[0]] + a[1..];
      if x == a[0] {
        assert x !in multiset(a[1..]);
      }
    }
  }

  lemma RepeatMultiplicity<T>(b: seq<T>, i: nat, j: nat)
    requires i < j < |b| && b[i] == b[j]
    ensures multiset(b)[b[i]] >= 2
  {
    assert b == b[..i] + [b[i]] + b[i + 1..j] + [b[j]] + b[j + 1..];
  }

  /** Reordering a duplicate-free sequence cannot create a duplicate. */
  lemma PermutationKeepsDistinct<T>(a: seq<T>, b: seq<T>)
    requires multiset(a) == multiset(b) && Distinct(a)
    ensures Distinct(b)
  {
    forall i, j | 0 <= i < j < |b|
      ensures b[i] != b[j]
    {
      if b[i] == b[j] {
        RepeatMultiplicity(b, i, j);
        DistinctMultiplicity(a, b[i]);
      }
    }
  }
}
