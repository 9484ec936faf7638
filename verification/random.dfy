/** Explicit randomness. Each `Math.random()` of the source reads the next `Draw`
    from a tape; an operation that draws returns the advanced generator. */
module Random {
  import opened Results

  /** A value `Math.random()` can return. */
  type Draw = r: real | 0.0 <= r < 1.0 witness 0.0

  /** An unbounded supply of draws. */
  type Tape = nat -> Draw

  datatype Rng = Rng(tape: Tape, pos: nat) {
    function Peek(): Draw {
      tape(pos)
    }

    function Next(): (r: Rng)
      ensures r.tape == tape && r.pos == pos + 1
    {
      Rng(tape, pos + 1)
    }
  }

  /** A value computed together with the generator left after computing it. */
  datatype Drawn<+T> = Drawn(value: T, rng: Rng)

  function Fresh(t: Tape): Rng {
    Rng(t, 0)
  }

  /** `d * n`, as `n` additions of `d`: each unfolding is linear. */
  function Times(d: real, n: nat): real {
    if n == 0 then 0.0 else d + Times(d, n - 1)
  }

  lemma {:induction false} TimesIsProduct(d: real, n: nat)
    ensures Times(d, n) == d * n as real
  {
    if n > 0 {
      TimesIsProduct(d, n - 1);
    }
  }

  lemma {:induction false} ScaledDrawBelow(len: nat, d: Draw)
    ensures 0.0 <= Times(d, len)
    ensures len > 0 ==> Times(d, len) < len as real
  {
    if len > 0 {
      ScaledDrawBelow(len - 1, d);
    }
  }

  /** `Math.floor(len * Math.random())`: the index `randomElement` reads. */
  function RandomIndex(len: nat, d: Draw): (i: int)
    ensures i >= 0
    ensures len > 0 ==> i < len
    ensures len == 0 ==> i == 0
  {
    ScaledDrawBelow(len, d);
    Times(d, len).Floor
  }

  /** The index is the floor of the scaled draw: the whole number at or just below it. */
  lemma RandomIndexIsFloor(len: nat, d: Draw)
    ensures RandomIndex(len, d) == (d * len as real).Floor
    ensures RandomIndex(len, d) as real <= d * len as real < (RandomIndex(len, d) + 1) as real
  {
    TimesIsProduct(d, len);
  }

  /** `randomElement`: an element of a non-empty array, `undefined` for an empty one. */
  function RandomElement<T>(a: seq<T>, d: Draw): (r: Option<T>)
    ensures r.Some? <==> |a| > 0
    ensures r.Some? ==> r.value in a
  {
    var i := RandomIndex(|a|, d);
    if i < |a| then Some(a[i]) else None
  }
}
