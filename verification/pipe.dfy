/** `AnswerIndexPipe`: the letter shown before each offered answer. */
module AnswerIndexPipe {
  import opened Results

  /** `transform`: positions 0 to 3 become "A" to "D"; anything else becomes `null`. */
  function Transform(value: int): (r: Option<string>)
    ensures r.Some? <==> 0 <= value < 4
    ensures r.Some? ==> |r.value| == 1 && 'A' <= r.value[0] <= 'D'
  {
    match value
    case 0 => Some("A")
    case 1 => Some("B")
    case 2 => Some("C")
    case 3 => Some("D")
    case _ => None
  }

  /** Reading a letter back: the letter's distance from "A". */
  function LetterIndex(letter: string): (r: Option<int>)
    ensures r.Some? ==> 0 <= r.value < 4
  {
    if |letter| == 1 && 'A' <= letter[0] <= 'D' then Some(letter[0] as int - 'A' as int) else None
  }

  /** Every labelled position can be read back from its letter. */
  lemma TransformRoundTrip(value: int)
    ensures Transform(value).Some? ==> LetterIndex(Transform(value).value) == Some(value)
  {
  }

  /** Every letter is the letter of the position it reads back as. */
  lemma LetterRoundTrip(letter: string)
    ensures LetterIndex(letter).Some? ==> Transform(LetterIndex(letter).value) == Some(letter)
  {
    if LetterIndex(letter).Some? {
      assert letter == [letter[0]];
    }
  }

  /** Distinct positions never share a letter. */
  lemma TransformInjective(v: int, w: int)
    requires Transform(v).Some? && Transform(v) == Transform(w)
    ensures v == w
  {
    TransformRoundTrip(v);
    TransformRoundTrip(w);
  }
}
