/** The value types shared by the whole quiz: difficulty tiers, game modes,
    catalog words and the outcome of one round. */
module Types {

  datatype Option<+T> = None | Some(value: T)

  datatype Difficulty = Easy | Medium | Hard

  datatype GameMode = Spelling | Definition | FillBlank | Anagram

  /** A catalog entry. `exampleSentence` is optional and, in the catalog,
      holds one `_` marking the blank. */
  datatype Word = Word(word: string, definition: string, difficulty: Difficulty,
                       exampleSentence: Option<string>)

  /** What a round reports through `onComplete(correct, score)`. */
  datatype RoundResult = RoundResult(correct: bool, score: nat)

  /** No element of `s` occurs twice. */
  predicate Distinct<T(==)>(s: seq<T>)
  {
    forall i, j :: 0 <= i < j < |s| ==> s[i] != s[j]
  }
}
