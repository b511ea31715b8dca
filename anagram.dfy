/** The anagram round: the target's lower-cased letters are dealt as tiles in
    a random order; clicking a tile moves it between the available letters
    and the answer; the answer can be submitted once it uses as many tiles as
    the target has letters, and is right exactly when it spells the
    lower-cased target. A right answer is worth 15 points. */
module Anagram {
  import opened Types
  import opened Text
  import opened Reorder

  const CorrectPoints: nat := 15

  /** `scrambleWord`: the lower-cased letters of the target, reordered. */
  function Scramble(target: string, c: seq<nat>): (r: seq<char>)
    ensures multiset(r) == multiset(Lower(target))
    ensures |r| == |target|
  {
    var r := Shuffle(Lower(target), c);
    ShuffleLength(Lower(target), c);
    r
  }

  /** `handleSubmit`'s verdict: the joined answer against the lower-cased
      target, worth 15 points when equal and 0 otherwise. */
  function Verdict(answer: seq<char>, target: string): (r: RoundResult)
    ensures r.correct <==> answer == Lower(target)
    ensures r.correct ==> r.score == CorrectPoints
    ensures !r.correct ==> r.score == 0
  {
    if answer == Lower(target) then RoundResult(true, CorrectPoints) else RoundResult(false, 0)
  }

  /** Moving the tile at `i` of `from` to the end of `to` keeps the tiles. */
  lemma MoveTile(from: seq<char>, to: seq<char>, i: nat)
    requires i < |from|
    ensures multiset(RemoveAt(from, i)) + multiset(to + [from[i]]) == multiset(from) + multiset(to)
  {
    assert from == from[..i] + [from[i]] + from[i+1..];
  }

  /** An answer as long as the target, drawn from the target's tiles, leaves
      no tile behind and is a rearrangement of the lower-cased target. */
  lemma {:induction false} FullAnswerUsesAllTiles(scrambled: seq<char>, answer: seq<char>, target: string)
    requires multiset(scrambled) + multiset(answer) == multiset(Lower(target))
    requires |answer| == |target|
    ensures scrambled == []
    ensures multiset(answer) == multiset(Lower(target))
  {
    assert |multiset(scrambled)| + |multiset(answer)| == |multiset(Lower(target))|;
  }

  class AnagramRound {
    var target: string
    /** The available letters. */
    var scrambled: seq<char>
    /** The letters placed in the answer, in order. */
    var answer: seq<char>
    var revealed: bool
    /** What the round has passed to `onComplete`. */
    var reports: seq<RoundResult>

    /** The available letters and the answer together are exactly the
        target's lower-cased letters; a revealed round used them all in its
        answer and has reported its verdict once. */
    ghost predicate Valid()
      reads this
    {
      && multiset(scrambled) + multiset(answer) == multiset(Lower(target))
      && (revealed ==> scrambled == [] && |answer| == |target|)
      && reports == (if revealed then [Verdict(answer, target)] else [])
    }

    /** The effect run for a new word: fresh tiles, an empty answer. */
    constructor (target: string, c: seq<nat>)
      ensures Valid() && this.target == target
      ensures scrambled == Scramble(target, c) && answer == [] && !revealed && reports == []
    {
      this.target := target;
      scrambled := Scramble(target, c);
      answer := [];
      revealed := false;
      reports := [];
    }

    method NewWord(target: string, c: seq<nat>)
      modifies this
      ensures Valid() && this.target == target
      ensures scrambled == Scramble(target, c) && answer == [] && !revealed && reports == []
    {
      this.target := target;
      scrambled := Scramble(target, c);
      answer := [];
      revealed := false;
      reports := [];
    }

    /** `handleLetterClick(i)`: the `i`-th available letter moves to the end
        of the answer. */
    method LetterClick(i: nat)
      requires Valid() && i < |scrambled|
      modifies this
      ensures Valid()
      ensures old(revealed) ==> unchanged(this)
      ensures !old(revealed) ==>
        && answer == old(answer) + [old(scrambled)[i]]
        && scrambled == RemoveAt(old(scrambled), i)
        && target == old(target) && !revealed && reports == old(reports)
    {
      if revealed {
        return;
      }
      MoveTile(scrambled, answer, i);
      answer := answer + [scrambled[i]];
      scrambled := RemoveAt(scrambled, i);
    }

    /** `handleAnswerClick(i)`: the `i`-th answer letter moves back to the
        end of the available letters. */
    method AnswerClick(i: nat)
      requires Valid() && i < |answer|
      modifies this
      ensures Valid()
      ensures old(revealed) ==> unchanged(this)
      ensures !old(revealed) ==>
        && scrambled == old(scrambled) + [old(answer)[i]]
        && answer == RemoveAt(old(answer), i)
        && target == old(target) && !revealed && reports == old(reports)
    {
      if revealed {
        return;
      }
      MoveTile(answer, scrambled, i);
      var s, a := scrambled + [answer[i]], RemoveAt(answer, i);
      assert multiset(s) + multiset(a) == multiset(answer) + multiset(scrambled);
      scrambled, answer := s, a;
    }

    /** `handleShuffle`: the available letters are reordered. */
    method ShuffleTiles(c: seq<nat>)
      requires Valid()
      modifies this
      ensures Valid()
      ensures old(revealed) ==> unchanged(this)
      ensures !old(revealed) ==>
        && scrambled == Shuffle(old(scrambled), c)
        && answer == old(answer) && target == old(target) && !revealed && reports == old(reports)
    {
      if revealed {
        return;
      }
      scrambled := Shuffle(scrambled, c);
    }

    /** `handleClear`: every answer letter goes back, after the available
        ones. */
    method Clear()
      requires Valid()
      modifies this
      ensures Valid()
      ensures old(revealed) ==> unchanged(this)
      ensures !old(revealed) ==>
        && scrambled == old(scrambled) + old(answer) && answer == []
        && target == old(target) && !revealed && reports == old(reports)
    {
      if revealed {
        return;
      }
      scrambled := scrambled + answer;
      answer := [];
    }

    /** `handleSubmit`: ignored when revealed or when the answer's length
        differs from the target's; otherwise the round is revealed and its
        verdict reported. A submitted answer has used every tile. */
    method Submit()
      requires Valid()
      modifies this
      ensures Valid()
      ensures old(revealed) || |old(answer)| != |target| ==> unchanged(this)
      ensures !old(revealed) && |old(answer)| == |target| ==>
        && revealed && reports == [Verdict(answer, target)]
        && answer == old(answer) && scrambled == [] && target == old(target)
        && multiset(answer) == multiset(Lower(target))
    {
      if revealed || |answer| != |target| {
        return;
      }
      FullAnswerUsesAllTiles(scrambled, answer, target);
      revealed := true;
      reports := reports + [Verdict(answer, target)];
    }
  }
}
