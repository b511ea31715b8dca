/** The spelling round: up to six guesses at the target word, typed letter by
    letter. A guess is submitted only when it has the target's length; the
    round is won when a guess equals the lower-cased target and lost after the
    sixth miss. Each finished round reports its outcome once. */
module Spelling {
  import opened Types
  import opened Text

  const MaxAttempts: nat := 6

  /** How a guessed letter is coloured. */
  datatype LetterState = Correct | Present | Absent

  /** `getLetterState(letter, index)`: `Correct` when the target has the letter
      at that position, else `Present` when the target has it anywhere, else
      `Absent`. Repeated letters are not accounted: every copy of a letter the
      target holds is at least `Present`. */
  function LetterStateOf(target: string, letter: char, index: nat): (r: LetterState)
    ensures r == Correct <==> index < |target| && Lower(target)[index] == letter
    ensures r == Present <==> !(index < |target| && Lower(target)[index] == letter) && letter in Lower(target)
    ensures r == Absent <==> letter !in Lower(target)
  {
    var lowered := Lower(target);
    if index < |lowered| && lowered[index] == letter then Correct
    else if letter in lowered then Present
    else Absent
  }

  /** The score of a win on the `n`-th guess: 60 for the first guess down to
      10 for the sixth, each extra guess costing 10. */
  function AttemptScore(n: nat): (score: nat)
    requires 1 <= n <= MaxAttempts
    ensures 10 <= score <= 60 && score % 10 == 0
    ensures n == 1 ==> score == 60
    ensures n == MaxAttempts ==> score == 10
    ensures n > 1 ==> score + 10 == AttemptScore(n - 1)
  {
    (MaxAttempts - n + 1) * 10
  }

  /** The keys `/^[a-zA-Z]$/` accepts: a single ASCII letter. */
  predicate IsLetterKey(key: string)
  {
    |key| == 1 && IsLetter(key[0])
  }

  class SpellingRound {
    var target: string
    var guesses: seq<string>
    var currentGuess: string
    var gameOver: bool
    var won: bool
    /** What the round has passed to `onComplete`. */
    var reports: seq<RoundResult>

    /** At most six guesses, all of the target's length; only the last may
        match; the round is over exactly when it is won or the attempts are
        used up, and then it has reported its outcome once. */
    ghost predicate Valid()
      reads this
    {
      && |guesses| <= MaxAttempts
      && |currentGuess| <= |target|
      && (forall i :: 0 <= i < |guesses| ==> |guesses[i]| == |target|)
      && (forall i :: 0 <= i < |guesses| - 1 ==> guesses[i] != Lower(target))
      && (won <==> guesses != [] && guesses[|guesses| - 1] == Lower(target))
      && (gameOver <==> won || |guesses| == MaxAttempts)
      && reports == (if won then [RoundResult(true, AttemptScore(|guesses|))]
                     else if gameOver then [RoundResult(false, 0)]
                     else [])
    }

    /** A fresh round for `target`. */
    constructor (target: string)
      ensures Valid() && this.target == target
      ensures guesses == [] && currentGuess == "" && !gameOver && !won && reports == []
    {
      this.target := target;
      guesses := [];
      currentGuess := "";
      gameOver := false;
      won := false;
      reports := [];
    }

    /** The reset effect run when the word or the difficulty changes. */
    method NewWord(target: string)
      modifies this
      ensures Valid() && this.target == target
      ensures guesses == [] && currentGuess == "" && !gameOver && !won && reports == []
    {
      this.target := target;
      guesses := [];
      currentGuess := "";
      gameOver := false;
      won := false;
      reports := [];
    }

    /** The keystroke handler. Every key is ignored once the round is over.
        Enter submits a full-length guess; Backspace drops the last typed
        letter; a letter is appended, lower-cased, while the guess is shorter
        than the target; any other key does nothing. */
    method KeyDown(key: string)
      requires Valid()
      modifies this
      ensures Valid() && target == old(target)
      ensures old(gameOver) ==> unchanged(this)
      ensures !old(gameOver) && key == "Enter" ==>
        if |old(currentGuess)| == |target| then Submitted(old(guesses), old(currentGuess), old(reports))
        else unchanged(this)
      ensures !old(gameOver) && key == "Backspace" ==>
        && currentGuess == (if old(currentGuess) == "" then "" else old(currentGuess)[..|old(currentGuess)| - 1])
        && guesses == old(guesses) && gameOver == old(gameOver) && won == old(won) && reports == old(reports)
      ensures !old(gameOver) && key != "Enter" && key != "Backspace" ==>
        && currentGuess == (if IsLetterKey(key) && |old(currentGuess)| < |target|
                            then old(currentGuess) + [LowerChar(key[0])]
                            else old(currentGuess))
        && guesses == old(guesses) && gameOver == old(gameOver) && won == old(won) && reports == old(reports)
    {
      if gameOver {
        return;
      }
      if key == "Enter" {
        if |currentGuess| == |target| {
          SubmitGuess();
        }
      } else if key == "Backspace" {
        if currentGuess != "" {
          currentGuess := currentGuess[..|currentGuess| - 1];
        }
      } else if IsLetterKey(key) {
        if |currentGuess| < |target| {
          currentGuess := currentGuess + [LowerChar(key[0])];
        }
      }
    }

    /** The state after submitting `guess` on top of `before`: the guess is
        recorded, the typed letters cleared, the round won exactly when the
        guess equals the lower-cased target and over when won or out of
        attempts; a win reports the attempt score, a sixth miss reports 0. */
    ghost predicate Submitted(before: seq<string>, guess: string, reportsBefore: seq<RoundResult>)
      reads this
    {
      && guesses == before + [guess]
      && currentGuess == ""
      && won == (guess == Lower(target))
      && gameOver == (won || |guesses| == MaxAttempts)
      && |guesses| <= MaxAttempts
      && reports == reportsBefore + (if won then [RoundResult(true, AttemptScore(|guesses|))]
                                     else if gameOver then [RoundResult(false, 0)]
                                     else [])
    }

    /** `submitGuess`. It is reached only from the keystroke handler while the
        round is still open; a guess of the wrong length is rejected without
        using an attempt. */
    method SubmitGuess()
      requires Valid() && !gameOver
      modifies this
      ensures Valid() && target == old(target)
      ensures |old(currentGuess)| != |target| ==> unchanged(this)
      ensures |old(currentGuess)| == |target| ==> Submitted(old(guesses), old(currentGuess), old(reports))
    {
      if |currentGuess| != |target| {
        return;
      }
      var newGuesses := guesses + [currentGuess];
      guesses := newGuesses;
      if currentGuess == Lower(target) {
        won := true;
        gameOver := true;
        reports := reports + [RoundResult(true, AttemptScore(|newGuesses|))];
      } else if |newGuesses| >= MaxAttempts {
        gameOver := true;
        reports := reports + [RoundResult(false, 0)];
      }
      currentGuess := "";
    }
  }
}
