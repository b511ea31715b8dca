/** The game page: the mount effect that reads the route and draws the first
    word, and the round-completion handler that moves the session on. Both
    page variants (atoms with `window.location`, context with the router) do
    the same; routing becomes the `location` field. */
module Page {
  import opened Types
  import opened Text
  import opened Catalog
  import opened Words
  import opened Statistics
  import opened Session

  /** Where the page sends the player. */
  datatype Location = Playing | Home | Completion(mode: GameMode, difficulty: Difficulty)

  /** No two history words share their lowercased text. */
  predicate NoRepeatedText(h: seq<Word>)
  {
    forall i, j :: 0 <= i < j < |h| ==> Lower(h[i].word) != Lower(h[j].word)
  }

  /** A word missed in a round is not added to the history, so the next draw
      may offer it again: it is still in the eligible pool of its tier. */
  lemma MissedStaysEligible(w: Word, history: seq<Word>)
    requires w in Vocabulary && !IsExcluded(w, history)
    ensures w in Filter(Vocabulary, w.difficulty, ExcludedTexts(history))
  {
    ExcludedTextsMatch(w, history);
  }

  /** Appending a word whose text is not yet in the history keeps the history
      free of repeats. */
  lemma AppendKeepsNoRepeats(h: seq<Word>, w: Word)
    requires NoRepeatedText(h) && !IsExcluded(w, h)
    ensures NoRepeatedText(h + [w])
  {
    var h' := h + [w];
    forall i, j | 0 <= i < j < |h'|
      ensures Lower(h'[i].word) != Lower(h'[j].word)
    {
      if j == |h| {
        assert h'[i] == h[i] && h[i] in h;
      } else {
        assert h'[i] == h[i] && h'[j] == h[j];
      }
    }
  }

  class GamePage {
    /** The catalog the page draws from: always the module's `vocabulary`
        (see the constructor), so every draw below is
        `getRandomWordExcluding`. Drawing through this field rather than the
        literal catalog keeps the 24 literal entries out of the page's
        proofs. */
    const vocabulary: seq<Word>
    const session: GameSession
    const stats: StatisticsStore
    var mode: Option<GameMode>
    var difficulty: Option<Difficulty>
    var currentWord: Option<Word>
    var location: Location

    constructor (session: GameSession, stats: StatisticsStore)
      ensures vocabulary == Vocabulary && this.session == session && this.stats == stats
      ensures mode == None && difficulty == None && currentWord == None && location == Playing
    {
      vocabulary := Vocabulary;
      this.session := session;
      this.stats := stats;
      mode := None;
      difficulty := None;
      currentWord := None;
      location := Playing;
    }

    /** The history repeats no word, and the word on screen (while the round
        is being played) is not one already answered. */
    ghost predicate Fresh()
      reads this, session
    {
      && NoRepeatedText(session.correctHistory)
      && (location == Playing && currentWord.Some? ==> !IsExcluded(currentWord.value, session.correctHistory))
    }

    /** The mount effect. A route without a mode or a difficulty sends the
        player home. Otherwise a mode other than the session's is recorded and
        the history cleared, and the first word is drawn excluding the history
        as it was before the clear (the effect reads the cell captured at
        render time). */
    method Mount(urlMode: Option<GameMode>, urlDifficulty: Option<Difficulty>, rand: real)
      requires 0.0 <= rand < 1.0
      modifies this, session
      ensures mode == urlMode && difficulty == urlDifficulty
      ensures session.score == old(session.score) && session.streak == old(session.streak)
      ensures urlMode.None? || urlDifficulty.None? ==>
        && location == Home && currentWord == old(currentWord)
        && session.currentMode == old(session.currentMode)
        && session.correctHistory == old(session.correctHistory)
      ensures urlMode.Some? && urlDifficulty.Some? ==>
        && location == Playing
        && session.currentMode == urlMode
        && session.correctHistory == (if urlMode != old(session.currentMode) then [] else old(session.correctHistory))
        && currentWord == PickExcluding(vocabulary, urlDifficulty.value, old(session.correctHistory), rand)
      ensures urlMode.Some? && urlDifficulty.Some? && old(NoRepeatedText(session.correctHistory)) ==> Fresh()
    {
      mode := urlMode;
      difficulty := urlDifficulty;
      if urlMode.None? || urlDifficulty.None? {
        location := Home;
        return;
      }
      var history := session.correctHistory;
      if urlMode != session.currentMode {
        session.SetCurrentMode(urlMode);
        session.SetCorrectHistory([]);
      }
      currentWord := PickExcluding(vocabulary, urlDifficulty.value, history, rand);
      location := Playing;
    }

    /** `handleGameComplete`. Without a word, a difficulty and a mode it does
        nothing. Otherwise: the points are added to the score; the streak goes
        up by one on a correct answer and back to 0 on a miss; the round is
        reported to the statistics exactly once, with the word's text only
        when it was missed; the word joins the history only when answered
        correctly; and the next word is drawn excluding the new history, or,
        when none is left, the player is sent to the completion page. */
    method HandleGameComplete(correct: bool, points: nat, rand: real)
      requires 0.0 <= rand < 1.0
      requires stats.Valid()
      modifies this, session, stats
      ensures stats.Valid()
      ensures old(currentWord.None? || difficulty.None? || mode.None?) ==>
        && unchanged(this, session)
        && stats.cell == old(stats.cell) && stats.saved == old(stats.saved)
      ensures old(currentWord.Some? && difficulty.Some? && mode.Some?) ==>
        var w, d, m := old(currentWord.value), old(difficulty.value), old(mode.value);
        && mode == old(mode) && difficulty == old(difficulty)
        && session.currentMode == old(session.currentMode)
        && session.score == old(session.score) + points
        && session.streak == (if correct then old(session.streak) + 1 else 0)
        && stats.cell == Stored(Tally(Fetch(old(stats.cell)),
                                      Round(correct, d, m, session.streak, points,
                                            if correct then None else Some(w.word))))
        && stats.saved == old(stats.saved) + [stats.cell.record]
        && session.correctHistory == old(session.correctHistory) + (if correct then [w] else [])
        && var next := PickExcluding(vocabulary, d, session.correctHistory, rand);
           && (next.Some? ==> currentWord == next && location == old(location))
           && (next.None? ==> currentWord == old(currentWord) && location == Completion(m, d))
      ensures old(location == Playing && Fresh()) ==> Fresh()
    {
      if currentWord.None? || difficulty.None? || mode.None? {
        return;
      }
      var w, d, m := currentWord.value, difficulty.value, mode.value;
      var history := session.correctHistory;
      ghost var wasFresh := location == Playing && Fresh();
      var newStreak := Score(correct, points);
      stats.UpdateStatistics(correct, d, m, newStreak, points, if correct then None else Some(w.word));
      if correct {
        session.SetCorrectHistory(history + [w]);
        if wasFresh {
          AppendKeepsNoRepeats(history, w);
        }
      }
      var exclude := if correct then history + [w] else history;
      Advance(d, m, exclude, rand);
    }

    /** The score and streak updates of a completed round. */
    method Score(correct: bool, points: nat) returns (newStreak: int)
      modifies session
      ensures session.score == old(session.score) + points
      ensures newStreak == (if correct then old(session.streak) + 1 else 0) && session.streak == newStreak
      ensures session.correctHistory == old(session.correctHistory) && session.currentMode == old(session.currentMode)
    {
      var newScore := session.score + points;
      newStreak := if correct then session.streak + 1 else 0;
      session.SetScore(newScore);
      session.SetStreak(newStreak);
    }

    /** The delayed step: show the next word drawn excluding `exclude`, or go
        to the completion page when none is left. */
    method Advance(d: Difficulty, m: GameMode, exclude: seq<Word>, rand: real)
      requires 0.0 <= rand < 1.0
      modifies this`currentWord, this`location
      ensures var next := PickExcluding(vocabulary, d, exclude, rand);
        && (next.Some? ==> currentWord == next && location == old(location))
        && (next.None? ==> currentWord == old(currentWord) && location == Completion(m, d))
      ensures currentWord.Some? && location != Completion(m, d) ==> currentWord == old(currentWord) || !IsExcluded(currentWord.value, exclude)
    {
      var next := PickExcluding(vocabulary, d, exclude, rand);
      if next.Some? {
        currentWord := next;
      } else {
        location := Completion(m, d);
      }
    }
  }
}
