/** The four session cells shared by the pages: the running score, the current
    streak, the words answered correctly so far, and the mode being played.
    The nanostores atoms and the React context provider hold the same four
    cells and offer the same setters and reset, so one class models both. */
module Session {
  import opened Types

  class GameSession {
    var score: int
    var streak: int
    var correctHistory: seq<Word>
    var currentMode: Option<GameMode>

    /** Score and streak 0, no history, no mode. */
    predicate Initial()
      reads this
    {
      score == 0 && streak == 0 && correctHistory == [] && currentMode == None
    }

    constructor ()
      ensures Initial()
    {
      score := 0;
      streak := 0;
      correctHistory := [];
      currentMode := None;
    }

    /** Back to the initial cells, whatever they held; so a second reset
        changes nothing. */
    method ResetGame()
      modifies this
      ensures Initial()
    {
      score := 0;
      streak := 0;
      correctHistory := [];
      currentMode := None;
    }

    method SetScore(s: int)
      modifies this
      ensures score == s
      ensures streak == old(streak) && correctHistory == old(correctHistory) && currentMode == old(currentMode)
    {
      score := s;
    }

    method SetStreak(s: int)
      modifies this
      ensures streak == s
      ensures score == old(score) && correctHistory == old(correctHistory) && currentMode == old(currentMode)
    {
      streak := s;
    }

    method SetCorrectHistory(history: seq<Word>)
      modifies this
      ensures correctHistory == history
      ensures score == old(score) && streak == old(streak) && currentMode == old(currentMode)
    {
      correctHistory := history;
    }

    method SetCurrentMode(mode: Option<GameMode>)
      modifies this
      ensures currentMode == mode
      ensures score == old(score) && streak == old(streak) && correctHistory == old(correctHistory)
    {
      currentMode := mode;
    }
  }

  /** What `useGame` yields: the provider's cells, or the error it throws. */
  datatype Lookup = Found(session: GameSession) | Thrown(message: string)

  const OutsideProvider := "useGame must be used within a GameProvider"

  /** `useGame`: outside a provider it throws, inside it yields that
      provider's cells. */
  function UseGame(provider: Option<GameSession>): (r: Lookup)
    ensures r.Thrown? <==> provider.None?
    ensures r.Thrown? ==> r.message == OutsideProvider
    ensures r.Found? ==> r.session == provider.value
  {
    match provider
    case None => Thrown(OutsideProvider)
    case Some(s) => Found(s)
  }
}
