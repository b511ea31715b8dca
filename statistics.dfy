/** The durable statistics record and its storage cell.

    `updateStatistics` reads the record, bumps its counters in place and writes
    it back; `resetStatistics` empties the cell; `getStatistics` falls back to
    the default record when the cell is empty or unreadable.

    Two stores are modelled. `SharedDefaultStore` is the code as written: the
    fallback is a shallow copy of the module-level default record, so an update
    made on that copy also writes into the default's nested maps and missed-word
    list, and those values come back after a reset. `StatisticsStore` falls back
    to a fresh all-zero record, which is what a reset evidently intends; the
    session page uses it. */
module Statistics {
  import opened Types
  import opened Reorder

  datatype Statistics = Statistics(
    totalGamesPlayed: int,
    totalScore: int,
    bestStreak: int,
    correctByDifficulty: map<Difficulty, int>,
    incorrectByDifficulty: map<Difficulty, int>,
    gamesByMode: map<GameMode, int>,
    incorrectWords: seq<string>)

  /** The arguments of one `updateStatistics` call. */
  datatype Round = Round(correct: bool, difficulty: Difficulty, mode: GameMode,
                         streak: int, score: nat, incorrectWord: Option<string>)

  /** What the storage key holds: nothing, text that does not parse, or a record. */
  datatype Cell = Absent | Unparseable | Stored(record: Statistics)

  const ZeroTiers: map<Difficulty, int> := map[Easy := 0, Medium := 0, Hard := 0]
  const ZeroModes: map<GameMode, int> := map[Spelling := 0, Definition := 0, FillBlank := 0, Anagram := 0]

  /** `defaultStatistics` as declared. */
  const DefaultStatistics: Statistics := Statistics(0, 0, 0, ZeroTiers, ZeroTiers, ZeroModes, [])

  /** Every tier and mode has a counter, and no missed word is listed twice. */
  predicate WellFormed(s: Statistics)
  {
    && (forall d: Difficulty :: d in s.correctByDifficulty && d in s.incorrectByDifficulty)
    && (forall m: GameMode :: m in s.gamesByMode)
    && Distinct(s.incorrectWords)
  }

  lemma DefaultWellFormed()
    ensures WellFormed(DefaultStatistics) && ZeroCounters(DefaultStatistics)
  {
    forall d: Difficulty
      ensures d in ZeroTiers
    {
      match d
      case Easy =>
      case Medium =>
      case Hard =>
    }
    forall m: GameMode
      ensures m in ZeroModes
    {
      match m
      case Spelling =>
      case Definition =>
      case FillBlank =>
      case Anagram =>
    }
  }

  function Max(a: int, b: int): int { if a >= b then a else b }

  /** The missed-word list after a round: the word is appended when the round was
      missed, the word is non-empty and not yet listed (case-sensitive). */
  function MissedWords(words: seq<string>, r: Round): seq<string>
  {
    if !r.correct && r.incorrectWord.Some? && r.incorrectWord.value != "" && r.incorrectWord.value !in words
    then words + [r.incorrectWord.value]
    else words
  }

  /** The record after the in-place updates of `updateStatistics`: one more
      round played, the score added, the best streak raised to the round's
      streak, the mode's and the tier's counters bumped by one, the missed word
      appended at most once; every other tier and mode keeps its count. */
  function Tally(s: Statistics, r: Round): (t: Statistics)
    requires WellFormed(s)
    ensures WellFormed(t)
    ensures t.totalGamesPlayed == s.totalGamesPlayed + 1
    ensures t.totalScore == s.totalScore + r.score
    ensures t.bestStreak == Max(s.bestStreak, r.streak)
    ensures t.gamesByMode[r.mode] == s.gamesByMode[r.mode] + 1
    ensures forall m :: m != r.mode ==> t.gamesByMode[m] == s.gamesByMode[m]
    ensures t.correctByDifficulty[r.difficulty] == s.correctByDifficulty[r.difficulty] + (if r.correct then 1 else 0)
    ensures t.incorrectByDifficulty[r.difficulty] == s.incorrectByDifficulty[r.difficulty] + (if r.correct then 0 else 1)
    ensures forall d :: d != r.difficulty ==>
              t.correctByDifficulty[d] == s.correctByDifficulty[d] &&
              t.incorrectByDifficulty[d] == s.incorrectByDifficulty[d]
    ensures t.incorrectWords == MissedWords(s.incorrectWords, r)
  {
    var t := s.(totalGamesPlayed := s.totalGamesPlayed + 1,
                totalScore := s.totalScore + r.score,
                bestStreak := Max(s.bestStreak, r.streak),
                gamesByMode := s.gamesByMode[r.mode := s.gamesByMode[r.mode] + 1]);
    if r.correct then
      t.(correctByDifficulty := t.correctByDifficulty[r.difficulty := t.correctByDifficulty[r.difficulty] + 1])
    else
      t.(incorrectByDifficulty := t.incorrectByDifficulty[r.difficulty := t.incorrectByDifficulty[r.difficulty] + 1],
         incorrectWords := MissedWords(t.incorrectWords, r))
  }

  /** The missed-word list only grows at its end, by the missed word, exactly
      when the round was missed with a non-empty word not listed yet; it stays
      duplicate-free. */
  lemma MissedWordsGrow(words: seq<string>, r: Round)
    requires Distinct(words)
    ensures var after := MissedWords(words, r);
      && Distinct(after)
      && (after != words <==>
            !r.correct && r.incorrectWord.Some? && r.incorrectWord.value != "" &&
            r.incorrectWord.value !in words)
      && (after != words ==> after == words + [r.incorrectWord.value])
  {
  }

  /** Recording the same missed word twice leaves exactly one copy of it. */
  lemma MissedTwiceListedOnce(s: Statistics, r: Round)
    requires WellFormed(s)
    requires !r.correct && r.incorrectWord.Some? && r.incorrectWord.value != ""
    ensures multiset(Tally(Tally(s, r), r).incorrectWords)[r.incorrectWord.value] == 1
  {
    var w := r.incorrectWord.value;
    var once := Tally(s, r).incorrectWords;
    assert w in once;
    assert Tally(Tally(s, r), r).incorrectWords == once;
    DistinctOccursOnce(once, w);
  }

  /** The records after a sequence of rounds. */
  function TallyAll(s: Statistics, rounds: seq<Round>): (t: Statistics)
    requires WellFormed(s)
    ensures WellFormed(t)
    decreases |rounds|
  {
    if rounds == [] then s else TallyAll(Tally(s, rounds[0]), rounds[1..])
  }

  function TotalScore(rounds: seq<Round>): nat
  {
    if rounds == [] then 0 else rounds[0].score + TotalScore(rounds[1..])
  }

  /** Over any sequence of rounds the best streak is at least the earlier
      best and at least every round's streak ... */
  lemma {:induction false} TallyAllBestStreakBounds(s: Statistics, rounds: seq<Round>)
    requires WellFormed(s)
    ensures TallyAll(s, rounds).bestStreak >= s.bestStreak
    ensures forall i :: 0 <= i < |rounds| ==> TallyAll(s, rounds).bestStreak >= rounds[i].streak
    decreases |rounds|
  {
    if rounds != [] {
      var s' := Tally(s, rounds[0]);
      var rest := rounds[1..];
      TallyAllBestStreakBounds(s', rest);
      var best := TallyAll(s', rest).bestStreak;
      assert TallyAll(s, rounds).bestStreak == best;
      forall i | 0 < i < |rounds|
        ensures best >= rounds[i].streak
      {
        assert rounds[i] == rest[i - 1];
      }
    }
  }

  /** ... and it is one of them: the best streak only ever takes a value that
      was seen. */
  lemma {:induction false} TallyAllBestStreakAttained(s: Statistics, rounds: seq<Round>)
    requires WellFormed(s)
    ensures var best := TallyAll(s, rounds).bestStreak;
      best == s.bestStreak || exists i :: 0 <= i < |rounds| && best == rounds[i].streak
    decreases |rounds|
  {
    if rounds != [] {
      var s' := Tally(s, rounds[0]);
      var rest := rounds[1..];
      TallyAllBestStreakAttained(s', rest);
      var best := TallyAll(s', rest).bestStreak;
      assert TallyAll(s, rounds).bestStreak == best;
      if best != s.bestStreak && best != s'.bestStreak {
        var j :| 0 <= j < |rest| && best == rest[j].streak;
        assert rounds[j + 1] == rest[j];
      }
    }
  }

  /** Over any sequence of rounds the number of rounds played grows by the
      number of rounds, the total score by their scores, and no counter or
      list shrinks. */
  lemma {:induction false} TallyAllTotals(s: Statistics, rounds: seq<Round>)
    requires WellFormed(s)
    ensures var t := TallyAll(s, rounds);
      && t.totalGamesPlayed == s.totalGamesPlayed + |rounds|
      && t.totalScore == s.totalScore + TotalScore(rounds)
      && (forall d :: t.correctByDifficulty[d] >= s.correctByDifficulty[d])
      && (forall d :: t.incorrectByDifficulty[d] >= s.incorrectByDifficulty[d])
      && (forall m :: t.gamesByMode[m] >= s.gamesByMode[m])
      && s.incorrectWords <= t.incorrectWords
    decreases |rounds|
  {
    if rounds != [] {
      var s' := Tally(s, rounds[0]);
      TallyAllTotals(s', rounds[1..]);
      assert TallyAll(s, rounds) == TallyAll(s', rounds[1..]);
    }
  }

  // ---------------------------------------------------------------------
  // The storage cell

  /** `getStatistics` with a fresh default: the stored record, or the all-zero
      record when the cell is empty or unreadable. */
  function Fetch(cell: Cell): (s: Statistics)
    ensures cell.Stored? ==> s == cell.record
    ensures !cell.Stored? ==> s == DefaultStatistics
    ensures (cell.Stored? ==> WellFormed(cell.record)) ==> WellFormed(s)
  {
    DefaultWellFormed();
    if cell.Stored? then cell.record else DefaultStatistics
  }

  /** `getStatistics` as written: an empty or unreadable cell yields
      `{ ...defaultStatistics }`, whose nested maps and list are those of the
      default object `defaults` itself. */
  function FetchShared(cell: Cell, defaults: Statistics): (s: Statistics)
    ensures cell.Stored? ==> s == cell.record
    ensures !cell.Stored? ==> s == defaults
  {
    if cell.Stored? then cell.record else defaults
  }

  /** The default object after an update made through a shallow copy of it:
      its top-level counters are its own, its nested parts are the copy's. */
  function ShareNested(defaults: Statistics, copy: Statistics): (d: Statistics)
  {
    defaults.(correctByDifficulty := copy.correctByDifficulty,
              incorrectByDifficulty := copy.incorrectByDifficulty,
              gamesByMode := copy.gamesByMode,
              incorrectWords := copy.incorrectWords)
  }

  /** The top-level counters of a record are zero. */
  predicate ZeroCounters(s: Statistics)
  {
    s.totalGamesPlayed == 0 && s.totalScore == 0 && s.bestStreak == 0
  }

  /** The statistics key, read and written by the functions of the module
      (with the default record each read starts from when the key is empty). */
  class StatisticsStore {
    var cell: Cell
    /** Every record written to the key, oldest first. */
    ghost var saved: seq<Statistics>

    ghost predicate Valid()
      reads this
    {
      cell.Stored? ==> WellFormed(cell.record)
    }

    constructor (initial: Cell)
      requires initial.Stored? ==> WellFormed(initial.record)
      ensures Valid() && cell == initial && saved == []
    {
      cell := initial;
      saved := [];
    }

    method GetStatistics() returns (s: Statistics)
      requires Valid()
      ensures s == Fetch(cell) && WellFormed(s)
    {
      if cell.Stored? {
        s := cell.record;
      } else {
        s := DefaultStatistics;
      }
    }

    method SaveStatistics(s: Statistics)
      requires WellFormed(s)
      modifies this
      ensures Valid() && cell == Stored(s) && saved == old(saved) + [s]
    {
      cell := Stored(s);
      saved := saved + [s];
    }

    /** `updateStatistics`: read, bump in place, write back once. */
    method UpdateStatistics(correct: bool, difficulty: Difficulty, mode: GameMode,
                            streak: int, score: nat, incorrectWord: Option<string>)
      requires Valid()
      modifies this
      ensures Valid()
      ensures cell == Stored(Tally(Fetch(old(cell)), Round(correct, difficulty, mode, streak, score, incorrectWord)))
      ensures saved == old(saved) + [cell.record]
    {
      var stats := GetStatistics();
      stats := Bump(stats, Round(correct, difficulty, mode, streak, score, incorrectWord));
      SaveStatistics(stats);
    }

    /** `resetStatistics`: empties the key; doing it twice is doing it once. */
    method ResetStatistics()
      modifies this
      ensures Valid() && cell == Absent && saved == old(saved)
    {
      cell := Absent;
    }
  }

  /** The in-place updates of `updateStatistics`, one statement per counter. */
  method Bump(s: Statistics, r: Round) returns (stats: Statistics)
    requires WellFormed(s)
    ensures stats == Tally(s, r)
  {
    ghost var t := Tally(s, r);
    stats := s;
    stats := stats.(totalGamesPlayed := stats.totalGamesPlayed + 1);
    stats := stats.(totalScore := stats.totalScore + r.score);
    stats := stats.(bestStreak := Max(stats.bestStreak, r.streak));
    stats := stats.(gamesByMode := stats.gamesByMode[r.mode := stats.gamesByMode[r.mode] + 1]);
    if r.correct {
      stats := stats.(correctByDifficulty := stats.correctByDifficulty[r.difficulty := stats.correctByDifficulty[r.difficulty] + 1]);
    } else {
      stats := stats.(incorrectByDifficulty := stats.incorrectByDifficulty[r.difficulty := stats.incorrectByDifficulty[r.difficulty] + 1]);
      if r.incorrectWord.Some? && r.incorrectWord.value != "" && r.incorrectWord.value !in stats.incorrectWords {
        stats := stats.(incorrectWords := stats.incorrectWords + [r.incorrectWord.value]);
      }
    }
    assert stats.gamesByMode == t.gamesByMode;
    assert stats.correctByDifficulty == t.correctByDifficulty;
    assert stats.incorrectByDifficulty == t.incorrectByDifficulty;
  }

  /** The statistics key as the source handles it: `defaults` is the
      module-level `defaultStatistics` object, whose nested maps and list every
      fallback read shares. */
  class SharedDefaultStore {
    var cell: Cell
    var defaults: Statistics

    ghost predicate Valid()
      reads this
    {
      && WellFormed(defaults) && ZeroCounters(defaults)
      && (cell.Stored? ==> WellFormed(cell.record))
    }

    constructor (initial: Cell)
      requires initial.Stored? ==> WellFormed(initial.record)
      ensures Valid() && cell == initial && defaults == DefaultStatistics
    {
      DefaultWellFormed();
      cell := initial;
      defaults := DefaultStatistics;
    }

    method GetStatistics() returns (s: Statistics)
      requires Valid()
      ensures s == FetchShared(cell, defaults) && WellFormed(s)
      ensures !cell.Stored? ==> ZeroCounters(s)
    {
      if cell.Stored? {
        s := cell.record;
      } else {
        s := defaults;
      }
    }

    /** `updateStatistics` as written: when the read fell back to the default,
        the nested updates land in the default object too. */
    method UpdateStatistics(correct: bool, difficulty: Difficulty, mode: GameMode,
                            streak: int, score: nat, incorrectWord: Option<string>)
      requires Valid()
      modifies this
      ensures Valid()
      ensures cell == Stored(Tally(FetchShared(old(cell), old(defaults)),
                                   Round(correct, difficulty, mode, streak, score, incorrectWord)))
      ensures defaults == if old(cell).Stored? then old(defaults) else ShareNested(old(defaults), cell.record)
    {
      var fromDefault := !cell.Stored?;
      var stats := GetStatistics();
      stats := Bump(stats, Round(correct, difficulty, mode, streak, score, incorrectWord));
      if fromDefault {
        defaults := ShareNested(defaults, stats);
      }
      cell := Stored(stats);
    }

    method ResetStatistics()
      modifies this
      ensures cell == Absent && defaults == old(defaults)
    {
      cell := Absent;
    }
  }

  /** A missed round on a fresh page, a reset, then a read: as written the read
      still lists the missed word and counts the miss and the round's mode,
      although every top-level counter reads 0. */
  method ResetLeaksNestedCounts() returns (s: Statistics)
    ensures WellFormed(s) && ZeroCounters(s)
    ensures s.incorrectWords == ["happy"]
    ensures s.incorrectByDifficulty[Easy] == 1 && s.gamesByMode[Spelling] == 1
    ensures s != DefaultStatistics
  {
    DefaultWellFormed();
    var store := new SharedDefaultStore(Absent);
    store.UpdateStatistics(false, Easy, Spelling, 0, 0, Some("happy"));
    store.ResetStatistics();
    s := store.GetStatistics();
  }

  /** The same run against a store whose fallback is a fresh default: the read
      after the reset is the all-zero record. */
  method ResetRestoresDefaults() returns (s: Statistics)
    ensures s == DefaultStatistics && WellFormed(s)
    ensures s.incorrectWords == [] && s.incorrectByDifficulty[Easy] == 0 && s.gamesByMode[Spelling] == 0
  {
    DefaultWellFormed();
    var store := new StatisticsStore(Absent);
    store.UpdateStatistics(false, Easy, Spelling, 0, 0, Some("happy"));
    store.ResetStatistics();
    s := store.GetStatistics();
  }
}
