# spellwell quiz core in Dafny

This project models the engine behind the spellwell vocabulary quiz. The engine has four parts:

- **Word selection.** A static catalog of 24 words, eight per difficulty tier. Queries draw one word or several distinct words of a tier. The draws can skip words already answered correctly, comparing lower-cased text.
- **Statistics.** One durable record counts rounds, score, best streak, hits and misses per tier, rounds per mode, and the missed words. It sits in a single storage key. Each round updates it once; a reset empties the key.
- **Session tracking.** Four session cells hold the score, the streak, the correct-answer history and the current mode. The game page's mount effect reads the route and draws the first word. The page's round-completion handler moves the session on.
- **Round evaluators.** There is one per game mode:
  - spelling: six guesses, scored by attempt;
  - definition and fill-in-the-blank: a multiple choice that latches the first selection;
  - anagram: letter tiles moved between two lists.

The parts map to modules as follows:

| module | file | what it holds |
|---|---|---|
| `Types` | `types.dfy` | the value types |
| `Text` | `text.dfy` | ASCII lower-casing and `split` on one character |
| `Reorder` | `reorder.dfy` | the random reorderings, driven by a sequence of choices |
| `Catalog` | `catalog.dfy` | the word list and its facts |
| `Words` | `words.dfy` | the catalog queries |
| `Statistics` | `statistics.dfy` | the record, its update, and both storage-key handlings |
| `Session` | `session.dfy` | the four session cells and `useGame` |
| `Page` | `page.dfy` | the game page |
| `Spelling` | `spelling.dfy` | the spelling round |
| `Choice` | `choice.dfy` | the definition and fill-in-the-blank rounds |
| `Anagram` | `anagram.dfy` | the anagram round |

Randomness is turned into inputs:

- `Math.random()` is an argument `rand` with `0 <= rand < 1`.
- `[...xs].sort(() => Math.random() - 0.5)` is `Reorder.Shuffle(xs, c)`. A choice sequence `c` picks which remaining element comes next. Every permutation can be reached this way.

Each round class keeps a `reports` field. It holds the `(correct, score)` pairs the round passed to `onComplete`.

Both copies of each game component have the same logic: `src/components/games/*` and the older `src/components/*`. Both `GamePage` variants are the same too. So one Dafny member models both copies. The table below cites the `src/components/games/*`, `src/components/pages/GamePage.tsx` and `src/stores/gameStore.ts` copies. The other copies are:

- `src/context/GameContext.tsx`: the cells at lines 19-22 and `resetGame` at 24-29 (`Session.GameSession`).
- `src/pages/GamePage.tsx`: the mount effect at 28-41 (`Page.GamePage.Mount`), and `handleGameComplete` at 43-76 (`Page.GamePage.HandleGameComplete`, with `Score` at 46-50 and `Advance` at 65-75).
- `src/components/SpellingGame.tsx`:
  - reset at 23-29;
  - keydown at 31-50;
  - `submitGuess` at 52-69 (`AttemptScore` at 61);
  - `getLetterState` at 71-83.
- `src/components/DefinitionGame.tsx`: the option effect at 25-32 and `handleSelect` at 34-46.
- `src/components/FillBlankGame.tsx`: the option effect at 26-34, `handleSelect` at 36-48, and `renderSentence` at 50-77.
- `src/components/AnagramGame.tsx`: the same lines as the newer copy (17-69).
- The fill-in-the-blank round also uses `Choice.OtherWords` and `Choice.Judge`, at `src/components/games/FillBlankGame.tsx:26-48`.

In these places the code behaves in a way a reader might not expect; the model follows the code:

- **Case sensitivity.** The definition and fill-in-the-blank rounds compare the selected text with `===`, which is case-sensitive (`Choice.Judge`). The spelling and anagram rounds compare against the lower-cased target.
- **First word.** The first word of a session comes from `getRandomWordExcluding` with the current history, not from `getRandomWord`.
- **Mounting.** Mounting the page does not reset the score or the streak. It clears the history only when the mode changes.
- **Reset.** After a reset, a read does not always give back the all-zero record (see Findings).

## Model

| member | source | states |
|---|---|---|
| Catalog.CatalogBlanks | src/data/words.ts:3-153 | every catalog word has an example sentence holding exactly one `_` |
| Catalog.BlankedHasOneBlank | src/data/words.ts:3-153 | a sentence written around one blank, from text free of `_`, holds one `_` and splits back into the text before and after it |
| Catalog.EasyTier | src/data/words.ts:3-53 | the easy block has 8 words, all of tier easy |
| Catalog.MediumTier | src/data/words.ts:54-103 | the medium block has 8 words, all of tier medium |
| Catalog.HardTier | src/data/words.ts:104-153 | the hard block has 8 words, all of tier hard |
| Catalog.VocabularyDistinct | src/data/words.ts:3-153 | no word occurs twice in the catalog |
| Words.CatalogTiers | src/data/words.ts:156 | filtering the catalog by a tier gives exactly that tier's block of 8 words, in catalog order |
| Words.ExcludedTextsMatch | src/data/words.ts:161-164 | a word's lower-cased text is among the excluded texts iff some excluded word has the same lower-cased text |
| Words.Filter | src/data/words.ts:162-164 | a word is kept iff it is in the list, of the tier and its lower-cased text is not excluded; the result is no longer than the list |
| Words.FilterKeepsDistinct | src/data/words.ts:162-164 | filtering a duplicate-free list keeps it duplicate-free |
| Words.FilterAppend | src/data/words.ts:162-164 | filtering distributes over concatenation |
| Words.RandomIndex | src/data/words.ts:157 | `Math.floor(Math.random() * n)` is below `n` whenever `n > 0` |
| Words.GetRandomWord | src/data/words.ts:155-158 | the result is a word iff the tier is non-empty, and then it is a catalog word of that tier; an empty tier yields nothing |
| Words.PickExcluding | src/data/words.ts:160-171 | a result is a listed word of the tier whose lower-cased text differs from every excluded word's; no result iff every word of the tier is excluded |
| Words.GetRandomWordExcluding | src/data/words.ts:160-171 | a result is a catalog word of the tier whose lower-cased text differs from every excluded word's; `null` iff every word of the tier is excluded |
| Words.GetRandomWords | src/data/words.ts:173-177 | exactly `min(count, n)` words for a tier of `n`, all catalog words of the tier, no word twice, drawn from the tier's words |
| Words.GetRandomWordsExcluding | src/data/words.ts:179-186 | exactly `min(count, eligible)` words, all catalog words of the tier, none excluded, no word twice |
| Words.ShuffledPrefix | src/data/words.ts:184-185 | a prefix of a reordering of a filtered duplicate-free list is duplicate-free, has `min(count, n)` elements and holds only eligible words of the list |
| Reorder.Shuffle | src/data/words.ts:175 | a reordering has the same elements with the same multiplicities |
| Reorder.ShufflePrefixDistinct | src/data/words.ts:175-176 | any prefix of a reordering of a duplicate-free list is duplicate-free and drawn from the list |
| Reorder.PermutationKeepsDistinct | src/data/words.ts:175 | a permutation of a duplicate-free list is duplicate-free |
| Reorder.RemoveAt | src/components/games/AnagramGame.tsx:35 | `filter((_, i) => i !== j)` drops the element at `j` and keeps the others in order |
| Text.Lower | src/data/words.ts:161 | `toLowerCase` maps `A`-`Z` to `a`-`z` letter by letter and keeps the length |
| Text.JoinSplit | src/components/games/FillBlankGame.tsx:59 | joining the pieces of `split('_')` with `_` gives back the sentence |
| Text.SplitPieces | src/components/games/FillBlankGame.tsx:59 | `split` yields one more piece than there are separators, none holding a separator |
| Text.SplitOneSeparator | src/components/games/FillBlankGame.tsx:59 | a sentence with one `_` splits into two pieces around it |
| Statistics.DefaultWellFormed | src/utils/statistics.ts:5-26 | the default record has a counter for every tier and mode, no repeated missed word, and zero top-level counters |
| Statistics.Tally | src/utils/statistics.ts:54-66 | one round: games +1, score + points, best streak = max(old, streak), the mode's count +1, the tier's hit or miss count +1 by correctness, every other tier and mode unchanged, missed words per `MissedWords` |
| Statistics.Bump | src/utils/statistics.ts:52-66 | the in-place counter updates produce exactly `Tally` of the record read |
| Statistics.MissedWordsGrow | src/utils/statistics.ts:63-65 | the missed-word list changes iff the round was missed with a non-empty word not yet listed; it then gains that word at its end, and it stays duplicate-free |
| Statistics.MissedTwiceListedOnce | src/utils/statistics.ts:63-65 | recording the same missed word twice leaves exactly one copy |
| Statistics.TallyAllBestStreakBounds | src/utils/statistics.ts:56 | after any run of rounds the best streak is at least the earlier best and at least every round's streak |
| Statistics.TallyAllBestStreakAttained | src/utils/statistics.ts:56 | after any run of rounds the best streak is the earlier best or one round's streak |
| Statistics.TallyAllTotals | src/utils/statistics.ts:54-66 | after any run of rounds: games grow by the number of rounds, score by their points, no counter decreases, and earlier missed words keep their order |
| Statistics.Fetch | src/utils/statistics.ts:28-38 | the read gives the stored record, or the all-zero default when the key is empty or does not parse |
| Statistics.FetchShared | src/utils/statistics.ts:28-38 | the read as written: the stored record, or the shared default object |
| Statistics.StatisticsStore.GetStatistics | src/utils/statistics.ts:28-38 | returns `Fetch` of the key, a well-formed record |
| Statistics.StatisticsStore.SaveStatistics | src/utils/statistics.ts:40-42 | the key holds the record, and the record is written once |
| Statistics.StatisticsStore.UpdateStatistics | src/utils/statistics.ts:44-69 | the key holds `Tally` of the record read, written exactly once |
| Statistics.StatisticsStore.ResetStatistics | src/utils/statistics.ts:71-73 | the key is empty, so a second reset changes nothing |
| Statistics.SharedDefaultStore.constructor | src/utils/statistics.ts:5-26 | the shared default object starts as the declared default |
| Statistics.SharedDefaultStore.GetStatistics | src/utils/statistics.ts:28-38 | an empty key reads as the shared default object, whose top-level counters are 0 |
| Statistics.SharedDefaultStore.UpdateStatistics | src/utils/statistics.ts:52-68 | the key holds `Tally` of the record read, which is the shared default object when the key is empty; an update on such a read also puts the new nested maps and list into the default object |
| Statistics.SharedDefaultStore.ResetStatistics | src/utils/statistics.ts:71-73 | the key is emptied; the default object keeps what updates wrote into it |
| Statistics.ResetLeaksNestedCounts | src/utils/statistics.ts:28-73 | as written: a miss of "happy" in spelling/easy on an empty key, then a reset, then a read gives zero top-level counters but lists "happy" and counts the miss and the mode |
| Statistics.ResetRestoresDefaults | src/utils/statistics.ts:28-73 | with a fresh default the same run reads back the all-zero default |
| Session.GameSession.constructor | src/stores/gameStore.ts:4-7 | score 0, streak 0, empty history, no mode |
| Session.GameSession.ResetGame | src/stores/gameStore.ts:9-14 | all four cells return to their initial values, so a second reset changes nothing |
| Session.GameSession.SetScore | src/stores/gameStore.ts:16-18 | sets the score and leaves the other three cells unchanged |
| Session.GameSession.SetStreak | src/stores/gameStore.ts:20-22 | sets the streak and leaves the other three cells unchanged |
| Session.GameSession.SetCorrectHistory | src/stores/gameStore.ts:24-26 | sets the history and leaves the other three cells unchanged |
| Session.GameSession.SetCurrentMode | src/stores/gameStore.ts:28-30 | sets the mode, possibly to none, and leaves the other three cells unchanged |
| Session.UseGame | src/context/GameContext.tsx:50-56 | throws "useGame must be used within a GameProvider" iff there is no provider; otherwise yields the provider's cells |
| Page.GamePage.constructor | src/components/pages/GamePage.tsx:22-29 | no mode, no difficulty, no word yet; draws come from the catalog |
| Page.GamePage.Mount | src/components/pages/GamePage.tsx:31-53 | records the route's mode and difficulty. A missing one sends the player home with the session untouched. Otherwise a new mode is recorded with the history cleared, and the first word is drawn excluding the history as read before the clear. A history without repeats leaves the page `Fresh` |
| Page.GamePage.HandleGameComplete | src/components/pages/GamePage.tsx:55-88 | see the details after the table |
| Page.GamePage.Score | src/components/pages/GamePage.tsx:58-62 | score + points; streak + 1 on a correct answer, else 0; history and mode untouched |
| Page.GamePage.Advance | src/components/pages/GamePage.tsx:77-87 | the next word is drawn excluding the given words, or the completion page is shown when none is eligible |
| Page.MissedStaysEligible | src/components/pages/GamePage.tsx:73-79 | a missed word that was not excluded stays in its tier's eligible pool for the next draw |
| Page.AppendKeepsNoRepeats | src/components/pages/GamePage.tsx:74 | appending a word whose text is not yet in the history keeps the history free of repeated texts |
| Spelling.LetterStateOf | src/components/games/SpellingGame.tsx:77-89 | `correct` iff the lower-cased target has the letter at that index; `present` iff not correct but the letter is in it; `absent` iff the letter is not in it |
| Spelling.AttemptScore | src/components/games/SpellingGame.tsx:67 | `(6 - n + 1) * 10`: a multiple of 10 in [10, 60], 60 on the first guess and 10 on the sixth, each extra guess costing 10 |
| Spelling.SpellingRound.constructor | src/components/games/SpellingGame.tsx:23-26 | no guesses, empty typed guess, not over, not won, nothing reported |
| Spelling.SpellingRound.NewWord | src/components/games/SpellingGame.tsx:29-35 | a new word resets guesses, typed guess, game-over and won |
| Spelling.SpellingRound.KeyDown | src/components/games/SpellingGame.tsx:38-52 | see the details after the table |
| Spelling.SpellingRound.SubmitGuess | src/components/games/SpellingGame.tsx:58-75 | see the details after the table |
| Choice.OtherWords | src/components/games/DefinitionGame.tsx:26-27 | up to 3 other words: `min(3, eligible)` of them, catalog words of the tier, none in the history, none sharing the target's lower-cased text, no word twice |
| Choice.ExcludingTarget | src/components/games/DefinitionGame.tsx:26 | excluding history plus target excludes each history word and the target |
| Choice.OfferedOnce | src/components/games/DefinitionGame.tsx:28 | reordering the target with others that lack it offers the target exactly once, with one more option than the others |
| Choice.DefinitionOptions | src/components/games/DefinitionGame.tsx:25-32 | a permutation of the target and the other words: 1 + the number of other words, at most 4 options; the target exactly once; every other option is one of the other words |
| Choice.FillBlankOptions | src/components/games/FillBlankGame.tsx:26-34 | a permutation of the target's text and the other words' texts: at most 4 texts; the target's text exactly once; every other option is the text of one of the other words |
| Choice.TextsOf | src/components/games/FillBlankGame.tsx:28 | `map((w) => w.word)`: same length, each entry the text of the word at that position |
| Choice.TextsAvoid | src/components/games/FillBlankGame.tsx:28 | the target's text is not among the texts of words whose lower-cased text differs from it |
| Choice.Judge | src/components/games/DefinitionGame.tsx:40-41 | correct iff the selected text `===` the target's text; 10 points when correct, else 0 |
| Choice.DefinitionRound.constructor | src/components/games/DefinitionGame.tsx:21-32 | the options are `DefinitionOptions` of the word, tier and history; no selection, not revealed, nothing reported |
| Choice.DefinitionRound.NewWord | src/components/games/DefinitionGame.tsx:25-32 | a new word rebuilds the options as `DefinitionOptions` and clears the selection and `revealed`; the target is offered exactly once |
| Choice.DefinitionRound.HandleSelect | src/components/games/DefinitionGame.tsx:34-46 | the latch below, with the offered words untouched and the target still offered exactly once |
| Choice.FillBlankRound.constructor | src/components/games/FillBlankGame.tsx:21-34 | the options are `FillBlankOptions` of the word, tier and history; no selection, not revealed, nothing reported |
| Choice.FillBlankRound.NewWord | src/components/games/FillBlankGame.tsx:26-34 | a new word rebuilds the options as `FillBlankOptions` and clears the selection and `revealed`; the target's text is offered exactly once |
| Choice.FillBlankRound.HandleSelect | src/components/games/FillBlankGame.tsx:36-48 | the latch below, with the offered texts untouched and the target's text still offered exactly once |
| Choice.ChoiceRound.HandleSelect | src/components/games/DefinitionGame.tsx:35-46 | ignored once revealed. Otherwise it records the choice, reveals, and reports `Judge(choice, word)` exactly once. The round keeps: revealed iff selected, and reports equal to the one verdict once revealed |
| Choice.BlankColourOf | src/components/games/FillBlankGame.tsx:61-81 | the blank is plain iff not revealed, and shows success iff revealed with the target's text selected |
| Choice.ChoiceRound.Colour | src/components/games/FillBlankGame.tsx:67-81 | once revealed, the blank shows success iff the reported verdict is correct |
| Choice.Fill | src/components/games/FillBlankGame.tsx:90 | `selectedWord \|\| '______'`: the selection when non-empty, else the placeholder |
| Choice.RenderSentence | src/components/games/FillBlankGame.tsx:51-57 | no sentence (or an empty one) shows "No example sentence available." |
| Choice.CatalogSentenceRender | src/components/games/FillBlankGame.tsx:83-94 | for every catalog word the sentence is `before + "_" + after` with no other `_`, and renders as `before + fill + after` |
| Choice.RenderDropsAfterSecondBlank | src/components/games/FillBlankGame.tsx:83-94 | text after a second `_` is not shown: `a_b_c` renders as `a + fill + b` |
| Choice.RenderWithoutBlank | src/components/games/FillBlankGame.tsx:83-94 | a sentence without `_` is shown with the blank after it |
| Anagram.Scramble | src/components/games/AnagramGame.tsx:24-28 | a permutation of the lower-cased target's letters, as long as the target |
| Anagram.Verdict | src/components/games/AnagramGame.tsx:50-52 | correct iff the joined answer equals the lower-cased target; 15 points when correct, else 0 |
| Anagram.MoveTile | src/components/games/AnagramGame.tsx:33-35 | moving a tile from one list to the end of the other keeps the tiles of both together |
| Anagram.FullAnswerUsesAllTiles | src/components/games/AnagramGame.tsx:47 | an answer as long as the target, drawn from its tiles, leaves no tile behind and is a rearrangement of the lower-cased target |
| Anagram.AnagramRound.constructor | src/components/games/AnagramGame.tsx:17-22 | fresh scramble, empty answer, not revealed, nothing reported |
| Anagram.AnagramRound.NewWord | src/components/games/AnagramGame.tsx:17-22 | a new word rescrambles, empties the answer and clears `revealed` |
| Anagram.AnagramRound.LetterClick | src/components/games/AnagramGame.tsx:30-36 | no-op once revealed; otherwise the `i`-th available letter moves to the end of the answer, the rest keeping their order; the tiles stay the target's letters |
| Anagram.AnagramRound.AnswerClick | src/components/games/AnagramGame.tsx:38-44 | no-op once revealed; otherwise the `i`-th answer letter moves to the end of the available letters; the tiles stay the target's letters |
| Anagram.AnagramRound.ShuffleTiles | src/components/games/AnagramGame.tsx:59-63 | no-op once revealed; otherwise the available letters are reordered and the answer kept |
| Anagram.AnagramRound.Clear | src/components/games/AnagramGame.tsx:65-69 | no-op once revealed; otherwise available' = available + answer and answer' = [] |
| Anagram.AnagramRound.Submit | src/components/games/AnagramGame.tsx:46-57 | see the details after the table |

Details for the longer rows:

- **`Page.GamePage.HandleGameComplete`** (`src/components/pages/GamePage.tsx:55-88`):
  - It is a no-op without a word, a difficulty and a mode.
  - Otherwise the score gains the points. The streak becomes streak + 1 on a correct answer and 0 on a miss.
  - The statistics key gets exactly one `Tally` with the new streak and the points. The word's text goes with it only on a miss.
  - The history gains the word iff the answer is correct.
  - The next word is drawn excluding the new history. When none is eligible, the page goes to completion for this mode and difficulty.
  - A page that was `Fresh` stays `Fresh`: no repeated history text, and the shown word is not in the history.
- **`Spelling.SpellingRound.KeyDown`** (`src/components/games/SpellingGame.tsx:38-52`):
  - Every key is ignored once the round is over.
  - Enter submits only a guess of the target's length.
  - Backspace drops the last typed letter.
  - A single ASCII letter is appended lower-cased while the guess is shorter than the target. Any other key does nothing.
  - The round invariant is kept:
    - at most 6 guesses, all of the target's length;
    - the typed guess is no longer than the target;
    - only the last guess can match;
    - over iff won or six guesses;
    - its outcome is reported once.
- **`Spelling.SpellingRound.SubmitGuess`** (`src/components/games/SpellingGame.tsx:58-75`):
  - A guess of the wrong length changes nothing.
  - Otherwise the guess is recorded and the typed letters are cleared. The round is won iff the guess equals the lower-cased target, and over when won or on the sixth guess.
  - A win reports `AttemptScore(n)`. A sixth miss reports 0.
- **`Anagram.AnagramRound.Submit`** (`src/components/games/AnagramGame.tsx:46-57`):
  - It is ignored when revealed, or when the answer's length differs from the target's.
  - Otherwise it reveals and reports `Verdict` once. The submitted answer has used every tile.
  - Every handler keeps this invariant: the available letters plus the answer are exactly the lower-cased target's letters.

## Left out

- JSX rendering, styling, the hint toggles (`showHint`) and the "Loading..." branches are presentation. So are the home, completion and statistics pages and the theme store. The one styling decision kept is the fill-in-the-blank blank's colour (`Choice.BlankColourOf`, `Choice.ChoiceRound.Colour`), because it is how the round shows its verdict.
- Timers: the 1500 ms and 100 ms delays are dropped. `onComplete` and the next-word draw happen synchronously.
- Effect re-runs: the page's mount effect runs again when the history changes, racing the delayed draw. That is framework scheduling. `Page.GamePage.Mount` models one run.
- `window.location` parsing and the router are left out. A route segment is either missing (`None`) or a known mode or difficulty. A segment that is present but unknown (`/game/foo/bar`) is not modelled.
- Storage encoding (`localStorage`, `JSON.stringify`, `JSON.parse`): the key is a `Cell`. Text that does not parse, and the empty string, are `Unparseable`.
- Statistics.StatisticsStore.GetStatistics: a stored text that parses to something other than a well-formed record (missing keys, wrong types) is not modelled; stored records are assumed well-formed.
- Anagram.AnagramRound.LetterClick: requires the index to name a rendered tile. The handler is reached only by clicking a rendered tile. An out-of-range index, which would append `undefined`, is not modelled.
- Anagram.AnagramRound.AnswerClick: requires the index to name a rendered answer tile, for the same reason.
- Randomness: the model claims nothing about uniformity. `Reorder.Shuffle` can produce every permutation. The source's comparator sort may favour some orders.
- Numbers: counters and scores are unbounded integers. Floating-point limits of JavaScript numbers are not modelled.
- Lower-casing covers ASCII `A`-`Z` only. `toLowerCase` on other characters is not modelled.
- Page.GamePage.HandleGameComplete: the pages' history update is modelled as a plain append. In `src/pages/GamePage.tsx:62` it is the functional update `prev => [...prev, currentWord]`, which is the same when no other update intervenes.
- Page.GamePage: draws go through its `vocabulary` field. The constructor sets that field to the catalog, so every draw is `getRandomWordExcluding`.
- Page.GamePage: the page uses the corrected statistics store. The store as written is `Statistics.SharedDefaultStore`; see Findings.

## Findings

| source | as written | input that shows it | evidently intended | confidence | as-written member | corrected member |
|---|---|---|---|---|---|---|
| src/utils/statistics.ts:31 | `{ ...defaultStatistics }` copies only the top level. The in-place updates at lines 57-64 then write into the module's default object, and every later fallback read shares it. | Start with an empty key. Call `updateStatistics(false, 'easy', 'spelling', 0, 0, 'happy')`, then `resetStatistics()`, then `getStatistics()`. | After a reset a read gives the all-zero default with no missed words. As written it lists "happy" and counts one easy miss and one spelling round, while the top-level counters read 0. | not executed | Statistics.ResetLeaksNestedCounts | Statistics.ResetRestoresDefaults |
