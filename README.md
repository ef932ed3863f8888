# ENS-Wordle game engine in Dafny

A model of the game engine of ENS-Wordle, a Wordle clone whose hidden word is an ENS name.

It covers:

- **The scorer.** `validateGuess` scores a guess in two passes. Exact matches are marked first and consume their target letter. Misplaced letters then consume the target letters that remain.
- **The letter-knowledge aggregator.** `updateLetterStates` never downgrades a letter.
- **The small game predicates.** Win, loss, guess format and difficulty class.
- **One round of the game-state hook.**
  - The transition `makeGuess`, plus reset, new game and the initialisers that run when a session starts.
  - The hook is a class owning the two state cells `gameState` and `gameStats`.
- **The statistics update.**
- **The schema check applied to a loaded game state.**
- **The key-value store with save, load and clear.**
- **The ENS name-format check and the `.eth` completion rule.**
- **The curated-name queries and the list validator.**

## How it is structured

| file | module | what it holds |
|---|---|---|
| `wrappers.dfy` | `Wrappers` | `Option`, `Result` |
| `text.dfy` | `Text` | ASCII case folding, character classes, `trim` |
| `game_types.dfy` | `GameTypes` | the records of `src/types/game.ts` and `maxGuesses = 6` |
| `game_logic.dfy` | `GameLogic` | `src/utils/gameLogic.ts` |
| `json.dfy` | `Json` | the documents written for a game state and for the statistics, and reading them back |
| `local_storage.dfy` | `LocalStorage` | `src/utils/localStorage.ts` |
| `use_game_state.dfy` | `GameHook` | `src/hooks/useGameState.ts` |
| `ens_service.dfy` | `EnsService` | `validateENSName` and the full-name rule of `src/services/ensService.ts` |
| `ens_names.dfy` | `EnsNames` | `src/utils/ensNames.ts` |

### The scorer

`GameLogic.ValidateGuess` keeps the source's imperative shape:

- a feedback array;
- a `targetLetters` array whose consumed slots are overwritten with `""`;
- two index loops, split into `MarkExactMatches` and `MarkMisplaced`.

It is proved equal to a closed-form specification, `Score`:

- Position i is `Correct` when the lower-cased letters agree.
- Otherwise, position i is `WrongPosition` when fewer earlier non-exact positions hold the same letter than there are non-exact target positions with that letter.
- Otherwise it is `Absent`.

The second loop keeps this invariant: for every letter, the number of unconsumed slots equals what `Score` has not yet handed out.

The consume-on-match rule is then proved about `Score` (`ConsumeOnMatch`): for every letter, the positions that are not absent number exactly min(occurrences in the guess, occurrences in the target).

### Letter knowledge

`UpdateLetterStates` keeps the source's loop and upgrade test. It is proved equal to `Merge`: every letter known before or touched by the guess holds the best of its old state and every feedback it received.

### The store

- The store maps keys to what `JSON.parse` makes of the stored text:
  - an empty string;
  - `Malformed`, for text it rejects;
  - a `Json` document.
- Saving writes `EncodeState`, or `EncodeStats` for statistics.
- Reading back is `DecodeState` (or `DecodeStats`). This is the typed view the source takes with its `as GameState` cast.
- The round trips are proved.

### Where the code differs from its stated intent

The model follows the code in each case:

- **A record that parses but fails validation is not removed.** `loadGameState` removes the game-state record only when `JSON.parse` throws (`src/utils/localStorage.ts:59-63`). A record that parses but fails `validateGameState` is left in place, and the load returns nothing (`:58`). The intended self-healing — clearing any corrupt record — happens only for text that does not parse.
- **The duplicate-letter test expects a different result.** The test at `src/utils/__tests__/gameLogic.test.ts:33-39` expects `validateGuess('hello', 'alley')` to be `[absent, wrong-position, correct, correct, absent]`. The code gives `[absent, wrong-position, correct, wrong-position, absent]`: the second `l` of `hello` faces an `e`, so it is misplaced, not correct. This is also what Wordle's rules give. `GameLogic.HelloAlley` proves the code's result.
- **The `hello`/`world` tests expect a different result.** The tests at `src/utils/__tests__/gameLogic.test.ts:26-31` and `:126-133` expect `[absent, absent, wrong-position, wrong-position, absent]` for `hello` against `world`. The code gives `[absent, absent, absent, correct, wrong-position]`. The second `l` of `hello` sits on the `l` of `world`, so it is an exact match. That match consumes the target's only `l`, so the first `l` is absent. `GameLogic.HelloWorld` proves the code's result.
- **Game-over is checked first.** `makeGuess` checks that the round is still being played before checking the word's length and letters (`src/hooks/useGameState.ts:84-99`).

`isGameWon` is `GameLogic.IsGameWon`, and `isGameLost` is the predicate `GameLogic.IsGameLost`. What they decide in a round is stated through `GameHook.ApplyGuess`, `GameHook.LossOnSixthMiss` and `GameLogic.AllCorrectIffEqual`.

## Model

| member | source | states |
|---|---|---|
| `GameLogic.ValidateGuess` | src/utils/gameLogic.ts:11-36 | the feedback the two passes produce is exactly `Score` of the lower-cased guess and target |
| `GameLogic.MarkExactMatches` | src/utils/gameLogic.ts:12-22 | after the first pass, exact positions are correct and all others absent, and exactly the exactly-matched target slots are consumed |
| `GameLogic.MarkMisplaced` | src/utils/gameLogic.ts:24-33 | the second pass turns exactly the positions `Score` calls misplaced from absent into wrong-position, and leaves every letter with exactly its free count of target slots: its unmatched occurrences in the target minus the unmatched occurrences already scored in the guess, or zero |
| `GameLogic.ScoreShape` | src/utils/gameLogic.ts:12-19 | the feedback has one entry per guess letter, never `unused`, and position i is correct iff the lower-cased letters at i agree |
| `GameLogic.ConsumeOnMatch` | src/utils/gameLogic.ts:17-33 | for every letter, the non-absent positions holding it number min(its count in the guess, its count in the target) |
| `GameLogic.AllCorrectIffEqual` | src/utils/gameLogic.ts:13-19 | for equal lengths, the feedback is all correct iff guess and target are equal ignoring case |
| `GameLogic.HelloAlley` | src/utils/gameLogic.ts:11-36 | `hello` against `alley` scores absent, wrong-position, correct, wrong-position, absent |
| `GameLogic.HelloWorld` | src/utils/gameLogic.ts:11-36 | `hello` against `world` scores absent, absent, absent, correct, wrong-position |
| `GameLogic.IsGameWon` | src/utils/gameLogic.ts:70-72 | the front-to-back `every` is true iff every feedback entry is correct, so an empty feedback wins |
| `GameHook.LossOnSixthMiss` | src/utils/gameLogic.ts:77-79 | with `isGameLost(newGuesses.length, 6)` as `makeGuess` uses it (src/hooks/useGameState.ts:111-112), an accepted guess loses the round iff it is not a win and it is the sixth guess |
| `GameLogic.Merge` | src/utils/gameLogic.ts:41-65 | the merged knowledge holds the letters known before plus those the guess touched, each at its best state |
| `GameLogic.UpdateLetterStates` | src/utils/gameLogic.ts:41-65 | the loop of guarded upgrades produces exactly `Merge` of the old map, the word and its feedback |
| `GameLogic.MergeIsMaximum` | src/utils/gameLogic.ts:46-62 | no letter is downgraded; each letter ends at least as high as every feedback it received and equals its old state or one of them; letters not in the guess keep their entry or its absence |
| `GameLogic.IsValidGuess` | src/utils/gameLogic.ts:84-90 | a guess is valid iff it has the target's length, is non-empty, and is all ASCII letters |
| `GameLogic.CreateGuess` | src/utils/gameLogic.ts:95-100 | the stored word is the lower-cased word; its feedback has one entry per letter, correct exactly where it matches the target ignoring case; the feedback is exactly `Score` of the lower-cased word and target, which `ValidateGuess` is proved to compute |
| `GameLogic.FormatGuessForDisplay` | src/utils/gameLogic.ts:105-107 | the display form has the same length, no upper case, agrees with the word up to case, and is its own lower-case form |
| `GameLogic.GetDifficultyClass` | src/utils/gameLogic.ts:120-124 | easy iff length at most 5, hard iff length over 8, medium otherwise |
| `GameLogic.DifficultyClassMonotone` | src/utils/gameLogic.ts:120-124 | a longer name never gets an easier class |
| `Json.StateRoundTrip` | src/utils/localStorage.ts:27-65 | reading back the document written for a game state gives the same game state |
| `Json.StatsRoundTrip` | src/utils/localStorage.ts:122-157 | reading back the document written for statistics gives the same statistics |
| `Json.LetterStatesRoundTrip` | src/types/game.ts:20 | one-letter keys read back as the same letter-knowledge map |
| `Json.DistributionRoundTrip` | src/types/game.ts:46 | numeric bucket keys written as decimal property names read back as the same distribution |
| `LocalStorage.CreateDefaultStats` | src/utils/localStorage.ts:162-170 | all four counters are zero and the distribution is empty, which satisfies the statistics invariant |
| `LocalStorage.UpdateGameStats` | src/utils/localStorage.ts:175-201 | one more game is played. A win adds one win and one streak, lifts the best streak to the new streak, and adds one to bucket `guessCount` (missing counts as 0) only when that count is present and non-zero. A loss zeroes the streak and changes nothing else |
| `LocalStorage.OutcomeKeepsInvariant` | src/utils/localStorage.ts:180-198 | recording a game preserves 0 ≤ currentStreak ≤ maxStreak ≤ gamesWon ≤ gamesPlayed, and keeps every bucket positive |
| `LocalStorage.OutcomeDeterminesStats` | src/utils/localStorage.ts:175-201 | the outcome and the old statistics determine the new statistics completely |
| `LocalStorage.TwoWinsThenLoss` | src/utils/localStorage.ts:185-198 | from defaults, a win in 3, a win in 4, then a loss give 3 played, 2 won, streak 0, best 2, buckets {3: 1, 4: 1} |
| `LocalStorage.ValidateGameState` | src/utils/localStorage.ts:70-108 | returns its input unchanged iff it is an object with the six required fields of the right types, otherwise nothing |
| `LocalStorage.EncodedStateValid` | src/utils/localStorage.ts:70-108 | every saved game state passes the schema check |
| `LocalStorage.DecodableIsValid` | src/utils/localStorage.ts:70-108 | every document that reads back as a game state passes the schema check |
| `LocalStorage.ShallowCheck` | src/utils/localStorage.ts:94-107 | a document can pass the check and still not be a game state: the guesses are not inspected |
| `LocalStorage.LoadedState` | src/utils/localStorage.ts:46-65 | a load returns something only when the store works, the key holds a parsed document, and that document passes the schema check |
| `LocalStorage.LoadedStats` | src/utils/localStorage.ts:140-157 | a stats load returns the stored document, unchecked and not null, or nothing |
| `LocalStorage.SaveThenLoadState` | src/utils/localStorage.ts:27-65 | after a save, a load returns the written document, which reads back as the saved state |
| `LocalStorage.SaveThenLoadStats` | src/utils/localStorage.ts:122-157 | after a save, a stats load returns the written document, which reads back as the saved statistics |
| `LocalStorage.Storage.SaveGameState` | src/utils/localStorage.ts:27-41 | succeeds iff the store works and the write does not fail; only then is the key set |
| `LocalStorage.Storage.ClearGameState` | src/utils/localStorage.ts:113-117 | removes the game-state key when the store works; the stats key is untouched |
| `LocalStorage.Storage.LoadGameState` | src/utils/localStorage.ts:46-65 | returns `LoadedState` of the store; removes the record only when its text did not parse |
| `LocalStorage.Storage.SaveGameStats` | src/utils/localStorage.ts:122-135 | succeeds iff the store works and the write does not fail; only then is the stats key set |
| `LocalStorage.Storage.LoadGameStats` | src/utils/localStorage.ts:140-157 | returns `LoadedStats` of the store and changes nothing, even for text that does not parse |
| `GameHook.InitializeNewGame` | src/hooks/useGameState.ts:70-78 | a new round is the initial state on some curated name, started now; an empty list is an error |
| `GameHook.ApplyGuess` | src/hooks/useGameState.ts:83-144 | a guess outside play is refused; an invalid word is refused with the length error first; otherwise exactly one scored guess is appended, the index and letter knowledge advance, and name, avatar and start are kept; won iff all correct, lost iff not won and six guesses, end time iff finished |
| `GameHook.WinIffNameGuessed` | src/hooks/useGameState.ts:102-118 | a well-formed guess wins iff it spells the name, ignoring case |
| `GameHook.GuessKeepsInvariant` | src/hooks/useGameState.ts:111-133 | an accepted guess keeps index = number of guesses ≤ 6, playing only below 6, end time iff finished |
| `GameHook.PlayKeepsInvariant` | src/hooks/useGameState.ts:83-144 | over any sequence of attempted words, a valid round stays valid: never more than six guesses, and the index counts them |
| `GameHook.FinishedRoundFrozen` | src/hooks/useGameState.ts:84-86 | once a round is won or lost, further guesses change nothing |
| `GameHook.InitialStateValid` | src/types/game.ts:49-54 | the initial round satisfies the round invariant |
| `GameHook.ResetGame` | src/hooks/useGameState.ts:158-166 | a reset is the initial round on the same name and avatar, started now |
| `GameHook.ResetIsFresh` | src/hooks/useGameState.ts:158-166 | a reset round satisfies the round invariant and keeps name and avatar |
| `GameHook.ResumeOrStart` | src/hooks/useGameState.ts:43-51 | a session resumes the loaded round iff it reads back as a round that is still being played; a missing, finished or unreadable round starts a new game, and an empty list is then an error |
| `GameHook.InitialStats` | src/hooks/useGameState.ts:53-55 | a session starts from the loaded statistics iff they read back as statistics; otherwise, including a falsy stored value such as `0`, from the defaults |
| `GameHook.Hook.constructor` | src/hooks/useGameState.ts:42-55 | mounting applies the two initialisers to the store as the caller passed it and starts in play; afterwards the store is unchanged except that a game-state record whose text did not parse is removed |
| `GameHook.Hook.MakeGuess` | src/hooks/useGameState.ts:83-144 | a refused word changes neither cell; an accepted one replaces the round; the statistics record the outcome, with the guess count, exactly when the guess ends the round |
| `GameHook.Hook.StartNewGame` | src/hooks/useGameState.ts:149-153 | clears the saved round and starts a new one; statistics are untouched |
| `GameHook.Hook.ResetCurrentGame` | src/hooks/useGameState.ts:158-166 | the round becomes its reset; statistics are untouched |
| `GameHook.Hook.IsValidGuessFormat` | src/hooks/useGameState.ts:171-173 | a word is accepted iff it is all letters and as long as the current name |
| `EnsService.StripEth` | src/services/ensService.ts:124 | one trailing ".eth" is removed, and nothing else changes |
| `EnsService.ValidateENSName` | src/services/ensService.ts:119-136 | a name is valid iff it is non-empty and its base has 3 to 63 characters, only letters, digits and '-', and does not start or end with '-' |
| `EnsService.SuffixIrrelevant` | src/services/ensService.ts:124-130 | a dot-free label and the label with ".eth" are accepted or rejected together |
| `EnsService.AcceptedNameShape` | src/services/ensService.ts:119-136 | an accepted name is a dot-free label, bare or with one ".eth", and its full name is the label with ".eth" |
| `EnsService.DoubleSuffixRejected` | src/services/ensService.ts:124-130 | a name ending in ".eth.eth" is rejected, since only one suffix is removed |
| `EnsService.FullName` | src/services/ensService.ts:14 | the full name (also at line 78) always contains a dot, extends the name, and equals it iff the name already has a dot, and otherwise is the name followed by exactly ".eth" |
| `EnsService.FullNameIdempotent` | src/services/ensService.ts:14 | completing a full name changes nothing |
| `EnsNames.Filter` | src/utils/ensNames.ts:28 | the filtered list holds exactly the kept entries and is no longer than the list |
| `EnsNames.IsValidCuratedName` | src/utils/ensNames.ts:60-63 | true iff some entry's name equals the name ignoring case |
| `EnsNames.GetENSNameMetadata` | src/utils/ensNames.ts:68-73 | finds an entry iff the name is a curated name, and then the first entry that matches ignoring case |
| `EnsNames.GetFallbackENSName` | src/utils/ensNames.ts:78-89 | the first reliable entry ("vitalik", "ens", or easy with an avatar) if any, else the first entry; nothing for an empty list |
| `EnsNames.GetRandomENSName` | src/utils/ensNames.ts:11-19 | an empty list is an error; otherwise the chosen entry is on the list |
| `EnsNames.RandomMatching` | src/utils/ensNames.ts:24-37 | the choice is on the list and matches the filter whenever some entry does; an empty list is an error |
| `EnsNames.GetRandomENSNameByDifficulty` | src/utils/ensNames.ts:24-37 | the choice has the requested difficulty whenever some entry has it, and falls back to the whole list otherwise |
| `EnsNames.GetRandomENSNameByCategory` | src/utils/ensNames.ts:42-55 | the choice has the requested category whenever some entry has it, and falls back to the whole list otherwise |
| `EnsNames.CheckEntry` | src/utils/ensNames.ts:138-170 | the errors and warnings pushed for one entry, given the names seen before it |
| `EnsNames.ValidateCuratedList` | src/utils/ensNames.ts:121-178 | an empty list gives one error and no warnings and is invalid; otherwise errors and warnings are those of every entry in order, and the list is valid iff there is no error |
| `EnsNames.NoErrorsIffClean` | src/utils/ensNames.ts:137-176 | there is no error iff every entry has a known difficulty and category, a non-empty name of label characters, and no case-insensitive repeat of an earlier name; lengths play no part |
| `EnsNames.DuplicateReportedAtLaterIndex` | src/utils/ensNames.ts:151-156 | a duplicate error names index i iff entry i repeats an earlier name ignoring case; the first occurrence is never reported |
| `EnsNames.WarningsAreLengths` | src/utils/ensNames.ts:163-170 | a short warning names index i iff that name is shorter than 3; a long warning iff it is longer than 12 |

## Left out

- The asynchronous ENS code is left out: `fetchENSAvatar`, `resolveENSName`, `validateImageUrl`, `batchValidateENSNames`, the RPC client, and the avatar hook. These are network calls with timeouts and concurrency.
- React components and React plumbing are left out. `useEffect` autosave means every change of a cell is also saved; the model's hook does not call the save methods, which are modelled on their own.
- `Math.random` and `Date.now` are parameters: a supplied in-range index, and `now`.
- `calculateGameDuration` is left out. It is floating-point time arithmetic with `Math.round`.
- `getCuratedListStats` is left out. It is counts plus a floating-point average that divides by zero on an empty list.
- `console` logging is left out.
- The probe in `isLocalStorageAvailable` writes and removes a `__test__` key. It is modelled as the `available` flag; the probe's own write is not.
- `JSON.stringify` and `JSON.parse` on text are left out. A stored entry is what parsing gives: empty text, text that does not parse, or a document. Saving is taken to store the document that reads back as the saved record.
- Numbers are integers. JavaScript's floating-point numbers (fractional values, NaN, precision loss) are not modelled.
- Case folding is ASCII only. `toLowerCase` on other characters, which can change a string's length, is not modelled.
- Lengths count characters, not UTF-16 code units. JavaScript's `.length` counts a character outside the Basic Multilingual Plane as two (`src/utils/gameLogic.ts:86`, `src/hooks/useGameState.ts:90`). So for a 4-letter name, "ab" followed by one such character is refused by the source with "Only letters allowed" and by the model with `WrongLength`. Both refuse it, with different messages.
- `validateCuratedList` throws when an entry's `name` is not a string. Names are always strings here, so that crash is not modelled.
- `GameHook.ResumeOrStart`: a saved round that passes the shallow schema check but does not read back as a game state (for example, its guesses are malformed) starts a new round. The source would resume with that ill-typed record.
- `GameHook.InitialStats`: a stored statistics document that is truthy but not statistics gives the defaults. The source would use the ill-typed value.
- `GameHook.Hook.constructor`: requires a non-empty curated list and an in-range index. The source throws when it must start a round from an empty list.
- `GameHook.Hook.StartNewGame`: requires an in-range index into the curated list, for the same reason.
