/**
 * The game's records: letter feedback, guesses, the state of one round and the
 * long-run statistics (src/types/game.ts).
 */
module GameTypes {
  import opened Wrappers

  /** Feedback for one position, and the best knowledge recorded for one letter. */
  datatype LetterState = Correct | WrongPosition | Absent | Unused

  datatype GameStatus = Playing | Won | Lost

  datatype Guess = Guess(word: string, feedback: seq<LetterState>)

  /** Letter knowledge is keyed by the lower-case letter. */
  type LetterStates = map<char, LetterState>

  datatype GameState = GameState(
    currentENSName: string,
    currentAvatarUrl: Option<string>,
    guesses: seq<Guess>,
    currentGuessIndex: int,
    gameStatus: GameStatus,
    letterStates: LetterStates,
    startTime: int,
    endTime: Option<int>)

  datatype GameStats = GameStats(
    gamesPlayed: int,
    gamesWon: int,
    currentStreak: int,
    maxStreak: int,
    guessDistribution: map<int, int>)

  /** An entry of the curated name list. Difficulty and category are kept as the
      strings the list file holds, since the list validator checks them. */
  datatype CuratedENSName = CuratedENSName(
    name: string,
    difficulty: string,
    category: string,
    hasAvatar: bool)

  datatype Difficulty = Easy | Medium | Hard
  datatype Category = Individual | Project | Generic

  function DifficultyName(d: Difficulty): string
  {
    match d
    case Easy => "easy"
    case Medium => "medium"
    case Hard => "hard"
  }

  function CategoryName(c: Category): string
  {
    match c
    case Individual => "individual"
    case Project => "project"
    case Generic => "generic"
  }

  /** `DEFAULT_GAME_CONFIG.maxGuesses` */
  const MaxGuesses: nat := 6

  /** `{ ...INITIAL_GAME_STATE, currentENSName, currentAvatarUrl, startTime }`: no guesses,
      index 0, playing, no letter knowledge, no end time. */
  function InitialGameState(name: string, avatar: Option<string>, now: int): GameState
  {
    GameState(name, avatar, [], 0, Playing, map[], now, None)
  }
}
