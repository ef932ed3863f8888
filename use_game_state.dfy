/**
 * The game-state hook: the transitions of one round (a guess, a reset, a new
 * game), the initial state and statistics a session starts from, and the hook
 * itself as an object owning the two state cells `gameState` and `gameStats`.
 * The clock (`Date.now`) and the random index are parameters.
 */
module GameHook {
  import opened Wrappers
  import opened Text
  import opened GameTypes
  import opened GameLogic
  import opened Json
  import opened LocalStorage
  import opened EnsNames

  /** Why `makeGuess` refused a word: not playing, `Must be n letters`, or
      `Only letters allowed`. */
  datatype GuessError = NotPlaying | WrongLength(expected: int) | OnlyLettersAllowed

  // ---------------------------------------------------------------------------
  // Transitions
  // ---------------------------------------------------------------------------

  /** `initializeNewGame()`: a fresh round on the chosen curated name. */
  function InitializeNewGame(names: Names, index: nat, now: int): (r: Result<GameState, SelectionError>)
    requires |names| == 0 || index < |names|
    ensures r.Err? <==> |names| == 0
    ensures r.Ok? ==> exists n :: n in names && r.value == InitialGameState(n.name, None, now)
  {
    match GetRandomENSName(names, index)
    case Ok(selected) => Ok(InitialGameState(selected.name, None, now))
    case Err(e) => Err(e)
  }

  /** `makeGuess(word)` as a function of the current state: refuse when the
      round is over, then refuse a malformed word (length first, then letters),
      otherwise append the scored guess and decide the round. */
  function ApplyGuess(s: GameState, word: string, now: int): (r: Result<GameState, GuessError>)
    ensures s.gameStatus != Playing ==> r == Err(NotPlaying)
    ensures s.gameStatus == Playing && !IsValidGuess(word, |s.currentENSName|) ==>
              r == Err(if |word| != |s.currentENSName| then WrongLength(|s.currentENSName|) else OnlyLettersAllowed)
    ensures r.Ok? <==> s.gameStatus == Playing && IsValidGuess(word, |s.currentENSName|)
    ensures r.Ok? ==>
              var t := r.value;
              var guess := CreateGuess(word, s.currentENSName);
              && t.guesses == s.guesses + [guess]
              && t.currentGuessIndex == s.currentGuessIndex + 1
              && t.letterStates == Merge(s.letterStates, word, guess.feedback)
              && t.currentENSName == s.currentENSName
              && t.currentAvatarUrl == s.currentAvatarUrl
              && t.startTime == s.startTime
              && (t.gameStatus == Won <==> IsGameWon(guess.feedback))
              && (t.gameStatus == Lost <==> !IsGameWon(guess.feedback) && |t.guesses| >= MaxGuesses)
              && (t.endTime.Some? <==> t.gameStatus != Playing)
              && (t.endTime.Some? ==> t.endTime.value == now)
  {
    var targetLength := |s.currentENSName|;
    if s.gameStatus != Playing then Err(NotPlaying)
    else if !IsValidGuess(word, targetLength) && |word| != targetLength then Err(WrongLength(targetLength))
    else if !IsValidGuess(word, targetLength) && !OnlyLetters(word) then Err(OnlyLettersAllowed)
    else
      var guess := CreateGuess(word, s.currentENSName);
      var newGuesses := s.guesses + [guess];
      var newLetterStates := Merge(s.letterStates, word, guess.feedback);
      var won := IsGameWon(guess.feedback);
      var lost := !won && IsGameLost(|newGuesses|, MaxGuesses);
      var newGameStatus := if won then Won else if lost then Lost else Playing;
      var endTime := if won || lost then Some(now) else None;
      Ok(s.(guesses := newGuesses, currentGuessIndex := s.currentGuessIndex + 1,
            letterStates := newLetterStates, gameStatus := newGameStatus, endTime := endTime))
  }

  /** `resetGame()`: the same name and avatar, everything else fresh. */
  function ResetGame(s: GameState, now: int): (r: GameState)
    ensures r == InitialGameState(s.currentENSName, s.currentAvatarUrl, now)
  {
    s.(guesses := [], currentGuessIndex := 0, gameStatus := Playing, letterStates := map[],
       startTime := now, endTime := None)
  }

  // ---------------------------------------------------------------------------
  // Properties of a round
  // ---------------------------------------------------------------------------

  /** What every state of a round satisfies. */
  predicate GameInvariant(s: GameState)
  {
    && s.currentGuessIndex == |s.guesses|
    && |s.guesses| <= MaxGuesses
    && (s.gameStatus == Playing ==> |s.guesses| < MaxGuesses)
    && (s.endTime.Some? <==> s.gameStatus != Playing)
  }

  /** A fresh round satisfies the invariant. */
  lemma InitialStateValid(name: string, avatar: Option<string>, now: int)
    ensures GameInvariant(InitialGameState(name, avatar, now))
  {
  }

  /** An accepted guess keeps the invariant. */
  lemma GuessKeepsInvariant(s: GameState, word: string, now: int)
    requires GameInvariant(s) && ApplyGuess(s, word, now).Ok?
    ensures GameInvariant(ApplyGuess(s, word, now).value)
  {
  }

  /** A well-formed guess wins exactly when it spells the name, up to case. */
  lemma WinIffNameGuessed(s: GameState, word: string, now: int)
    requires s.gameStatus == Playing && IsValidGuess(word, |s.currentENSName|)
    ensures ApplyGuess(s, word, now).value.gameStatus == Won <==> Lower(word) == Lower(s.currentENSName)
  {
    AllCorrectIffEqual(word, s.currentENSName);
  }

  /** `isGameLost` ends a round that keeps the invariant exactly on a sixth
      guess that is not a win. */
  lemma LossOnSixthMiss(s: GameState, word: string, now: int)
    requires GameInvariant(s) && ApplyGuess(s, word, now).Ok?
    ensures ApplyGuess(s, word, now).value.gameStatus == Lost <==>
              !IsGameWon(CreateGuess(word, s.currentENSName).feedback) && |s.guesses| == MaxGuesses - 1
  {
  }

  /** A sequence of attempted guesses, each at the given time; refused words
      change nothing. */
  function Play(s: GameState, words: seq<string>, now: int): GameState
    decreases |words|
  {
    if |words| == 0 then s
    else match ApplyGuess(s, words[0], now)
      case Ok(t) => Play(t, words[1..], now)
      case Err(_) => Play(s, words[1..], now)
  }

  /** However many words are tried, a round that starts valid stays valid, so
      it never holds more than six guesses and its index counts them. */
  lemma {:induction false} PlayKeepsInvariant(s: GameState, words: seq<string>, now: int)
    requires GameInvariant(s)
    ensures GameInvariant(Play(s, words, now))
    ensures |Play(s, words, now).guesses| <= MaxGuesses
    ensures |s.guesses| <= |Play(s, words, now).guesses|
    decreases |words|
  {
    if |words| > 0 {
      var r := ApplyGuess(s, words[0], now);
      if r.Ok? {
        GuessKeepsInvariant(s, words[0], now);
        PlayKeepsInvariant(r.value, words[1..], now);
        assert Play(s, words, now) == Play(r.value, words[1..], now);
      } else {
        PlayKeepsInvariant(s, words[1..], now);
        assert Play(s, words, now) == Play(s, words[1..], now);
      }
    }
  }

  /** A finished round no longer changes. */
  lemma {:induction false} FinishedRoundFrozen(s: GameState, words: seq<string>, now: int)
    requires s.gameStatus != Playing
    ensures Play(s, words, now) == s
    decreases |words|
  {
    if |words| > 0 {
      FinishedRoundFrozen(s, words[1..], now);
    }
  }

  /** A reset round is a fresh, valid round on the same name. */
  lemma ResetIsFresh(s: GameState, now: int)
    ensures GameInvariant(ResetGame(s, now))
    ensures ResetGame(s, now).currentENSName == s.currentENSName
    ensures ResetGame(s, now).currentAvatarUrl == s.currentAvatarUrl
  {
  }

  // ---------------------------------------------------------------------------
  // Where a session starts
  // ---------------------------------------------------------------------------

  /** The `useState` initialiser of the game state: the loaded round if it is
      still being played, otherwise a new round. A loaded document that does
      not read back as a game state also starts a new round. */
  function ResumeOrStart(loaded: Option<Json>, names: Names, index: nat, now: int): (r: Result<GameState, SelectionError>)
    requires |names| == 0 || index < |names|
    ensures r.Ok? ==> r.value.gameStatus == Playing
    ensures loaded.Some? && DecodeState(loaded.value).Some? && DecodeState(loaded.value).value.gameStatus == Playing ==>
              r == Ok(DecodeState(loaded.value).value)
    ensures loaded.None? ==> r == InitializeNewGame(names, index, now)
    ensures !(loaded.Some? && DecodeState(loaded.value).Some? && DecodeState(loaded.value).value.gameStatus == Playing) ==>
              r == InitializeNewGame(names, index, now)
  {
    if loaded.Some? then DecodedStatus(loaded.value); ResumeFrom(loaded.value, names, index, now)
    else InitializeNewGame(names, index, now)
  }

  /** The initialiser once a document was loaded. */
  function ResumeFrom(loaded: Json, names: Names, index: nat, now: int): Result<GameState, SelectionError>
    requires |names| == 0 || index < |names|
  {
    if loaded.JObj? && "gameStatus" in loaded.fields && loaded.fields["gameStatus"] == JStr("playing")
    then
      match DecodeState(loaded)
      case Some(saved) => Ok(saved)
      case None => InitializeNewGame(names, index, now)
    else InitializeNewGame(names, index, now)
  }

  /** The status of a decoded game state is the one its document names. */
  lemma DecodedStatus(j: Json)
    ensures DecodeState(j).Some? ==>
              j.JObj? && "gameStatus" in j.fields
              && j.fields["gameStatus"] == JStr(StatusName(DecodeState(j).value.gameStatus))
  {
  }

  /** The `useState` initialiser of the statistics: `loadGameStats() ||
      createDefaultStats()`. A loaded document that does not read back as
      statistics also gives the defaults. */
  function InitialStats(loaded: Option<Json>): (r: GameStats)
    ensures loaded.Some? && DecodeStats(loaded.value).Some? ==> r == DecodeStats(loaded.value).value
    ensures loaded.None? ==> r == CreateDefaultStats()
    ensures !(loaded.Some? && DecodeStats(loaded.value).Some?) ==> r == CreateDefaultStats()
  {
    if loaded.Some? && !Falsy(loaded.value) then
      match DecodeStats(loaded.value)
      case Some(stats) => stats
      case None => CreateDefaultStats()
    else CreateDefaultStats()
  }

  // ---------------------------------------------------------------------------
  // The hook
  // ---------------------------------------------------------------------------

  /** The hook's two state cells and the curated list it draws names from. */
  class Hook {
    const names: Names
    var gameState: GameState
    var gameStats: GameStats

    /** Mounting the hook: both initialisers, reading the store. */
    constructor(names: Names, store: Storage, index: nat, now: int)
      requires |names| > 0 && index < |names|
      modifies store
      ensures this.names == names
      ensures var loaded := LoadedState(old(store.available), old(store.items));
              Ok(gameState) == ResumeOrStart(loaded, names, index, now)
      ensures gameStats == InitialStats(LoadedStats(old(store.available), old(store.items)))
      ensures gameState.gameStatus == Playing
      ensures store.available == old(store.available)
      ensures store.items == if CorruptState(old(store.available), old(store.items))
                             then old(store.items) - {GameStateKey} else old(store.items)
    {
      this.names := names;
      var loaded := store.LoadGameState();
      var started := ResumeOrStart(loaded, names, index, now);
      gameState := started.value;
      var loadedStats := store.LoadGameStats();
      gameStats := InitialStats(loadedStats);
    }

    /** `makeGuess(word)`: on acceptance the new state replaces the old, and a
        guess that ends the round records it in the statistics, once, with the
        number of guesses taken. A refused word changes nothing. */
    method MakeGuess(word: string, now: int) returns (success: bool, error: Option<GuessError>)
      modifies this
      ensures success <==> ApplyGuess(old(gameState), word, now).Ok?
      ensures !success ==> error == Some(ApplyGuess(old(gameState), word, now).error)
                           && gameState == old(gameState) && gameStats == old(gameStats)
      ensures success ==> error.None? && gameState == ApplyGuess(old(gameState), word, now).value
      ensures success && gameState.gameStatus == Playing ==> gameStats == old(gameStats)
      ensures success && gameState.gameStatus != Playing ==>
                OutcomeRecorded(old(gameStats), gameState.gameStatus == Won, Some(|gameState.guesses|), gameStats)
    {
      match ApplyGuess(gameState, word, now)
      case Err(e) =>
        return false, Some(e);
      case Ok(newGameState) =>
        gameState := newGameState;
        if newGameState.gameStatus != Playing {
          var newStats := UpdateGameStats(gameStats, newGameState.gameStatus == Won, Some(|newGameState.guesses|));
          gameStats := newStats;
        }
        return true, None;
    }

    /** `startNewGame()`: clears the saved round and starts a new one. */
    method StartNewGame(store: Storage, index: nat, now: int)
      requires index < |names|
      modifies this, store
      ensures Ok(gameState) == InitializeNewGame(names, index, now)
      ensures gameStats == old(gameStats)
      ensures store.available == old(store.available)
      ensures store.items == if old(store.available) then old(store.items) - {GameStateKey} else old(store.items)
    {
      store.ClearGameState();
      gameState := InitializeNewGame(names, index, now).value;
    }

    /** `resetGame()` */
    method ResetCurrentGame(now: int)
      modifies this
      ensures gameState == ResetGame(old(gameState), now)
      ensures gameStats == old(gameStats)
    {
      gameState := ResetGame(gameState, now);
    }

    /** `isValidGuessFormat(word)` */
    method IsValidGuessFormat(word: string) returns (valid: bool)
      ensures valid <==> |word| == |gameState.currentENSName| && OnlyLetters(word)
    {
      valid := IsValidGuess(word, |gameState.currentENSName|);
    }
  }
}
