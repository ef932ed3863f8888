/**
 * Persistence of the game: the statistics update after a finished game, the
 * schema check applied to a loaded game state, and the browser key-value store
 * with its save, load and clear operations.
 *
 * The store maps keys to what `JSON.parse` makes of the stored text: an empty
 * string, text it rejects (`Malformed`, where the source's `JSON.parse` throws),
 * or a document. Saving writes the document of the record, so `JSON.stringify`
 * followed by `JSON.parse` is taken to give back that document.
 */
module LocalStorage {
  import opened Wrappers
  import opened GameTypes
  import opened Json

  const GameStateKey: string := "ens-wordle-game-state"
  const GameStatsKey: string := "ens-wordle-stats"

  /** What `localStorage.getItem` finds under a key, once parsed. */
  datatype Entry = EmptyText | Malformed | Doc(doc: Json)

  // ---------------------------------------------------------------------------
  // Statistics
  // ---------------------------------------------------------------------------

  function Max(a: int, b: int): int { if a >= b then a else b }

  /** `createDefaultStats()` */
  function CreateDefaultStats(): (r: GameStats)
    ensures r.gamesPlayed == 0 && r.gamesWon == 0 && r.currentStreak == 0 && r.maxStreak == 0
    ensures |r.guessDistribution| == 0
    ensures StatsInvariant(r)
  {
    GameStats(0, 0, 0, 0, map[])
  }

  /** The relations every sequence of recorded games keeps. */
  predicate StatsInvariant(s: GameStats)
  {
    && 0 <= s.currentStreak <= s.maxStreak <= s.gamesWon <= s.gamesPlayed
    && (forall k :: k in s.guessDistribution ==> s.guessDistribution[k] > 0)
  }

  /** A missing bucket of the distribution reads as 0. */
  function Bucket(d: map<int, int>, k: int): int
  {
    if k in d then d[k] else 0
  }

  /** `if (guessCount)`: present and not 0. */
  predicate Counted(guessCount: Option<int>)
  {
    guessCount.Some? && guessCount.value != 0
  }

  /** What recording one finished game does to the statistics: one more game
      played; a win extends the streak, raises the best streak to it if needed
      and adds one to the bucket of the guess count (and to no other bucket);
      a loss ends the streak and changes nothing else. */
  predicate OutcomeRecorded(before: GameStats, won: bool, guessCount: Option<int>, after: GameStats)
  {
    && after.gamesPlayed == before.gamesPlayed + 1
    && (if won then
          && after.gamesWon == before.gamesWon + 1
          && after.currentStreak == before.currentStreak + 1
          && after.maxStreak == Max(before.maxStreak, before.currentStreak + 1)
        else
          && after.gamesWon == before.gamesWon
          && after.currentStreak == 0
          && after.maxStreak == before.maxStreak)
    && after.guessDistribution.Keys ==
         before.guessDistribution.Keys + (if won && Counted(guessCount) then {guessCount.value} else {})
    && (forall k :: k in after.guessDistribution ==>
          after.guessDistribution[k] ==
            Bucket(before.guessDistribution, k) + (if won && Counted(guessCount) && k == guessCount.value then 1 else 0))
  }

  /** `updateGameStats(currentStats, won, guessCount)`: copies the record with
      one more game played, then updates its fields one by one. */
  method UpdateGameStats(currentStats: GameStats, won: bool, guessCount: Option<int>) returns (newStats: GameStats)
    ensures OutcomeRecorded(currentStats, won, guessCount, newStats)
  {
    newStats := currentStats.(gamesPlayed := currentStats.gamesPlayed + 1);
    if won {
      newStats := newStats.(gamesWon := newStats.gamesWon + 1);
      newStats := newStats.(currentStreak := newStats.currentStreak + 1);
      newStats := newStats.(maxStreak := Max(newStats.maxStreak, newStats.currentStreak));
      if guessCount.Some? && guessCount.value != 0 {
        var count := guessCount.value;
        var bucket := if count in newStats.guessDistribution then newStats.guessDistribution[count] else 0;
        newStats := newStats.(guessDistribution := newStats.guessDistribution[count := bucket + 1]);
      }
    } else {
      newStats := newStats.(currentStreak := 0);
    }
  }

  /** Recording a game keeps the statistics invariant. */
  lemma OutcomeKeepsInvariant(before: GameStats, won: bool, guessCount: Option<int>, after: GameStats)
    requires StatsInvariant(before) && OutcomeRecorded(before, won, guessCount, after)
    ensures StatsInvariant(after)
  {
    forall k | k in after.guessDistribution ensures after.guessDistribution[k] > 0 {
      if k !in before.guessDistribution {
        assert won && Counted(guessCount) && k == guessCount.value;
      }
    }
  }

  /** The outcome determines the new statistics completely. */
  lemma OutcomeDeterminesStats(before: GameStats, won: bool, guessCount: Option<int>, a: GameStats, b: GameStats)
    requires OutcomeRecorded(before, won, guessCount, a) && OutcomeRecorded(before, won, guessCount, b)
    ensures a == b
  {
    forall k | k in a.guessDistribution ensures a.guessDistribution[k] == b.guessDistribution[k] {
      assert k in b.guessDistribution;
    }
    assert a.guessDistribution == b.guessDistribution;
  }

  /** From fresh statistics, a win in 3, a win in 4 and a loss leave a best
      streak of 2, no current streak, and one game in each of buckets 3 and 4. */
  lemma TwoWinsThenLoss(a: GameStats, b: GameStats, c: GameStats)
    requires OutcomeRecorded(CreateDefaultStats(), true, Some(3), a)
    requires OutcomeRecorded(a, true, Some(4), b)
    requires OutcomeRecorded(b, false, None, c)
    ensures c.gamesPlayed == 3 && c.gamesWon == 2 && c.currentStreak == 0 && c.maxStreak == 2
    ensures c.guessDistribution == map[3 := 1, 4 := 1]
  {
    assert a.guessDistribution.Keys == {3};
    assert a.guessDistribution[3] == 1;
    assert b.guessDistribution.Keys == {3, 4};
    assert c.guessDistribution.Keys == {3, 4};
    assert c.guessDistribution[3] == 1 && c.guessDistribution[4] == 1;
  }

  // ---------------------------------------------------------------------------
  // Schema check of a loaded game state
  // ---------------------------------------------------------------------------

  const RequiredFields: seq<string> :=
    ["currentENSName", "guesses", "currentGuessIndex", "gameStatus", "letterStates", "startTime"]

  /** `field in state`: arrays have no property of these names. */
  predicate HasProperty(j: Json, field: string)
  {
    j.JObj? && field in j.fields
  }

  /** `typeof v === 'object'`: null, arrays and objects. */
  predicate IsObjectType(j: Json)
  {
    j.JNull? || j.JArr? || j.JObj?
  }

  /** The shape `validateGameState` accepts: an object with the six required
      fields, a string name, an array of guesses, a numeric index, one of the
      three statuses, an object (or null) of letter states and a numeric start. */
  predicate ShapeOk(j: Json)
  {
    && j.JObj?
    && "currentENSName" in j.fields && j.fields["currentENSName"].JStr?
    && "guesses" in j.fields && j.fields["guesses"].JArr?
    && "currentGuessIndex" in j.fields && j.fields["currentGuessIndex"].JNum?
    && "gameStatus" in j.fields
    && j.fields["gameStatus"] in {JStr("playing"), JStr("won"), JStr("lost")}
    && "letterStates" in j.fields && IsObjectType(j.fields["letterStates"])
    && "startTime" in j.fields && j.fields["startTime"].JNum?
  }

  /** `validateGameState(data)`: rejects a falsy or non-object value, then any
      missing required field (in order), then any field of the wrong type;
      otherwise returns the value itself. */
  method ValidateGameState(data: Json) returns (r: Option<Json>)
    ensures r.Some? <==> ShapeOk(data)
    ensures r.Some? ==> r.value == data
  {
    if data.JNull? || !(data.JArr? || data.JObj?) {
      return None;
    }
    for i := 0 to |RequiredFields|
      invariant forall j :: 0 <= j < i ==> HasProperty(data, RequiredFields[j])
    {
      if !HasProperty(data, RequiredFields[i]) {
        return None;
      }
    }
    assert HasProperty(data, RequiredFields[0]) && HasProperty(data, RequiredFields[1])
      && HasProperty(data, RequiredFields[2]) && HasProperty(data, RequiredFields[3])
      && HasProperty(data, RequiredFields[4]) && HasProperty(data, RequiredFields[5]);
    var state := data.fields;
    if !state["currentENSName"].JStr?
      || !state["guesses"].JArr?
      || !state["currentGuessIndex"].JNum?
      || !(state["gameStatus"] in [JStr("playing"), JStr("won"), JStr("lost")])
      || !IsObjectType(state["letterStates"])
      || !state["startTime"].JNum?
    {
      return None;
    }
    return Some(data);
  }

  /** Every written game state passes the schema check. */
  lemma EncodedStateValid(s: GameState)
    ensures ShapeOk(EncodeState(s))
  {
    EncodedStateFields(s);
    match s.gameStatus
    case Playing =>
    case Won =>
    case Lost =>
  }

  /** Every document that reads back as a game state passes the schema check. */
  lemma DecodableIsValid(j: Json)
    requires DecodeState(j).Some?
    ensures ShapeOk(j)
  {
    var st := j.fields["gameStatus"];
    assert ParseStatus(st).Some?;
  }

  /** The check is shallow: a document can pass it and still not be a game
      state, for instance when a guess is not an object. */
  lemma ShallowCheck()
    ensures var j := JObj(map[
              "currentENSName" := JStr("ens"), "guesses" := JArr([JNum(1)]),
              "currentGuessIndex" := JNum(1), "gameStatus" := JStr("playing"),
              "letterStates" := JObj(map[]), "startTime" := JNum(0)]);
            ShapeOk(j) && DecodeState(j).None?
  {
    var j := JObj(map[
              "currentENSName" := JStr("ens"), "guesses" := JArr([JNum(1)]),
              "currentGuessIndex" := JNum(1), "gameStatus" := JStr("playing"),
              "letterStates" := JObj(map[]), "startTime" := JNum(0)]);
    assert DecodeGuess(JNum(1)).None?;
    assert DecodeGuesses(j.fields["guesses"].items).None?;
  }

  // ---------------------------------------------------------------------------
  // What a load returns, as a function of the store
  // ---------------------------------------------------------------------------

  /** What `loadGameState` returns: nothing when the store is unavailable, the
      key is missing or empty, or the text does not parse; otherwise the parsed
      document if it passes the schema check. */
  function LoadedState(available: bool, items: map<string, Entry>): (r: Option<Json>)
    ensures r.Some? ==> available && GameStateKey in items && items[GameStateKey] == Doc(r.value) && ShapeOk(r.value)
  {
    if !available || GameStateKey !in items then None
    else match items[GameStateKey]
      case EmptyText => None
      case Malformed => None
      case Doc(j) => if ShapeOk(j) then Some(j) else None
  }

  /** The load removes the record only when its text did not parse. */
  predicate CorruptState(available: bool, items: map<string, Entry>)
  {
    available && GameStateKey in items && items[GameStateKey] == Malformed
  }

  /** `!value` on a parsed value: null, false, 0 and the empty string. */
  predicate Falsy(j: Json)
  {
    j == JNull || j == JBool(false) || j == JNum(0) || j == JStr("")
  }

  /** What `loadGameStats` returns: the parsed document, unchecked, unless the
      store is unavailable, the key is missing or empty, the text does not
      parse, or it parses to null. */
  function LoadedStats(available: bool, items: map<string, Entry>): (r: Option<Json>)
    ensures r.Some? ==> available && GameStatsKey in items && items[GameStatsKey] == Doc(r.value) && r.value != JNull
  {
    if !available || GameStatsKey !in items then None
    else match items[GameStatsKey]
      case EmptyText => None
      case Malformed => None
      case Doc(j) => if j == JNull then None else Some(j)
  }

  /** A saved game state loads back as the written document, which reads back
      as the same game state. */
  lemma SaveThenLoadState(items: map<string, Entry>, s: GameState)
    ensures LoadedState(true, items[GameStateKey := Doc(EncodeState(s))]) == Some(EncodeState(s))
    ensures DecodeState(LoadedState(true, items[GameStateKey := Doc(EncodeState(s))]).value) == Some(s)
  {
    EncodedStateValid(s);
    StateRoundTrip(s);
  }

  /** Saved statistics load back as the written document, which reads back as
      the same statistics. */
  lemma SaveThenLoadStats(items: map<string, Entry>, s: GameStats)
    ensures LoadedStats(true, items[GameStatsKey := Doc(EncodeStats(s))]) == Some(EncodeStats(s))
    ensures DecodeStats(LoadedStats(true, items[GameStatsKey := Doc(EncodeStats(s))]).value) == Some(s)
  {
    StatsRoundTrip(s);
  }

  // ---------------------------------------------------------------------------
  // The store
  // ---------------------------------------------------------------------------

  /** The browser's `localStorage`: whether it works, and what it holds. A write
      that fails (for instance over quota) is given as an input. */
  class Storage {
    var available: bool
    var items: map<string, Entry>

    constructor(available: bool, items: map<string, Entry>)
      ensures this.available == available && this.items == items
    {
      this.available := available;
      this.items := items;
    }

    /** `saveGameState(gameState)` */
    method SaveGameState(gameState: GameState, writeFails: bool) returns (saved: bool)
      modifies this
      ensures available == old(available)
      ensures saved <==> available && !writeFails
      ensures items == if saved then old(items)[GameStateKey := Doc(EncodeState(gameState))] else old(items)
    {
      if !available {
        return false;
      }
      if writeFails {
        return false;
      }
      items := items[GameStateKey := Doc(EncodeState(gameState))];
      return true;
    }

    /** `clearGameState()`: removes the game-state key only. */
    method ClearGameState()
      modifies this
      ensures available == old(available)
      ensures items == if available then old(items) - {GameStateKey} else old(items)
      ensures GameStatsKey in old(items) ==> GameStatsKey in items && items[GameStatsKey] == old(items)[GameStatsKey]
    {
      if available {
        items := items - {GameStateKey};
      }
    }

    /** `loadGameState()`: a record whose text does not parse is removed; a
        record that parses but fails the schema check stays in place. */
    method LoadGameState() returns (loaded: Option<Json>)
      modifies this
      ensures available == old(available)
      ensures loaded == LoadedState(old(available), old(items))
      ensures items == if CorruptState(old(available), old(items)) then old(items) - {GameStateKey} else old(items)
      ensures GameStatsKey in old(items) ==> GameStatsKey in items && items[GameStatsKey] == old(items)[GameStatsKey]
    {
      if !available {
        return None;
      }
      if GameStateKey !in items {
        return None;
      }
      match items[GameStateKey]
      case EmptyText =>
        return None;
      case Malformed =>
        ClearGameState();
        return None;
      case Doc(parsed) =>
        loaded := ValidateGameState(parsed);
    }

    /** `saveGameStats(stats)` */
    method SaveGameStats(stats: GameStats, writeFails: bool) returns (saved: bool)
      modifies this
      ensures available == old(available)
      ensures saved <==> available && !writeFails
      ensures items == if saved then old(items)[GameStatsKey := Doc(EncodeStats(stats))] else old(items)
    {
      if !available || writeFails {
        return false;
      }
      items := items[GameStatsKey := Doc(EncodeStats(stats))];
      return true;
    }

    /** `loadGameStats()`: changes nothing, even when the text does not parse. */
    method LoadGameStats() returns (loaded: Option<Json>)
      ensures loaded == LoadedStats(available, items)
      ensures loaded.Some? ==> GameStatsKey in items && items[GameStatsKey] == Doc(loaded.value)
    {
      if !available || GameStatsKey !in items {
        return None;
      }
      match items[GameStatsKey]
      case EmptyText =>
        return None;
      case Malformed =>
        return None;
      case Doc(parsed) =>
        return if parsed == JNull then None else Some(parsed);
    }
  }
}
