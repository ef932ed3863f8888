/**
 * The documents `JSON.stringify` writes for a game state and for the statistics,
 * and the reading back of such a document into the typed records (the source's
 * `as GameState` / `as GameStats` casts). Numbers are integers; fields whose value
 * is `undefined` are omitted, as `JSON.stringify` omits them; numeric keys of
 * `guessDistribution` are written as decimal strings, as JavaScript property
 * keys are.
 */
module Json {
  import opened Wrappers
  import opened Text
  import opened GameTypes

  datatype Json =
    | JNull
    | JBool(b: bool)
    | JNum(n: int)
    | JStr(s: string)
    | JArr(items: seq<Json>)
    | JObj(fields: map<string, Json>)

  // ---------------------------------------------------------------------------
  // Enumerations
  // ---------------------------------------------------------------------------

  function LetterStateName(s: LetterState): string
  {
    match s
    case Correct => "correct"
    case WrongPosition => "wrong-position"
    case Absent => "absent"
    case Unused => "unused"
  }

  function ParseLetterState(j: Json): Option<LetterState>
  {
    if j == JStr("correct") then Some(Correct)
    else if j == JStr("wrong-position") then Some(WrongPosition)
    else if j == JStr("absent") then Some(Absent)
    else if j == JStr("unused") then Some(Unused)
    else None
  }

  function StatusName(s: GameStatus): string
  {
    match s
    case Playing => "playing"
    case Won => "won"
    case Lost => "lost"
  }

  function ParseStatus(j: Json): Option<GameStatus>
  {
    if j == JStr("playing") then Some(Playing)
    else if j == JStr("won") then Some(Won)
    else if j == JStr("lost") then Some(Lost)
    else None
  }

  // ---------------------------------------------------------------------------
  // Guesses and letter knowledge
  // ---------------------------------------------------------------------------

  function EncodeFeedback(feedback: seq<LetterState>): seq<Json>
  {
    seq(|feedback|, i requires 0 <= i < |feedback| => JStr(LetterStateName(feedback[i])))
  }

  function DecodeFeedback(items: seq<Json>): Option<seq<LetterState>>
  {
    if |items| == 0 then Some([])
    else match (ParseLetterState(items[0]), DecodeFeedback(items[1..]))
      case (Some(s), Some(rest)) => Some([s] + rest)
      case _ => None
  }

  function EncodeGuess(g: Guess): Json
  {
    JObj(map["word" := JStr(g.word), "feedback" := JArr(EncodeFeedback(g.feedback))])
  }

  function DecodeGuess(j: Json): Option<Guess>
  {
    if j.JObj? && "word" in j.fields && "feedback" in j.fields
       && j.fields["word"].JStr? && j.fields["feedback"].JArr?
    then match DecodeFeedback(j.fields["feedback"].items)
      case Some(fb) => Some(Guess(j.fields["word"].s, fb))
      case None => None
    else None
  }

  function EncodeGuesses(guesses: seq<Guess>): seq<Json>
  {
    seq(|guesses|, i requires 0 <= i < |guesses| => EncodeGuess(guesses[i]))
  }

  function DecodeGuesses(items: seq<Json>): Option<seq<Guess>>
  {
    if |items| == 0 then Some([])
    else match (DecodeGuess(items[0]), DecodeGuesses(items[1..]))
      case (Some(g), Some(rest)) => Some([g] + rest)
      case _ => None
  }

  /** Letter keys are one-character property names. */
  function EncodeLetterStates(m: LetterStates): map<string, Json>
  {
    map c | c in m :: [c] := JStr(LetterStateName(m[c]))
  }

  function DecodeLetterStates(fields: map<string, Json>): Option<LetterStates>
  {
    if forall k :: k in fields ==> |k| == 1 && ParseLetterState(fields[k]).Some?
    then
      forall k1, k2 | k1 in fields && k2 in fields && k1[0] == k2[0] ensures k1 == k2 {
        assert k1 == [k1[0]] && k2 == [k2[0]];
      }
      Some(map k | k in fields :: k[0] := ParseLetterState(fields[k]).value)
    else None
  }

  // ---------------------------------------------------------------------------
  // Game state
  // ---------------------------------------------------------------------------

  function EncodeState(s: GameState): Json
  {
    var required := map[
      "currentENSName" := JStr(s.currentENSName),
      "guesses" := JArr(EncodeGuesses(s.guesses)),
      "currentGuessIndex" := JNum(s.currentGuessIndex),
      "gameStatus" := JStr(StatusName(s.gameStatus)),
      "letterStates" := JObj(EncodeLetterStates(s.letterStates)),
      "startTime" := JNum(s.startTime)];
    var withAvatar := if s.currentAvatarUrl.Some? then required["currentAvatarUrl" := JStr(s.currentAvatarUrl.value)] else required;
    var withEnd := if s.endTime.Some? then withAvatar["endTime" := JNum(s.endTime.value)] else withAvatar;
    JObj(withEnd)
  }

  function OptionalString(fields: map<string, Json>, key: string): Option<Option<string>>
  {
    if key !in fields then Some(None)
    else if fields[key].JStr? then Some(Some(fields[key].s))
    else None
  }

  function OptionalNumber(fields: map<string, Json>, key: string): Option<Option<int>>
  {
    if key !in fields then Some(None)
    else if fields[key].JNum? then Some(Some(fields[key].n))
    else None
  }

  /** Reads a document back as a game state; None when it does not have the
      game state's fields with their types. */
  function DecodeState(j: Json): Option<GameState>
  {
    if !j.JObj? then None
    else
      var f := j.fields;
      if !("currentENSName" in f && "guesses" in f && "currentGuessIndex" in f
           && "gameStatus" in f && "letterStates" in f && "startTime" in f) then None
      else if !(f["currentENSName"].JStr? && f["guesses"].JArr? && f["currentGuessIndex"].JNum?
                && f["letterStates"].JObj? && f["startTime"].JNum?) then None
      else
        match (DecodeGuesses(f["guesses"].items), ParseStatus(f["gameStatus"]),
               DecodeLetterStates(f["letterStates"].fields),
               OptionalString(f, "currentAvatarUrl"), OptionalNumber(f, "endTime"))
        case (Some(guesses), Some(status), Some(letters), Some(avatar), Some(end)) =>
          Some(GameState(f["currentENSName"].s, avatar, guesses, f["currentGuessIndex"].n,
                         status, letters, f["startTime"].n, end))
        case _ => None
  }

  lemma {:induction false} FeedbackRoundTrip(feedback: seq<LetterState>)
    ensures DecodeFeedback(EncodeFeedback(feedback)) == Some(feedback)
  {
    if |feedback| > 0 {
      FeedbackRoundTrip(feedback[1..]);
      assert EncodeFeedback(feedback)[1..] == EncodeFeedback(feedback[1..]);
      assert [feedback[0]] + feedback[1..] == feedback;
    }
  }

  lemma {:induction false} GuessesRoundTrip(guesses: seq<Guess>)
    ensures DecodeGuesses(EncodeGuesses(guesses)) == Some(guesses)
  {
    if |guesses| > 0 {
      GuessesRoundTrip(guesses[1..]);
      FeedbackRoundTrip(guesses[0].feedback);
      assert EncodeGuesses(guesses)[1..] == EncodeGuesses(guesses[1..]);
      assert [guesses[0]] + guesses[1..] == guesses;
    }
  }

  lemma LetterStateNameParses(x: LetterState)
    ensures ParseLetterState(JStr(LetterStateName(x))) == Some(x)
  {
  }

  lemma EncodedLetterKeys(m: LetterStates)
    ensures forall k :: k in EncodeLetterStates(m) ==>
      |k| == 1 && k[0] in m && EncodeLetterStates(m)[k] == JStr(LetterStateName(m[k[0]]))
  {
    forall k | k in EncodeLetterStates(m)
      ensures |k| == 1 && k[0] in m && EncodeLetterStates(m)[k] == JStr(LetterStateName(m[k[0]]))
    {
      var c :| c in m && [c] == k;
    }
  }

  predicate LetterFieldsOf(fields: map<string, Json>, m: LetterStates)
  {
    && (forall k :: k in fields ==> |k| == 1 && k[0] in m && fields[k] == JStr(LetterStateName(m[k[0]])))
    && (forall c :: c in m ==> [c] in fields)
  }

  lemma LetterFieldsParse(fields: map<string, Json>, m: LetterStates)
    requires LetterFieldsOf(fields, m)
    ensures forall k :: k in fields ==> |k| == 1 && ParseLetterState(fields[k]).Some?
    ensures forall k :: k in fields ==> ParseLetterState(fields[k]).value == m[k[0]]
  {
    forall k | k in fields ensures |k| == 1 && ParseLetterState(fields[k]) == Some(m[k[0]]) {
      LetterStateNameParses(m[k[0]]);
    }
  }

  lemma LetterFieldsBack(fields: map<string, Json>, m: LetterStates, back: LetterStates)
    requires LetterFieldsOf(fields, m)
    requires forall k :: k in fields ==> |k| == 1 && ParseLetterState(fields[k]).Some?
    requires forall k :: k in fields ==> ParseLetterState(fields[k]).value == m[k[0]]
    requires back == map k | k in fields :: k[0] := ParseLetterState(fields[k]).value
    ensures back == m
  {
    forall c | c in m ensures c in back && back[c] == m[c] {
      assert [c] in fields && [c][0] == c;
    }
    assert back.Keys == m.Keys;
  }

  lemma DecodedLetterStates(fields: map<string, Json>, m: LetterStates)
    requires LetterFieldsOf(fields, m)
    ensures DecodeLetterStates(fields) == Some(m)
  {
    LetterFieldsParse(fields, m);
    LetterFieldsBack(fields, m, DecodeLetterStates(fields).value);
  }

  lemma LetterStatesRoundTrip(m: LetterStates)
    ensures DecodeLetterStates(EncodeLetterStates(m)) == Some(m)
  {
    EncodedLetterKeys(m);
    DecodedLetterStates(EncodeLetterStates(m), m);
  }

  /** Reading back what was written gives the same game state. */
  lemma StateRoundTrip(s: GameState)
    ensures DecodeState(EncodeState(s)) == Some(s)
  {
    EncodedStateFields(s);
    GuessesRoundTrip(s.guesses);
    LetterStatesRoundTrip(s.letterStates);
    StatusNameParses(s.gameStatus);
    DecodeStateFields(EncodeState(s).fields, s);
  }

  lemma StatusNameParses(x: GameStatus)
    ensures ParseStatus(JStr(StatusName(x))) == Some(x)
  {
  }

  /** Decoding a field map depends only on the values of its fields. */
  lemma DecodeStateFields(f: map<string, Json>, s: GameState)
    requires "currentENSName" in f && f["currentENSName"] == JStr(s.currentENSName)
    requires "guesses" in f && f["guesses"].JArr? && DecodeGuesses(f["guesses"].items) == Some(s.guesses)
    requires "currentGuessIndex" in f && f["currentGuessIndex"] == JNum(s.currentGuessIndex)
    requires "gameStatus" in f && ParseStatus(f["gameStatus"]) == Some(s.gameStatus)
    requires "letterStates" in f && f["letterStates"].JObj?
    requires DecodeLetterStates(f["letterStates"].fields) == Some(s.letterStates)
    requires "startTime" in f && f["startTime"] == JNum(s.startTime)
    requires OptionalString(f, "currentAvatarUrl") == Some(s.currentAvatarUrl)
    requires OptionalNumber(f, "endTime") == Some(s.endTime)
    ensures DecodeState(JObj(f)) == Some(s)
  {
  }

  /** The fields an encoded game state has, and their values. */
  lemma EncodedStateFields(s: GameState)
    ensures EncodeState(s).JObj?
    ensures var f := EncodeState(s).fields;
      && f["currentENSName"] == JStr(s.currentENSName)
      && f["guesses"] == JArr(EncodeGuesses(s.guesses))
      && f["currentGuessIndex"] == JNum(s.currentGuessIndex)
      && f["gameStatus"] == JStr(StatusName(s.gameStatus))
      && f["letterStates"] == JObj(EncodeLetterStates(s.letterStates))
      && f["startTime"] == JNum(s.startTime)
      && ("currentAvatarUrl" in f <==> s.currentAvatarUrl.Some?)
      && (s.currentAvatarUrl.Some? ==> f["currentAvatarUrl"] == JStr(s.currentAvatarUrl.value))
      && ("endTime" in f <==> s.endTime.Some?)
      && (s.endTime.Some? ==> f["endTime"] == JNum(s.endTime.value))
  {
  }

  // ---------------------------------------------------------------------------
  // Decimal property keys
  // ---------------------------------------------------------------------------

  function DigitChar(d: nat): char
    requires d < 10
  {
    ('0' as int + d) as char
  }

  function DigitValue(c: char): nat
    requires IsDigit(c)
  {
    c as int - '0' as int
  }

  predicate AllDigits(s: string)
  {
    |s| > 0 && forall i :: 0 <= i < |s| ==> IsDigit(s[i])
  }

  function NatToDecimal(n: nat): (r: string)
    ensures AllDigits(r)
  {
    if n < 10 then [DigitChar(n)] else NatToDecimal(n / 10) + [DigitChar(n % 10)]
  }

  function ParseDigits(s: string): nat
    requires AllDigits(s)
  {
    if |s| == 1 then DigitValue(s[0])
    else ParseDigits(s[..|s| - 1]) * 10 + DigitValue(s[|s| - 1])
  }

  /** `String(n)` for an integer n. */
  function IntToDecimal(n: int): string
  {
    if n < 0 then "-" + NatToDecimal(-n) else NatToDecimal(n)
  }

  /** The integer a property key names, if it is a decimal numeral. */
  function DecimalToInt(s: string): Option<int>
  {
    if |s| > 1 && s[0] == '-' && AllDigits(s[1..]) then Some(-(ParseDigits(s[1..]) as int))
    else if AllDigits(s) then Some(ParseDigits(s))
    else None
  }

  lemma {:induction false} NatDecimalRoundTrip(n: nat)
    ensures ParseDigits(NatToDecimal(n)) == n
  {
    if n >= 10 {
      NatDecimalRoundTrip(n / 10);
      var r := NatToDecimal(n);
      assert r[..|r| - 1] == NatToDecimal(n / 10);
    }
  }

  lemma IntDecimalRoundTrip(n: int)
    ensures DecimalToInt(IntToDecimal(n)) == Some(n)
  {
    if n < 0 {
      NatDecimalRoundTrip(-n);
      assert IntToDecimal(n)[1..] == NatToDecimal(-n);
    } else {
      NatDecimalRoundTrip(n);
    }
  }

  // ---------------------------------------------------------------------------
  // Statistics
  // ---------------------------------------------------------------------------

  function EncodeDistribution(d: map<int, int>): map<string, Json>
  {
    forall n | n in d ensures DecimalToInt(IntToDecimal(n)) == Some(n) {
      IntDecimalRoundTrip(n);
    }
    map k | k in (set n | n in d :: IntToDecimal(n)) :: JNum(d[DecimalToInt(k).value])
  }

  /** Keys that are the canonical numeral of some integer. */
  predicate CanonicalKey(k: string)
  {
    DecimalToInt(k).Some? && IntToDecimal(DecimalToInt(k).value) == k
  }

  function IntKeys(fields: map<string, Json>): set<int>
  {
    set k | k in fields && DecimalToInt(k).Some? :: DecimalToInt(k).value
  }

  function DecodeDistribution(fields: map<string, Json>): Option<map<int, int>>
  {
    if forall k :: k in fields ==> CanonicalKey(k) && fields[k].JNum?
    then Some(map n | n in IntKeys(fields) && IntToDecimal(n) in fields :: fields[IntToDecimal(n)].n)
    else None
  }

  function EncodeStats(s: GameStats): Json
  {
    JObj(map[
      "gamesPlayed" := JNum(s.gamesPlayed),
      "gamesWon" := JNum(s.gamesWon),
      "currentStreak" := JNum(s.currentStreak),
      "maxStreak" := JNum(s.maxStreak),
      "guessDistribution" := JObj(EncodeDistribution(s.guessDistribution))])
  }

  function DecodeStats(j: Json): Option<GameStats>
  {
    if !j.JObj? then None
    else
      var f := j.fields;
      if !("gamesPlayed" in f && "gamesWon" in f && "currentStreak" in f && "maxStreak" in f
           && "guessDistribution" in f) then None
      else if !(f["gamesPlayed"].JNum? && f["gamesWon"].JNum? && f["currentStreak"].JNum?
                && f["maxStreak"].JNum? && f["guessDistribution"].JObj?) then None
      else match DecodeDistribution(f["guessDistribution"].fields)
        case Some(d) =>
          Some(GameStats(f["gamesPlayed"].n, f["gamesWon"].n, f["currentStreak"].n, f["maxStreak"].n, d))
        case None => None
  }

  /** Every key of `fields` names an integer of `d` and holds its count, and
      every integer of `d` has its key. */
  predicate DistributionFieldsOf(fields: map<string, Json>, d: map<int, int>)
  {
    && (forall k :: k in fields ==>
          CanonicalKey(k) && DecimalToInt(k).value in d && fields[k] == JNum(d[DecimalToInt(k).value]))
    && (forall n :: n in d ==> IntToDecimal(n) in fields)
  }

  lemma EncodedDistributionKeys(d: map<int, int>)
    ensures DistributionFieldsOf(EncodeDistribution(d), d)
  {
    var fields := EncodeDistribution(d);
    forall k | k in fields
      ensures CanonicalKey(k) && DecimalToInt(k).value in d && fields[k] == JNum(d[DecimalToInt(k).value])
    {
      var n :| n in d && IntToDecimal(n) == k;
      IntDecimalRoundTrip(n);
    }
  }

  lemma DecodedDistribution(fields: map<string, Json>, d: map<int, int>)
    requires DistributionFieldsOf(fields, d)
    ensures DecodeDistribution(fields) == Some(d)
  {
    DistributionFieldsDecode(fields, d);
    var back := map n | n in IntKeys(fields) && IntToDecimal(n) in fields :: fields[IntToDecimal(n)].n;
    assert DecodeDistribution(fields) == Some(back);
    DistributionBack(fields, d, back);
  }

  lemma DistributionFieldsDecode(fields: map<string, Json>, d: map<int, int>)
    requires DistributionFieldsOf(fields, d)
    ensures forall k :: k in fields ==> CanonicalKey(k) && fields[k].JNum?
  {
  }

  lemma DistributionBack(fields: map<string, Json>, d: map<int, int>, back: map<int, int>)
    requires DistributionFieldsOf(fields, d)
    requires forall k :: k in fields ==> CanonicalKey(k) && fields[k].JNum?
    requires back == map n | n in IntKeys(fields) && IntToDecimal(n) in fields :: fields[IntToDecimal(n)].n
    ensures back == d
  {
    forall n | n in d ensures n in back && back[n] == d[n] {
      IntDecimalRoundTrip(n);
      assert IntToDecimal(n) in fields;
    }
    forall n | n in back ensures n in d {
      var k :| k in fields && DecimalToInt(k).Some? && DecimalToInt(k).value == n;
    }
    assert back.Keys == d.Keys;
  }

  lemma DistributionRoundTrip(d: map<int, int>)
    ensures DecodeDistribution(EncodeDistribution(d)) == Some(d)
  {
    EncodedDistributionKeys(d);
    DecodedDistribution(EncodeDistribution(d), d);
  }

  /** Reading back written statistics gives the same statistics. */
  lemma StatsRoundTrip(s: GameStats)
    ensures DecodeStats(EncodeStats(s)) == Some(s)
  {
    DistributionRoundTrip(s.guessDistribution);
  }
}
