/**
 * Guess scoring, letter knowledge and the small game predicates (src/utils/gameLogic.ts).
 *
 * `ValidateGuess` runs the source's two passes over arrays; `Score` is its
 * closed-form specification: a position is correct when it matches exactly, and
 * otherwise wrong-position exactly when fewer earlier non-exact positions of the
 * guess hold the same letter than there are non-exact positions of the target
 * holding it.
 */
module GameLogic {
  import opened Wrappers
  import opened Text
  import opened GameTypes

  // ---------------------------------------------------------------------------
  // Specification of the scorer
  // ---------------------------------------------------------------------------

  /** Position i is an exact match of guess g against target t. */
  predicate Exact(g: string, t: string, i: int)
  {
    0 <= i < |g| && i < |t| && g[i] == t[i]
  }

  /** Number of positions j < n of g that hold c and are not exact matches. */
  function GuessRest(g: string, t: string, c: char, n: nat): nat
    requires n <= |g|
  {
    if n == 0 then 0
    else GuessRest(g, t, c, n - 1) + (if !Exact(g, t, n - 1) && g[n - 1] == c then 1 else 0)
  }

  /** Number of positions k < n of t that hold c and are not exact matches:
      the occurrences of c still available after the first pass. */
  function TargetRest(g: string, t: string, c: char, n: nat): nat
    requires n <= |t|
  {
    if n == 0 then 0
    else TargetRest(g, t, c, n - 1) + (if !Exact(g, t, n - 1) && t[n - 1] == c then 1 else 0)
  }

  /** Number of exact positions j < n that hold c. */
  function ExactCount(g: string, t: string, c: char, n: nat): nat
  {
    if n == 0 then 0
    else ExactCount(g, t, c, n - 1) + (if Exact(g, t, n - 1) && g[n - 1] == c then 1 else 0)
  }

  function ScoreAt(g: string, t: string, i: nat): LetterState
    requires i < |g|
  {
    if Exact(g, t, i) then Correct
    else if GuessRest(g, t, g[i], i) < TargetRest(g, t, g[i], |t|) then WrongPosition
    else Absent
  }

  /** The feedback for lower-cased guess g against lower-cased target t. */
  function Score(g: string, t: string): seq<LetterState>
  {
    seq(|g|, i requires 0 <= i < |g| => ScoreAt(g, t, i))
  }

  // ---------------------------------------------------------------------------
  // The scorer as the source runs it
  // ---------------------------------------------------------------------------

  /** Number of entries of s equal to x. */
  function CountOf(s: seq<string>, x: string): nat
  {
    if |s| == 0 then 0 else CountOf(s[..|s| - 1], x) + (if s[|s| - 1] == x then 1 else 0)
  }

  /** `Array.prototype.indexOf`: the first index holding x, or -1. */
  function IndexOf(s: seq<string>, x: string): (k: int)
    ensures -1 <= k < |s|
    ensures k == -1 <==> x !in s
    ensures k >= 0 ==> s[k] == x && forall j :: 0 <= j < k ==> s[j] != x
  {
    if |s| == 0 then -1
    else if s[0] == x then 0
    else var k := IndexOf(s[1..], x); if k == -1 then -1 else k + 1
  }

  lemma {:induction false} CountOfPositive(s: seq<string>, x: string)
    ensures CountOf(s, x) > 0 <==> x in s
  {
    if |s| > 0 {
      CountOfPositive(s[..|s| - 1], x);
      assert s == s[..|s| - 1] + [s[|s| - 1]];
    }
  }

  lemma {:induction false} CountOfUpdate(s: seq<string>, k: nat, y: string, x: string)
    requires k < |s|
    ensures CountOf(s[k := y], x)
         == CountOf(s, x) - (if s[k] == x then 1 else 0) + (if y == x then 1 else 0)
  {
    var n := |s| - 1;
    if k < n {
      CountOfUpdate(s[..n], k, y, x);
      assert s[k := y][..n] == s[..n][k := y];
    } else {
      assert s[k := y][..n] == s[..n];
    }
  }

  /** Occurrences of c still free in the target once the guess positions before i
      have been scored. */
  function Free(g: string, t: string, c: char, i: nat): nat
    requires i <= |g|
  {
    if GuessRest(g, t, c, i) < TargetRest(g, t, c, |t|)
    then TargetRest(g, t, c, |t|) - GuessRest(g, t, c, i) else 0
  }

  /** Every letter c has exactly Free(g, t, c, i) slots holding it. */
  predicate SlotsFree(g: string, t: string, slots: seq<string>, i: nat)
    requires i <= |g|
  {
    forall c: char :: CountOf(slots, [c]) == Free(g, t, c, i)
  }

  lemma {:induction false} CountFirstPassSlots(g: string, t: string, slots: seq<string>, c: char, m: nat)
    requires |slots| == |t| && m <= |t|
    requires forall k :: 0 <= k < |t| ==> slots[k] == (if Exact(g, t, k) then "" else [t[k]])
    ensures CountOf(slots[..m], [c]) == TargetRest(g, t, c, m)
  {
    if m > 0 {
      CountFirstPassSlots(g, t, slots, c, m - 1);
      assert slots[..m][..m - 1] == slots[..m - 1];
    }
  }

  /** After the first pass, the free slots of the target are its non-exact positions. */
  lemma FreeSlotsAfterFirstPass(g: string, t: string, slots: seq<string>)
    requires |slots| == |t|
    requires forall k :: 0 <= k < |t| ==> slots[k] == (if 0 <= k < |g| && Exact(g, t, k) then "" else [t[k]])
    ensures SlotsFree(g, t, slots, 0)
  {
    forall c: char ensures CountOf(slots, [c]) == Free(g, t, c, 0) {
      CountFirstPassSlots(g, t, slots, c, |t|);
      assert slots[..|t|] == slots;
    }
  }

  /** One step of the second pass: position i is scored by whether its letter
      still has a free slot, and taking the first such slot keeps SlotsFree. */
  lemma SecondPassStep(g: string, t: string, i: nat, slots: seq<string>, k: int)
    requires i < |g| && SlotsFree(g, t, slots, i)
    requires Exact(g, t, i) ==> k == -1
    requires !Exact(g, t, i) ==> k == IndexOf(slots, [g[i]])
    ensures !Exact(g, t, i) ==> ScoreAt(g, t, i) == if k != -1 then WrongPosition else Absent
    ensures SlotsFree(g, t, if k != -1 then slots[k := ""] else slots, i + 1)
  {
    CountOfPositive(slots, [g[i]]);
    assert CountOf(slots, [g[i]]) == Free(g, t, g[i], i);
    var after := if k != -1 then slots[k := ""] else slots;
    forall c: char ensures CountOf(after, [c]) == Free(g, t, c, i + 1) {
      assert CountOf(slots, [c]) == Free(g, t, c, i);
      if k != -1 {
        CountOfUpdate(slots, k, "", [c]);
      }
    }
  }

  /** First pass of `validateGuess`: mark exact matches correct and blank their
      target slots. */
  method MarkExactMatches(g: string, t: string) returns (fb: array<LetterState>, targetLetters: array<string>)
    ensures fresh(fb) && fresh(targetLetters)
    ensures fb.Length == |g| && targetLetters.Length == |t|
    ensures forall j :: 0 <= j < |g| ==> fb[j] == (if Exact(g, t, j) then Correct else Absent)
    ensures forall k :: 0 <= k < |t| ==> targetLetters[k] == (if Exact(g, t, k) then "" else [t[k]])
  {
    fb := new LetterState[|g|](_ => Absent);
    targetLetters := new string[|t|](k requires 0 <= k < |t| => [t[k]]);
    for i := 0 to |g|
      invariant forall j :: 0 <= j < |g| ==> fb[j] == (if j < i && Exact(g, t, j) then Correct else Absent)
      invariant forall k :: 0 <= k < |t| ==> targetLetters[k] == (if k < i && Exact(g, t, k) then "" else [t[k]])
    {
      if i < targetLetters.Length && [g[i]] == targetLetters[i] {
        fb[i] := Correct;
        targetLetters[i] := "";
      }
    }
  }

  /** Second pass of `validateGuess`: each position still absent whose letter has
      a free target slot becomes wrong-position and blanks the first such slot. */
  method MarkMisplaced(g: string, t: string, fb: array<LetterState>, targetLetters: array<string>)
    requires fb.Length == |g| && targetLetters.Length == |t|
    requires forall j :: 0 <= j < |g| ==> fb[j] == (if Exact(g, t, j) then Correct else Absent)
    requires SlotsFree(g, t, targetLetters[..], 0)
    modifies fb, targetLetters
    ensures fb[..] == Score(g, t)
    ensures SlotsFree(g, t, targetLetters[..], |g|)
  {
    for i := 0 to |g|
      invariant forall j :: 0 <= j < i ==> fb[j] == ScoreAt(g, t, j)
      invariant forall j :: i <= j < |g| ==> fb[j] == (if Exact(g, t, j) then Correct else Absent)
      invariant SlotsFree(g, t, targetLetters[..], i)
    {
      ghost var before := targetLetters[..];
      ghost var scored := fb[..];
      if fb[i] == Absent {
        var targetIndex := IndexOf(targetLetters[..], [g[i]]);
        SecondPassStep(g, t, i, before, targetIndex);
        if targetIndex != -1 {
          fb[i] := WrongPosition;
          targetLetters[targetIndex] := "";
          assert targetLetters[..] == before[targetIndex := ""];
        }
      } else {
        SecondPassStep(g, t, i, before, -1);
      }
      assert fb[..] == scored[i := fb[i]];
    }
  }

  /** `validateGuess(guess, target)`: feedback of `guess` against `target`, both
      lower-cased; exact matches consume their target letter first, and each
      wrong-position match then consumes the first free occurrence. */
  method ValidateGuess(guess: string, target: string) returns (feedback: seq<LetterState>)
    ensures feedback == Score(Lower(guess), Lower(target))
  {
    var g := Lower(guess);
    var t := Lower(target);
    var fb, targetLetters := MarkExactMatches(g, t);
    FreeSlotsAfterFirstPass(g, t, targetLetters[..]);
    MarkMisplaced(g, t, fb, targetLetters);
    feedback := fb[..];
  }

  // ---------------------------------------------------------------------------
  // Properties of the scorer
  // ---------------------------------------------------------------------------

  /** One entry per guess position, never `unused`; a position is correct exactly
      when it matches the target letter, ignoring case. */
  lemma ScoreShape(guess: string, target: string)
    ensures var fb := Score(Lower(guess), Lower(target));
      && |fb| == |guess|
      && (forall i :: 0 <= i < |fb| ==> fb[i] != Unused)
      && (forall i :: 0 <= i < |fb| ==>
            (fb[i] == Correct <==> i < |target| && LowerChar(guess[i]) == LowerChar(target[i])))
  {
  }

  /** Number of positions j < n whose feedback is not absent and whose letter is c. */
  function NonAbsentCount(fb: seq<LetterState>, g: string, c: char, n: nat): nat
    requires n <= |fb| && n <= |g|
  {
    if n == 0 then 0
    else NonAbsentCount(fb, g, c, n - 1) + (if fb[n - 1] != Absent && g[n - 1] == c then 1 else 0)
  }

  lemma {:induction false} NonAbsentPrefix(g: string, t: string, c: char, n: nat)
    requires n <= |g|
    ensures NonAbsentCount(Score(g, t), g, c, n)
         == ExactCount(g, t, c, n) + Min(GuessRest(g, t, c, n), TargetRest(g, t, c, |t|))
  {
    if n > 0 {
      NonAbsentPrefix(g, t, c, n - 1);
    }
  }

  function Min(a: nat, b: nat): nat { if a <= b then a else b }

  lemma {:induction false} SplitGuessCount(g: string, t: string, c: char, n: nat)
    requires n <= |g|
    ensures multiset(g[..n])[c] == ExactCount(g, t, c, n) + GuessRest(g, t, c, n)
  {
    if n > 0 {
      SplitGuessCount(g, t, c, n - 1);
      assert g[..n] == g[..n - 1] + [g[n - 1]];
    }
  }

  lemma {:induction false} SplitTargetCount(g: string, t: string, c: char, n: nat)
    requires n <= |t|
    ensures multiset(t[..n])[c] == ExactCount(g, t, c, n) + TargetRest(g, t, c, n)
  {
    if n > 0 {
      SplitTargetCount(g, t, c, n - 1);
      assert t[..n] == t[..n - 1] + [t[n - 1]];
    }
  }

  lemma {:induction false} ExactCountStable(g: string, t: string, c: char, n: nat)
    requires n >= |g| || n >= |t|
    ensures ExactCount(g, t, c, n) == ExactCount(g, t, c, if |g| <= |t| then |g| else |t|)
  {
    var m := if |g| <= |t| then |g| else |t|;
    if n > m {
      ExactCountStable(g, t, c, n - 1);
    }
  }

  /** Duplicate letters are not over-counted: for every letter c, the positions
      holding c that are not absent number min(count of c in the guess, count
      of c in the target). */
  lemma ConsumeOnMatch(g: string, t: string, c: char)
    ensures NonAbsentCount(Score(g, t), g, c, |g|) == Min(multiset(g)[c], multiset(t)[c])
  {
    NonAbsentPrefix(g, t, c, |g|);
    SplitGuessCount(g, t, c, |g|);
    SplitTargetCount(g, t, c, |t|);
    ExactCountStable(g, t, c, |g|);
    ExactCountStable(g, t, c, |t|);
    assert g[..|g|] == g;
    assert t[..|t|] == t;
  }

  /** A guess equal to the target up to case scores all correct, and a same-length
      guess scores all correct only if it equals the target up to case. */
  lemma AllCorrectIffEqual(guess: string, target: string)
    requires |guess| == |target|
    ensures IsGameWon(Score(Lower(guess), Lower(target))) <==> Lower(guess) == Lower(target)
  {
    var g, t := Lower(guess), Lower(target);
    if IsGameWon(Score(g, t)) {
      forall i | 0 <= i < |g| ensures g[i] == t[i] {
        assert Score(g, t)[i] == Correct;
      }
    }
  }

  /** The duplicate-letter example: "hello" against "alley". Only position 2 is an
      exact match; the second 'l' takes the free 'l' at index 1 of the target. */
  lemma HelloAlley()
    ensures Score("hello", "alley") == [Absent, WrongPosition, Correct, WrongPosition, Absent]
  {
    var g, t := "hello", "alley";
    assert !Exact(g, t, 0) && !Exact(g, t, 1) && Exact(g, t, 2) && !Exact(g, t, 3) && !Exact(g, t, 4);
    assert TargetRest(g, t, 'h', 5) == 0;
    assert TargetRest(g, t, 'e', 5) == 1;
    assert TargetRest(g, t, 'l', 5) == 1 && GuessRest(g, t, 'l', 3) == 0;
    assert TargetRest(g, t, 'o', 5) == 0;
  }

  /** "hello" against "world": the first 'l' finds no free 'l' because the only
      one in the target is taken by the exact match at position 3, and the 'o'
      is misplaced. */
  lemma HelloWorld()
    ensures Score("hello", "world") == [Absent, Absent, Absent, Correct, WrongPosition]
  {
    var g, t := "hello", "world";
    assert !Exact(g, t, 0) && !Exact(g, t, 1) && !Exact(g, t, 2) && Exact(g, t, 3) && !Exact(g, t, 4);
    assert TargetRest(g, t, 'h', 5) == 0;
    assert TargetRest(g, t, 'e', 5) == 0;
    assert TargetRest(g, t, 'l', 5) == 0;
    assert TargetRest(g, t, 'o', 5) == 1 && GuessRest(g, t, 'o', 4) == 0;
  }

  // ---------------------------------------------------------------------------
  // Letter knowledge
  // ---------------------------------------------------------------------------

  /** The total order unused < absent < wrong-position < correct. */
  function Rank(s: LetterState): nat
  {
    match s
    case Unused => 0
    case Absent => 1
    case WrongPosition => 2
    case Correct => 3
  }

  /** A missing letter counts as unused. */
  function Get(m: LetterStates, c: char): LetterState
  {
    if c in m then m[c] else Unused
  }

  /** Letter c received feedback s at some position of the guess. */
  predicate Received(word: string, feedback: seq<LetterState>, c: char, s: LetterState)
  {
    exists i :: 0 <= i < |word| && i < |feedback| && LowerChar(word[i]) == c && feedback[i] == s
  }

  /** Letters that received some feedback other than unused. */
  function Touched(word: string, feedback: seq<LetterState>): set<char>
  {
    set i | 0 <= i < |word| && i < |feedback| && feedback[i] != Unused :: LowerChar(word[i])
  }

  /** The best of the old knowledge of c and every feedback c received. */
  function Best(current: LetterStates, word: string, feedback: seq<LetterState>, c: char): LetterState
  {
    var was := Get(current, c);
    if was == Correct || Received(word, feedback, c, Correct) then Correct
    else if was == WrongPosition || Received(word, feedback, c, WrongPosition) then WrongPosition
    else if was == Absent || Received(word, feedback, c, Absent) then Absent
    else Unused
  }

  /** The knowledge after one guess: every letter known before or touched now
      holds its best state. */
  function Merge(current: LetterStates, word: string, feedback: seq<LetterState>): (r: LetterStates)
    ensures r.Keys == current.Keys + Touched(word, feedback)
    ensures forall c :: c in r ==> r[c] == Best(current, word, feedback, c)
  {
    map c | c in current.Keys + Touched(word, feedback) :: Best(current, word, feedback, c)
  }

  /** One step of the source's loop: store s for c unless that would downgrade it. */
  function Upgrade(m: LetterStates, c: char, s: LetterState): LetterStates
  {
    var was := Get(m, c);
    if s == Correct
      || (s == WrongPosition && was != Correct)
      || (s == Absent && was != Correct && was != WrongPosition)
    then m[c := s] else m
  }

  /** Absent from the map means unused, so reading the merge gives Best. */
  lemma GetMerge(current: LetterStates, word: string, feedback: seq<LetterState>, c: char)
    ensures Get(Merge(current, word, feedback), c) == Best(current, word, feedback, c)
  {
  }

  /** Extending the guess by one position adds that position's feedback to what
      its letter received. */
  lemma ReceivedStep(word: string, feedback: seq<LetterState>, i: nat, c: char, s: LetterState)
    requires i < |word|
    ensures Received(word[..i + 1], feedback, c, s)
        <==> Received(word[..i], feedback, c, s) || (i < |feedback| && LowerChar(word[i]) == c && feedback[i] == s)
  {
    var w0, w1 := word[..i], word[..i + 1];
    if Received(w1, feedback, c, s) {
      var j :| 0 <= j < |w1| && j < |feedback| && LowerChar(w1[j]) == c && feedback[j] == s;
      if j < i { assert w0[j] == w1[j]; }
    }
    if Received(w0, feedback, c, s) {
      var j :| 0 <= j < |w0| && j < |feedback| && LowerChar(w0[j]) == c && feedback[j] == s;
      assert w1[j] == w0[j];
    }
    if i < |feedback| && LowerChar(word[i]) == c && feedback[i] == s {
      assert w1[i] == word[i];
    }
  }

  lemma TouchedStep(word: string, feedback: seq<LetterState>, i: nat)
    requires i < |word|
    ensures Touched(word[..i + 1], feedback)
         == Touched(word[..i], feedback) + (if i < |feedback| && feedback[i] != Unused then {LowerChar(word[i])} else {})
  {
    var w0, w1 := word[..i], word[..i + 1];
    forall c ensures c in Touched(w1, feedback)
                <==> c in Touched(w0, feedback) || (i < |feedback| && feedback[i] != Unused && c == LowerChar(word[i]))
    {
      if c in Touched(w1, feedback) {
        var j :| 0 <= j < |w1| && j < |feedback| && feedback[j] != Unused && LowerChar(w1[j]) == c;
        if j < i { assert w0[j] == w1[j]; assert c in Touched(w0, feedback); }
      }
      if c in Touched(w0, feedback) {
        var j :| 0 <= j < |w0| && j < |feedback| && feedback[j] != Unused && LowerChar(w0[j]) == c;
        assert w1[j] == w0[j];
      }
      if i < |feedback| && feedback[i] != Unused && c == LowerChar(word[i]) {
        assert w1[i] == word[i];
      }
    }
  }

  /** The merge over one more position agrees, letter by letter, with one more
      step of the source's loop. */
  lemma MergeStepAt(current: LetterStates, word: string, feedback: seq<LetterState>, i: nat, c: char)
    requires i < |word| && i < |feedback|
    ensures var m1 := Merge(current, word[..i + 1], feedback);
            var up := Upgrade(Merge(current, word[..i], feedback), LowerChar(word[i]), feedback[i]);
            (c in m1 <==> c in up) && (c in m1 ==> m1[c] == up[c])
  {
    TouchedStep(word, feedback, i);
    GetMerge(current, word[..i], feedback, c);
    ReceivedStep(word, feedback, i, c, Correct);
    ReceivedStep(word, feedback, i, c, WrongPosition);
    ReceivedStep(word, feedback, i, c, Absent);
  }

  /** A position beyond the feedback changes nothing. */
  lemma MergeStepBeyondFeedback(current: LetterStates, word: string, feedback: seq<LetterState>, i: nat, c: char)
    requires |feedback| <= i < |word|
    ensures var m1 := Merge(current, word[..i + 1], feedback);
            var m0 := Merge(current, word[..i], feedback);
            (c in m1 <==> c in m0) && (c in m1 ==> m1[c] == m0[c])
  {
    TouchedStep(word, feedback, i);
    ReceivedStep(word, feedback, i, c, Correct);
    ReceivedStep(word, feedback, i, c, WrongPosition);
    ReceivedStep(word, feedback, i, c, Absent);
  }

  /** The merge over one more position is one more step of the source's loop. */
  lemma MergeStep(current: LetterStates, word: string, feedback: seq<LetterState>, i: nat)
    requires i < |word|
    ensures Merge(current, word[..i + 1], feedback)
         == if i < |feedback| then Upgrade(Merge(current, word[..i], feedback), LowerChar(word[i]), feedback[i])
            else Merge(current, word[..i], feedback)
  {
    var m0 := Merge(current, word[..i], feedback);
    var m1 := Merge(current, word[..i + 1], feedback);
    if i < |feedback| {
      var up := Upgrade(m0, LowerChar(word[i]), feedback[i]);
      forall c ensures (c in m1 <==> c in up) && (c in m1 ==> m1[c] == up[c]) {
        MergeStepAt(current, word, feedback, i, c);
      }
      assert m1 == up;
    } else {
      forall c ensures (c in m1 <==> c in m0) && (c in m1 ==> m1[c] == m0[c]) {
        MergeStepBeyondFeedback(current, word, feedback, i, c);
      }
      assert m1 == m0;
    }
  }

  lemma MergeNothing(current: LetterStates, word: string, feedback: seq<LetterState>)
    ensures Merge(current, word[..0], feedback) == current
  {
    assert Touched(word[..0], feedback) == {};
    forall c | c in current ensures Best(current, word[..0], feedback, c) == current[c] {
      assert !Received(word[..0], feedback, c, Correct);
      assert !Received(word[..0], feedback, c, WrongPosition);
      assert !Received(word[..0], feedback, c, Absent);
    }
  }

  /** `updateLetterStates(currentStates, guess, feedback)`: copies the map and
      upgrades one letter per guess position, never downgrading. */
  method UpdateLetterStates(currentStates: LetterStates, guess: string, feedback: seq<LetterState>)
    returns (newStates: LetterStates)
    ensures newStates == Merge(currentStates, guess, feedback)
  {
    newStates := currentStates;
    MergeNothing(currentStates, guess, feedback);
    for i := 0 to |guess|
      invariant newStates == Merge(currentStates, guess[..i], feedback)
    {
      MergeStep(currentStates, guess, feedback, i);
      var letter := LowerChar(guess[i]);
      if i < |feedback| {
        var currentState := Get(newStates, letter);
        var newState := feedback[i];
        if newState == Correct
          || (newState == WrongPosition && currentState != Correct)
          || (newState == Absent && currentState != Correct && currentState != WrongPosition)
        {
          newStates := newStates[letter := newState];
        }
      }
    }
    assert guess[..|guess|] == guess;
  }

  /** The result for each letter is the maximum, under Rank, of its old state and
      every feedback it received; nothing is downgraded, and letters the guess does
      not touch keep their entry (or its absence). */
  lemma MergeIsMaximum(current: LetterStates, word: string, feedback: seq<LetterState>, c: char)
    ensures Rank(Get(current, c)) <= Rank(Get(Merge(current, word, feedback), c))
    ensures forall i :: 0 <= i < |word| && i < |feedback| && LowerChar(word[i]) == c ==>
              Rank(feedback[i]) <= Rank(Get(Merge(current, word, feedback), c))
    ensures Get(Merge(current, word, feedback), c) == Get(current, c)
         || Received(word, feedback, c, Get(Merge(current, word, feedback), c))
    ensures (forall i :: 0 <= i < |word| ==> LowerChar(word[i]) != c) ==>
              (c in Merge(current, word, feedback) <==> c in current)
              && Get(Merge(current, word, feedback), c) == Get(current, c)
  {
    var r := Merge(current, word, feedback);
    forall i | 0 <= i < |word| && i < |feedback| && LowerChar(word[i]) == c
      ensures Rank(feedback[i]) <= Rank(Get(r, c))
    {
      assert Received(word, feedback, c, feedback[i]);
      if feedback[i] != Unused { assert c in Touched(word, feedback); }
    }
    if forall i :: 0 <= i < |word| ==> LowerChar(word[i]) != c {
      assert c !in Touched(word, feedback);
    }
  }

  // ---------------------------------------------------------------------------
  // Small predicates
  // ---------------------------------------------------------------------------

  /** `isGameWon(feedback)`: `every` entry is correct, checked front to back;
      an empty feedback wins vacuously. */
  function IsGameWon(feedback: seq<LetterState>): (r: bool)
    ensures r <==> forall i :: 0 <= i < |feedback| ==> feedback[i] == Correct
  {
    |feedback| == 0 || (feedback[0] == Correct && IsGameWon(feedback[1..]))
  }

  /** `isGameLost(guessCount, maxGuesses)` */
  predicate IsGameLost(guessCount: int, maxGuesses: int)
  {
    guessCount >= maxGuesses
  }

  /** `isValidGuess(guess, targetLength)`: right length, `/^[a-zA-Z]+$/`, and
      unchanged by `trim`. The trim test never rejects a word of letters, so the
      guess is valid exactly when it is a non-empty word of ASCII letters of the
      target's length; leading or trailing blanks are rejected. */
  function IsValidGuess(guess: string, targetLength: int): (r: bool)
    ensures r <==> |guess| == targetLength && |guess| > 0
                   && forall i :: 0 <= i < |guess| ==> IsAsciiLetter(guess[i])
  {
    |guess| == targetLength && OnlyLetters(guess) && |Trim(guess)| == |guess|
  }

  /** `createGuess(word, target)`: the lower-cased word with its feedback. */
  function CreateGuess(word: string, target: string): (r: Guess)
    ensures |r.word| == |word| && |r.feedback| == |word|
    ensures forall i :: 0 <= i < |word| ==> !IsUpper(r.word[i]) && LowerChar(word[i]) == r.word[i]
    ensures forall i :: 0 <= i < |word| ==>
              (r.feedback[i] == Correct <==> i < |target| && r.word[i] == LowerChar(target[i]))
    ensures r.word == Lower(word) && r.feedback == Score(Lower(word), Lower(target))
  {
    Guess(Lower(word), Score(Lower(word), Lower(target)))
  }

  /** `formatGuessForDisplay(word)`: same letters up to case, no upper case, and
      formatting twice is formatting once. */
  function FormatGuessForDisplay(word: string): (r: string)
    ensures |r| == |word|
    ensures forall i :: 0 <= i < |r| ==> !IsUpper(r[i]) && LowerChar(word[i]) == r[i]
    ensures Lower(r) == r
  {
    LowerIdempotent(word);
    Lower(word)
  }

  /** `getDifficultyClass(length)` */
  function GetDifficultyClass(length: int): (r: Difficulty)
    ensures r == Easy <==> length <= 5
    ensures r == Hard <==> length > 8
  {
    if length <= 5 then Easy
    else if length <= 8 then Medium
    else Hard
  }

  function DifficultyRank(d: Difficulty): nat
  {
    match d
    case Easy => 0
    case Medium => 1
    case Hard => 2
  }

  /** Longer names are never classed easier. */
  lemma DifficultyClassMonotone(a: int, b: int)
    requires a <= b
    ensures DifficultyRank(GetDifficultyClass(a)) <= DifficultyRank(GetDifficultyClass(b))
  {
  }
}
