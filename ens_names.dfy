/**
 * Queries on the curated list of ENS names and its consistency check. The list
 * is a parameter (the source imports it from a JSON file), and the random
 * choices take the index `Math.floor(Math.random() * n)` would have produced.
 */
module EnsNames {
  import opened Wrappers
  import opened Text
  import opened GameTypes

  type Names = seq<CuratedENSName>

  // ---------------------------------------------------------------------------
  // Array helpers: `filter` and the index `find` stops at
  // ---------------------------------------------------------------------------

  /** `s.filter(keep)`: the kept elements, in order. */
  function Filter(s: Names, keep: CuratedENSName -> bool): (r: Names)
    ensures |r| <= |s|
    ensures forall x :: x in r <==> x in s && keep(x)
  {
    if |s| == 0 then []
    else if keep(s[0]) then [s[0]] + Filter(s[1..], keep)
    else Filter(s[1..], keep)
  }

  /** The index of the first element `keep` accepts, or -1. */
  function FirstIndex(s: Names, keep: CuratedENSName -> bool): (k: int)
    ensures -1 <= k < |s|
    ensures k == -1 <==> forall i :: 0 <= i < |s| ==> !keep(s[i])
    ensures k >= 0 ==> keep(s[k]) && forall i :: 0 <= i < k ==> !keep(s[i])
  {
    if |s| == 0 then -1
    else if keep(s[0]) then 0
    else var k := FirstIndex(s[1..], keep); if k == -1 then -1 else k + 1
  }

  // ---------------------------------------------------------------------------
  // Lookups
  // ---------------------------------------------------------------------------

  /** The entry's name equals `name` up to case. */
  predicate SameName(entry: CuratedENSName, name: string)
  {
    Lower(entry.name) == Lower(name)
  }

  /** `isValidCuratedName(name)`: `names.some(...)`. */
  function IsValidCuratedName(names: Names, name: string): (r: bool)
    ensures r <==> exists i :: 0 <= i < |names| && SameName(names[i], name)
  {
    if |names| == 0 then false
    else SameName(names[0], name) || IsValidCuratedName(names[1..], name)
  }

  /** `getENSNameMetadata(name)`: `names.find(...) || null`. */
  function GetENSNameMetadata(names: Names, name: string): (r: Option<CuratedENSName>)
    ensures r.Some? <==> IsValidCuratedName(names, name)
    ensures r.Some? ==> exists i :: 0 <= i < |names| && names[i] == r.value && SameName(r.value, name)
                                    && forall j :: 0 <= j < i ==> !SameName(names[j], name)
  {
    var k := FirstIndex(names, entry => SameName(entry, name));
    if k == -1 then None else Some(names[k])
  }

  /** A reliable fallback: "vitalik", "ens", or an easy name with an avatar. */
  predicate Reliable(entry: CuratedENSName)
  {
    entry.name == "vitalik" || entry.name == "ens" || (entry.difficulty == "easy" && entry.hasAvatar)
  }

  /** `getFallbackENSName()`: the first reliable entry, else `names[0]`, which
      is `undefined` for an empty list. */
  function GetFallbackENSName(names: Names): (r: Option<CuratedENSName>)
    ensures r.Some? <==> |names| > 0
    ensures (exists i :: 0 <= i < |names| && Reliable(names[i])) ==>
              r.Some? && Reliable(r.value)
              && exists i :: 0 <= i < |names| && names[i] == r.value && forall j :: 0 <= j < i ==> !Reliable(names[j])
    ensures |names| > 0 && (forall i :: 0 <= i < |names| ==> !Reliable(names[i])) ==> r == Some(names[0])
  {
    var k := FirstIndex(names, Reliable);
    if k != -1 then Some(names[k])
    else if |names| > 0 then Some(names[0])
    else None
  }

  // ---------------------------------------------------------------------------
  // Random choice with a supplied index
  // ---------------------------------------------------------------------------

  datatype SelectionError = NoNamesAvailable

  /** `getRandomENSName()` with the random index given; throws on an empty list. */
  function GetRandomENSName(names: Names, index: nat): (r: Result<CuratedENSName, SelectionError>)
    requires |names| == 0 || index < |names|
    ensures r.Err? <==> |names| == 0
    ensures r.Ok? ==> r.value in names
  {
    if |names| == 0 then Err(NoNamesAvailable) else Ok(names[index])
  }

  /** The list the filtered choice draws from: the matching entries, or the
      whole list when none match. */
  function Pool(names: Names, keep: CuratedENSName -> bool): Names
  {
    var filtered := Filter(names, keep);
    if |filtered| == 0 then names else filtered
  }

  /** A filtered random choice: from the matching entries, falling back to a
      choice from the whole list when none match. */
  function RandomMatching(names: Names, keep: CuratedENSName -> bool, index: nat): (r: Result<CuratedENSName, SelectionError>)
    requires |Pool(names, keep)| == 0 || index < |Pool(names, keep)|
    ensures r.Err? <==> |names| == 0
    ensures r.Ok? ==> r.value in names
    ensures r.Ok? && (exists x :: x in names && keep(x)) ==> keep(r.value)
  {
    var filtered := Filter(names, keep);
    if |filtered| == 0 then GetRandomENSName(names, index)
    else
      assert filtered[index] in filtered;
      Ok(filtered[index])
  }

  function HasDifficulty(difficulty: Difficulty): CuratedENSName -> bool
  {
    (entry: CuratedENSName) => entry.difficulty == DifficultyName(difficulty)
  }

  function HasCategory(category: Category): CuratedENSName -> bool
  {
    (entry: CuratedENSName) => entry.category == CategoryName(category)
  }

  function DifficultyPool(names: Names, difficulty: Difficulty): Names
  {
    Pool(names, HasDifficulty(difficulty))
  }

  function CategoryPool(names: Names, category: Category): Names
  {
    Pool(names, HasCategory(category))
  }

  /** `getRandomENSNameByDifficulty(difficulty)` */
  function GetRandomENSNameByDifficulty(names: Names, difficulty: Difficulty, index: nat)
    : (r: Result<CuratedENSName, SelectionError>)
    requires |DifficultyPool(names, difficulty)| == 0 || index < |DifficultyPool(names, difficulty)|
    ensures r.Err? <==> |names| == 0
    ensures r.Ok? ==> r.value in names
    ensures r.Ok? && (exists x :: x in names && x.difficulty == DifficultyName(difficulty)) ==>
              r.value.difficulty == DifficultyName(difficulty)
  {
    RandomMatching(names, HasDifficulty(difficulty), index)
  }

  /** `getRandomENSNameByCategory(category)` */
  function GetRandomENSNameByCategory(names: Names, category: Category, index: nat)
    : (r: Result<CuratedENSName, SelectionError>)
    requires |CategoryPool(names, category)| == 0 || index < |CategoryPool(names, category)|
    ensures r.Err? <==> |names| == 0
    ensures r.Ok? ==> r.value in names
    ensures r.Ok? && (exists x :: x in names && x.category == CategoryName(category)) ==>
              r.value.category == CategoryName(category)
  {
    RandomMatching(names, HasCategory(category), index)
  }

  // ---------------------------------------------------------------------------
  // The consistency check of the list
  // ---------------------------------------------------------------------------

  datatype ListError =
    | EmptyList
    | MissingName(index: nat)
    | BadDifficulty(index: nat, difficulty: string)
    | BadCategory(index: nat, category: string)
    | DuplicateName(index: nat, name: string)
    | BadCharacters(index: nat, name: string)

  datatype ListWarning =
    | VeryShort(index: nat, name: string)
    | VeryLong(index: nat, name: string)

  datatype ListReport = ListReport(isValid: bool, errors: seq<ListError>, warnings: seq<ListWarning>)

  predicate KnownDifficulty(d: string) { d == "easy" || d == "medium" || d == "hard" }

  predicate KnownCategory(c: string) { c == "individual" || c == "project" || c == "generic" }

  /** Entry i repeats, up to case, the name of an earlier entry. */
  predicate RepeatsEarlier(names: Names, i: nat)
    requires i < |names|
  {
    exists j :: 0 <= j < i && Lower(names[j].name) == Lower(names[i].name)
  }

  /** The errors reported for entry i, in the order they are pushed. */
  function EntryErrors(names: Names, i: nat): seq<ListError>
    requires i < |names|
  {
    var entry := names[i];
    (if |entry.name| == 0 then [MissingName(i)] else [])
    + (if !KnownDifficulty(entry.difficulty) then [BadDifficulty(i, entry.difficulty)] else [])
    + (if !KnownCategory(entry.category) then [BadCategory(i, entry.category)] else [])
    + (if RepeatsEarlier(names, i) then [DuplicateName(i, entry.name)] else [])
    + (if !OnlyLabelChars(entry.name) then [BadCharacters(i, entry.name)] else [])
  }

  /** The warnings reported for entry i. */
  function EntryWarnings(names: Names, i: nat): seq<ListWarning>
    requires i < |names|
  {
    var entry := names[i];
    (if |entry.name| < 3 then [VeryShort(i, entry.name)] else [])
    + (if |entry.name| > 12 then [VeryLong(i, entry.name)] else [])
  }

  function ErrorsUpTo(names: Names, n: nat): seq<ListError>
    requires n <= |names|
  {
    if n == 0 then [] else ErrorsUpTo(names, n - 1) + EntryErrors(names, n - 1)
  }

  function WarningsUpTo(names: Names, n: nat): seq<ListWarning>
    requires n <= |names|
  {
    if n == 0 then [] else WarningsUpTo(names, n - 1) + EntryWarnings(names, n - 1)
  }

  /** The lower-cased names of the first n entries. */
  function SeenNames(names: Names, n: nat): set<string>
    requires n <= |names|
  {
    set j | 0 <= j < n :: Lower(names[j].name)
  }

  /** The body of the pass for one entry, given the names seen before it. */
  method CheckEntry(names: Names, index: nat, seenNames: set<string>)
    returns (entryErrors: seq<ListError>, entryWarnings: seq<ListWarning>)
    requires index < |names| && seenNames == SeenNames(names, index)
    ensures entryErrors == EntryErrors(names, index)
    ensures entryWarnings == EntryWarnings(names, index)
  {
    var name := names[index];
    entryErrors := [];
    if |name.name| == 0 {
      entryErrors := entryErrors + [MissingName(index)];
    }
    if !KnownDifficulty(name.difficulty) {
      entryErrors := entryErrors + [BadDifficulty(index, name.difficulty)];
    }
    if !KnownCategory(name.category) {
      entryErrors := entryErrors + [BadCategory(index, name.category)];
    }
    var lowerName := Lower(name.name);
    assert lowerName in seenNames <==> RepeatsEarlier(names, index);
    if lowerName in seenNames {
      entryErrors := entryErrors + [DuplicateName(index, name.name)];
    }
    if !OnlyLabelChars(name.name) {
      entryErrors := entryErrors + [BadCharacters(index, name.name)];
    }
    entryWarnings := [];
    if |name.name| < 3 {
      entryWarnings := entryWarnings + [VeryShort(index, name.name)];
    }
    if |name.name| > 12 {
      entryWarnings := entryWarnings + [VeryLong(index, name.name)];
    }
  }

  /** `validateCuratedList()`: one pass over the list that pushes errors and
      warnings and remembers the lower-cased names seen so far. */
  method ValidateCuratedList(names: Names) returns (report: ListReport)
    ensures |names| == 0 ==> report == ListReport(false, [EmptyList], [])
    ensures |names| > 0 ==> report.errors == ErrorsUpTo(names, |names|)
                            && report.warnings == WarningsUpTo(names, |names|)
    ensures report.isValid <==> |report.errors| == 0
  {
    var errors: seq<ListError> := [];
    var warnings: seq<ListWarning> := [];
    if |names| == 0 {
      errors := errors + [EmptyList];
      return ListReport(false, errors, warnings);
    }
    var seenNames: set<string> := {};
    for index := 0 to |names|
      invariant errors == ErrorsUpTo(names, index)
      invariant warnings == WarningsUpTo(names, index)
      invariant seenNames == SeenNames(names, index)
    {
      var entryErrors, entryWarnings := CheckEntry(names, index, seenNames);
      errors := errors + entryErrors;
      warnings := warnings + entryWarnings;
      seenNames := seenNames + {Lower(names[index].name)};
      assert seenNames == SeenNames(names, index + 1);
    }
    return ListReport(|errors| == 0, errors, warnings);
  }

  /** An entry that draws no error. */
  predicate CleanEntry(names: Names, i: nat)
    requires i < |names|
  {
    && KnownDifficulty(names[i].difficulty)
    && KnownCategory(names[i].category)
    && OnlyLabelChars(names[i].name)
    && !RepeatsEarlier(names, i)
  }

  /** A non-empty list is valid exactly when every entry is clean: known
      difficulty and category, a non-empty name of label characters, and no
      case-insensitive repeat of an earlier name. Length warnings play no part. */
  lemma {:induction false} NoErrorsIffClean(names: Names, n: nat)
    requires n <= |names|
    ensures |ErrorsUpTo(names, n)| == 0 <==> forall i :: 0 <= i < n ==> CleanEntry(names, i)
  {
    if n > 0 {
      NoErrorsIffClean(names, n - 1);
      assert |EntryErrors(names, n - 1)| == 0 <==> CleanEntry(names, n - 1);
    }
  }

  /** A duplicate error is reported at an index exactly when that entry repeats
      an earlier name; the first occurrence is never reported. */
  lemma {:induction false} DuplicateReportedAtLaterIndex(names: Names, n: nat, i: nat, name: string)
    requires n <= |names|
    ensures DuplicateName(i, name) in ErrorsUpTo(names, n) <==>
              i < n && RepeatsEarlier(names, i) && name == names[i].name
  {
    if n > 0 {
      DuplicateReportedAtLaterIndex(names, n - 1, i, name);
      var e := EntryErrors(names, n - 1);
      assert ErrorsUpTo(names, n) == ErrorsUpTo(names, n - 1) + e;
      assert DuplicateName(i, name) in e <==>
               i == n - 1 && RepeatsEarlier(names, i) && name == names[i].name;
    }
  }

  /** A length warning is reported at an index exactly when the name there is
      shorter than 3 or longer than 12 characters. */
  lemma {:induction false} WarningsAreLengths(names: Names, n: nat, i: nat, name: string)
    requires n <= |names|
    ensures VeryShort(i, name) in WarningsUpTo(names, n) <==> i < n && |names[i].name| < 3 && name == names[i].name
    ensures VeryLong(i, name) in WarningsUpTo(names, n) <==> i < n && |names[i].name| > 12 && name == names[i].name
  {
    if n > 0 {
      WarningsAreLengths(names, n - 1, i, name);
      assert WarningsUpTo(names, n) == WarningsUpTo(names, n - 1) + EntryWarnings(names, n - 1);
    }
  }
}
