/**
 * The synchronous rules of the ENS service: the format check on a name and the
 * rule that turns a bare label into a full `.eth` name before it is resolved.
 */
module EnsService {
  import opened Text

  const EthSuffix: string := ".eth"

  predicate EndsWith(s: string, suffix: string)
  {
    |suffix| <= |s| && s[|s| - |suffix|..] == suffix
  }

  /** `name.replace(/\.eth$/, '')`: removes one trailing ".eth", if any. */
  function StripEth(name: string): (r: string)
    ensures EndsWith(name, EthSuffix) ==> r + EthSuffix == name
    ensures !EndsWith(name, EthSuffix) ==> r == name
  {
    if EndsWith(name, EthSuffix) then name[..|name| - |EthSuffix|] else name
  }

  /** `validateENSName(name)`: a chain of early rejections on the name with one
      ".eth" suffix removed. */
  function ValidateENSName(name: string): (r: bool)
    ensures r <==> |name| > 0
                   && 3 <= |StripEth(name)| <= 63
                   && (forall i :: 0 <= i < |StripEth(name)| ==> IsLabelChar(StripEth(name)[i]))
                   && StripEth(name)[0] != '-' && StripEth(name)[|StripEth(name)| - 1] != '-'
  {
    if |name| == 0 then false
    else
      var baseName := StripEth(name);
      if |baseName| < 3 || |baseName| > 63 then false
      else if !OnlyLabelChars(baseName) then false
      else if baseName[0] == '-' || baseName[|baseName| - 1] == '-' then false
      else true
  }

  /** The full name used for resolution: a name without a dot gets ".eth". */
  function FullName(ensName: string): (r: string)
    ensures '.' in r
    ensures |ensName| <= |r| && r[..|ensName|] == ensName
    ensures ('.' in ensName) <==> r == ensName
    ensures '.' !in ensName ==> r == ensName + EthSuffix
  {
    if '.' in ensName then ensName else ensName + EthSuffix
  }

  /** Completing a name twice is completing it once. */
  lemma FullNameIdempotent(ensName: string)
    ensures FullName(FullName(ensName)) == FullName(ensName)
  {
  }

  /** A bare label and its full name are accepted or rejected together. */
  lemma SuffixIrrelevant(bare: string)
    requires '.' !in bare
    ensures ValidateENSName(bare + EthSuffix) == ValidateENSName(bare)
  {
    var full := bare + EthSuffix;
    assert full[|full| - |EthSuffix|..] == EthSuffix;
    assert StripEth(full) == bare;
    assert StripEth(bare) == bare;
  }

  /** Every accepted name is a dot-free label, bare or with one ".eth", and its
      full name is that label with ".eth". */
  lemma AcceptedNameShape(name: string)
    requires ValidateENSName(name)
    ensures '.' !in StripEth(name)
    ensures name == StripEth(name) || name == StripEth(name) + EthSuffix
    ensures FullName(name) == StripEth(name) + EthSuffix
  {
    if !EndsWith(name, EthSuffix) {
      assert '.' !in name;
    } else {
      assert name[|name| - 4] == '.';
    }
  }

  /** Only one suffix is removed, so a doubled ".eth" is rejected. */
  lemma DoubleSuffixRejected(bare: string)
    ensures !ValidateENSName(bare + EthSuffix + EthSuffix)
  {
    var name := bare + EthSuffix + EthSuffix;
    assert name[|name| - 4..] == EthSuffix;
    var base := StripEth(name);
    assert base == bare + EthSuffix;
    assert !IsLabelChar(base[|bare|]);
  }
}
