/**
 * Character classes and string helpers shared by the game and the ENS name rules.
 * Case folding is ASCII only: `toLowerCase` is modelled on 'A'..'Z'.
 */
module Text {

  predicate IsUpper(c: char) { 'A' <= c <= 'Z' }

  /** The class `[a-zA-Z]`. */
  predicate IsAsciiLetter(c: char) { 'a' <= c <= 'z' || 'A' <= c <= 'Z' }

  predicate IsDigit(c: char) { '0' <= c <= '9' }

  /** The class `[a-zA-Z0-9-]` used for ENS labels. */
  predicate IsLabelChar(c: char) { IsAsciiLetter(c) || IsDigit(c) || c == '-' }

  /** `/^[a-zA-Z]+$/.test(s)` */
  predicate OnlyLetters(s: string) { |s| > 0 && forall i :: 0 <= i < |s| ==> IsAsciiLetter(s[i]) }

  /** `/^[a-zA-Z0-9-]+$/.test(s)` */
  predicate OnlyLabelChars(s: string) { |s| > 0 && forall i :: 0 <= i < |s| ==> IsLabelChar(s[i]) }

  /** `toLowerCase` on one character. */
  function LowerChar(c: char): (r: char)
    ensures !IsUpper(r)
    ensures IsAsciiLetter(c) <==> IsAsciiLetter(r)
    ensures IsLabelChar(c) <==> IsLabelChar(r)
  {
    if IsUpper(c) then (c as int + 32) as char else c
  }

  /** `toLowerCase` on a string; it never changes the length. */
  function Lower(s: string): string
  {
    seq(|s|, i requires 0 <= i < |s| => LowerChar(s[i]))
  }

  /** Lowering twice is lowering once. */
  lemma LowerIdempotent(s: string)
    ensures Lower(Lower(s)) == Lower(s)
  {
  }

  /** The characters `String.prototype.trim` removes: WhiteSpace and LineTerminator. */
  predicate IsJsWhitespace(c: char)
  {
    var n := c as int;
    n == 0x09 || n == 0x0A || n == 0x0B || n == 0x0C || n == 0x0D || n == 0x20 ||
    n == 0xA0 || n == 0x1680 || (0x2000 <= n <= 0x200A) || n == 0x2028 || n == 0x2029 ||
    n == 0x202F || n == 0x205F || n == 0x3000 || n == 0xFEFF
  }

  function TrimStart(s: string): string
  {
    if |s| > 0 && IsJsWhitespace(s[0]) then TrimStart(s[1..]) else s
  }

  function TrimEnd(s: string): string
  {
    if |s| > 0 && IsJsWhitespace(s[|s| - 1]) then TrimEnd(s[..|s| - 1]) else s
  }

  /** `s.trim()` */
  function Trim(s: string): string
  {
    TrimEnd(TrimStart(s))
  }
}
