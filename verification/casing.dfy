/**
 Lowercasing as `looksCommon` applies it before the denylist check, restricted
 to ASCII: 'A'..'Z' become 'a'..'z' and every other character is unchanged.
 */
module Casing {
  import opened CharClasses

  /** Lowercase one character, ASCII only. */
  function LowerChar(c: char): (r: char)
    ensures !IsUpper(r)
    ensures IsLower(r) <==> IsUpper(c) || IsLower(c)
    ensures IsDigit(r) <==> IsDigit(c)
    ensures InClass(Symbol, r) <==> InClass(Symbol, c)
    ensures !IsUpper(c) ==> r == c
    ensures IsUpper(c) ==> r as int - 'a' as int == c as int - 'A' as int
  {
    if IsUpper(c) then (c as int - 'A' as int + 'a' as int) as char else c
  }

  /** Lowercase every character of a string, keeping its length and the
      position of every character. */
  function LowerAscii(s: string): (r: string)
    ensures |r| == |s|
    ensures forall i :: 0 <= i < |s| ==> r[i] == LowerChar(s[i])
  {
    seq(|s|, i requires 0 <= i < |s| => LowerChar(s[i]))
  }

  /** Lowercasing removes every capital, turns capitals into small letters
      and leaves digits and symbols where they were. */
  lemma LowerAsciiClasses(s: string)
    ensures !HasUpper(LowerAscii(s))
    ensures HasLower(LowerAscii(s)) <==> HasUpper(s) || HasLower(s)
    ensures HasNum(LowerAscii(s)) == HasNum(s)
    ensures HasSym(LowerAscii(s)) == HasSym(s)
  {
  }

  /** Lowercasing twice is lowercasing once. */
  lemma LowerAsciiIdempotent(s: string)
    ensures LowerAscii(LowerAscii(s)) == LowerAscii(s)
  {
  }

  /** Lowercasing works character by character, so it distributes over
      concatenation. */
  lemma LowerAsciiConcat(s: string, t: string)
    ensures LowerAscii(s + t) == LowerAscii(s) + LowerAscii(t)
  {
  }

  /** Lowercasing commutes with taking a slice. */
  lemma LowerAsciiSlice(s: string, i: int, j: int)
    requires 0 <= i <= j <= |s|
    ensures LowerAscii(s[i..j]) == LowerAscii(s)[i..j]
  {
  }

  /** Two characters are the same letter in possibly different ASCII case:
      equal, or one is a capital and the other the small letter 32 code
      points above it. */
  predicate CaseVariant(c: char, d: char)
  {
    || c == d
    || (IsUpper(c) && d as int == c as int + 32)
    || (IsUpper(d) && c as int == d as int + 32)
  }

  /** Two strings differ at most in the ASCII case of their letters. */
  predicate SameUpToCase(a: string, b: string)
  {
    |a| == |b| && forall i :: 0 <= i < |a| ==> CaseVariant(a[i], b[i])
  }

  /** Two characters lowercase to the same character exactly when they are
      case variants of each other. */
  lemma CaseVariantIffLowerEqual(c: char, d: char)
    ensures CaseVariant(c, d) <==> LowerChar(c) == LowerChar(d)
  {
  }

  /** Strings are equal up to case exactly when their lowercasings agree. */
  lemma SameUpToCaseIffLowerEqual(a: string, b: string)
    ensures SameUpToCase(a, b) <==> LowerAscii(a) == LowerAscii(b)
  {
  }
}
