/**
 The four single-character-class tests of the strength checker: `hasUpper`,
 `hasLower`, `hasNum` and `hasSym`. Each is a regular-expression test for one
 bracket class (`[A-Z]`, `[a-z]`, `[0-9]`, `[^A-Za-z0-9]`) with no anchors,
 so it succeeds exactly when some character of the string lies in the class.
 The four classes split the characters: every character is in exactly one.
 */
module CharClasses {

  /** The bracket classes of the four tests. `Symbol` is the complement of
      the other three, as `[^A-Za-z0-9]` is. */
  datatype CharClass = Upper | Lower | Digit | Symbol

  predicate IsUpper(c: char) { 'A' <= c <= 'Z' }
  predicate IsLower(c: char) { 'a' <= c <= 'z' }
  predicate IsDigit(c: char) { '0' <= c <= '9' }

  /** Membership of a character in a bracket class. */
  predicate InClass(k: CharClass, c: char)
  {
    match k
    case Upper => IsUpper(c)
    case Lower => IsLower(c)
    case Digit => IsDigit(c)
    case Symbol => !IsUpper(c) && !IsLower(c) && !IsDigit(c)
  }

  /** The unanchored regular-expression test of one bracket class: a scan
      from the left that stops at the first matching character. */
  function HasClass(k: CharClass, s: string): (r: bool)
    ensures r <==> exists i :: 0 <= i < |s| && InClass(k, s[i])
  {
    if |s| == 0 then false
    else if InClass(k, s[0]) then true
    else
      var rest := HasClass(k, s[1..]);
      assert forall i :: 1 <= i < |s| ==> s[i] == s[1..][i - 1];
      rest
  }

  /** `hasUpper`: some character is an ASCII capital letter. */
  function HasUpper(s: string): (r: bool)
    ensures r <==> exists i :: 0 <= i < |s| && 'A' <= s[i] <= 'Z'
  {
    HasClass(Upper, s)
  }

  /** `hasLower`: some character is an ASCII small letter. */
  function HasLower(s: string): (r: bool)
    ensures r <==> exists i :: 0 <= i < |s| && 'a' <= s[i] <= 'z'
  {
    HasClass(Lower, s)
  }

  /** `hasNum`: some character is an ASCII decimal digit. */
  function HasNum(s: string): (r: bool)
    ensures r <==> exists i :: 0 <= i < |s| && '0' <= s[i] <= '9'
  {
    HasClass(Digit, s)
  }

  /** `hasSym`: some character is neither an ASCII letter nor an ASCII digit.
      Non-ASCII letters and digits, spaces and control characters all count. */
  function HasSym(s: string): (r: bool)
    ensures r <==> (exists i :: 0 <= i < |s| &&
                      !('A' <= s[i] <= 'Z') && !('a' <= s[i] <= 'z') && !('0' <= s[i] <= '9'))
  {
    HasClass(Symbol, s)
  }

  /** Every character lies in exactly one of the four classes. */
  lemma ClassesPartition(c: char)
    ensures exists k :: InClass(k, c)
    ensures forall k1, k2 :: InClass(k1, c) && InClass(k2, c) ==> k1 == k2
  {
    if IsUpper(c) {
      assert InClass(Upper, c);
    } else if IsLower(c) {
      assert InClass(Lower, c);
    } else if IsDigit(c) {
      assert InClass(Digit, c);
    } else {
      assert InClass(Symbol, c);
    }
  }

  /** The empty string satisfies none of the four tests. */
  lemma EmptyHasNoClass()
    ensures !HasUpper("") && !HasLower("") && !HasNum("") && !HasSym("")
  {
  }

  /** A non-empty string satisfies at least one of the four tests: its first
      character lies in some class. */
  lemma NonEmptyHasSomeClass(s: string)
    requires |s| > 0
    ensures HasUpper(s) || HasLower(s) || HasNum(s) || HasSym(s)
  {
  }

  /** A class occurs in a concatenation exactly when it occurs in one of the
      parts. */
  lemma HasClassConcat(k: CharClass, s: string, t: string)
    ensures HasClass(k, s + t) <==> HasClass(k, s) || HasClass(k, t)
  {
    var st := s + t;
    if HasClass(k, s) {
      var i :| 0 <= i < |s| && InClass(k, s[i]);
      assert st[i] == s[i];
    }
    if HasClass(k, t) {
      var i :| 0 <= i < |t| && InClass(k, t[i]);
      assert st[|s| + i] == t[i];
    }
    if HasClass(k, st) {
      var i :| 0 <= i < |st| && InClass(k, st[i]);
      if i < |s| {
        assert st[i] == s[i];
      } else {
        assert st[i] == t[i - |s|];
      }
    }
  }

  /** Each test is monotone under concatenation on either side: adding
      characters before or after never makes a satisfied test fail. */
  lemma HasClassMonotone(k: CharClass, s: string, t: string)
    requires HasClass(k, s)
    ensures HasClass(k, s + t) && HasClass(k, t + s)
  {
    HasClassConcat(k, s, t);
    HasClassConcat(k, t, s);
  }

  /** The monotonicity of `HasClassMonotone`, stated for the four tests by
      name. */
  lemma FourTestsMonotone(s: string, t: string)
    ensures HasUpper(s) ==> HasUpper(s + t) && HasUpper(t + s)
    ensures HasLower(s) ==> HasLower(s + t) && HasLower(t + s)
    ensures HasNum(s) ==> HasNum(s + t) && HasNum(t + s)
    ensures HasSym(s) ==> HasSym(s + t) && HasSym(t + s)
  {
    HasClassConcat(Upper, s, t);
    HasClassConcat(Upper, t, s);
    HasClassConcat(Lower, s, t);
    HasClassConcat(Lower, t, s);
    HasClassConcat(Digit, s, t);
    HasClassConcat(Digit, t, s);
    HasClassConcat(Symbol, s, t);
    HasClassConcat(Symbol, t, s);
  }

  /** A non-ASCII letter such as 'é' is a symbol and nothing else. */
  lemma AccentedLetterIsSymbol()
    ensures HasSym("é") && !HasUpper("é") && !HasLower("é") && !HasNum("é")
  {
  }
}
