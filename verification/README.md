# Password-strength helpers

A Dafny model of the pure string helpers of the browser password-strength
checker in `script.js`: the four character-class tests `hasUpper`,
`hasLower`, `hasNum` and `hasSym`, and the weak-password detector
`looksCommon`. Strings are `seq<char>`; every helper is a pure function.

- `char_classes.dfy` (module `CharClasses`): the four bracket classes
  `[A-Z]`, `[a-z]`, `[0-9]` and `[^A-Za-z0-9]`, the unanchored regular
  expression test of one class (`HasClass`), and the four tests built on it.
- `casing.dfy` (module `Casing`): ASCII lowercasing as `looksCommon` applies
  it before its denylist check.
- `substrings.dfy` (module `Substrings`): `includes`, defined as "the word
  occurs at some position".
- `common_patterns.dfy` (module `CommonPatterns`): the nine-word denylist,
  the repeated-character test, and `looksCommon` itself.

The visible text of `looksCommon` ends inside its repeated-character regular
expression, after `^(.)\1{5`. The rest of `looksCommon` is not visible, so
the model does not guess it. `LooksCommon` returns `Common` when the visible
part certainly returns true, and `Undetermined` when the answer is left to
the unseen rest. The repeated-character test is read with each of the
closings `{5}`, `{5,}` and `{5,}$`, applied either to the input or to its
lowercasing, on the assumption that a match returns true. A string is
flagged by that test under every one of those readings exactly when the
whole string is six or more copies of one character that the regular
expression `.` matches. Without the `s` and `u` flags, `.` matches one
UTF-16 code unit that is not a line terminator (`RegexDot`).

The flags of that regular expression would also come after the visible text, so
they are unseen too; the model reads it with no flags. That choice does not
change which strings are flagged under every reading. `s`, `i` and `m` only
widen what matches (`.` also matches line terminators, the back-reference
ignores case, `^` and `$` also match at line breaks). `u` and `v` change
nothing for a run of one Basic Multilingual Plane character. `g` and `y`
start from index 0 on a literal created afresh at each call, and `d` only
records match indices. So a whole run of a `.`-character matches under every
flag combination.

## Model

| member | source | states |
|---|---|---|
| CharClasses.HasClass | script.js:52-55 | an unanchored one-class test succeeds exactly when some character of the string is in the class |
| CharClasses.HasUpper | script.js:52 | `hasUpper` holds exactly when some character is in 'A'..'Z' |
| CharClasses.HasLower | script.js:53 | `hasLower` holds exactly when some character is in 'a'..'z' |
| CharClasses.HasNum | script.js:54 | `hasNum` holds exactly when some character is in '0'..'9' |
| CharClasses.HasSym | script.js:55 | `hasSym` holds exactly when some character is neither an ASCII letter nor an ASCII digit |
| CharClasses.ClassesPartition | script.js:52-55 | every character lies in exactly one of the four classes |
| CharClasses.EmptyHasNoClass | script.js:52-55 | the empty string passes none of the four tests |
| CharClasses.NonEmptyHasSomeClass | script.js:52-55 | every non-empty string passes at least one of the four tests |
| CharClasses.HasClassConcat | script.js:52-55 | a class occurs in `s + t` exactly when it occurs in `s` or in `t` |
| CharClasses.HasClassMonotone | script.js:52-55 | a test that holds for `s` holds for `s + t` and for `t + s` |
| CharClasses.FourTestsMonotone | script.js:52-55 | the same monotonicity for `hasUpper`, `hasLower`, `hasNum` and `hasSym` by name |
| CharClasses.AccentedLetterIsSymbol | script.js:55 | a non-ASCII letter such as 'é' counts as a symbol and as nothing else |
| Casing.LowerChar | script.js:59 | lowercasing one character maps 'A'..'Z' one for one onto 'a'..'z' and leaves every other character unchanged, so no capital remains and digits and symbols are kept |
| Casing.LowerAscii | script.js:59 | lowercasing keeps the length and maps each position on its own |
| Casing.LowerAsciiClasses | script.js:59 | the lowercased input has no capital; it has a small letter exactly when the input had a letter; digits and symbols are kept |
| Casing.LowerAsciiIdempotent | script.js:59 | lowercasing twice equals lowercasing once |
| Casing.LowerAsciiConcat | script.js:59 | lowercasing distributes over concatenation |
| Casing.LowerAsciiSlice | script.js:59 | lowercasing commutes with slicing |
| Casing.CaseVariantIffLowerEqual | script.js:59 | two characters lowercase to the same character exactly when they are equal or are the capital and small form of one ASCII letter |
| Casing.SameUpToCaseIffLowerEqual | script.js:59 | two strings of equal length whose characters pairwise differ at most in ASCII letter case are exactly the strings with equal lowercasings |
| Substrings.Includes | script.js:61 | `text.includes(w)` holds exactly when `w` occurs at some position of `text` |
| Substrings.IncludesShift | script.js:61 | when the word is not at position 0, it occurs in the text exactly when it occurs in the text's tail |
| Substrings.IncludedWhenSurrounded | script.js:61 | a word is included in any text that surrounds it |
| Substrings.IncludesTransitive | script.js:61 | a text that includes `u` includes every word `u` includes |
| Substrings.MissingCharNotIncluded | script.js:61 | a word containing a character the text lacks is not included in it |
| Substrings.OccursAtFirstChar | script.js:61 | an occurrence of a word starts with the word's first character |
| CommonPatterns.CommonWords | script.js:60 | the nine denylist words, in the source's order |
| CommonPatterns.DenylistWordsLowercase | script.js:60 | there are nine denylist words, none empty and none with a capital, so each is its own lowercasing |
| CommonPatterns.SomeIncluded | script.js:61 | `words.some(w => text.includes(w))` holds exactly when some listed word is included in the text |
| CommonPatterns.DenylistHit | script.js:59-61 | the denylist check fires exactly when the lowercased input includes one of the nine words |
| CommonPatterns.RegexDot | script.js:62 | the characters the `.` atom of `^(.)\1{5` matches without flags: one UTF-16 code unit that is not a line terminator |
| CommonPatterns.RunOfLen | script.js:62 | `^(.)\1{n-1}` matches: the first `n` characters are copies of one `.`-character |
| CommonPatterns.RunAtStart | script.js:62 | six leading copies of one `.`-character, which each admitted closing (`{5}`, `{5,}`, `{5,}$`, with no flags) needs |
| CommonPatterns.WholeRun | script.js:62 | `^(.)\1{5,}$` matches: the whole string is six or more copies of one `.`-character |
| CommonPatterns.SubjectText | script.js:59-62 | the string the repeated-character test may be applied to: the input `s` or its lowercasing `lower` |
| CommonPatterns.RepeatFiresUnderEveryReading | script.js:59-62 | the repeated-character test fires for each of the closings `{5}`, `{5,}` and `{5,}$`, on both the input and its lowercasing |
| CommonPatterns.RepeatFires | script.js:62 | each closing is defined by what it matches; the `{5,}` reading (some leading run of length at least six) is proved to fire exactly when the `{5}` reading does, `{5,}$` exactly on a whole run, and every reading needs six leading copies |
| CommonPatterns.WholeRunLowered | script.js:59-62 | the lowercasing of a whole run of one `.`-character is again such a run |
| CommonPatterns.RepeatSafeReading | script.js:62 | the repeated-character test fires under every admitted reading exactly when the input is six or more copies of one `.`-character |
| CommonPatterns.LooksCommon | script.js:58-62 | `looksCommon` is certainly true exactly when the denylist check fires or the repeated-character test fires under every admitted reading |
| CommonPatterns.DenylistCaseInsensitive | script.js:59-61 | inputs that differ only in ASCII letter case get the same denylist verdict |
| CommonPatterns.DenylistWordSurrounded | script.js:59-61 | any casing of a denylist word, with any text around it, is flagged |
| CommonPatterns.DenylistWordAnyCase | script.js:59-61 | any string that differs from a denylist word only in ASCII letter case is flagged, with any text around it |
| CommonPatterns.MixedCasePasswordFlagged | script.js:59-61 | "xxPaSsWoRdyy" is flagged |
| CommonPatterns.LongDigitRunRedundant | script.js:60-61 | a text including "12345678" includes "123456", so removing the longer entry changes no verdict |
| CommonPatterns.UniformRunFlagged | script.js:62 | six or more copies of one `.`-character are flagged, and the test fires under every admitted reading |
| CommonPatterns.SevenAsFlagged | script.js:62 | "aaaaaaa" is flagged |
| CommonPatterns.NoLetterWordInSample | script.js:60-61 | none of the six alphabetic denylist words occurs in "abcxyz123" |
| CommonPatterns.NoDigitWordInSample | script.js:60-61 | none of the three numeric denylist words occurs in "abcxyz123" |
| CommonPatterns.NoWordInSample | script.js:60-61 | no denylist word occurs in "abcxyz123" |
| CommonPatterns.LowerSample | script.js:59 | "abcXYZ123" lowercases to "abcxyz123" |
| CommonPatterns.MixedStringNotFlaggedByVisiblePart | script.js:58-62 | the visible part of `looksCommon` does not flag "abcXYZ123"; its verdict is left to the unseen rest |

## Left out

- Everything in `looksCommon` after the visible text, which ends inside the regular expression on script.js:62. This includes the rest of that expression, any further checks, and the final return value. `LooksCommon` answers `Undetermined` wherever the visible part does not decide.
- The scoring formula, label thresholds, crack-time estimate, tips and password generator. They are not in the visible source. The crack-time estimate would also need floating point, and the generator would need `Math.random`.
- DOM lookup and event wiring (script.js:2-24, 31-37). This is browser plumbing with nothing to state.
- Theme persistence through `localStorage` and the icon sync (script.js:26-42). These are foreign storage and DOM calls.
- `showToast` and its `setTimeout` timer (script.js:45-50). These are timer-driven UI side effects.
- Casing.LowerChar: lowercases ASCII capitals only, not the full Unicode `toLowerCase`. For this denylist the difference does not change the denylist verdict. The only non-ASCII characters that lowercase to ASCII are U+0130, which becomes "i" followed by U+0307, and the Kelvin sign, which becomes "k". No word contains "k", and an "i" followed by U+0307 cannot complete any word. This argument is not proved in the model.
- CommonPatterns.UniformRunFlagged: is weaker than "any string of six or more copies of one character". The characters `.` does not match are excluded: line terminators, and characters outside the Basic Multilingual Plane, which are two different UTF-16 code units. Only the closings `{5}`, `{5,}` and `{5,}$` are admitted. A closing such as `{55}` or `{5}$` would not flag "aaaaaaa".
- CommonPatterns.LooksCommon: the repeated-character part rests on ASCII lowercasing. Under full Unicode lowercasing, a run such as six copies of 'Σ' lowercases to a non-uniform string, because of the final-sigma rule. If the unseen test is applied to the lowercased input, such a run would not be flagged.
- Characters are Unicode scalar values, while JavaScript strings are UTF-16 code units. Lone surrogates cannot be represented. For the four class tests this changes nothing, because a surrogate is a symbol and so is the scalar value it belongs to.
