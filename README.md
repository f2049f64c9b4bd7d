# String analyzer core, modelled in Dafny

The service stores strings and, for each one, a record of derived
properties: its length, whether it is a palindrome (ignoring letter case),
how many distinct characters it has, how many whitespace-separated words
it has, the SHA-256 digest of its UTF-8 bytes, and how often each character
occurs. Stored strings can be listed with structured filters on these
properties, or with a short English query that a rule-based translator
turns into the same filters.

This project models three parts of `app/main.py`:

- `compute_properties`, in module `PropertyEngine` (`property_engine.dfy`).
  Every field of the record is defined as a function of the string.
  `PropertyEngine.ComputeProperties` builds the record the way the service
  does, with the frequency table filled in by a loop. It is proved equal to
  `PropertiesOf`, and lemmas prove what each field means.
- The filter check and the scan of `list_strings`, in module `Filters`
  (`filters.dfy`). `Filters.ListStrings` keeps the service's `ok`-flag loop.
  It is proved to return the recursive function `Filtered`, and lemmas prove
  that `Filtered` keeps order, keeps exactly the matching rows, and keeps
  each one as often as it occurs.
- `parse_nl_query`, in module `QueryTranslator` (`query_translator.dfy`).
  It has five phrase rules, applied in order to the lower-cased query,
  followed by the bounds check and the "nothing recognised" error. Rule 2
  also has an error path: `int()` refuses a number of more than 4300
  digits, and the query is then refused with `TooManyDigits`.
  - `re.search` is modelled as a matcher tried at each position plus a
    leftmost search.
  - The letter rule's matcher is proved equal to a plain description: one
    of the six literal prefixes the expression accepts, followed by a
    letter from a to z.
  - `translator_samples.dfy` works sample queries through
    the general lemmas.

Support modules:

- `Text` (`text.dfy`): lower-casing, reversal, Python's whitespace set,
  decimal digits and substring occurrence.
- `Utf8` (`utf8.dfy`): the UTF-8 encoder that feeds the digest, a decoder,
  and the round trip between them.
- `Wrappers` (`wrappers.dfy`): `Option` and `Result`.

The digest function is a parameter (`sha256Hex`) of every member that
needs it. Nothing is assumed about it beyond being a function, so the
model proves only that the digest is determined by the string's bytes, and
that those bytes determine the string.

## Model

| member | source | states |
|---|---|---|
| PropertyEngine.ComputeProperties | app/main.py:55-82 | the record built with the counting loop is exactly `PropertiesOf(v)`: the length, the case-insensitive palindrome flag, the number of distinct characters, the word count, the digest of the UTF-8 bytes, and the frequency table |
| PropertyEngine.RecordInvariants | app/main.py:55-82 | every record satisfies these: the frequency counts sum to the length; there is one key per distinct character; the distinct count is at most the length and is 0 only for the empty string; the word count is at most the length; the digest is taken of `Encode(v)` |
| PropertyEngine.PalindromeMirror | app/main.py:61 | the palindrome flag holds iff, for every i, character i and the i-th character from the end agree after lower-casing |
| PropertyEngine.PalindromeShort | app/main.py:61 | the empty string and every one-character string are palindromes |
| PropertyEngine.PalindromeReverse | app/main.py:61 | reversing the string does not change its palindrome flag |
| PropertyEngine.UniqueBound | app/main.py:63 | `len(set(v))` is at most `len(v)` and is 0 exactly for the empty string |
| PropertyEngine.TrimStart | app/main.py:66 | `lstrip()` returns a suffix that does not start with whitespace, and everything it drops is whitespace |
| PropertyEngine.TrimEnd | app/main.py:66 | `rstrip()` returns a prefix that does not end with whitespace, and everything it drops is whitespace |
| PropertyEngine.WordLength | app/main.py:66 | the leading word is a maximal run of non-whitespace characters |
| PropertyEngine.StripEmpty | app/main.py:66 | `v.strip()` is empty exactly when every character of `v` is whitespace |
| PropertyEngine.SplitWords | app/main.py:66 | every word `split()` returns is non-empty and contains no whitespace |
| PropertyEngine.SplitCountsRuns | app/main.py:66 | `split()` returns as many words as there are positions where a non-whitespace character follows the start of the string or a whitespace character |
| PropertyEngine.WordStartsConcat | app/main.py:66 | word starts add up across two parts that meet at whitespace |
| PropertyEngine.WordCountFacts | app/main.py:66 | the word count equals the number of words `split()` returns, so the strip test in front changes nothing; it is 0 exactly for empty or all-whitespace strings; it is at most the length |
| PropertyEngine.Bump | app/main.py:73 | one `freq[ch] = freq.get(ch, 0) + 1` step adds `ch` to the keys and keeps the other keys |
| PropertyEngine.FrequencySnoc | app/main.py:72-73 | counting one more character bumps that character's entry in the frequency table |
| PropertyEngine.TotalCountBump | app/main.py:73 | every counting step adds exactly one to the sum of the counts |
| PropertyEngine.FrequencyFacts | app/main.py:71-73 | the frequency table's keys are the string's characters; every count is at least 1; the counts sum to the length; there are as many keys as distinct characters |
| PropertyEngine.HashInputDeterminesValue | app/main.py:68 | two strings give the digest the same input bytes iff they are the same string |
| PropertyEngine.EmptyStringRecord | app/main.py:55-82 | the empty string has length 0, 0 words, 0 distinct characters and an empty table, and is a palindrome |
| PropertyEngine.SampleSingleLetters | app/main.py:61-63 | "A" is a palindrome; "Aa" has two distinct characters, since distinctness is case-sensitive |
| PropertyEngine.SampleLevelPalindrome | app/main.py:61 | "level" is a palindrome |
| PropertyEngine.SampleRaceACarPalindrome | app/main.py:61 | "race a car" is not a palindrome, because spaces count like any other character |
| PropertyEngine.SampleRaceACarWords | app/main.py:66 | "race a car" has three words |
| Utf8.EncodeChar | app/main.py:68 | each character encodes to one to four bytes |
| Utf8.DecodeEncode | app/main.py:68 | decoding the UTF-8 encoding of any string gives that string back |
| Utf8.EncodeInjective | app/main.py:68 | different strings have different UTF-8 encodings |
| Text.LowerChar | app/main.py:61 | lower-casing yields no capital A-Z, and changes exactly the capitals |
| Text.LowerReverse | app/main.py:61 | lower-casing and reversing commute |
| Text.OccursAt | app/main.py:90-108 | defines a literal match of a pattern at one position |
| Text.Occurs | app/main.py:99 | defines `pat in q_lower`: the pattern occurs somewhere; also the literal searches for "single word", "one word" and "first vowel" |
| Text.IsDigit | app/main.py:94 | defines `\d` as the ASCII digits 0-9 |
| QueryTranslator.IsLowerLetter | app/main.py:103 | defines `[a-z]` |
| Filters.ListStrings | app/main.py:208-254 | the call fails iff both bounds are given and the minimum exceeds the maximum, and then with that error; otherwise the data is `Filtered(rows, f)`, the count is its length, and the filters are echoed back |
| Filters.FilteredConcat | app/main.py:216-235 | the scan keeps the input order: filtering a concatenation concatenates the filtered parts |
| Filters.FilteredMultiplicity | app/main.py:216-235 | a matching row is kept exactly as often as it occurs; a row that does not match is never kept |
| Filters.FilteredMembers | app/main.py:216-235 | the rows kept are exactly the input rows whose records pass every supplied predicate, and there are no more of them than input rows |
| Filters.NoFiltersKeepsAll | app/main.py:216-235 | with no filter supplied, every row is returned in order |
| Filters.ConflictingMatchesNothing | app/main.py:208-210 | crossed bounds would match no record anyway, so the early rejection loses no row |
| Filters.ContainsCharacterMeansOccurs | app/main.py:229-232 | the character filter passes the record of `v` iff the character occurs in `v` |
| Filters.SampleLevel | app/main.py:216-228 | "level" passes the palindrome filter with a minimum length of 3 |
| Filters.SampleHello | app/main.py:229-232 | "hello" fails the filter for "z" |
| QueryTranslator.Translate | app/main.py:84-119 | the translator never reports conflicting filters; on success at least one filter is set and no maximum length is ever set |
| QueryTranslator.IntLimitMeaning | app/main.py:94-96 | `int()` refuses the captured number iff the leftmost match of rule 2 is followed by a digit run longer than 4300 digits |
| QueryTranslator.TranslateTooManyDigits | app/main.py:94-96 | the query is refused for its number iff the leftmost match of rule 2 has more than 4300 digits |
| QueryTranslator.LongerThanDigits | app/main.py:94-96 | `m.group(1)` is a non-empty string of digits |
| QueryTranslator.Parse | app/main.py:86-109 | no rule writes a maximum length |
| QueryTranslator.ParseFields | app/main.py:90-109 | each field holds what the last rule that writes it wrote; in particular "first vowel" overrides the letter rule |
| QueryTranslator.CheckParsedNoBound | app/main.py:112-117 | without an upper bound the bounds check passes, and only the empty parse is rejected |
| QueryTranslator.TranslateUnparseable | app/main.py:116-117 | the query is rejected as unparseable iff none of the five rules fires, each rule described without its search |
| QueryTranslator.DigitRunEnd | app/main.py:94 | `\d+` takes the maximal run of digits |
| QueryTranslator.FirstLongerThan | app/main.py:94 | the search finds the leftmost position where `longer than ` is followed by a digit, or reports that there is none |
| QueryTranslator.FirstLongerThanIs | app/main.py:94 | the search stops at the first match |
| QueryTranslator.LongerThanNumberIs | app/main.py:94-96 | the captured digits are the whole digit run after the phrase, and the number read is their value |
| QueryTranslator.MinLengthRuleAt | app/main.py:94-96 | at the leftmost match, rule 2 writes one more than the number that follows the phrase, and `int()` refuses that number iff it has more than 4300 digits |
| QueryTranslator.TranslateMinLength | app/main.py:94-96 | a query matching rule 2, with at most 4300 digits at its leftmost match, is accepted, with a minimum length one more than that number |
| QueryTranslator.TranslateNoMinLength | app/main.py:94-96 | without a match for rule 2 no minimum length is set |
| QueryTranslator.LetterAtMeaning | app/main.py:103 | the matcher accepts a letter x at i iff one of "contain letter ", "containing letter ", "contains letter ", "contain the letter ", "containing the letter ", "contains the letter " occurs at i followed by x, with x in a-z |
| QueryTranslator.LetterPrefixParts | app/main.py:103 | the six prefixes are all combinations of "contain", one of " "/"ing "/"s ", and one of "letter "/"the letter " |
| QueryTranslator.FirstLetterMatch | app/main.py:103 | the search finds the leftmost position where the letter expression matches, or reports that there is none |
| QueryTranslator.FirstLetterMatchFinds | app/main.py:103-105 | the search succeeds iff the six-prefix description matches somewhere, and what it returns satisfies that description |
| QueryTranslator.TranslateLetter | app/main.py:94-109 | without "first vowel", and unless rule 2 raised on a number of more than 4300 digits, the query is accepted and the character filter is the letter captured at the leftmost match |
| QueryTranslator.TranslateNoLetter | app/main.py:103-109 | with neither the letter rule nor "first vowel", no character filter is set |
| QueryTranslator.TranslateFirstVowel | app/main.py:94-109 | "first vowel", unless rule 2 raised on a number of more than 4300 digits, yields the query's acceptance and the letter a, whatever the letter rule captured |
| QueryTranslator.TranslateFieldValues | app/main.py:90-109 | the word count is 1 iff "single word" or "one word" occurs; the palindrome flag is set iff "palindrom" occurs; any minimum is at least 1; any character is a letter a-z |
| QueryTranslator.NoLongerThan | app/main.py:94 | rule 2 cannot match text without an "l" or without a digit |
| QueryTranslator.NoLetterMatch | app/main.py:103 | the letter rule cannot match text without a "c" |
| TranslatorSamples.SampleSingleWord | app/main.py:90-91 | "single word strings" translates to a word count of 1 and nothing else |
| TranslatorSamples.SampleLongerThan | app/main.py:94-96 | "strings longer than 5" translates to a minimum length of 6 and nothing else |
| TranslatorSamples.SamplePalindromes | app/main.py:99-100 | "palindromes" translates to the palindrome flag and nothing else |
| TranslatorSamples.SampleLetter | app/main.py:103-105 | "strings containing the letter z" translates to the character z and nothing else |
| TranslatorSamples.SampleFirstVowel | app/main.py:108-109 | "strings with the first vowel" translates to the character a and nothing else |
| TranslatorSamples.SampleUnparseable | app/main.py:116-117 | "xyz123" is rejected as unparseable |
| TranslatorSamples.SampleTooManyDigits | app/main.py:94-96 | "longer than " followed by 4301 ones is refused for its number |
| TranslatorSamples.SampleDigitLimit | app/main.py:94-96 | "longer than " followed by 4300 ones is accepted, with a minimum length |
| PropertyEngine.PropertiesOf | app/main.py:55-82 | defines the record: the length, the palindrome flag, the number of distinct characters, the word count, the digest of the UTF-8 bytes and the frequency table |
| PropertyEngine.IsPalindrome | app/main.py:61 | defines the flag: the lower-cased string equals its reverse |
| PropertyEngine.CharSet | app/main.py:63 | defines `set(v)`: the characters of the string |
| PropertyEngine.Strip | app/main.py:66 | defines `strip()` as `lstrip()` followed by `rstrip()` |
| PropertyEngine.Split | app/main.py:66 | defines `split()`: drop leading whitespace, take the maximal non-whitespace run, repeat on the rest |
| PropertyEngine.WordCount | app/main.py:66 | defines the word count: 0 if the stripped string is empty, otherwise the number of words `split()` returns |
| PropertyEngine.Frequency | app/main.py:71-73 | defines the table: every character of the string mapped to its number of occurrences |
| Filters.Conflicting | app/main.py:208-209 | defines crossed bounds: both bounds given and the minimum above the maximum |
| Filters.Filtered | app/main.py:216-235 | defines the scan's result: the rows whose records match, in input order |
| Filters.Matches | app/main.py:220-232 | defines the per-row test: every supplied filter passes, with an absent character counted as 0 |
| Filters.CountOf | app/main.py:230-231 | defines `char_freq.get(c, 0)` |
| QueryTranslator.MentionsOneWord | app/main.py:90 | defines rule 1: "single word" or "one word" occurs |
| QueryTranslator.LongerThanAt | app/main.py:94 | defines a match of `longer than (\d+)` at a position: the phrase followed by at least one digit |
| QueryTranslator.LongerThanNumber | app/main.py:94-96 | defines `int(m.group(1))`: the decimal value of the captured digits |
| QueryTranslator.IntLimitExceeded | app/main.py:96 | defines when `int()` raises: the digits at the leftmost match number more than 4300 |
| QueryTranslator.MinLengthRule | app/main.py:94-96 | defines what rule 2 writes: one more than the number at the leftmost match |
| QueryTranslator.LetterAt | app/main.py:103 | defines the letter expression tried at one position, part by part |
| QueryTranslator.LetterMatchAt | app/main.py:103 | defines the letter expression as six literal prefixes followed by a letter a-z |
| QueryTranslator.LetterRule | app/main.py:103-105 | defines what rule 4 writes: the letter captured at the leftmost match |
| QueryTranslator.CheckParsed | app/main.py:112-117 | defines the final checks: crossed bounds, then the empty parse |
| Text.Lower | app/main.py:61 | defines `lower()` on A-Z, character by character |
| Text.Reverse | app/main.py:61 | defines `[::-1]` |
| Text.IsSpace | app/main.py:66 | defines the whitespace `strip()` and `split()` use: the characters Python's `str.isspace()` accepts |
| Text.DecimalValue | app/main.py:96 | defines the value of a string of decimal digits |
| Utf8.Encode | app/main.py:68 | defines `encode("utf-8")`: the concatenation of each character's encoding |

## Left out

- The HTTP layer is not modelled: FastAPI routing, status codes, CORS and request validation. In the routing, `/strings/{string_value}` is registered before `/strings/filter-by-natural-language` and so catches its path. Filter values are already typed: lengths and counts are `nat` for `ge=0`, and the character is one `char` for a one-character string.
- Persistence is not modelled: the database session, creating, reading and deleting strings, duplicate detection, and JSON storage of the record. `ListStrings` takes the stored rows and their records as a sequence.
- The natural-language endpoint wires `Translate` into `ListStrings` and echoes the query and the parsed filters as `interpreted_query`, so it is not modelled separately. `Translate` never reports conflicting filters, so that wiring cannot fail on crossed bounds.
- Creation timestamps, identifiers and the order of keys in the JSON dictionaries are not modelled.
- PropertiesOf: the SHA-256 digest is a function parameter, not an implementation of the hash. Only its input, the UTF-8 bytes, is specified.
- Text.Lower: only the ASCII capitals A-Z are lowered. Python's `str.lower()` also folds non-ASCII letters, so the palindrome flag and the translator may differ from the service on non-ASCII text.
- QueryTranslator.IntLimitExceeded: the limit of 4300 digits on `int()` is CPython's default (from 3.11 and the 2022 security releases of 3.7-3.10). The model fixes it at that value. It does not model a limit changed with `PYTHONINTMAXSTRDIGITS` or `sys.set_int_max_str_digits`, or an older interpreter without a limit.
- The 400 and 422 responses that the natural-language endpoint builds from the translator's errors are not modelled. `TooManyDigits` and `Unparseable` are the two errors that reach it.
- QueryTranslator.DigitRunEnd: `\d` is the ASCII digits 0-9. Python's `\d` also accepts other Unicode decimal digits, and `int()` reads them.
- Utf8.Encode: lone surrogates make Python's `encode("utf-8")` raise. Dafny strings cannot hold them, so that error path does not exist in the model.
