/**
 * Sample queries, each translated by the general lemmas of
 * the translator. For every query one lemma fixes its lower-cased form and
 * layout, one lists the characters it lacks (which rule out the other rules),
 * and one states the filter set or the error it translates to.
 */
module TranslatorSamples {
  import opened Wrappers
  import opened Text
  import opened Filters
  import opened QueryTranslator

  lemma SingleWordText(q: string)
    requires q == "single word strings"
    ensures Lower(q) == q && q == "single word" + " strings"
  {
    LowerNoCapitals(q);
  }

  lemma SingleWordLacks(q: string)
    requires q == "single word strings"
    ensures 'c' !in q && 'p' !in q && 'f' !in q
    ensures forall k :: 0 <= k < |q| ==> !IsDigit(q[k])
  {
  }

  /** "single word strings" sets only the word count, to 1. */
  lemma SampleSingleWord(q: string)
    requires q == "single word strings"
    ensures Translate(q) == Success(NoFilters.(wordCount := Some(1)))
  {
    SingleWordText(q);
    SingleWordLacks(q);
    assert OccursAt(q, "single word", 0);
    NoLongerThan(q);
    NoLetterMatch(q);
    MissingCharNotOccurs(q, PalindromeStem, 'p');
    MissingCharNotOccurs(q, FirstVowel, 'f');
    TranslateUnparseable(q);
    TranslateFieldValues(q);
    TranslateNoMinLength(q);
    TranslateNoLetter(q);
  }

  lemma LongerThanText(q: string)
    requires q == "strings longer than 5"
    ensures Lower(q) == q && q == "strings " + LongerThan + "5"
  {
    LowerNoCapitals(q);
  }

  lemma LongerThanLacks(q: string)
    requires q == "strings longer than 5"
    ensures 'w' !in q && 'c' !in q && 'p' !in q && 'f' !in q
  {
  }

  lemma LongerThanLayout(q: string)
    requires q == "strings " + LongerThan + "5"
    ensures q[..8] == "strings " && q[8..20] == LongerThan && q[20..21] == "5"
    ensures |q| == 21 && DecimalValue(q[20..21]) == 5
  {
    assert "5"[..0] == "";
  }

  /** "strings longer than 5" sets only the lower bound, to 6. */
  lemma SampleLongerThan(q: string)
    requires q == "strings longer than 5"
    ensures Translate(q) == Success(NoFilters.(minLength := Some(6)))
  {
    LongerThanText(q);
    LongerThanLacks(q);
    LongerThanLayout(q);
    NoLongerThanBefore(q, 8);
    MissingCharNotOccurs(q, "single word", 'w');
    MissingCharNotOccurs(q, "one word", 'w');
    NoLetterMatch(q);
    MissingCharNotOccurs(q, PalindromeStem, 'p');
    MissingCharNotOccurs(q, FirstVowel, 'f');
    TranslateMinLength(q, 8, 21);
    TranslateFieldValues(q);
    TranslateNoLetter(q);
  }

  lemma PalindromesText(q: string)
    requires q == "palindromes"
    ensures Lower(q) == q && q == PalindromeStem + "es"
  {
    LowerNoCapitals(q);
  }

  lemma PalindromesLacks(q: string)
    requires q == "palindromes"
    ensures 'w' !in q && 'c' !in q && 'f' !in q
    ensures forall k :: 0 <= k < |q| ==> !IsDigit(q[k])
  {
  }

  /** "palindromes" sets only the palindrome flag. */
  lemma SamplePalindromes(q: string)
    requires q == "palindromes"
    ensures Translate(q) == Success(NoFilters.(isPalindrome := Some(true)))
  {
    PalindromesText(q);
    PalindromesLacks(q);
    assert OccursAt(q, PalindromeStem, 0);
    MissingCharNotOccurs(q, "single word", 'w');
    MissingCharNotOccurs(q, "one word", 'w');
    NoLongerThan(q);
    NoLetterMatch(q);
    MissingCharNotOccurs(q, FirstVowel, 'f');
    TranslateUnparseable(q);
    TranslateFieldValues(q);
    TranslateNoMinLength(q);
    TranslateNoLetter(q);
  }

  lemma LetterLower(q: string)
    requires q == "strings containing the letter z"
    ensures Lower(q) == q
  {
    LowerNoCapitals(q);
  }

  lemma LetterText(q: string)
    requires q == "strings containing the letter z"
    ensures q == "strings " + LetterPrefixes[4] + ['z']
  {
    assert q == "strings " + "containing the letter " + "z";
    assert LetterPrefixes[4] == "containing the letter ";
  }

  lemma LetterLacks(q: string)
    requires q == "strings containing the letter z"
    ensures 'w' !in q && 'p' !in q && 'f' !in q
  {
  }

  lemma LetterDigits(q: string)
    requires q == "strings containing the letter z"
    ensures forall k :: 0 <= k < |q| ==> !IsDigit(q[k])
  {
  }

  /** "strings containing the letter z" sets only the character filter, to "z". */
  lemma SampleLetter(q: string)
    requires q == "strings containing the letter z"
    ensures Translate(q) == Success(NoFilters.(containsCharacter := Some('z')))
  {
    LetterLower(q);
    LetterText(q);
    LetterLacks(q);
    LetterDigits(q);
    assert |LetterPrefixes[4]| == 22;
    assert q[..8] == "strings " && q[8..31] == LetterPrefixes[4] + ['z'];
    NoLetterMatchBefore(q, 8);
    MissingCharNotOccurs(q, "single word", 'w');
    MissingCharNotOccurs(q, "one word", 'w');
    NoLongerThan(q);
    MissingCharNotOccurs(q, PalindromeStem, 'p');
    MissingCharNotOccurs(q, FirstVowel, 'f');
    TranslateLetter(q, 8, 'z');
    TranslateFieldValues(q);
    TranslateNoMinLength(q);
  }

  lemma FirstVowelText(q: string)
    requires q == "strings with the first vowel"
    ensures Lower(q) == q && q == "strings with the " + FirstVowel
  {
    LowerNoCapitals(q);
  }

  lemma FirstVowelLacks(q: string)
    requires q == "strings with the first vowel"
    ensures 'd' !in q && 'p' !in q
    ensures forall k :: 0 <= k < |q| ==> !IsDigit(q[k])
  {
  }

  /** "strings with the first vowel" sets only the character filter, to "a". */
  lemma SampleFirstVowel(q: string)
    requires q == "strings with the first vowel"
    ensures Translate(q) == Success(NoFilters.(containsCharacter := Some('a')))
  {
    FirstVowelText(q);
    FirstVowelLacks(q);
    assert q[17..28] == FirstVowel;
    assert OccursAt(q, FirstVowel, 17);
    MissingCharNotOccurs(q, "single word", 'd');
    MissingCharNotOccurs(q, "one word", 'd');
    NoLongerThan(q);
    MissingCharNotOccurs(q, PalindromeStem, 'p');
    TranslateFirstVowel(q);
    TranslateFieldValues(q);
    TranslateNoMinLength(q);
  }

  lemma UnparseableText(q: string)
    requires q == "xyz123"
    ensures Lower(q) == q
    ensures 'w' !in q && 'l' !in q && 'p' !in q && 'c' !in q && 'f' !in q
  {
    LowerNoCapitals(q);
  }

  /** "xyz123" is rejected as unparseable. */
  lemma SampleUnparseable(q: string)
    requires q == "xyz123"
    ensures Translate(q) == Failure(Unparseable)
  {
    UnparseableText(q);
    MissingCharNotOccurs(q, "single word", 'w');
    MissingCharNotOccurs(q, "one word", 'w');
    NoLongerThan(q);
    MissingCharNotOccurs(q, PalindromeStem, 'p');
    NoLetterMatch(q);
    MissingCharNotOccurs(q, FirstVowel, 'f');
    TranslateUnparseable(q);
  }

  /** The text of rule 2 followed by `n` ones, already lower-case. */
  lemma OnesText(q: string, n: nat)
    requires n >= 1 && q == LongerThan + seq(n, _ => '1')
    ensures Lower(q) == q
    ensures LongerThanAt(q, 0)
    ensures AllDigits(q[|LongerThan|..])
  {
    assert forall k :: 0 <= k < |q| ==> !('A' <= q[k] <= 'Z') by {
      forall k | 0 <= k < |q|
        ensures !('A' <= q[k] <= 'Z')
      {
        if k < |LongerThan| {
          assert q[k] == LongerThan[k];
        }
      }
    }
    LowerNoCapitals(q);
    assert q[..|LongerThan|] == LongerThan;
    assert q[|LongerThan|..] == seq(n, _ => '1');
  }

  /** A number of 4301 digits is refused, as `int()` refuses it. */
  lemma SampleTooManyDigits(q: string)
    requires q == LongerThan + seq(MaxStrDigits + 1, _ => '1')
    ensures Translate(q) == Failure(TooManyDigits)
  {
    OnesText(q, MaxStrDigits + 1);
    DigitRunEndUnique(q, |LongerThan|, |q|);
    assert ReadsLongNumber(q);
    TranslateTooManyDigits(q);
  }

  /** A number of exactly 4300 digits is still read. */
  lemma SampleDigitLimit(q: string)
    requires q == LongerThan + seq(MaxStrDigits, _ => '1')
    ensures Translate(q).Success? && Translate(q).value.minLength.Some?
  {
    OnesText(q, MaxStrDigits);
    TranslateMinLength(q, 0, |q|);
  }
}
