/**
 * The natural-language translator, `parse_nl_query`: five fixed phrase rules
 * applied in order to the lower-cased query, each writing one filter field,
 * followed by the bounds check and the "nothing recognised" error.
 *
 * The two rules with a regular expression that captures something are
 * modelled as a matcher at one position plus a leftmost search, which is what
 * `re.search` does; each matcher is shown equal to a plain description of the
 * text the expression accepts.
 */
module QueryTranslator {
  import opened Wrappers
  import opened Text
  import opened Filters

  datatype ParseError =
    | Unparseable         // "Unable to parse natural language query"
    | ConflictingFilters  // "Query parsed but resulted in conflicting filters"
    | TooManyDigits       // `int()` refuses the number rule 2 captured

  const LongerThan: string := "longer than "
  const PalindromeStem: string := "palindrom"
  const FirstVowel: string := "first vowel"

  // ------------------------------------------------ rule 1: "(single|one) word"

  predicate MentionsOneWord(t: string)
  {
    Occurs(t, "single word") || Occurs(t, "one word")
  }

  // ----------------------------------------------- rule 2: "longer than (\d+)"

  /** `longer than (\d+)` matches at `i`: the phrase and then at least one digit. */
  predicate LongerThanAt(t: string, i: int)
  {
    OccursAt(t, LongerThan, i) && i + |LongerThan| < |t| && IsDigit(t[i + |LongerThan|])
  }

  /** Where the run of digits that starts at `j` ends; `\d+` is greedy. */
  function DigitRunEnd(t: string, j: nat): (e: nat)
    requires j <= |t|
    ensures j <= e <= |t|
    ensures forall k :: j <= k < e ==> IsDigit(t[k])
    ensures e == |t| || !IsDigit(t[e])
    decreases |t| - j
  {
    if j < |t| && IsDigit(t[j]) then DigitRunEnd(t, j + 1) else j
  }

  /** The leftmost match of rule 2 at or after `from`. */
  function FirstLongerThan(t: string, from: nat): (r: Option<nat>)
    ensures r.Some? ==> from <= r.value && LongerThanAt(t, r.value)
    ensures r.Some? ==> forall k :: from <= k < r.value ==> !LongerThanAt(t, k)
    ensures r.None? ==> forall k :: from <= k ==> !LongerThanAt(t, k)
    decreases |t| - from
  {
    if from >= |t| then None
    else if LongerThanAt(t, from) then Some(from)
    else FirstLongerThan(t, from + 1)
  }

  /**
   * The most digits `int()` converts from a decimal string: CPython's default
   * `sys.int_info.default_max_str_digits`. Longer strings raise `ValueError`.
   */
  const MaxStrDigits: nat := 4300

  /** `m.group(1)` for a match at `i`: the whole run of digits after the phrase. */
  function LongerThanDigits(t: string, i: nat): (d: string)
    requires LongerThanAt(t, i)
    ensures d != [] && AllDigits(d)
  {
    var j := i + |LongerThan|;
    var e := DigitRunEnd(t, j);
    var digits := t[j..e];
    assert forall k :: 0 <= k < |digits| ==> digits[k] == t[j + k];
    digits
  }

  /** `int(m.group(1))` for a match at `i`, when the digits are within the limit. */
  function LongerThanNumber(t: string, i: nat): nat
    requires LongerThanAt(t, i)
  {
    DecimalValue(LongerThanDigits(t, i))
  }

  // ------------------------- rule 4: "contain(?:ing|s)? (?:the )?letter ([a-z])"

  predicate IsLowerLetter(c: char)
  {
    'a' <= c <= 'z'
  }

  /** The six literal texts the expression accepts before the captured letter. */
  const LetterPrefixes: seq<string> := [
    "contain letter ", "containing letter ", "contains letter ",
    "contain the letter ", "containing the letter ", "contains the letter "]

  /** The expression accepts one of its six prefixes followed by `x` at `i`. */
  predicate LetterMatchAt(t: string, i: int, x: char)
  {
    IsLowerLetter(x) &&
    exists k :: 0 <= k < |LetterPrefixes| && OccursAt(t, LetterPrefixes[k] + [x], i)
  }

  /**
   * The expression tried at `i`, part by part: "contain", then "ing " or "s "
   * or " ", then "the letter " or "letter ", then a letter a-z. Each optional
   * part has alternatives that start with different characters, so trying them
   * in order is all the backtracking there is.
   */
  function LetterAt(t: string, i: nat): Option<char>
  {
    if !OccursAt(t, "contain", i) then None
    else
      var j := i + 7;
      var k := if OccursAt(t, "ing ", j) then j + 4
               else if OccursAt(t, "s ", j) then j + 2
               else if OccursAt(t, " ", j) then j + 1
               else -1;
      if k < 0 then None
      else
        var m := if OccursAt(t, "the letter ", k) then k + 11
                 else if OccursAt(t, "letter ", k) then k + 7
                 else -1;
        if m < 0 || m >= |t| || !IsLowerLetter(t[m]) then None else Some(t[m])
  }

  /** An occurrence of four parts in a row. */
  lemma OccursAtFour(t: string, a: string, b: string, c: string, d: string, i: int)
    ensures OccursAt(t, a + b + c + d, i) <==>
      && OccursAt(t, a, i) && OccursAt(t, b, i + |a|)
      && OccursAt(t, c, i + |a| + |b|) && OccursAt(t, d, i + |a| + |b| + |c|)
  {
    OccursAtConcat(t, a + b + c, d, i);
    OccursAtConcat(t, a + b, c, i);
    OccursAtConcat(t, a, b, i);
  }

  /** The first character of an occurrence. */
  lemma OccursAtHead(t: string, pat: string, i: int)
    requires OccursAt(t, pat, i) && pat != []
    ensures t[i] == pat[0]
  {
    assert t[i..i + |pat|][0] == t[i];
  }

  const Verbs: seq<string> := [" ", "ing ", "s "]
  const Articles: seq<string> := ["letter ", "the letter "]

  /** The six prefixes are "contain", a verb ending and an article, in all combinations. */
  lemma LetterPrefixParts(v: nat, a: nat)
    requires v < 3 && a < 2
    ensures LetterPrefixes[v + 3 * a] == "contain" + Verbs[v] + Articles[a]
  {
    if a == 0 {
      if v == 0 {
        assert "contain letter " == "contain" + " " + "letter ";
      } else if v == 1 {
        assert "containing letter " == "contain" + "ing " + "letter ";
      } else {
        assert "contains letter " == "contain" + "s " + "letter ";
      }
    } else {
      if v == 0 {
        assert "contain the letter " == "contain" + " " + "the letter ";
      } else if v == 1 {
        assert "containing the letter " == "contain" + "ing " + "the letter ";
      } else {
        assert "contains the letter " == "contain" + "s " + "the letter ";
      }
    }
  }

  /** Parts found one after the other spell a text of the six-prefix description. */
  lemma LetterPartsMatch(t: string, i: nat, v: nat, a: nat, x: char)
    requires v < 3 && a < 2 && IsLowerLetter(x)
    requires OccursAt(t, "contain", i) && OccursAt(t, Verbs[v], i + 7)
    requires var m := i + 7 + |Verbs[v]| + |Articles[a]|;
      OccursAt(t, Articles[a], i + 7 + |Verbs[v]|) && m < |t| && t[m] == x
    ensures LetterMatchAt(t, i, x)
  {
    var m := i + 7 + |Verbs[v]| + |Articles[a]|;
    assert OccursAt(t, [x], m) by {
      assert t[m..m + 1] == [t[m]];
    }
    OccursAtFour(t, "contain", Verbs[v], Articles[a], [x], i);
    LetterPrefixParts(v, a);
  }

  /** What the matcher accepts is in the six-prefix description. */
  lemma LetterAtSound(t: string, i: nat, x: char)
    requires LetterAt(t, i) == Some(x)
    ensures LetterMatchAt(t, i, x)
  {
    var j := i + 7;
    var v := if OccursAt(t, "ing ", j) then 1 else if OccursAt(t, "s ", j) then 2 else 0;
    var k := j + |Verbs[v]|;
    var a := if OccursAt(t, "the letter ", k) then 1 else 0;
    LetterPartsMatch(t, i, v, a, x);
  }

  /** A text of the description, for one verb ending and one article, is accepted by the matcher. */
  lemma LetterAtComplete(t: string, i: nat, v: nat, a: nat, x: char)
    requires v < 3 && a < 2 && IsLowerLetter(x)
    requires OccursAt(t, "contain" + Verbs[v] + Articles[a] + [x], i)
    ensures LetterAt(t, i) == Some(x)
  {
    var j := i + 7;
    OccursAtFour(t, "contain", Verbs[v], Articles[a], [x], i);
    OccursAtHead(t, Verbs[v], j);
    var k := j + |Verbs[v]|;
    OccursAtHead(t, Articles[a], k);
    OccursAtHead(t, [x], k + |Articles[a]|);
    if OccursAt(t, "ing ", j) { OccursAtHead(t, "ing ", j); }
    if OccursAt(t, "s ", j) { OccursAtHead(t, "s ", j); }
    if OccursAt(t, "the letter ", k) { OccursAtHead(t, "the letter ", k); }
  }

  /** The step-by-step matcher accepts exactly what the six-prefix description accepts. */
  lemma LetterAtMeaning(t: string, i: nat, x: char)
    ensures LetterAt(t, i) == Some(x) <==> LetterMatchAt(t, i, x)
  {
    if LetterAt(t, i) == Some(x) {
      LetterAtSound(t, i, x);
    }
    if LetterMatchAt(t, i, x) {
      var n :| 0 <= n < |LetterPrefixes| && OccursAt(t, LetterPrefixes[n] + [x], i);
      var v, a := if n < 3 then n else n - 3, if n < 3 then 0 else 1;
      LetterPrefixParts(v, a);
      LetterAtComplete(t, i, v, a, x);
    }
  }

  /** The leftmost match of rule 4 at or after `from`. */
  function FirstLetterMatch(t: string, from: nat): (r: Option<nat>)
    ensures r.Some? ==> from <= r.value && LetterAt(t, r.value).Some?
    ensures r.Some? ==> forall k :: from <= k < r.value ==> LetterAt(t, k).None?
    ensures r.None? ==> forall k :: from <= k ==> LetterAt(t, k).None?
    decreases |t| - from
  {
    if from >= |t| then None
    else if LetterAt(t, from).Some? then Some(from)
    else FirstLetterMatch(t, from + 1)
  }

  // ------------------------------------------------------------ the translator

  /** What rule 2 writes when its expression matches: one more than the number read. */
  function MinLengthRule(t: string): Option<nat>
  {
    match FirstLongerThan(t, 0)
    case Some(i) => Some(LongerThanNumber(t, i) + 1)
    case None => None
  }

  /** What rule 4 writes when its expression matches: the captured letter. */
  function LetterRule(t: string): Option<char>
  {
    match FirstLetterMatch(t, 0)
    case Some(i) => LetterAt(t, i)
    case None => None
  }

  /** The five rules of `parse_nl_query`, each writing its field over what came before. */
  function Parse(t: string): (p: FilterSet)
    ensures p.maxLength.None?
  {
    var p0 := NoFilters;
    var p1 := if MentionsOneWord(t) then p0.(wordCount := Some(1)) else p0;
    var p2 := if MinLengthRule(t).Some? then p1.(minLength := MinLengthRule(t)) else p1;
    var p3 := if Occurs(t, PalindromeStem) then p2.(isPalindrome := Some(true)) else p2;
    var p4 := if LetterRule(t).Some? then p3.(containsCharacter := LetterRule(t)) else p3;
    var p5 := if Occurs(t, FirstVowel) then p4.(containsCharacter := Some('a')) else p4;
    p5
  }

  /** The checks at the end of `parse_nl_query`: the bounds, then "nothing recognised". */
  function CheckParsed(p: FilterSet): Result<FilterSet, ParseError>
  {
    if Conflicting(p) then Failure(ConflictingFilters)
    else if p == NoFilters then Failure(Unparseable)
    else Success(p)
  }

  /** `int(m.group(1))` in rule 2 raises: the leftmost match has more digits than the limit. */
  predicate IntLimitExceeded(t: string)
  {
    match FirstLongerThan(t, 0)
    case Some(i) => |LongerThanDigits(t, i)| > MaxStrDigits
    case None => false
  }

  /**
   * `parse_nl_query`. A number over the digit limit raises at rule 2, before
   * any later rule and before the final checks.
   */
  function Translate(q: string): (r: Result<FilterSet, ParseError>)
    ensures r != Failure(ConflictingFilters)
    ensures r.Success? ==> r.value != NoFilters && r.value.maxLength.None?
  {
    var t := Lower(q);
    if IntLimitExceeded(t) then Failure(TooManyDigits)
    else CheckParsed(Parse(t))
  }

  /** No rule writes an upper bound, so the bounds check never fails. */
  lemma CheckParsedNoBound(p: FilterSet)
    requires p.maxLength.None?
    ensures CheckParsed(p) == if p == NoFilters then Failure(Unparseable) else Success(p)
  {
  }

  /** Each field of the parse is what the last rule that writes it wrote. */
  lemma ParseFields(t: string)
    ensures Parse(t).wordCount == if MentionsOneWord(t) then Some(1) else None
    ensures Parse(t).minLength == MinLengthRule(t)
    ensures Parse(t).isPalindrome == if Occurs(t, PalindromeStem) then Some(true) else None
    ensures Parse(t).containsCharacter == if Occurs(t, FirstVowel) then Some('a') else LetterRule(t)
  {
  }

  /** `Translate` in terms of the fields of the parse. */
  lemma TranslateParse(q: string)
    ensures Translate(q) ==
      if IntLimitExceeded(Lower(q)) then Failure(TooManyDigits)
      else if Parse(Lower(q)) == NoFilters then Failure(Unparseable)
      else Success(Parse(Lower(q)))
  {
    CheckParsedNoBound(Parse(Lower(q)));
  }

  // ---------------------------------------------------------------- properties

  /** Some rule recognises something in the lower-cased text, described without the searches. */
  ghost predicate AnyRuleFires(t: string)
  {
    || MentionsOneWord(t)
    || (exists i :: LongerThanAt(t, i))
    || Occurs(t, PalindromeStem)
    || (exists i, x :: LetterMatchAt(t, i, x))
    || Occurs(t, FirstVowel)
  }

  /** The letter rule finds a match exactly when the description has one somewhere. */
  lemma FirstLetterMatchFinds(t: string)
    ensures FirstLetterMatch(t, 0).Some? <==> exists i, x :: LetterMatchAt(t, i, x)
    ensures FirstLetterMatch(t, 0).Some? ==>
      LetterMatchAt(t, FirstLetterMatch(t, 0).value, LetterAt(t, FirstLetterMatch(t, 0).value).value)
  {
    if exists i, x :: LetterMatchAt(t, i, x) {
      var i, x :| LetterMatchAt(t, i, x);
      LetterAtMeaning(t, i, x);
    }
    if FirstLetterMatch(t, 0).Some? {
      var i := FirstLetterMatch(t, 0).value;
      LetterAtMeaning(t, i, LetterAt(t, i).value);
    }
  }

  /** The query is rejected as unparseable exactly when none of the five rules fires. */
  lemma TranslateUnparseable(q: string)
    ensures Translate(q) == Failure(Unparseable) <==> !AnyRuleFires(Lower(q))
  {
    TranslateParse(q);
    ParseFields(Lower(q));
    FirstLetterMatchFinds(Lower(q));
  }

  /** A maximal run of digits has only one end. */
  lemma DigitRunEndUnique(t: string, j: nat, e: nat)
    requires j <= e <= |t| && AllDigits(t[j..e]) && (e == |t| || !IsDigit(t[e]))
    ensures DigitRunEnd(t, j) == e
  {
  }

  /** The search of rule 2 stops at the first position where the expression matches. */
  lemma FirstLongerThanIs(t: string, i: nat)
    requires LongerThanAt(t, i)
    requires forall k :: 0 <= k < i ==> !LongerThanAt(t, k)
    ensures FirstLongerThan(t, 0) == Some(i)
  {
  }

  /** The number rule 2 reads at a match is the value of the whole digit run there. */
  lemma LongerThanNumberIs(t: string, i: nat, e: nat)
    requires LongerThanAt(t, i)
    requires i + |LongerThan| <= e <= |t|
    requires AllDigits(t[i + |LongerThan|..e])
    requires e == |t| || !IsDigit(t[e])
    ensures LongerThanDigits(t, i) == t[i + |LongerThan|..e]
    ensures LongerThanNumber(t, i) == DecimalValue(t[i + |LongerThan|..e])
  {
    DigitRunEndUnique(t, i + |LongerThan|, e);
  }

  /** The leftmost match of rule 2 is followed by more digits than `int()` accepts. */
  ghost predicate ReadsLongNumber(t: string)
  {
    exists i :: LongerThanAt(t, i) && (forall k :: 0 <= k < i ==> !LongerThanAt(t, k))
      && DigitRunEnd(t, i + |LongerThan|) - (i + |LongerThan|) > MaxStrDigits
  }

  /** The limit check on the search's result means the description without the search. */
  lemma IntLimitMeaning(t: string)
    ensures IntLimitExceeded(t) <==> ReadsLongNumber(t)
  {
    if ReadsLongNumber(t) {
      var i :| LongerThanAt(t, i) && (forall k :: 0 <= k < i ==> !LongerThanAt(t, k))
        && DigitRunEnd(t, i + |LongerThan|) - (i + |LongerThan|) > MaxStrDigits;
      FirstLongerThanIs(t, i);
    }
  }

  /** The query is refused for its number exactly when rule 2's leftmost match has too many digits. */
  lemma TranslateTooManyDigits(q: string)
    ensures Translate(q) == Failure(TooManyDigits) <==> ReadsLongNumber(Lower(q))
  {
    TranslateParse(q);
    IntLimitMeaning(Lower(q));
  }

  /** Rule 2 at its leftmost match writes one more than the whole digit run there. */
  lemma MinLengthRuleAt(t: string, i: nat, e: nat)
    requires LongerThanAt(t, i)
    requires forall k :: 0 <= k < i ==> !LongerThanAt(t, k)
    requires i + |LongerThan| <= e <= |t|
    requires AllDigits(t[i + |LongerThan|..e])
    requires e == |t| || !IsDigit(t[e])
    ensures MinLengthRule(t) == Some(DecimalValue(t[i + |LongerThan|..e]) + 1)
    ensures IntLimitExceeded(t) <==> e - (i + |LongerThan|) > MaxStrDigits
  {
    FirstLongerThanIs(t, i);
    LongerThanNumberIs(t, i, e);
  }

  /** Whatever rule 2 writes becomes the lower bound; no later rule touches it. */
  lemma TranslateSetsMinLength(q: string)
    requires MinLengthRule(Lower(q)).Some? && !IntLimitExceeded(Lower(q))
    ensures Translate(q).Success?
    ensures Translate(q).value.minLength == MinLengthRule(Lower(q))
  {
    TranslateParse(q);
    ParseFields(Lower(q));
  }

  /**
   * Rule 2 at its leftmost match, with no more digits than `int()` accepts: the
   * bound is one more than the whole digit run there.
   */
  lemma TranslateMinLength(q: string, i: nat, e: nat)
    requires LongerThanAt(Lower(q), i)
    requires forall k :: 0 <= k < i ==> !LongerThanAt(Lower(q), k)
    requires i + |LongerThan| <= e <= |Lower(q)|
    requires AllDigits(Lower(q)[i + |LongerThan|..e])
    requires e == |Lower(q)| || !IsDigit(Lower(q)[e])
    requires e - (i + |LongerThan|) <= MaxStrDigits
    ensures Translate(q).Success?
    ensures Translate(q).value.minLength == Some(DecimalValue(Lower(q)[i + |LongerThan|..e]) + 1)
  {
    MinLengthRuleAt(Lower(q), i, e);
    TranslateSetsMinLength(q);
  }

  /** Without "longer than" and a digit no lower bound is set. */
  lemma TranslateNoMinLength(q: string)
    requires forall i :: !LongerThanAt(Lower(q), i)
    ensures Translate(q).Success? ==> Translate(q).value.minLength.None?
  {
    TranslateParse(q);
    ParseFields(Lower(q));
  }

  /**
   * "first vowel" yields the letter a, whatever the letter rule captured before
   * it, unless rule 2 already raised on its number.
   */
  lemma TranslateFirstVowel(q: string)
    requires Occurs(Lower(q), FirstVowel)
    requires !ReadsLongNumber(Lower(q))
    ensures Translate(q).Success?
    ensures Translate(q).value.containsCharacter == Some('a')
  {
    IntLimitMeaning(Lower(q));
    TranslateParse(q);
    ParseFields(Lower(q));
  }

  /**
   * Without "first vowel", and unless rule 2 raised on its number, the letter
   * captured at the leftmost match of rule 4 is the filter.
   */
  lemma TranslateLetter(q: string, i: nat, x: char)
    requires !Occurs(Lower(q), FirstVowel)
    requires LetterMatchAt(Lower(q), i, x)
    requires forall k, y :: 0 <= k < i ==> !LetterMatchAt(Lower(q), k, y)
    requires !ReadsLongNumber(Lower(q))
    ensures Translate(q).Success?
    ensures Translate(q).value.containsCharacter == Some(x) && IsLowerLetter(x)
  {
    IntLimitMeaning(Lower(q));
    TranslateParse(q);
    ParseFields(Lower(q));
    var t := Lower(q);
    LetterAtMeaning(t, i, x);
    var r := FirstLetterMatch(t, 0);
    assert r.Some?;
    LetterAtMeaning(t, r.value, LetterAt(t, r.value).value);
    assert r.value == i;
  }

  /** With neither rule 4 nor rule 5, no character filter is set. */
  lemma TranslateNoLetter(q: string)
    requires !Occurs(Lower(q), FirstVowel)
    requires forall i, x :: !LetterMatchAt(Lower(q), i, x)
    ensures Translate(q).Success? ==> Translate(q).value.containsCharacter.None?
  {
    TranslateParse(q);
    ParseFields(Lower(q));
    FirstLetterMatchFinds(Lower(q));
  }

  /**
   * Rules 1 and 3 set their fields exactly when their phrase occurs, and
   * every field the translator sets holds one of the values the rules write.
   */
  lemma TranslateFieldValues(q: string)
    ensures Translate(q).Success? ==>
      var f, t := Translate(q).value, Lower(q);
      && f.wordCount == (if MentionsOneWord(t) then Some(1) else None)
      && f.isPalindrome == (if Occurs(t, PalindromeStem) then Some(true) else None)
      && (f.minLength.Some? ==> f.minLength.value >= 1)
      && (f.containsCharacter.Some? ==> IsLowerLetter(f.containsCharacter.value))
  {
    TranslateParse(q);
    ParseFields(Lower(q));
    var t := Lower(q);
    FirstLetterMatchFinds(t);
  }

  // ------------------------------------------------------------------ samples

  /** Rule 2 needs an "l" and a digit. */
  lemma NoLongerThan(t: string)
    requires 'l' !in t || forall k :: 0 <= k < |t| ==> !IsDigit(t[k])
    ensures forall i :: !LongerThanAt(t, i)
  {
    if 'l' !in t {
      forall i
        ensures !LongerThanAt(t, i)
      {
        MissingCharNoOccurrence(t, LongerThan, 'l', i);
      }
    }
  }

  /** Rule 4 needs a "c". */
  lemma NoLetterMatch(t: string)
    requires 'c' !in t
    ensures forall i, x :: !LetterMatchAt(t, i, x)
  {
    forall i, x
      ensures !LetterMatchAt(t, i, x)
    {
      forall n | 0 <= n < |LetterPrefixes|
        ensures !OccursAt(t, LetterPrefixes[n] + [x], i)
      {
        assert (LetterPrefixes[n] + [x])[0] == 'c';
        MissingCharNoOccurrence(t, LetterPrefixes[n] + [x], 'c', i);
      }
    }
  }

  /** A match of rule 2 starts with "l" and one of rule 4 with "c". */
  lemma MatchStarts(t: string, i: nat, x: char)
    ensures LongerThanAt(t, i) ==> t[i] == 'l'
    ensures LetterMatchAt(t, i, x) ==> t[i] == 'c'
  {
    if LongerThanAt(t, i) {
      OccursAtHead(t, LongerThan, i);
    }
    if LetterMatchAt(t, i, x) {
      var n :| 0 <= n < |LetterPrefixes| && OccursAt(t, LetterPrefixes[n] + [x], i);
      OccursAtHead(t, LetterPrefixes[n] + [x], i);
    }
  }

  /** No match of rule 2 starts before the first "l". */
  lemma NoLongerThanBefore(t: string, n: nat)
    requires n <= |t| && 'l' !in t[..n]
    ensures forall i :: 0 <= i < n ==> !LongerThanAt(t, i)
  {
    forall i | 0 <= i < n
      ensures !LongerThanAt(t, i)
    {
      MatchStarts(t, i, 'a');
      assert t[..n][i] == t[i];
    }
  }

  /** No match of rule 4 starts before the first "c". */
  lemma NoLetterMatchBefore(t: string, n: nat)
    requires n <= |t| && 'c' !in t[..n]
    ensures forall i, x :: 0 <= i < n ==> !LetterMatchAt(t, i, x)
  {
    forall i, x | 0 <= i < n
      ensures !LetterMatchAt(t, i, x)
    {
      MatchStarts(t, i, x);
      assert t[..n][i] == t[i];
    }
  }
}
