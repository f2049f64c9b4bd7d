/**
 * The property engine: `compute_properties`, which derives a fixed record of
 * properties from a string. Every field has a definition here as a function
 * of the string; `ComputeProperties` builds the record the way the service
 * does, with the frequency table filled in by a loop.
 */
module PropertyEngine {
  import opened Text
  import opened Utf8

  datatype PropertyRecord = PropertyRecord(
    length: nat,
    isPalindrome: bool,
    uniqueCharacters: nat,
    wordCount: nat,
    sha256Hash: string,
    characterFrequency: map<char, nat>)

  // ---------------------------------------------------------------- palindrome

  /** The lower-cased string reads the same backwards. */
  predicate IsPalindrome(v: string)
  {
    Lower(v) == Reverse(Lower(v))
  }

  /** A palindrome is a string whose i-th and i-th-from-last characters agree up to case. */
  lemma PalindromeMirror(v: string)
    ensures IsPalindrome(v) <==>
      forall i :: 0 <= i < |v| ==> LowerChar(v[i]) == LowerChar(v[|v| - 1 - i])
  {
    if forall i :: 0 <= i < |v| ==> LowerChar(v[i]) == LowerChar(v[|v| - 1 - i]) {
      assert Lower(v) == Reverse(Lower(v));
    }
    if IsPalindrome(v) {
      forall i | 0 <= i < |v|
        ensures LowerChar(v[i]) == LowerChar(v[|v| - 1 - i])
      {
        assert Lower(v)[i] == Reverse(Lower(v))[i];
      }
    }
  }

  /** The empty string and every single character are palindromes. */
  lemma PalindromeShort(v: string)
    requires |v| <= 1
    ensures IsPalindrome(v)
  {
    PalindromeMirror(v);
  }

  /** Reversing the input does not change whether it is a palindrome. */
  lemma PalindromeReverse(v: string)
    ensures IsPalindrome(Reverse(v)) == IsPalindrome(v)
  {
    LowerReverse(v);
    ReverseReverse(Lower(v));
    if IsPalindrome(v) {
      assert Lower(Reverse(v)) == Reverse(Lower(v)) == Lower(v);
    }
    if IsPalindrome(Reverse(v)) {
      calc {
        Lower(v);
        { ReverseReverse(Lower(v)); }
        Reverse(Reverse(Lower(v)));
        Reverse(Lower(Reverse(v)));
        Reverse(Reverse(Lower(Reverse(v))));
        { ReverseReverse(Lower(Reverse(v))); }
        Lower(Reverse(v));
        Reverse(Lower(v));
      }
    }
  }

  // -------------------------------------------------------- distinct characters

  /** `set(v)`: the characters of `v`, case-sensitive. */
  function CharSet(v: string): set<char>
  {
    set c | c in v
  }

  /** There are never more distinct characters than characters, and none only in the empty string. */
  lemma {:induction false} UniqueBound(v: string)
    ensures |CharSet(v)| <= |v|
    ensures |CharSet(v)| == 0 <==> v == []
  {
    if v != [] {
      var init := v[..|v| - 1];
      assert CharSet(v) == CharSet(init) + {v[|v| - 1]} by {
        assert v == init + [v[|v| - 1]];
      }
      UniqueBound(init);
      assert v[|v| - 1] in CharSet(v);
    }
  }

  // ---------------------------------------------------------------------- words

  /** `s.lstrip()`: drops the leading whitespace. */
  function TrimStart(s: string): (r: string)
    ensures |r| <= |s| && r == s[|s| - |r|..]
    ensures r == [] || !IsSpace(r[0])
    ensures forall k :: 0 <= k < |s| - |r| ==> IsSpace(s[k])
  {
    if s != [] && IsSpace(s[0]) then TrimStart(s[1..]) else s
  }

  /** `s.rstrip()`: drops the trailing whitespace. */
  function TrimEnd(s: string): (r: string)
    ensures |r| <= |s| && r == s[..|r|]
    ensures r == [] || !IsSpace(r[|r| - 1])
    ensures forall k :: |r| <= k < |s| ==> IsSpace(s[k])
  {
    if s != [] && IsSpace(s[|s| - 1]) then TrimEnd(s[..|s| - 1]) else s
  }

  /** `s.strip()`. */
  function Strip(s: string): string
  {
    TrimEnd(TrimStart(s))
  }

  /** The length of the run of non-whitespace characters that starts `s`. */
  function WordLength(s: string): (n: nat)
    ensures n <= |s|
    ensures forall k :: 0 <= k < n ==> !IsSpace(s[k])
    ensures n == |s| || IsSpace(s[n])
  {
    if s != [] && !IsSpace(s[0]) then 1 + WordLength(s[1..]) else 0
  }

  /** `s.split()`: the maximal runs of non-whitespace characters, in order. */
  function Split(s: string): seq<string>
    decreases |s|
  {
    var t := TrimStart(s);
    if t == [] then []
    else
      var n := WordLength(t);
      [t[..n]] + Split(t[n..])
  }

  /** `0 if v.strip() == "" else len(v.split())`. */
  function WordCount(v: string): nat
  {
    if Strip(v) == [] then 0 else |Split(v)|
  }

  /** A word starts at `i`: a non-whitespace character at the start or after whitespace. */
  predicate WordStartsAt(s: string, i: nat)
    requires i < |s|
  {
    !IsSpace(s[i]) && (i == 0 || IsSpace(s[i - 1]))
  }

  /** The number of maximal non-whitespace runs of `s`, counted by where they start. */
  function WordStarts(s: string): nat
  {
    if s == [] then 0
    else WordStarts(s[..|s| - 1]) + (if WordStartsAt(s, |s| - 1) then 1 else 0)
  }

  /** `v.strip()` is empty exactly when `v` is all whitespace. */
  lemma StripEmpty(s: string)
    ensures Strip(s) == [] <==> forall k :: 0 <= k < |s| ==> IsSpace(s[k])
  {
  }

  /** Every word `split()` returns is non-empty and holds no whitespace. */
  lemma SplitWords(s: string)
    ensures forall w :: w in Split(s) ==> w != [] && forall k :: 0 <= k < |w| ==> !IsSpace(w[k])
    decreases |s|
  {
    var t := TrimStart(s);
    if t != [] {
      SplitWords(t[WordLength(t)..]);
    }
  }

  /** Counting run starts is additive when the two parts meet at whitespace. */
  lemma {:induction false} WordStartsConcat(a: string, b: string)
    requires a == [] || b == [] || IsSpace(a[|a| - 1]) || IsSpace(b[0])
    ensures WordStarts(a + b) == WordStarts(a) + WordStarts(b)
  {
    if b == [] {
      assert a + b == a;
    } else {
      var b' := b[..|b| - 1];
      assert (a + b)[..|a + b| - 1] == a + b';
      if b' != [] {
        assert b'[0] == b[0];
      }
      WordStartsConcat(a, b');
      assert WordStartsAt(a + b, |a + b| - 1) == WordStartsAt(b, |b| - 1);
    }
  }

  /** All-whitespace text starts no word. */
  lemma {:induction false} WordStartsSpaces(s: string)
    requires forall k :: 0 <= k < |s| ==> IsSpace(s[k])
    ensures WordStarts(s) == 0
  {
    if s != [] {
      WordStartsSpaces(s[..|s| - 1]);
    }
  }

  /** A non-empty run of non-whitespace characters starts exactly one word. */
  lemma {:induction false} WordStartsWord(s: string)
    requires s != []
    requires forall k :: 0 <= k < |s| ==> !IsSpace(s[k])
    ensures WordStarts(s) == 1
  {
    if |s| > 1 {
      WordStartsWord(s[..|s| - 1]);
    } else {
      assert s[..0] == [];
    }
  }

  /** Leading whitespace starts no word. */
  lemma TrimStartStarts(s: string)
    ensures WordStarts(s) == WordStarts(TrimStart(s))
  {
    var t := TrimStart(s);
    var p := s[..|s| - |t|];
    assert s == p + t;
    WordStartsSpaces(p);
    WordStartsConcat(p, t);
  }

  /** A text that starts with a word starts one more word than what follows that word. */
  lemma LeadingWordStarts(t: string)
    requires t != [] && !IsSpace(t[0])
    ensures WordStarts(t) == 1 + WordStarts(t[WordLength(t)..])
  {
    var n := WordLength(t);
    var w, rest := t[..n], t[n..];
    assert t == w + rest;
    WordStartsWord(w);
    WordStartsConcat(w, rest);
  }

  /** `split()` returns one word per maximal non-whitespace run. */
  lemma {:induction false} SplitCountsRuns(s: string)
    ensures |Split(s)| == WordStarts(s)
    decreases |s|
  {
    TrimStartStarts(s);
    var t := TrimStart(s);
    if t != [] {
      LeadingWordStarts(t);
      SplitCountsRuns(t[WordLength(t)..]);
    }
  }

  /** There are never more run starts than characters. */
  lemma {:induction false} WordStartsBound(s: string)
    ensures WordStarts(s) <= |s|
  {
    if s != [] {
      WordStartsBound(s[..|s| - 1]);
    }
  }

  /**
   * The word count is the number of maximal non-whitespace runs; the strip
   * test in front of `split()` changes nothing. It is 0 exactly for empty or
   * all-whitespace strings and never exceeds the length.
   */
  lemma WordCountFacts(v: string)
    ensures WordCount(v) == |Split(v)| == WordStarts(v)
    ensures WordCount(v) == 0 <==> forall k :: 0 <= k < |v| ==> IsSpace(v[k])
    ensures WordCount(v) <= |v|
  {
    StripEmpty(v);
    SplitCountsRuns(v);
    WordStartsBound(v);
    if forall k :: 0 <= k < |v| ==> IsSpace(v[k]) {
      WordStartsSpaces(v);
    } else {
      var k :| 0 <= k < |v| && !IsSpace(v[k]);
      var t := TrimStart(v);
      assert t != [];
    }
  }

  // ------------------------------------------------------------------ frequency

  /** The frequency table: each character of `v` mapped to how often it occurs. */
  function Frequency(v: string): map<char, nat>
  {
    map c | c in multiset(v) :: multiset(v)[c]
  }

  /** `freq[ch] = freq.get(ch, 0) + 1`. */
  function Bump(m: map<char, nat>, c: char): (r: map<char, nat>)
    ensures r.Keys == m.Keys + {c}
  {
    m[c := (if c in m then m[c] else 0) + 1]
  }

  /** The sum of all counts in a table. */
  ghost function TotalCount(m: map<char, nat>): nat
    decreases |m|
  {
    if m == map[] then 0
    else
      var k :| k in m;
      assert (m - {k}).Keys == m.Keys - {k};
      m[k] + TotalCount(m - {k})
  }

  /** The sum can be taken with any key first. */
  lemma TotalCountRemove(m: map<char, nat>, k: char)
    requires k in m
    ensures TotalCount(m) == m[k] + TotalCount(m - {k})
    decreases |m|
  {
    var j :| j in m && TotalCount(m) == m[j] + TotalCount(m - {j});
    if j != k {
      assert (m - {j}).Keys == m.Keys - {j};
      assert (m - {k}).Keys == m.Keys - {k};
      TotalCountRemove(m - {j}, k);
      TotalCountRemove(m - {k}, j);
      assert m - {j} - {k} == m - {k} - {j};
    }
  }

  /** One more occurrence adds one to the total. */
  lemma TotalCountBump(m: map<char, nat>, c: char)
    ensures TotalCount(Bump(m, c)) == TotalCount(m) + 1
  {
    var b := Bump(m, c);
    TotalCountRemove(b, c);
    assert b - {c} == m - {c};
    if c in m {
      TotalCountRemove(m, c);
    } else {
      assert m - {c} == m;
    }
  }

  /** Appending a character to the text bumps its count in the table. */
  lemma FrequencySnoc(s: string, x: char)
    ensures Frequency(s + [x]) == Bump(Frequency(s), x)
  {
    assert multiset(s + [x]) == multiset(s) + multiset{x};
  }

  /**
   * The frequency table has the string's characters as keys, every count at
   * least 1, counts that sum to the length, and as many keys as the string
   * has distinct characters.
   */
  lemma {:induction false} FrequencyFacts(v: string)
    ensures Frequency(v).Keys == CharSet(v)
    ensures forall c :: c in Frequency(v) ==> Frequency(v)[c] >= 1
    ensures TotalCount(Frequency(v)) == |v|
    ensures |Frequency(v).Keys| == |CharSet(v)|
  {
    if v == [] {
      assert Frequency(v) == map[];
    } else {
      var init, x := v[..|v| - 1], v[|v| - 1];
      assert v == init + [x];
      FrequencyFacts(init);
      FrequencySnoc(init, x);
      TotalCountBump(Frequency(init), x);
    }
  }

  // ----------------------------------------------------------------- the record

  /** The record the service stores for `v`; `sha256Hex` stands for `hashlib.sha256(...).hexdigest()`. */
  function PropertiesOf(v: string, sha256Hex: seq<Byte> -> string): PropertyRecord
  {
    PropertyRecord(
      |v|, IsPalindrome(v), |CharSet(v)|, WordCount(v), sha256Hex(Encode(v)), Frequency(v))
  }

  /** `compute_properties`: the scalar fields as expressions, the frequency table by a loop. */
  method ComputeProperties(v: string, sha256Hex: seq<Byte> -> string) returns (p: PropertyRecord)
    ensures p == PropertiesOf(v, sha256Hex)
  {
    var freq: map<char, nat> := map[];
    for i := 0 to |v|
      invariant freq == Frequency(v[..i])
    {
      assert v[..i + 1] == v[..i] + [v[i]];
      FrequencySnoc(v[..i], v[i]);
      freq := Bump(freq, v[i]);
    }
    assert v[..|v|] == v;
    p := PropertyRecord(|v|, IsPalindrome(v), |CharSet(v)|, WordCount(v), sha256Hex(Encode(v)), freq);
  }

  /**
   * The invariants every stored record satisfies: the counts in the table sum
   * to the length and there is one key per distinct character, there are no
   * more distinct characters or words than characters, and the digest is taken
   * of the string's UTF-8 bytes.
   */
  lemma RecordInvariants(v: string, sha256Hex: seq<Byte> -> string)
    ensures var p := PropertiesOf(v, sha256Hex);
      && p.length == |v|
      && p.characterFrequency.Keys == CharSet(v)
      && TotalCount(p.characterFrequency) == p.length
      && |p.characterFrequency.Keys| == p.uniqueCharacters <= p.length
      && (p.uniqueCharacters == 0 <==> p.length == 0)
      && p.wordCount <= p.length
      && p.sha256Hash == sha256Hex(Encode(v))
  {
    FrequencyFacts(v);
    UniqueBound(v);
    WordCountFacts(v);
  }

  /** Two strings hash the same input bytes exactly when they are the same string. */
  lemma HashInputDeterminesValue(v: string, w: string)
    ensures Encode(v) == Encode(w) <==> v == w
  {
    if Encode(v) == Encode(w) {
      EncodeInjective(v, w);
    }
  }

  /** The empty string: length 0, no words, no characters, a palindrome, an empty table. */
  lemma EmptyStringRecord(sha256Hex: seq<Byte> -> string)
    ensures var p := PropertiesOf("", sha256Hex);
      p.length == 0 && p.wordCount == 0 && p.uniqueCharacters == 0 && p.isPalindrome
      && p.characterFrequency == map[]
  {
    PalindromeShort("");
    assert CharSet("") == {};
  }

  /** "A" is a palindrome and "Aa" has two distinct characters: distinctness is case-sensitive. */
  lemma SampleSingleLetters(a: string, aa: string, sha256Hex: seq<Byte> -> string)
    requires a == "A" && aa == "Aa"
    ensures PropertiesOf(a, sha256Hex).isPalindrome
    ensures PropertiesOf(aa, sha256Hex).uniqueCharacters == 2
  {
    PalindromeShort(a);
    assert CharSet(aa) == {'A', 'a'};
  }

  /** "level" is a palindrome. */
  lemma SampleLevelPalindrome()
    ensures IsPalindrome("level")
  {
    PalindromeMirror("level");
  }

  /** "race a car" is not a palindrome: the spaces are compared like any other character. */
  lemma SampleRaceACarPalindrome(sha256Hex: seq<Byte> -> string)
    ensures !PropertiesOf("race a car", sha256Hex).isPalindrome
  {
    var rc := "race a car";
    assert Lower(rc)[3] == LowerChar('e') == 'e';
    assert Reverse(Lower(rc))[3] == Lower(rc)[6] == ' ';
  }

  /** "race a car" has three maximal non-whitespace runs. */
  lemma SampleRaceACarRuns()
    ensures WordStarts("race a car") == 3
  {
    var race, a, car, sp := "race", "a", "car", " ";
    WordStartsWord(race);
    WordStartsWord(a);
    WordStartsWord(car);
    WordStartsConcat(race, sp);
    WordStartsConcat(a, sp);
    WordStartsConcat(race + sp, a + sp);
    WordStartsConcat(race + sp + (a + sp), car);
    assert race + sp + (a + sp) + car == "race a car";
  }

  /** "race a car" has three words. */
  lemma SampleRaceACarWords()
    ensures WordCount("race a car") == 3
  {
    WordCountFacts("race a car");
    SampleRaceACarRuns();
  }
}
