/**
 * Structured filters and the listing of stored strings: the range check that
 * `list_strings` makes before scanning, the per-row predicates, and the scan
 * that keeps the rows that pass, in order.
 */
module Filters {
  import opened Wrappers
  import opened Utf8
  import opened PropertyEngine

  /** The optional query parameters; `None` is a parameter that was not supplied. */
  datatype FilterSet = FilterSet(
    isPalindrome: Option<bool>,
    minLength: Option<nat>,
    maxLength: Option<nat>,
    wordCount: Option<nat>,
    containsCharacter: Option<char>)

  const NoFilters: FilterSet := FilterSet(None, None, None, None, None)

  /** A stored row. Its creation time is not modelled. */
  datatype Entry = Entry(id: string, value: string, properties: PropertyRecord)

  /** What `list_strings` returns: the matching rows, their number and the filters echoed back. */
  datatype Listing = Listing(data: seq<Entry>, count: nat, filtersApplied: FilterSet)

  datatype ListError = MinLengthExceedsMaxLength

  /** Both bounds are supplied and the lower one is above the upper one. */
  predicate Conflicting(f: FilterSet)
  {
    f.minLength.Some? && f.maxLength.Some? && f.minLength.value > f.maxLength.value
  }

  /** How often `c` occurs according to the table; an absent key counts as 0. */
  function CountOf(freq: map<char, nat>, c: char): nat
  {
    if c in freq then freq[c] else 0
  }

  /** A record passes every supplied predicate. */
  predicate Matches(p: PropertyRecord, f: FilterSet)
  {
    && (f.isPalindrome.Some? ==> p.isPalindrome == f.isPalindrome.value)
    && (f.minLength.Some? ==> p.length >= f.minLength.value)
    && (f.maxLength.Some? ==> p.length <= f.maxLength.value)
    && (f.wordCount.Some? ==> p.wordCount == f.wordCount.value)
    && (f.containsCharacter.Some? ==> CountOf(p.characterFrequency, f.containsCharacter.value) > 0)
  }

  /** The rows whose records match, in their original order. */
  function Filtered(rows: seq<Entry>, f: FilterSet): seq<Entry>
  {
    if rows == [] then []
    else
      var last := rows[|rows| - 1];
      Filtered(rows[..|rows| - 1], f) + (if Matches(last.properties, f) then [last] else [])
  }

  /** `list_strings`: reject crossed bounds, then scan every row with an `ok` flag. */
  method ListStrings(rows: seq<Entry>, f: FilterSet) returns (r: Result<Listing, ListError>)
    ensures r.Failure? <==> Conflicting(f)
    ensures r.Failure? ==> r.error == MinLengthExceedsMaxLength
    ensures r.Success? ==> r.value.data == Filtered(rows, f)
    ensures r.Success? ==> r.value.count == |r.value.data| && r.value.filtersApplied == f
  {
    if f.minLength.Some? && f.maxLength.Some? {
      if f.minLength.value > f.maxLength.value {
        return Failure(MinLengthExceedsMaxLength);
      }
    }
    var results: seq<Entry> := [];
    for i := 0 to |rows|
      invariant results == Filtered(rows[..i], f)
    {
      var props := rows[i].properties;
      var ok := true;
      if f.isPalindrome.Some? && props.isPalindrome != f.isPalindrome.value {
        ok := false;
      }
      if f.minLength.Some? && props.length < f.minLength.value {
        ok := false;
      }
      if f.maxLength.Some? && props.length > f.maxLength.value {
        ok := false;
      }
      if f.wordCount.Some? && props.wordCount != f.wordCount.value {
        ok := false;
      }
      if f.containsCharacter.Some? {
        var charFreq := props.characterFrequency;
        var c := f.containsCharacter.value;
        if (if c in charFreq then charFreq[c] else 0) == 0 {
          ok := false;
        }
      }
      assert rows[..i + 1][..i] == rows[..i];
      if ok {
        results := results + [rows[i]];
      }
    }
    assert rows[..|rows|] == rows;
    return Success(Listing(results, |results|, f));
  }

  /** Filtering distributes over concatenation: the order of the input is kept. */
  lemma {:induction false} FilteredConcat(a: seq<Entry>, b: seq<Entry>, f: FilterSet)
    ensures Filtered(a + b, f) == Filtered(a, f) + Filtered(b, f)
  {
    if b == [] {
      assert a + b == a;
    } else {
      assert (a + b)[..|a + b| - 1] == a + b[..|b| - 1];
      FilteredConcat(a, b[..|b| - 1], f);
    }
  }

  /** Each row is kept as often as it occurs when it matches, and dropped when it does not. */
  lemma {:induction false} FilteredMultiplicity(rows: seq<Entry>, f: FilterSet, e: Entry)
    ensures multiset(Filtered(rows, f))[e] == if Matches(e.properties, f) then multiset(rows)[e] else 0
  {
    if rows != [] {
      var init := rows[..|rows| - 1];
      assert rows == init + [rows[|rows| - 1]];
      FilteredMultiplicity(init, f, e);
    }
  }

  /** The kept rows are exactly the input rows that match. */
  lemma FilteredMembers(rows: seq<Entry>, f: FilterSet)
    ensures forall e :: e in Filtered(rows, f) <==> e in rows && Matches(e.properties, f)
    ensures |Filtered(rows, f)| <= |rows|
  {
    forall e
      ensures e in Filtered(rows, f) <==> e in rows && Matches(e.properties, f)
    {
      FilteredMultiplicity(rows, f, e);
    }
    FilteredLength(rows, f);
  }

  lemma {:induction false} FilteredLength(rows: seq<Entry>, f: FilterSet)
    ensures |Filtered(rows, f)| <= |rows|
  {
    if rows != [] {
      FilteredLength(rows[..|rows| - 1], f);
    }
  }

  /** With no filter supplied every row is returned. */
  lemma {:induction false} NoFiltersKeepsAll(rows: seq<Entry>)
    ensures Filtered(rows, NoFilters) == rows
  {
    if rows != [] {
      NoFiltersKeepsAll(rows[..|rows| - 1]);
    }
  }

  /** Crossed bounds match no record, so rejecting them up front loses no row. */
  lemma ConflictingMatchesNothing(f: FilterSet, p: PropertyRecord)
    requires Conflicting(f)
    ensures !Matches(p, f)
  {
  }

  /** A character filter passes the record of `v` exactly when the character occurs in `v`. */
  lemma ContainsCharacterMeansOccurs(v: string, sha256Hex: seq<Byte> -> string, c: char)
    ensures Matches(PropertiesOf(v, sha256Hex), NoFilters.(containsCharacter := Some(c))) <==> c in v
  {
    FrequencyFacts(v);
  }

  /** "level" is a palindrome of length at least 3. */
  lemma SampleLevel(sha256Hex: seq<Byte> -> string)
    ensures Matches(PropertiesOf("level", sha256Hex), NoFilters.(isPalindrome := Some(true), minLength := Some(3)))
  {
    var p := PropertiesOf("level", sha256Hex);
    assert p.isPalindrome == IsPalindrome("level") && p.length == 5;
    SampleLevelPalindrome();
  }

  /** "hello" has no "z". */
  lemma SampleHello(v: string, sha256Hex: seq<Byte> -> string)
    requires v == "hello"
    ensures !Matches(PropertiesOf(v, sha256Hex), NoFilters.(containsCharacter := Some('z')))
  {
    assert 'z' !in v;
    ContainsCharacterMeansOccurs(v, sha256Hex, 'z');
  }
}
