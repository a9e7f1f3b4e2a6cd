/** The search box: the character check on a query, and the case-insensitive
    substring filter over first and last names. */
module Search {
  import opened Records

  /** A character of the class [A-Za-z0-9]. */
  predicate IsAsciiAlnum(c: char)
  {
    ('a' <= c <= 'z') || ('A' <= c <= 'Z') || ('0' <= c <= '9')
  }

  /** Whether the pattern [^a-zA-Z0-9] finds a match somewhere in `s`, scanning left to right. */
  function HasInvalidChar(s: string): (b: bool)
    ensures b <==> exists i :: 0 <= i < |s| && !IsAsciiAlnum(s[i])
  {
    if s == [] then false
    else if !IsAsciiAlnum(s[0]) then true
    else
      var rest := HasInvalidChar(s[1..]);
      assert forall i :: 1 <= i < |s| ==> s[i] == s[1..][i - 1];
      rest
  }

  /** A query is accepted exactly when every one of its characters is an ASCII letter
      or digit; in particular the empty query is accepted. */
  function ValidateInput(searchString: string): (ok: bool)
    ensures ok <==> forall i :: 0 <= i < |searchString| ==> IsAsciiAlnum(searchString[i])
  {
    !HasInvalidChar(searchString)
  }

  /** ASCII case folding of one character: 'A'..'Z' become 'a'..'z', all else is kept. */
  function LowerChar(c: char): char
  {
    if 'A' <= c <= 'Z' then (c as int - 'A' as int + 'a' as int) as char else c
  }

  /** ASCII case folding of a string, character by character: same length, every
      upper-case ASCII letter replaced by its lower-case counterpart, every other
      character kept, so that no upper-case ASCII letter remains. */
  function Lower(s: string): (r: string)
    ensures |r| == |s|
    ensures forall i :: 0 <= i < |s| ==> !('A' <= r[i] <= 'Z')
    ensures forall i :: 0 <= i < |s| && 'A' <= s[i] <= 'Z' ==>
      'a' <= r[i] <= 'z' && r[i] as int - 'a' as int == s[i] as int - 'A' as int
    ensures forall i :: 0 <= i < |s| && !('A' <= s[i] <= 'Z') ==> r[i] == s[i]
  {
    seq(|s|, i requires 0 <= i < |s| => LowerChar(s[i]))
  }

  /** Folding twice is folding once. */
  lemma LowerIdempotent(s: string)
    ensures Lower(Lower(s)) == Lower(s)
  {
  }

  /** `needle` occurs in `hay` starting at index i. */
  predicate OccursAt(hay: string, needle: string, i: int)
  {
    0 <= i && i + |needle| <= |hay| && hay[i..i + |needle|] == needle
  }

  /** `needle` is a (contiguous) substring of `hay`. */
  predicate IsSubstring(needle: string, hay: string)
  {
    exists i | 0 <= i <= |hay| :: OccursAt(hay, needle, i)
  }

  /** The first index at or after `from` where `needle` occurs in `hay`, or -1 if none. */
  function IndexFrom(hay: string, needle: string, from: nat): (r: int)
    ensures r == -1 || (from <= r && OccursAt(hay, needle, r))
    ensures r == -1 ==> forall i :: from <= i ==> !OccursAt(hay, needle, i)
    ensures r != -1 ==> forall i :: from <= i < r ==> !OccursAt(hay, needle, i)
    decreases |hay| - from
  {
    if from + |needle| > |hay| then -1
    else if hay[from..from + |needle|] == needle then from
    else IndexFrom(hay, needle, from + 1)
  }

  /** The string search the filter uses: the first occurrence of `needle` in `hay`,
      or -1 when there is none. */
  function IndexOf(hay: string, needle: string): (r: int)
    ensures r == -1 <==> !IsSubstring(needle, hay)
    ensures r != -1 ==> OccursAt(hay, needle, r) && forall i :: 0 <= i < r ==> !OccursAt(hay, needle, i)
  {
    IndexFrom(hay, needle, 0)
  }

  /** The test the filter applies to each record: the folded query is found in the
      folded first name or in the folded last name. */
  predicate Matches(s: Student, query: string): (b: bool)
    ensures b <==> NameMatches(s, query)
  {
    IndexOf(Lower(s.first), Lower(query)) != -1 || IndexOf(Lower(s.last), Lower(query)) != -1
  }

  /** Reference definition of a match, free of the search procedure. */
  predicate NameMatches(s: Student, query: string)
  {
    IsSubstring(Lower(query), Lower(s.first)) || IsSubstring(Lower(query), Lower(s.last))
  }

  /** `a` can be obtained from `b` by deleting elements, keeping the order of the rest. */
  predicate IsSubsequence<T(==)>(a: seq<T>, b: seq<T>)
    decreases |b|
  {
    if a == [] then true
    else if b == [] then false
    else if a[0] == b[0] then IsSubsequence(a[1..], b[1..])
    else IsSubsequence(a, b[1..])
  }

  /** Dropping the head of a subsequence leaves a subsequence. */
  lemma {:induction false} SubsequenceTail<T>(a: seq<T>, b: seq<T>)
    requires a != [] && IsSubsequence(a, b)
    ensures IsSubsequence(a[1..], b)
    decreases |b|, 1
  {
    if a[0] != b[0] {
      SubsequenceTail(a, b[1..]);
    }
    SubsequenceOfCons(b[0], a[1..], b[1..]);
    assert [b[0]] + b[1..] == b;
  }

  /** A subsequence of `b` stays one when an element is put in front of `b`. */
  lemma {:induction false} SubsequenceOfCons<T>(x: T, a: seq<T>, b: seq<T>)
    requires IsSubsequence(a, b)
    ensures IsSubsequence(a, [x] + b)
    decreases |b| + 1, 0
  {
    assert ([x] + b)[1..] == b;
    if a != [] && a[0] == x {
      SubsequenceTail(a, b);
    }
  }

  /** Every list is a subsequence of itself. */
  lemma {:induction false} SelfSubsequence<T>(s: seq<T>)
    ensures IsSubsequence(s, s)
  {
    if s != [] {
      SelfSubsequence(s[1..]);
    }
  }

  /** Array.prototype.filter with the name test: the records that match, in their
      original order. */
  function FilterMatching(students: seq<Student>, query: string): (r: seq<Student>)
    ensures IsSubsequence(r, students)
    ensures forall x :: x in r <==> x in students && Matches(x, query)
    ensures forall x :: multiset(r)[x] == if Matches(x, query) then multiset(students)[x] else 0
    ensures |r| <= |students|
  {
    if students == [] then []
    else
      var rest := FilterMatching(students[1..], query);
      assert students == [students[0]] + students[1..];
      if Matches(students[0], query) then
        assert ([students[0]] + rest)[1..] == rest;
        [students[0]] + rest
      else
        SubsequenceOfCons(students[0], rest, students[1..]);
        rest
  }

  /** The result of filterItems: a falsy query gives the "not filtered" sentinel,
      distinct from a filter that found nothing. */
  datatype FilterResult = NotFiltered | Filtered(list: seq<Student>)

  /** An empty query yields NotFiltered; any other query yields the order-preserving
      subsequence of `students` holding exactly the records whose folded first or last
      name contains the folded query. */
  function FilterItems(students: seq<Student>, query: string): (r: FilterResult)
    ensures r.NotFiltered? <==> query == []
    ensures r.Filtered? ==> IsSubsequence(r.list, students)
    ensures r.Filtered? ==> forall x :: x in r.list <==> x in students && NameMatches(x, query)
    ensures r.Filtered? ==> forall x ::
      multiset(r.list)[x] == if NameMatches(x, query) then multiset(students)[x] else 0
  {
    if query != [] then Filtered(FilterMatching(students, query)) else NotFiltered
  }

  /** A query that no record's first or last name contains filters the list to
      nothing (and not to the "not filtered" sentinel). */
  lemma {:induction false} NothingFound(students: seq<Student>, query: string)
    requires query != []
    requires forall x :: x in students ==> !NameMatches(x, query)
    ensures FilterItems(students, query) == Filtered([])
  {
    if students != [] {
      assert students[0] in students;
      NothingFound(students[1..], query);
    }
  }

  /** Filtering is case-insensitive: the query and its folded form select the same records. */
  lemma FilterCaseInsensitive(students: seq<Student>, query: string)
    ensures FilterItems(students, query) == FilterItems(students, Lower(query))
  {
    LowerIdempotent(query);
    assert forall x :: Matches(x, query) == Matches(x, Lower(query));
    FilterMatchingCongruent(students, query, Lower(query));
  }

  /** Two queries that every record matches alike filter a list to the same result. */
  lemma {:induction false} FilterMatchingCongruent(students: seq<Student>, q1: string, q2: string)
    requires forall x :: Matches(x, q1) == Matches(x, q2)
    ensures FilterMatching(students, q1) == FilterMatching(students, q2)
  {
    if students != [] {
      FilterMatchingCongruent(students[1..], q1, q2);
    }
  }

  /** Filtering a filtered list again with the same query changes nothing. */
  lemma {:induction false} FilterIdempotent(students: seq<Student>, query: string)
    ensures FilterMatching(FilterMatching(students, query), query) == FilterMatching(students, query)
  {
    if students != [] {
      FilterIdempotent(students[1..], query);
    }
  }

  /** Filtering distributes over concatenation: the records of an earlier part of the
      list come before those of a later part in the result. */
  lemma {:induction false} FilterAppend(a: seq<Student>, b: seq<Student>, query: string)
    ensures FilterMatching(a + b, query) == FilterMatching(a, query) + FilterMatching(b, query)
  {
    if a == [] {
      assert a + b == b;
    } else {
      assert (a + b)[1..] == a[1..] + b;
      FilterAppend(a[1..], b, query);
    }
  }

  /** The query "an" finds both "Anna Smith" and "Diana Jones": the match ignores case
      and is not anchored at the start of the name. */
  lemma AnMatchesAnnaAndDiana(anna: Student, diana: Student)
    requires anna.first == "Anna" && anna.last == "Smith"
    requires diana.first == "Diana" && diana.last == "Jones"
    ensures FilterItems([anna, diana], "an") == Filtered([anna, diana])
  {
    assert Lower("an") == "an";
    assert Lower("Anna") == "anna";
    assert OccursAt(Lower(anna.first), "an", 0);
    assert Matches(anna, "an");
    assert Lower("Diana") == "diana";
    assert OccursAt(Lower(diana.first), "an", 2);
    assert Matches(diana, "an");
    assert [anna, diana][1..] == [diana];
    assert [diana][1..] == [];
    assert FilterMatching([diana], "an") == [diana];
  }
}
