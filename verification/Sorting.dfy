/**
 * The two sorts of the source language that the models use: numbers by value, and texts by their characters. Both are insertion
 * sorts here; what matters to the other modules is that a sorted list is determined by its contents, so that two lists sort
 * alike exactly when they hold the same elements equally often.
 */
module Sorting {
  import opened Common
  import opened Calendar

  predicate Sorted(s: seq<int>) {
    forall i, j | 0 <= i < j < |s| :: s[i] <= s[j]
  }

  function Insert(x: int, s: seq<int>): (r: seq<int>)
    ensures |r| == |s| + 1
  {
    if s == [] || x <= s[0] then [x] + s else [s[0]] + Insert(x, s[1..])
  }

  /** `sort((a, b) => a - b)`. */
  function Sort(s: seq<int>): (r: seq<int>)
    ensures |r| == |s|
  {
    if s == [] then [] else Insert(s[0], Sort(s[1..]))
  }

  lemma MultisetCons(x: int, s: seq<int>)
    ensures multiset([x] + s) == multiset{x} + multiset(s)
  {
  }

  lemma {:induction false} InsertContents(x: int, s: seq<int>)
    ensures multiset(Insert(x, s)) == multiset{x} + multiset(s)
  {
    if s == [] || x <= s[0] {
      MultisetCons(x, s);
    } else {
      InsertContents(x, s[1..]);
      MultisetCons(s[0], Insert(x, s[1..]));
      MultisetCons(s[0], s[1..]);
      assert s == [s[0]] + s[1..];
    }
  }

  lemma {:induction false} InsertSorted(x: int, s: seq<int>)
    requires Sorted(s)
    ensures Sorted(Insert(x, s))
    ensures forall y | y in Insert(x, s) :: y == x || y in s
  {
    if s != [] && x > s[0] {
      var rest := s[1..];
      InsertSorted(x, rest);
      var inserted := Insert(x, rest);
      assert forall i | 0 <= i < |inserted| :: inserted[i] in inserted;
      assert forall y | y in rest :: s[0] <= y;
    }
  }

  lemma {:induction false} SortContents(s: seq<int>)
    ensures Sorted(Sort(s)) && multiset(Sort(s)) == multiset(s)
  {
    if s != [] {
      SortContents(s[1..]);
      InsertSorted(s[0], Sort(s[1..]));
      InsertContents(s[0], Sort(s[1..]));
      MultisetCons(s[0], s[1..]);
      assert s == [s[0]] + s[1..];
    }
  }

  lemma FirstIsLeast(s: seq<int>, x: int)
    requires Sorted(s) && x in multiset(s)
    ensures s != [] && s[0] <= x
  {
    assert x in s;
  }

  lemma HeadInContents(s: seq<int>)
    requires s != []
    ensures s[0] in multiset(s)
  {
  }

  lemma EmptyContents(s: seq<int>)
    ensures multiset(s) == multiset{} <==> s == []
  {
    if s != [] {
      HeadInContents(s);
    }
  }

  lemma SortedTail(s: seq<int>)
    requires Sorted(s) && s != []
    ensures Sorted(s[1..])
  {
  }

  /** A sorted list is determined by its contents. */
  lemma {:induction false} SortedUnique(s: seq<int>, t: seq<int>)
    requires Sorted(s) && Sorted(t) && multiset(s) == multiset(t)
    ensures s == t
  {
    hide Sorted;
    EmptyContents(s);
    EmptyContents(t);
    if s != [] {
      HeadInContents(s);
      HeadInContents(t);
      FirstIsLeast(t, s[0]);
      FirstIsLeast(s, t[0]);
      TailsAgree(s, t);
      SortedTail(s);
      SortedTail(t);
      SortedUnique(s[1..], t[1..]);
      ConsEqual(s, t);
    }
  }

  lemma ConsEqual(s: seq<int>, t: seq<int>)
    requires s != [] && t != [] && s[0] == t[0] && s[1..] == t[1..]
    ensures s == t
  {
    assert s == [s[0]] + s[1..];
    assert t == [t[0]] + t[1..];
  }

  lemma TailsAgree(s: seq<int>, t: seq<int>)
    requires s != [] && t != [] && s[0] == t[0] && multiset(s) == multiset(t)
    ensures multiset(s[1..]) == multiset(t[1..])
  {
    TailContents(s);
    TailContents(t);
  }

  lemma TailContents(s: seq<int>)
    requires s != []
    ensures multiset(s[1..]) == multiset(s) - multiset{s[0]}
  {
    assert s == [s[0]] + s[1..];
    MultisetCons(s[0], s[1..]);
  }

  /** Two lists sort to the same list exactly when they have the same contents. */
  lemma SortSame(s: seq<int>, t: seq<int>)
    ensures Sort(s) == Sort(t) <==> multiset(s) == multiset(t)
  {
    SortContents(s);
    SortContents(t);
    if multiset(s) == multiset(t) {
      SortedUnique(Sort(s), Sort(t));
    }
  }

  lemma SortSorted(s: seq<int>)
    requires Sorted(s)
    ensures Sort(s) == s
  {
    SortContents(s);
    SortedUnique(Sort(s), s);
  }

  lemma SortMembers(s: seq<int>, x: int)
    ensures x in Sort(s) <==> x in s
  {
    SortContents(s);
    assert x in Sort(s) <==> x in multiset(Sort(s));
  }

  function InsertText(x: string, s: seq<string>): seq<string> {
    if s == [] || !Less(s[0], x) then [x] + s else [s[0]] + InsertText(x, s[1..])
  }

  /** `sort()` on texts. */
  function SortTexts(s: seq<string>): seq<string> {
    if s == [] then [] else InsertText(s[0], SortTexts(s[1..]))
  }
}
