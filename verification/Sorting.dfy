/** The results of std::sort and std::stable_sort. */
module Sorting {
  ghost predicate TotalOrder<T(!new)>(atMost: (T, T) -> bool) {
    && (forall a, b :: atMost(a, b) || atMost(b, a))
    && forall a, b, c :: atMost(a, b) && atMost(b, c) ==> atMost(a, c)
  }

  predicate Ordered<T>(atMost: (T, T) -> bool, s: seq<T>) {
    forall i, j :: 0 <= i < j < |s| ==> atMost(s[i], s[j])
  }

  function Insert<T>(atMost: (T, T) -> bool, x: T, s: seq<T>): (r: seq<T>)
    ensures |r| == |s| + 1
  {
    if s == [] || atMost(x, s[0]) then [x] + s else [s[0]] + Insert(atMost, x, s[1..])
  }

  function Sort<T>(atMost: (T, T) -> bool, s: seq<T>): (r: seq<T>)
    ensures |r| == |s|
  {
    if s == [] then [] else Insert(atMost, s[0], Sort(atMost, s[1..]))
  }

  lemma OrderedFront<T(!new)>(atMost: (T, T) -> bool, x: T, s: seq<T>)
    requires TotalOrder(atMost) && Ordered(atMost, s) && (s == [] || atMost(x, s[0]))
    ensures Ordered(atMost, [x] + s)
  {
    forall j | 0 <= j < |s| ensures atMost(x, s[j]) {
      if j > 0 { assert atMost(s[0], s[j]); }
    }
  }

  lemma {:induction false} InsertSorts<T(!new)>(atMost: (T, T) -> bool, x: T, s: seq<T>)
    requires TotalOrder(atMost) && Ordered(atMost, s)
    ensures Ordered(atMost, Insert(atMost, x, s)) && multiset(Insert(atMost, x, s)) == multiset{x} + multiset(s)
    ensures Insert(atMost, x, s)[0] == x || (s != [] && Insert(atMost, x, s)[0] == s[0])
  {
    if s == [] || atMost(x, s[0]) {
      OrderedFront(atMost, x, s);
    } else {
      InsertSorts(atMost, x, s[1..]);
      OrderedFront(atMost, s[0], Insert(atMost, x, s[1..]));
      assert s == [s[0]] + s[1..];
    }
  }

  /** Sorting permutes into order... */
  lemma {:induction false} SortSorts<T(!new)>(atMost: (T, T) -> bool, s: seq<T>)
    requires TotalOrder(atMost)
    ensures Ordered(atMost, Sort(atMost, s)) && multiset(Sort(atMost, s)) == multiset(s)
  {
    if s != [] {
      SortSorts(atMost, s[1..]);
      InsertSorts(atMost, s[0], Sort(atMost, s[1..]));
      assert s == [s[0]] + s[1..];
    }
  }

  /** ... and leaves what is in order as it is. */
  lemma {:induction false} SortOrdered<T>(atMost: (T, T) -> bool, s: seq<T>)
    requires Ordered(atMost, s)
    ensures Sort(atMost, s) == s
  {
    if s != [] { SortOrdered(atMost, s[1..]); }
  }
}
