/** The library's stable sort, and the order of strings, as every component here uses them. */
module Ordering {
  /** What the sort asks of its comparator. */
  ghost predicate TotalPreorder<T(!new)>(le: (T, T) -> bool) {
    && (forall x, y :: le(x, y) || le(y, x))
    && (forall x, y, z :: le(x, y) && le(y, z) ==> le(x, z))
  }

  ghost predicate Sorted<T>(le: (T, T) -> bool, s: seq<T>) {
    forall i, j | 0 <= i < j < |s| :: le(s[i], s[j])
  }

  /** Ordered by `le`, and by `tie` among the elements `le` cannot tell apart. */
  ghost predicate SortedThen<T>(le: (T, T) -> bool, tie: (T, T) -> bool, s: seq<T>) {
    forall i, j | 0 <= i < j < |s| :: le(s[i], s[j]) && (le(s[j], s[i]) ==> tie(s[i], s[j]))
  }

  function Insert<T>(le: (T, T) -> bool, x: T, s: seq<T>): seq<T> {
    if s == [] then [x]
    else if le(x, s[0]) then [x] + s
    else [s[0]] + Insert(le, x, s[1..])
  }

  function Sort<T>(le: (T, T) -> bool, s: seq<T>): seq<T> {
    if s == [] then [] else Insert(le, s[0], Sort(le, s[1..]))
  }

  lemma {:induction false} InsertPermutes<T>(le: (T, T) -> bool, x: T, s: seq<T>)
    ensures multiset(Insert(le, x, s)) == multiset(s) + multiset{x}
    ensures |Insert(le, x, s)| == |s| + 1
  {
    if s == [] || le(x, s[0]) {
    } else {
      InsertPermutes(le, x, s[1..]);
      assert s == [s[0]] + s[1..];
    }
  }

  lemma {:induction false} SortPermutes<T>(le: (T, T) -> bool, s: seq<T>)
    ensures multiset(Sort(le, s)) == multiset(s)
    ensures |Sort(le, s)| == |s|
  {
    if s == [] {
    } else {
      SortPermutes(le, s[1..]);
      InsertPermutes(le, s[0], Sort(le, s[1..]));
      assert s == [s[0]] + s[1..];
    }
  }

  lemma SameElements<T>(s: seq<T>, t: seq<T>)
    requires multiset(s) == multiset(t)
    ensures forall x :: x in s <==> x in t
  {
    forall x ensures x in s <==> x in t {
      assert x in s <==> x in multiset(s);
      assert x in t <==> x in multiset(t);
    }
  }

  /** Inserting what precedes everything by `tie` keeps the refined order. */
  lemma {:induction false} InsertKeepsOrder<T(!new)>(le: (T, T) -> bool, tie: (T, T) -> bool, x: T, s: seq<T>)
    requires TotalPreorder(le) && SortedThen(le, tie, s)
    requires forall y | y in s :: tie(x, y)
    ensures SortedThen(le, tie, Insert(le, x, s))
  {
    if s == [] {
    } else if le(x, s[0]) {
      forall j | 0 <= j < |s| ensures le(x, s[j]) {
        assert j > 0 ==> le(s[0], s[j]);
      }
    } else {
      var tail := Insert(le, x, s[1..]);
      InsertKeepsOrder(le, tie, x, s[1..]);
      InsertPermutes(le, x, s[1..]);
      SameElements(tail, s[1..] + [x]);
      forall j | 0 <= j < |tail| ensures le(s[0], tail[j]) && (le(tail[j], s[0]) ==> tie(s[0], tail[j])) {
        assert tail[j] in s[1..] + [x];
        if tail[j] != x {
          var k :| 0 <= k < |s[1..]| && s[1..][k] == tail[j];
          assert s[k + 1] == tail[j];
        }
      }
    }
  }

  /** The sort is stable: an order the input already had survives among equal elements. */
  lemma {:induction false} SortIsStable<T(!new)>(le: (T, T) -> bool, tie: (T, T) -> bool, s: seq<T>)
    requires TotalPreorder(le) && Sorted(tie, s)
    ensures SortedThen(le, tie, Sort(le, s))
  {
    if s == [] {
    } else {
      SortIsStable(le, tie, s[1..]);
      SortPermutes(le, s[1..]);
      SameElements(Sort(le, s[1..]), s[1..]);
      InsertKeepsOrder(le, tie, s[0], Sort(le, s[1..]));
    }
  }

  lemma SortSorts<T(!new)>(le: (T, T) -> bool, s: seq<T>)
    requires TotalPreorder(le)
    ensures Sorted(le, Sort(le, s))
  {
    var any := (x: T, y: T) => true;
    assert Sorted(any, s);
    SortIsStable(le, any, s);
  }

  ghost predicate NoDuplicates<T>(s: seq<T>) {
    forall i, j | 0 <= i < j < |s| :: s[i] != s[j]
  }

  lemma {:induction false} CountsAtMostOnce<T>(s: seq<T>)
    ensures NoDuplicates(s) <==> forall x :: multiset(s)[x] <= 1
  {
    if s == [] {
    } else {
      var before, last := s[..|s| - 1], s[|s| - 1];
      assert s == before + [last];
      CountsAtMostOnce(before);
      assert forall x :: multiset(s)[x] == multiset(before)[x] + if x == last then 1 else 0;
      assert NoDuplicates(s) <==> NoDuplicates(before) && last !in before;
      assert last in before <==> multiset(before)[last] > 0;
    }
  }

  lemma SortKeepsNoDuplicates<T>(le: (T, T) -> bool, s: seq<T>)
    requires NoDuplicates(s)
    ensures NoDuplicates(Sort(le, s))
  {
    SortPermutes(le, s);
    CountsAtMostOnce(s);
    CountsAtMostOnce(Sort(le, s));
  }

  ghost function Elements<T(!new)>(s: seq<T>): set<T> {
    set x | x in s
  }

  lemma {:induction false} DistinctElements<T(!new)>(s: seq<T>)
    requires NoDuplicates(s)
    ensures |Elements(s)| == |s|
  {
    if s == [] {
    } else {
      var before, last := s[..|s| - 1], s[|s| - 1];
      assert s == before + [last] && last !in before;
      DistinctElements(before);
      assert Elements(s) == Elements(before) + {last};
    }
  }

  /** Strings compare by their first differing character; a proper prefix comes first. */
  predicate StringLe(a: string, b: string) {
    a == [] || (b != [] && (a[0] < b[0] || (a[0] == b[0] && StringLe(a[1..], b[1..]))))
  }

  lemma {:induction false} StringLeTotal(a: string, b: string)
    ensures StringLe(a, b) || StringLe(b, a)
    ensures StringLe(a, b) && StringLe(b, a) ==> a == b
  {
    if a == [] || b == [] || a[0] != b[0] {
    } else {
      StringLeTotal(a[1..], b[1..]);
      assert a == [a[0]] + a[1..] && b == [b[0]] + b[1..];
    }
  }

  lemma {:induction false} StringLeTransitive(a: string, b: string, c: string)
    requires StringLe(a, b) && StringLe(b, c)
    ensures StringLe(a, c)
  {
    if a == [] || a[0] != b[0] || b[0] != c[0] {
    } else {
      StringLeTransitive(a[1..], b[1..], c[1..]);
    }
  }

  lemma StringLeIsAnOrder()
    ensures TotalPreorder(StringLe)
  {
    forall x, y ensures StringLe(x, y) || StringLe(y, x) {
      StringLeTotal(x, y);
    }
    forall x, y, z | StringLe(x, y) && StringLe(y, z) ensures StringLe(x, z) {
      StringLeTransitive(x, y, z);
    }
  }

  /** The elements satisfying `p`, in their order. */
  function Filter<T>(p: T -> bool, s: seq<T>): seq<T>
    decreases |s|
  {
    if s == [] then [] else Filter(p, s[..|s| - 1]) + if p(s[|s| - 1]) then [s[|s| - 1]] else []
  }

  lemma {:induction false} FilterElements<T>(p: T -> bool, s: seq<T>)
    ensures forall x :: x in Filter(p, s) <==> x in s && p(x)
    decreases |s|
  {
    if s == [] {
    } else {
      FilterElements(p, s[..|s| - 1]);
      assert s == s[..|s| - 1] + [s[|s| - 1]];
    }
  }

  lemma FilterNext<T>(p: T -> bool, s: seq<T>, i: nat)
    requires i < |s|
    ensures Filter(p, s[..i + 1]) == Filter(p, s[..i]) + if p(s[i]) then [s[i]] else []
  {
    assert s[..i + 1][..i] == s[..i];
  }
}
