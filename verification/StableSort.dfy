/** Python's list sort by an integer key: stable, in ascending order. */
module StableSort {

  ghost predicate Sorted<T>(key: T -> int, s: seq<T>) {
    forall i, j :: 0 <= i < j < |s| ==> key(s[i]) <= key(s[j])
  }

  /** Insertion behind the elements with an equal key. */
  function Insert<T>(key: T -> int, s: seq<T>, x: T): (r: seq<T>)
    ensures |r| == |s| + 1
  {
    if s == [] || key(s[|s| - 1]) <= key(x) then s + [x]
    else Insert(key, s[..|s| - 1], x) + [s[|s| - 1]]
  }

  function Sort<T>(key: T -> int, s: seq<T>): (r: seq<T>)
    ensures |r| == |s|
  {
    if s == [] then [] else Insert(key, Sort(key, s[..|s| - 1]), s[|s| - 1])
  }

  lemma {:induction false} InsertMember<T>(key: T -> int, s: seq<T>, x: T, y: T)
    ensures y in Insert(key, s, x) <==> y in s || y == x
  {
    if s != [] {
      assert s == s[..|s| - 1] + [s[|s| - 1]];
      InsertMember(key, s[..|s| - 1], x, y);
    }
  }

  lemma {:induction false} InsertMultiset<T>(key: T -> int, s: seq<T>, x: T)
    ensures multiset(Insert(key, s, x)) == multiset(s) + multiset{x}
  {
    if s != [] {
      assert s == s[..|s| - 1] + [s[|s| - 1]];
      InsertMultiset(key, s[..|s| - 1], x);
    }
  }

  lemma SortedLast<T>(key: T -> int, s: seq<T>, x: T)
    requires Sorted(key, s) && forall y :: y in s ==> key(y) <= key(x)
    ensures Sorted(key, s + [x])
  {
  }

  lemma {:induction false} InsertSorted<T>(key: T -> int, s: seq<T>, x: T)
    requires Sorted(key, s)
    ensures Sorted(key, Insert(key, s, x))
  {
    if s == [] || key(s[|s| - 1]) <= key(x) {
      SortedLast(key, s, x);
    } else {
      var front, last := s[..|s| - 1], s[|s| - 1];
      InsertSorted(key, front, x);
      forall y | y in Insert(key, front, x)
        ensures key(y) <= key(last)
      {
        InsertMember(key, front, x, y);
      }
      SortedLast(key, Insert(key, front, x), last);
    }
  }

  lemma {:induction false} SortSorted<T>(key: T -> int, s: seq<T>)
    ensures Sorted(key, Sort(key, s))
    ensures multiset(Sort(key, s)) == multiset(s)
  {
    if s != [] {
      var front := s[..|s| - 1];
      SortSorted(key, front);
      InsertSorted(key, Sort(key, front), s[|s| - 1]);
      InsertMultiset(key, Sort(key, front), s[|s| - 1]);
      assert s == front + [s[|s| - 1]];
    }
  }

  /** A sorted list is left as it is. */
  lemma {:induction false} SortIdle<T>(key: T -> int, s: seq<T>)
    requires Sorted(key, s)
    ensures Sort(key, s) == s
  {
    if s != [] {
      var front := s[..|s| - 1];
      SortIdle(key, front);
      assert s == front + [s[|s| - 1]];
    }
  }

  lemma SortIdleBehind<T>(key: T -> int, s: seq<T>, n: nat)
    requires n <= |s| && Sorted(key, s)
    ensures Sort(key, s[n..]) == s[n..]
  {
    SortIdle(key, s[n..]);
  }

  /** The elements that satisfy `p`, in their order. */
  function Select<T>(p: T -> bool, s: seq<T>): seq<T> {
    if s == [] then []
    else
      var front := Select(p, s[..|s| - 1]);
      if p(s[|s| - 1]) then front + [s[|s| - 1]] else front
  }

  lemma SelectLast<T>(p: T -> bool, s: seq<T>, x: T)
    ensures Select(p, s + [x]) == if p(x) then Select(p, s) + [x] else Select(p, s)
  {
    assert (s + [x])[..|s|] == s;
  }

  lemma {:induction false} SelectFirst<T>(p: T -> bool, s: seq<T>)
    requires s != []
    ensures Select(p, s) == if p(s[0]) then [s[0]] + Select(p, s[1..]) else Select(p, s[1..])
  {
    if |s| > 1 {
      SelectFirst(p, s[..|s| - 1]);
      assert s[..|s| - 1][1..] == s[1..][..|s| - 2];
    }
  }

  /** A tail of which nothing is selected does not matter. */
  lemma {:induction false} SelectFront<T>(p: T -> bool, s: seq<T>, n: nat)
    requires n <= |s| && forall j :: n <= j < |s| ==> !p(s[j])
    ensures Select(p, s[..n]) == Select(p, s)
  {
    if n < |s| {
      SelectFront(p, s[..|s| - 1], n);
      assert s[..|s| - 1][..n] == s[..n];
    } else {
      assert s[..n] == s;
    }
  }

  lemma {:induction false} SelectMember<T>(p: T -> bool, s: seq<T>, x: T)
    ensures x in Select(p, s) <==> x in s && p(x)
  {
    if s != [] {
      SelectMember(p, s[..|s| - 1], x);
      assert s == s[..|s| - 1] + [s[|s| - 1]];
    }
  }

  /** Inserting at the end of what is not larger leaves that in place. */
  lemma {:induction false} InsertBehind<T>(key: T -> int, a: seq<T>, s: seq<T>, x: T)
    requires forall y :: y in a ==> key(y) <= key(x)
    ensures Insert(key, a + s, x) == a + Insert(key, s, x)
  {
    if s == [] {
      assert a + s == a;
    } else if key(s[|s| - 1]) > key(x) {
      InsertBehind(key, a, s[..|s| - 1], x);
      assert (a + s)[..|a + s| - 1] == a + s[..|s| - 1];
    }
  }

  lemma {:induction false} SelectInsert<T>(key: T -> int, p: T -> bool, s: seq<T>, x: T)
    requires Sorted(key, s)
    ensures Select(p, Insert(key, s, x)) == if p(x) then Insert(key, Select(p, s), x) else Select(p, s)
  {
    if s == [] || key(s[|s| - 1]) <= key(x) {
      SelectLast(p, s, x);
      forall y | y in Select(p, s)
        ensures key(y) <= key(x)
      {
        SelectMember(p, s, y);
      }
    } else {
      var front, last := s[..|s| - 1], s[|s| - 1];
      SelectInsert(key, p, front, x);
      SelectLast(p, Insert(key, front, x), last);
      if p(last) {
        assert Select(p, s)[..|Select(p, s)| - 1] == Select(p, front);
      }
    }
  }

  /** Selecting from the sorted list is sorting the selection. */
  lemma {:induction false} SelectSort<T>(key: T -> int, p: T -> bool, s: seq<T>)
    ensures Select(p, Sort(key, s)) == Sort(key, Select(p, s))
  {
    if s != [] {
      var front, last := s[..|s| - 1], s[|s| - 1];
      SelectSort(key, p, front);
      SortSorted(key, front);
      SelectInsert(key, p, Sort(key, front), last);
      if p(last) {
        assert Select(p, s)[..|Select(p, s)| - 1] == Select(p, front);
      }
    }
  }

  function HasKey<T>(key: T -> int, v: int): T -> bool {
    (x: T) => key(x) == v
  }

  /** The sort is stable: elements of one key keep their order. */
  lemma SortStable<T>(key: T -> int, s: seq<T>, v: int)
    ensures Select(HasKey(key, v), Sort(key, s)) == Select(HasKey(key, v), s)
  {
    var p := HasKey(key, v);
    SelectSort(key, p, s);
    forall i, j | 0 <= i < j < |Select(p, s)|
      ensures key(Select(p, s)[i]) <= key(Select(p, s)[j])
    {
      SelectMember(p, s, Select(p, s)[i]);
      SelectMember(p, s, Select(p, s)[j]);
    }
    SortIdle(key, Select(p, s));
  }

  lemma SameElements<T>(a: seq<T>, b: seq<T>)
    requires multiset(a) == multiset(b)
    ensures forall x :: x in a <==> x in b
  {
    forall x
      ensures x in a <==> x in b
    {
      assert x in a <==> x in multiset(a);
      assert x in b <==> x in multiset(b);
    }
  }
}
