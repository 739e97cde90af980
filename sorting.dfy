/** Python's `sorted(xs, key=k)` on an integer key: a stable insertion sort. */
module Sorting {

  /** `s` is in ascending order of `key`. */
  predicate SortedBy<T>(s: seq<T>, key: T -> int)
  {
    forall i, j :: 0 <= i < j < |s| ==> key(s[i]) <= key(s[j])
  }

  /** Inserts `x` before the first element whose key is not smaller. */
  function Insert<T>(x: T, s: seq<T>, key: T -> int): (r: seq<T>)
    ensures |r| == |s| + 1
  {
    if s == [] then [x]
    else if key(x) <= key(s[0]) then [x] + s
    else [s[0]] + Insert(x, s[1..], key)
  }

  /** The sorted copy of `s`: in ascending key order, and with exactly the
      elements of `s`. */
  function SortBy<T>(s: seq<T>, key: T -> int): (r: seq<T>)
    ensures |r| == |s|
    ensures SortedBy(r, key)
    ensures multiset(r) == multiset(s)
  {
    if s == [] then []
    else
      var rest := SortBy(s[1..], key);
      InsertSorted(s[0], rest, key);
      InsertPermutation(s[0], rest, key);
      assert s == [s[0]] + s[1..];
      Insert(s[0], rest, key)
  }

  lemma {:induction false} InsertPermutation<T>(x: T, s: seq<T>, key: T -> int)
    ensures multiset(Insert(x, s, key)) == multiset(s) + multiset{x}
  {
    if s != [] && key(x) > key(s[0]) {
      InsertPermutation(x, s[1..], key);
      assert s == [s[0]] + s[1..];
    }
  }

  /** Every element of an insertion is `x` or came from `s`. */
  lemma {:induction false} InsertElements<T>(x: T, s: seq<T>, key: T -> int, i: nat)
    requires i < |Insert(x, s, key)|
    ensures Insert(x, s, key)[i] == x || exists j :: 0 <= j < |s| && Insert(x, s, key)[i] == s[j]
  {
    if s != [] && key(x) > key(s[0]) && i > 0 {
      InsertElements(x, s[1..], key, i - 1);
      var r := Insert(x, s[1..], key);
      if r[i - 1] != x {
        var j :| 0 <= j < |s[1..]| && r[i - 1] == s[1..][j];
        assert Insert(x, s, key)[i] == s[j + 1];
      }
    }
  }

  lemma {:induction false} InsertSorted<T>(x: T, s: seq<T>, key: T -> int)
    requires SortedBy(s, key)
    ensures SortedBy(Insert(x, s, key), key)
  {
    if s != [] && key(x) > key(s[0]) {
      var tail := s[1..];
      InsertSorted(x, tail, key);
      var r := Insert(x, s, key);
      forall i, j | 0 <= i < j < |r|
        ensures key(r[i]) <= key(r[j])
      {
        if i == 0 {
          InsertElements(x, tail, key, j - 1);
        }
      }
    }
  }

  /** Sorting an already sorted sequence leaves it as it is. */
  lemma {:induction false} SortByOfSorted<T>(s: seq<T>, key: T -> int)
    requires SortedBy(s, key)
    ensures SortBy(s, key) == s
  {
    if s != [] {
      SortByOfSorted(s[1..], key);
      assert s == [s[0]] + s[1..];
    }
  }
}
