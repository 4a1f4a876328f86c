/** Putting events in the order of an integer key, such as their time. */
module Sorting {

  ghost predicate SortedBy<T>(s: seq<T>, key: T -> int)
  {
    forall i, j :: 0 <= i < j < |s| ==> key(s[i]) <= key(s[j])
  }

  ghost predicate NoDuplicates<T>(s: seq<T>)
  {
    forall i, j :: 0 <= i < j < |s| ==> s[i] != s[j]
  }

  ghost function Insert<T(!new)>(x: T, s: seq<T>, key: T -> int): (r: seq<T>)
    ensures |r| == |s| + 1
    ensures forall y :: y in r <==> y == x || y in s
  {
    if s == [] || key(x) <= key(s[0]) then [x] + s
    else
      assert s == [s[0]] + s[1..];
      [s[0]] + Insert(x, s[1..], key)
  }

  lemma {:induction false} InsertSorted<T(!new)>(x: T, s: seq<T>, key: T -> int)
    requires SortedBy(s, key)
    ensures SortedBy(Insert(x, s, key), key)
  {
    if s != [] && key(x) > key(s[0]) {
      var rest := Insert(x, s[1..], key);
      InsertSorted(x, s[1..], key);
      forall i | 0 <= i < |rest| ensures key(s[0]) <= key(rest[i]) {
        assert rest[i] in rest;
        LeastFirst(s, key, rest[i]);
      }
    }
  }

  lemma LeastFirst<T>(s: seq<T>, key: T -> int, y: T)
    requires SortedBy(s, key) && s != []
    ensures y in s ==> key(s[0]) <= key(y)
  {
  }

  lemma {:induction false} InsertDistinct<T(!new)>(x: T, s: seq<T>, key: T -> int)
    requires NoDuplicates(s) && x !in s
    ensures NoDuplicates(Insert(x, s, key))
  {
    if s != [] && key(x) > key(s[0]) {
      var rest := Insert(x, s[1..], key);
      assert x !in s[1..] && s[0] !in s[1..];
      InsertDistinct(x, s[1..], key);
      assert s[0] !in rest;
    }
  }

  ghost function Sort<T(!new)>(s: seq<T>, key: T -> int): (r: seq<T>)
    ensures SortedBy(r, key) && |r| == |s|
    ensures forall y :: y in r <==> y in s
    ensures NoDuplicates(s) ==> NoDuplicates(r)
  {
    if s == [] then []
    else
      assert s == [s[0]] + s[1..];
      var rest := Sort(s[1..], key);
      InsertSorted(s[0], rest, key);
      assert NoDuplicates(s) ==> s[0] !in s[1..];
      assert NoDuplicates(s) ==> NoDuplicates(Insert(s[0], rest, key)) by {
        if NoDuplicates(s) {
          InsertDistinct(s[0], rest, key);
        }
      }
      Insert(s[0], rest, key)
  }

  /** The elements of a finite set, in some order. */
  ghost function Listing<T(!new)>(s: set<T>): (r: seq<T>)
    ensures NoDuplicates(r) && forall y :: y in r <==> y in s
  {
    if s == {} then []
    else
      var x :| x in s;
      [x] + Listing(s - {x})
  }

  /** Where `x` stands in a list, counted from one; zero if nowhere. */
  ghost function Rank<T>(s: seq<T>, x: T): (n: nat)
    ensures n <= |s|
    ensures n == 0 <==> x !in s
    ensures n > 0 ==> s[n - 1] == x
  {
    if s == [] then 0
    else if s[|s| - 1] == x then |s|
    else Rank(s[..|s| - 1], x)
  }

  lemma RankUnique<T>(s: seq<T>, i: nat)
    requires NoDuplicates(s) && i < |s|
    ensures Rank(s, s[i]) == i + 1
  {
    var n := Rank(s, s[i]);
    assert s[n - 1] == s[i];
  }

  lemma RanksDiffer<T>(s: seq<T>, x: T, y: T)
    requires x in s && y in s && x != y
    ensures Rank(s, x) != Rank(s, y)
  {
  }
}
