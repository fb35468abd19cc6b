/** A stable sort by an integer key. Every ordering in the app is a
    comparator of the form `key(a) - key(b)` (a timestamp or a vote count,
    possibly negated for descending order); `Array.prototype.sort` is stable,
    so elements whose keys tie keep the order they arrived in. */
module Sorting {

  predicate SortedBy<T>(key: T -> int, s: seq<T>)
  {
    forall i, j :: 0 <= i < j < |s| ==> key(s[i]) <= key(s[j])
  }

  /** The elements of `s` whose key is `k`, in the order of `s`. */
  function Ties<T>(key: T -> int, s: seq<T>, k: int): (r: seq<T>)
    ensures forall x :: x in r ==> x in s && key(x) == k
  {
    if s == [] then [] else (if key(s[0]) == k then [s[0]] else []) + Ties(key, s[1..], k)
  }

  lemma {:induction false} TiesOfConstant<T>(key: T -> int, s: seq<T>, k: int)
    requires forall i :: 0 <= i < |s| ==> key(s[i]) == k
    ensures Ties(key, s, k) == s
  {
    if s != [] {
      TiesOfConstant(key, s[1..], k);
    }
  }

  lemma InMultiset<T>(x: T, s: seq<T>, t: seq<T>)
    requires multiset(s) == multiset(t) && x in s
    ensures x in t
  {
    assert x in multiset(s);
  }

  /** Puts `x` in front of the first element whose key is not below its own,
      so `x` comes first among the elements it ties with. */
  function Insert<T>(key: T -> int, x: T, s: seq<T>): (r: seq<T>)
    requires SortedBy(key, s)
    ensures SortedBy(key, r)
    ensures multiset(r) == multiset(s) + multiset{x}
    ensures forall k :: Ties(key, r, k) == (if key(x) == k then [x] else []) + Ties(key, s, k)
  {
    if s == [] then
      assert [x][1..] == [];
      [x]
    else if key(x) <= key(s[0]) then
      assert ([x] + s)[1..] == s;
      [x] + s
    else
      var rest := Insert(key, x, s[1..]);
      InsertBehind(key, x, s, rest);
      [s[0]] + rest
  }

  /** The recursive case of Insert: `x` goes behind `s[0]`, into the rest. */
  lemma InsertBehind<T>(key: T -> int, x: T, s: seq<T>, rest: seq<T>)
    requires SortedBy(key, s) && s != [] && key(s[0]) < key(x)
    requires SortedBy(key, rest)
    requires multiset(rest) == multiset(s[1..]) + multiset{x}
    requires forall k :: Ties(key, rest, k) == (if key(x) == k then [x] else []) + Ties(key, s[1..], k)
    ensures SortedBy(key, [s[0]] + rest)
    ensures multiset([s[0]] + rest) == multiset(s) + multiset{x}
    ensures forall k :: Ties(key, [s[0]] + rest, k) == (if key(x) == k then [x] else []) + Ties(key, s, k)
  {
    assert s == [s[0]] + s[1..];
    BehindSorted(key, x, s, rest);
    forall k ensures Ties(key, [s[0]] + rest, k) == (if key(x) == k then [x] else []) + Ties(key, s, k) {
      BehindTies(key, x, s, rest, k);
    }
  }

  lemma BehindSorted<T>(key: T -> int, x: T, s: seq<T>, rest: seq<T>)
    requires SortedBy(key, s) && s != [] && key(s[0]) < key(x)
    requires SortedBy(key, rest)
    requires multiset(rest) == multiset(s[1..]) + multiset{x}
    ensures SortedBy(key, [s[0]] + rest)
  {
    forall i | 0 <= i < |rest| ensures key(s[0]) <= key(rest[i]) {
      assert rest[i] in multiset(rest);
      if rest[i] != x {
        assert rest[i] in multiset(s[1..]);
        assert rest[i] in s[1..];
      }
    }
    var t := [s[0]] + rest;
    forall i, j | 0 <= i < j < |t| ensures key(t[i]) <= key(t[j]) {
      if i > 0 {
        assert t[i] == rest[i - 1] && t[j] == rest[j - 1];
      } else {
        assert t[j] == rest[j - 1];
      }
    }
  }

  lemma BehindTies<T>(key: T -> int, x: T, s: seq<T>, rest: seq<T>, k: int)
    requires s != [] && key(s[0]) < key(x)
    requires Ties(key, rest, k) == (if key(x) == k then [x] else []) + Ties(key, s[1..], k)
    ensures Ties(key, [s[0]] + rest, k) == (if key(x) == k then [x] else []) + Ties(key, s, k)
  {
  }

  function Sort<T>(key: T -> int, s: seq<T>): (r: seq<T>)
    ensures SortedBy(key, r)
    ensures multiset(r) == multiset(s)
    ensures |r| == |s|
    ensures forall k :: Ties(key, r, k) == Ties(key, s, k)
  {
    if s == [] then []
    else
      assert s == [s[0]] + s[1..];
      Insert(key, s[0], Sort(key, s[1..]))
  }

  /** When every key is the same, sorting changes nothing. */
  lemma {:induction false} SortOfTiesIsIdentity<T>(key: T -> int, s: seq<T>, k: int)
    requires forall i :: 0 <= i < |s| ==> key(s[i]) == k
    ensures Sort(key, s) == s
  {
    var r := Sort(key, s);
    forall i | 0 <= i < |r| ensures key(r[i]) == k {
      InMultiset(r[i], r, s);
    }
    TiesOfConstant(key, s, k);
    TiesOfConstant(key, r, k);
  }
}
