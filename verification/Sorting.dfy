/**
  Stable sorting by an integer key, as the `sorted` calls of three components
  use it.  The result is a permutation in key order, and elements with equal keys
  keep their order; `SortedUnique` shows that this determines it.
 */
module Sorting {

  ghost predicate AscendingBy<T>(key: T -> int, s: seq<T>) {
    forall i, j :: 0 <= i < j < |s| ==> key(s[i]) <= key(s[j])
  }

  /** Inserts x after all elements whose key is not larger. */
  function InsertBy<T>(key: T -> int, x: T, s: seq<T>): seq<T> {
    if s == [] || key(x) < key(s[0]) then [x] + s else [s[0]] + InsertBy(key, x, s[1..])
  }

  function SortBy<T>(key: T -> int, s: seq<T>): seq<T> {
    if s == [] then [] else InsertBy(key, s[|s| - 1], SortBy(key, s[..|s| - 1]))
  }

  lemma {:induction false} InsertByElements<T>(key: T -> int, x: T, s: seq<T>)
    ensures multiset(InsertBy(key, x, s)) == multiset(s) + multiset{x}
  {
    if s != [] {
      assert s == [s[0]] + s[1..];
      InsertByElements(key, x, s[1..]);
    }
  }

  lemma {:induction false} AscendingCons<T>(key: T -> int, a: T, x: T, s: seq<T>, t: seq<T>)
    requires AscendingBy(key, [a] + s) && key(a) <= key(x)
    requires AscendingBy(key, t) && multiset(t) == multiset(s) + multiset{x}
    ensures AscendingBy(key, [a] + t)
  {
    forall j | 0 <= j < |t|
      ensures key(a) <= key(t[j])
    {
      assert t[j] in multiset(t);
      if t[j] != x {
        assert t[j] in s;
        var i :| 0 <= i < |s| && s[i] == t[j];
        assert ([a] + s)[0] == a && ([a] + s)[i + 1] == s[i];
      }
    }
  }

  lemma {:induction false} InsertByAscending<T>(key: T -> int, x: T, s: seq<T>)
    requires AscendingBy(key, s)
    ensures AscendingBy(key, InsertBy(key, x, s))
  {
    if s != [] && key(x) >= key(s[0]) {
      InsertByAscending(key, x, s[1..]);
      InsertByElements(key, x, s[1..]);
      assert s == [s[0]] + s[1..];
      AscendingCons(key, s[0], x, s[1..], InsertBy(key, x, s[1..]));
    }
  }

  /** Sorting permutes and orders. */
  lemma {:induction false} SortBySorts<T>(key: T -> int, s: seq<T>)
    ensures multiset(SortBy(key, s)) == multiset(s)
    ensures AscendingBy(key, SortBy(key, s))
  {
    if s != [] {
      var n := |s| - 1;
      assert s == s[..n] + [s[n]];
      SortBySorts(key, s[..n]);
      InsertByElements(key, s[n], SortBy(key, s[..n]));
      InsertByAscending(key, s[n], SortBy(key, s[..n]));
    }
  }

  // ---------- Stability ----------

  /** The elements with one key, in order. */
  ghost function OfKey<T>(key: T -> int, s: seq<T>, k: int): seq<T> {
    if s == [] then []
    else (if key(s[0]) == k then [s[0]] else []) + OfKey(key, s[1..], k)
  }

  lemma {:induction false} NoneOfKey<T>(key: T -> int, s: seq<T>, k: int)
    requires forall i :: 0 <= i < |s| ==> key(s[i]) != k
    ensures OfKey(key, s, k) == []
  {
    if s != [] {
      NoneOfKey(key, s[1..], k);
    }
  }

  lemma {:induction false} OfKeyAppend<T>(key: T -> int, s: seq<T>, x: T, k: int)
    ensures OfKey(key, s + [x], k) == OfKey(key, s, k) + if key(x) == k then [x] else []
  {
    if s == [] {
      assert s + [x] == [x];
    } else {
      assert (s + [x])[1..] == s[1..] + [x];
      OfKeyAppend(key, s[1..], x, k);
      var a, b, c := if key(s[0]) == k then [s[0]] else [], OfKey(key, s[1..], k), if key(x) == k then [x] else [];
      assert a + (b + c) == a + b + c;
    }
  }

  lemma {:induction false} InsertByOfKey<T>(key: T -> int, x: T, s: seq<T>, k: int)
    requires AscendingBy(key, s)
    ensures OfKey(key, InsertBy(key, x, s), k) == OfKey(key, s, k) + if key(x) == k then [x] else []
  {
    if s != [] && key(x) < key(s[0]) {
      assert ([x] + s)[1..] == s;
      if key(x) == k {
        NoneOfKey(key, s, k);
      }
    } else if s != [] {
      InsertByOfKey(key, x, s[1..], k);
      assert InsertBy(key, x, s)[1..] == InsertBy(key, x, s[1..]);
    }
  }

  /** Elements with equal keys keep their order. */
  lemma {:induction false} SortByStable<T>(key: T -> int, s: seq<T>, k: int)
    ensures OfKey(key, SortBy(key, s), k) == OfKey(key, s, k)
  {
    if s != [] {
      var n := |s| - 1;
      assert s == s[..n] + [s[n]];
      SortByStable(key, s[..n], k);
      SortBySorts(key, s[..n]);
      InsertByOfKey(key, s[n], SortBy(key, s[..n]), k);
      OfKeyAppend(key, s[..n], s[n], k);
    }
  }

  lemma {:induction false} HeadOfKey<T>(key: T -> int, s: seq<T>)
    requires s != []
    ensures OfKey(key, s, key(s[0])) != [] && OfKey(key, s, key(s[0]))[0] == s[0]
  {
  }

  /** A key of one list is a key of every list with the same elements per key. */
  lemma {:induction false} SharedKey<T>(key: T -> int, s: seq<T>, t: seq<T>)
    requires s != [] && OfKey(key, s, key(s[0])) == OfKey(key, t, key(s[0]))
    ensures exists i :: 0 <= i < |t| && key(t[i]) == key(s[0])
  {
    HeadOfKey(key, s);
    if forall i :: 0 <= i < |t| ==> key(t[i]) != key(s[0]) {
      NoneOfKey(key, t, key(s[0]));
    }
  }

  ghost predicate SameOfKey<T>(key: T -> int, s: seq<T>, t: seq<T>, k: int) {
    OfKey(key, s, k) == OfKey(key, t, k)
  }

  lemma {:induction false} TailsAgree<T>(key: T -> int, s: seq<T>, t: seq<T>, k: int)
    requires s != [] && t != [] && s[0] == t[0] && SameOfKey(key, s, t, k)
    ensures SameOfKey(key, s[1..], t[1..], k)
  {
    var a, b := OfKey(key, s[1..], k), OfKey(key, t[1..], k);
    if key(s[0]) == k {
      assert a == ([s[0]] + a)[1..] && b == ([t[0]] + b)[1..];
    } else {
      assert [] + a == a && [] + b == b;
    }
  }

  lemma {:induction false} EmptyTogether<T>(key: T -> int, s: seq<T>, t: seq<T>)
    requires forall k :: SameOfKey(key, s, t, k)
    ensures s == [] <==> t == []
  {
    if s != [] {
      HeadOfKey(key, s);
      assert SameOfKey(key, s, t, key(s[0]));
    }
    if t != [] {
      HeadOfKey(key, t);
      assert SameOfKey(key, s, t, key(t[0]));
    }
  }

  /** Two ascending lists with the same elements in the same order per key are equal. */
  lemma {:induction false} SortedUnique<T>(key: T -> int, s: seq<T>, t: seq<T>)
    requires AscendingBy(key, s) && AscendingBy(key, t)
    requires forall k :: SameOfKey(key, s, t, k)
    ensures s == t
  {
    EmptyTogether(key, s, t);
    if s != [] {
      assert SameOfKey(key, s, t, key(s[0]));
      SharedKey(key, s, t);
      assert SameOfKey(key, s, t, key(t[0]));
      SharedKey(key, t, s);
      HeadOfKey(key, s);
      HeadOfKey(key, t);
      assert key(s[0]) == key(t[0]);
      forall k
        ensures SameOfKey(key, s[1..], t[1..], k)
      {
        assert SameOfKey(key, s, t, k);
        TailsAgree(key, s, t, k);
      }
      SortedUnique(key, s[1..], t[1..]);
      assert s == [s[0]] + s[1..] && t == [t[0]] + t[1..];
    }
  }

  // ---------- Distinct keys ----------

  ghost predicate ApartBy<T>(key: T -> int, s: seq<T>) {
    forall i, j :: 0 <= i < j < |s| ==> key(s[i]) != key(s[j])
  }

  predicate StrictlyIncreasing(s: seq<int>) {
    forall i, j :: 0 <= i < j < |s| ==> s[i] < s[j]
  }

  ghost predicate StrictBy<T>(key: T -> int, s: seq<T>) {
    forall i, j :: 0 <= i < j < |s| ==> key(s[i]) < key(s[j])
  }

  lemma {:induction false} OneOfKey<T>(key: T -> int, s: seq<T>, k: int)
    requires ApartBy(key, s)
    ensures |OfKey(key, s, k)| <= 1
  {
    if s != [] {
      if key(s[0]) == k {
        NoneOfKey(key, s[1..], k);
      } else {
        OneOfKey(key, s[1..], k);
      }
    }
  }

  lemma {:induction false} SomeOfKey<T>(key: T -> int, s: seq<T>, i: nat)
    requires i < |s|
    ensures |OfKey(key, s, key(s[i]))| >= 1
  {
    if i > 0 {
      SomeOfKey(key, s[1..], i - 1);
    }
  }

  lemma {:induction false} TwoOfKey<T>(key: T -> int, s: seq<T>, i: nat, j: nat)
    requires i < j < |s| && key(s[i]) == key(s[j])
    ensures |OfKey(key, s, key(s[i]))| >= 2
  {
    if i > 0 {
      TwoOfKey(key, s[1..], i - 1, j - 1);
    } else {
      SomeOfKey(key, s[1..], j - 1);
    }
  }

  /** Without equal keys the result ascends strictly. */
  lemma {:induction false} SortByApart<T>(key: T -> int, s: seq<T>)
    requires ApartBy(key, s)
    ensures StrictBy(key, SortBy(key, s))
  {
    var t := SortBy(key, s);
    SortBySorts(key, s);
    forall i, j | 0 <= i < j < |t|
      ensures key(t[i]) < key(t[j])
    {
      if key(t[i]) == key(t[j]) {
        TwoOfKey(key, t, i, j);
        SortByStable(key, s, key(t[i]));
        OneOfKey(key, s, key(t[i]));
      }
    }
  }
}
