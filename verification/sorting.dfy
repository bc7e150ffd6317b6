/** Python's `list.sort` / `sorted`: a stable sort under a total preorder.
    Modelled as insertion sort; with a key function this is `sort(key=...)`,
    with a lexicographic order on tuples it is the plain `sort()` of tuples. */
module Sorting {

  /** Adjacent elements are in order. */
  predicate SortedBy<T>(s: seq<T>, leq: (T, T) -> bool) {
    forall i :: 0 < i < |s| ==> leq(s[i - 1], s[i])
  }

  ghost predicate Total<T(!new)>(leq: (T, T) -> bool) {
    forall a, b :: leq(a, b) || leq(b, a)
  }

  /** Inserts `x` after the longest prefix of elements that are `leq` it. */
  function Insert<T>(s: seq<T>, x: T, leq: (T, T) -> bool): (r: seq<T>)
    ensures |r| == |s| + 1
  {
    if |s| == 0 then [x]
    else if leq(s[0], x) then [s[0]] + Insert(s[1..], x, leq)
    else [x] + s
  }

  lemma InsertFacts<T(!new)>(s: seq<T>, x: T, leq: (T, T) -> bool)
    ensures multiset(Insert(s, x, leq)) == multiset(s) + multiset{x}
    ensures |s| > 0 ==> Insert(s, x, leq)[0] == s[0] || Insert(s, x, leq)[0] == x
    ensures SortedBy(s, leq) && Total(leq) ==> SortedBy(Insert(s, x, leq), leq)
  {
    InsertPermutes(s, x, leq);
    if SortedBy(s, leq) && Total(leq) {
      InsertSorted(s, x, leq);
    }
  }

  /** Inserting adds exactly `x`, and the head is the old head or `x`. */
  lemma {:induction false} InsertPermutes<T>(s: seq<T>, x: T, leq: (T, T) -> bool)
    ensures multiset(Insert(s, x, leq)) == multiset(s) + multiset{x}
    ensures |s| > 0 ==> Insert(s, x, leq)[0] == s[0] || Insert(s, x, leq)[0] == x
    decreases |s|
  {
    if |s| > 0 {
      assert s == [s[0]] + s[1..];
      if leq(s[0], x) {
        InsertPermutes(s[1..], x, leq);
      }
    }
  }

  /** Inserting into an ordered sequence keeps it ordered. */
  lemma {:induction false} InsertSorted<T(!new)>(s: seq<T>, x: T, leq: (T, T) -> bool)
    requires SortedBy(s, leq) && Total(leq)
    ensures SortedBy(Insert(s, x, leq), leq)
    decreases |s|
  {
    if |s| > 0 && leq(s[0], x) {
      var t := s[1..];
      assert SortedBy(t, leq) by {
        forall i | 0 < i < |t|
          ensures leq(t[i - 1], t[i])
        {
          assert t[i - 1] == s[i] && t[i] == s[i + 1];
        }
      }
      InsertSorted(t, x, leq);
      InsertPermutes(t, x, leq);
      var r := Insert(s, x, leq);
      var u := Insert(t, x, leq);
      assert r == [s[0]] + u;
      forall i | 0 < i < |r|
        ensures leq(r[i - 1], r[i])
      {
        if i == 1 {
          if |t| > 0 && u[0] == t[0] {
            assert leq(s[0], s[1]);
          }
        } else {
          assert r[i - 1] == u[i - 2] && r[i] == u[i - 1];
        }
      }
    } else if |s| > 0 {
      var r := Insert(s, x, leq);
      assert r == [x] + s;
      forall i | 0 < i < |r|
        ensures leq(r[i - 1], r[i])
      {
        if i > 1 {
          assert r[i - 1] == s[i - 2] && r[i] == s[i - 1];
        }
      }
    }
  }

  /** Insertion sort. */
  function Sort<T>(s: seq<T>, leq: (T, T) -> bool): (r: seq<T>)
    ensures |r| == |s|
  {
    if |s| == 0 then []
    else Insert(Sort(s[..|s| - 1], leq), s[|s| - 1], leq)
  }

  /** The sort returns an ordered permutation of its input. */
  lemma {:induction false} SortFacts<T(!new)>(s: seq<T>, leq: (T, T) -> bool)
    ensures multiset(Sort(s, leq)) == multiset(s)
    ensures Total(leq) ==> SortedBy(Sort(s, leq), leq)
    decreases |s|
  {
    if |s| > 0 {
      assert s == s[..|s| - 1] + [s[|s| - 1]];
      SortFacts(s[..|s| - 1], leq);
      InsertFacts(Sort(s[..|s| - 1], leq), s[|s| - 1], leq);
    }
  }

  /** The order `sort(key=key)` uses. */
  function KeyLeq<T>(key: T -> real): (T, T) -> bool {
    (a: T, b: T) => key(a) <= key(b)
  }

  lemma KeyLeqTotal<T(!new)>(key: T -> real)
    ensures Total(KeyLeq(key))
  {
  }

  /** `sorted(s, key=key)`. */
  function SortByKey<T(!new)>(s: seq<T>, key: T -> real): (r: seq<T>)
    ensures |r| == |s|
    ensures multiset(r) == multiset(s)
    ensures forall i, j :: 0 <= i < j < |r| ==> key(r[i]) <= key(r[j])
  {
    KeyLeqTotal(key);
    var r := Sort(s, KeyLeq(key));
    SortFacts(s, KeyLeq(key));
    SortedKeyAllPairs(r, key);
    r
  }

  lemma {:induction false} SortedKeyAllPairs<T>(s: seq<T>, key: T -> real)
    requires SortedBy(s, KeyLeq(key))
    ensures forall i, j :: 0 <= i < j < |s| ==> key(s[i]) <= key(s[j])
    decreases |s|
  {
    if |s| > 1 {
      var t := s[..|s| - 1];
      assert SortedBy(t, KeyLeq(key)) by {
        forall i | 0 < i < |t|
          ensures KeyLeq(key)(t[i - 1], t[i])
        {
          assert t[i - 1] == s[i - 1] && t[i] == s[i];
        }
      }
      SortedKeyAllPairs(t, key);
      forall i, j | 0 <= i < j < |s|
        ensures key(s[i]) <= key(s[j])
      {
        if j < |s| - 1 {
          assert s[i] == t[i] && s[j] == t[j];
        } else if i < |s| - 2 {
          assert s[i] == t[i] && s[|s| - 2] == t[|s| - 2];
          assert KeyLeq(key)(s[|s| - 2], s[|s| - 1]);
        } else {
          assert KeyLeq(key)(s[|s| - 2], s[|s| - 1]);
        }
      }
    }
  }

  /** The elements of `s` whose key is `c`, in their order in `s`. */
  function WithKey<T>(s: seq<T>, key: T -> real, c: real): (r: seq<T>)
    ensures |r| <= |s|
  {
    if |s| == 0 then []
    else WithKey(s[..|s| - 1], key, c) + (if key(s[|s| - 1]) == c then [s[|s| - 1]] else [])
  }

  lemma {:induction false} WithKeyAppend<T>(a: seq<T>, b: seq<T>, key: T -> real, c: real)
    ensures WithKey(a + b, key, c) == WithKey(a, key, c) + WithKey(b, key, c)
    decreases |b|
  {
    if |b| == 0 {
      assert a + b == a;
    } else {
      var ab := a + b;
      assert ab[..|ab| - 1] == a + b[..|b| - 1];
      WithKeyAppend(a, b[..|b| - 1], key, c);
    }
  }

  lemma {:induction false} WithKeyAllAbove<T>(s: seq<T>, key: T -> real, c: real)
    requires forall i :: 0 <= i < |s| ==> key(s[i]) > c
    ensures WithKey(s, key, c) == []
    decreases |s|
  {
    if |s| > 0 {
      WithKeyAllAbove(s[..|s| - 1], key, c);
    }
  }

  /** Inserting into a key-sorted list puts `x` after every element of equal key. */
  lemma {:induction false} InsertStable<T(!new)>(s: seq<T>, x: T, key: T -> real, c: real)
    requires SortedBy(s, KeyLeq(key))
    ensures WithKey(Insert(s, x, KeyLeq(key)), key, c)
         == WithKey(s, key, c) + (if key(x) == c then [x] else [])
    decreases |s|
  {
    var leq := KeyLeq(key);
    if |s| == 0 {
      assert WithKey([x], key, c) == WithKey([], key, c) + (if key(x) == c then [x] else []);
    } else if leq(s[0], x) {
      var t := s[1..];
      assert SortedBy(t, leq) by {
        forall i | 0 < i < |t|
          ensures leq(t[i - 1], t[i])
        {
          assert t[i - 1] == s[i] && t[i] == s[i + 1];
        }
      }
      InsertStable(t, x, key, c);
      WithKeyAppend([s[0]], Insert(t, x, leq), key, c);
      assert s == [s[0]] + t;
      WithKeyAppend([s[0]], t, key, c);
    } else {
      SortedKeyAllPairs(s, key);
      if key(x) == c {
        WithKeyAllAbove(s, key, c);
      }
      WithKeyAppend([x], s, key, c);
      assert WithKey([x], key, c) == WithKey([], key, c) + (if key(x) == c then [x] else []);
    }
  }

  /** `sort(key=key)` is stable: elements of equal key keep their relative order. */
  lemma {:induction false} SortByKeyStable<T(!new)>(s: seq<T>, key: T -> real, c: real)
    ensures WithKey(SortByKey(s, key), key, c) == WithKey(s, key, c)
    decreases |s|
  {
    if |s| > 0 {
      var init := s[..|s| - 1];
      SortByKeyStable(init, key, c);
      KeyLeqTotal(key);
      SortFacts(init, KeyLeq(key));
      InsertStable(Sort(init, KeyLeq(key)), s[|s| - 1], key, c);
    }
  }
}
