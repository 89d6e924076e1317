/**
 * Python's `list.sort(key=k, reverse=True)` on a list: a stable sort into
 * non-increasing key order (elements with equal keys keep their order),
 * written as an insertion sort.
 */
module StableSort {

  /** Inserts `x` after every element of `s` whose key is at least `x`'s key. */
  function InsertDesc<T>(s: seq<T>, x: T, key: T -> real): (r: seq<T>)
  {
    if s == [] then [x]
    else if key(s[0]) >= key(x) then [s[0]] + InsertDesc(s[1..], x, key)
    else [x] + s
  }

  /** The stable descending sort: insert the elements one by one, in list order. */
  function SortDesc<T>(s: seq<T>, key: T -> real): (r: seq<T>)
  {
    if s == [] then [] else InsertDesc(SortDesc(s[..|s| - 1], key), s[|s| - 1], key)
  }

  /** Keys never increase from left to right. */
  ghost predicate SortedDesc<T>(s: seq<T>, key: T -> real) {
    forall i, j :: 0 <= i < j < |s| ==> key(s[i]) >= key(s[j])
  }

  /** The elements of `s` whose key is `v`, in their order in `s`. */
  function WithKey<T>(s: seq<T>, key: T -> real, v: real): seq<T> {
    if s == [] then [] else (if key(s[0]) == v then [s[0]] else []) + WithKey(s[1..], key, v)
  }

  lemma {:induction false} WithKeyAppend<T>(a: seq<T>, b: seq<T>, key: T -> real, v: real)
    ensures WithKey(a + b, key, v) == WithKey(a, key, v) + WithKey(b, key, v)
    decreases |a|
  {
    if a != [] {
      assert (a + b)[1..] == a[1..] + b;
      WithKeyAppend(a[1..], b, key, v);
    } else {
      assert a + b == b;
    }
  }

  lemma {:induction false} WithKeyNone<T>(s: seq<T>, key: T -> real, v: real)
    requires forall i :: 0 <= i < |s| ==> key(s[i]) != v
    ensures WithKey(s, key, v) == []
    decreases |s|
  {
    if s != [] {
      WithKeyNone(s[1..], key, v);
    }
  }

  /** The first element with key `v` is the head of `WithKey(s, key, v)`: no earlier element has that key. */
  lemma {:induction false} WithKeyFirst<T>(s: seq<T>, key: T -> real, v: real)
    requires WithKey(s, key, v) != []
    ensures exists p :: 0 <= p < |s| && s[p] == WithKey(s, key, v)[0] && key(s[p]) == v
                        && forall q :: 0 <= q < p ==> key(s[q]) != v
    decreases |s|
  {
    if key(s[0]) != v {
      var t := s[1..];
      WithKeyFirst(t, key, v);
      var p :| 0 <= p < |t| && t[p] == WithKey(t, key, v)[0] && key(t[p]) == v
               && forall q :: 0 <= q < p ==> key(t[q]) != v;
      assert s[p + 1] == t[p];
      forall q | 0 <= q < p + 1 ensures key(s[q]) != v {
        if q > 0 { assert s[q] == t[q - 1]; }
      }
    }
  }

  /** Insertion adds exactly `x`. */
  lemma {:induction false} InsertDescMultiset<T>(s: seq<T>, x: T, key: T -> real)
    ensures multiset(InsertDesc(s, x, key)) == multiset(s) + multiset{x}
    decreases |s|
  {
    if s != [] && key(s[0]) >= key(x) {
      InsertDescMultiset(s[1..], x, key);
      assert s == [s[0]] + s[1..];
    }
  }

  /** Inserting into a sorted list keeps it sorted. */
  lemma {:induction false} InsertDescSorted<T>(s: seq<T>, x: T, key: T -> real)
    requires SortedDesc(s, key)
    ensures SortedDesc(InsertDesc(s, x, key), key)
    decreases |s|
  {
    if s != [] && key(s[0]) >= key(x) {
      var t := s[1..];
      InsertDescSorted(t, x, key);
      InsertDescMultiset(t, x, key);
      var r := InsertDesc(s, x, key);
      var r' := InsertDesc(t, x, key);
      assert r == [s[0]] + r';
      forall j | 0 <= j < |r'| ensures key(s[0]) >= key(r'[j]) {
        assert r'[j] in multiset(r');
        if r'[j] != x {
          assert r'[j] in multiset(t);
          var m :| 0 <= m < |t| && t[m] == r'[j];
          assert t[m] == s[m + 1];
        }
      }
      forall i, j | 0 <= i < j < |r| ensures key(r[i]) >= key(r[j]) {
        assert r[j] == r'[j - 1];
        if i > 0 {
          assert r[i] == r'[i - 1];
        }
      }
    }
  }

  /** Insertion puts `x` after every element with the same key. */
  lemma {:induction false} InsertDescWithKey<T>(s: seq<T>, x: T, key: T -> real, v: real)
    requires SortedDesc(s, key)
    ensures WithKey(InsertDesc(s, x, key), key, v) == WithKey(s, key, v) + (if key(x) == v then [x] else [])
    decreases |s|
  {
    var r := InsertDesc(s, x, key);
    var tail := if key(x) == v then [x] else [];
    if s == [] {
      assert WithKey(r, key, v) == tail + WithKey([], key, v);
    } else if key(s[0]) >= key(x) {
      var t := s[1..];
      SortedTail(s, key);
      InsertDescWithKey(t, x, key, v);
      var r' := InsertDesc(t, x, key);
      var head := if key(s[0]) == v then [s[0]] else [];
      assert r == [s[0]] + r' && r[1..] == r';
      assert WithKey(r, key, v) == head + WithKey(r', key, v);
      assert WithKey(s, key, v) == head + WithKey(t, key, v);
    } else {
      assert r == [x] + s && r[1..] == s;
      if key(x) == v {
        WithKeyNone(s, key, v);
      }
    }
  }

  lemma SortedTail<T>(s: seq<T>, key: T -> real)
    requires SortedDesc(s, key) && s != []
    ensures SortedDesc(s[1..], key)
  {
    forall i, j | 0 <= i < j < |s| - 1 ensures key(s[1..][i]) >= key(s[1..][j]) {
      assert s[1..][i] == s[i + 1] && s[1..][j] == s[j + 1];
    }
  }

  /** Inserting into a sorted list keeps it sorted, adds exactly `x`, and puts `x` after its equals. */
  lemma InsertDescLaws<T>(s: seq<T>, x: T, key: T -> real)
    requires SortedDesc(s, key)
    ensures SortedDesc(InsertDesc(s, x, key), key)
    ensures multiset(InsertDesc(s, x, key)) == multiset(s) + multiset{x}
    ensures forall v :: WithKey(InsertDesc(s, x, key), key, v)
                        == WithKey(s, key, v) + (if key(x) == v then [x] else [])
  {
    InsertDescSorted(s, x, key);
    InsertDescMultiset(s, x, key);
    forall v ensures WithKey(InsertDesc(s, x, key), key, v)
                     == WithKey(s, key, v) + (if key(x) == v then [x] else []) {
      InsertDescWithKey(s, x, key, v);
    }
  }

  /**
   * The sort is sorted, a permutation of its input, and stable: for every key
   * value, the elements with that key appear in the same order as in the input.
   */
  lemma {:induction false} SortDescLaws<T>(s: seq<T>, key: T -> real)
    ensures SortedDesc(SortDesc(s, key), key)
    ensures multiset(SortDesc(s, key)) == multiset(s)
    ensures forall v :: WithKey(SortDesc(s, key), key, v) == WithKey(s, key, v)
    decreases |s|
  {
    if s != [] {
      var init, x := s[..|s| - 1], s[|s| - 1];
      SortDescLaws(init, key);
      InsertDescLaws(SortDesc(init, key), x, key);
      assert s == init + [x];
      forall v ensures WithKey(SortDesc(s, key), key, v) == WithKey(s, key, v) {
        WithKeyAppend(init, [x], key, v);
      }
    }
  }

  /** No element occurs twice. */
  ghost predicate Distinct<T>(s: seq<T>) {
    forall i, j :: 0 <= i < j < |s| ==> s[i] != s[j]
  }

  lemma {:induction false} InsertDescDistinct<T>(s: seq<T>, x: T, key: T -> real)
    requires Distinct(s) && x !in s
    ensures Distinct(InsertDesc(s, x, key))
    decreases |s|
  {
    if s != [] && key(s[0]) >= key(x) {
      var t := s[1..];
      assert Distinct(t) by {
        forall i, j | 0 <= i < j < |t| ensures t[i] != t[j] { assert t[i] == s[i + 1] && t[j] == s[j + 1]; }
      }
      assert s[0] !in t by {
        forall j | 0 <= j < |t| ensures t[j] != s[0] { assert t[j] == s[j + 1]; }
      }
      InsertDescDistinct(t, x, key);
      InsertDescMultiset(t, x, key);
      var r' := InsertDesc(t, x, key);
      assert s[0] !in multiset(r');
      var r := InsertDesc(s, x, key);
      assert r == [s[0]] + r';
      forall i, j | 0 <= i < j < |r| ensures r[i] != r[j] {
        assert r[j] == r'[j - 1];
        if i > 0 { assert r[i] == r'[i - 1]; } else { assert r[j] in multiset(r'); }
      }
    }
  }

  /** Sorting a list without repeated elements yields one without repeated elements. */
  lemma {:induction false} SortDescDistinct<T>(s: seq<T>, key: T -> real)
    requires Distinct(s)
    ensures Distinct(SortDesc(s, key))
    decreases |s|
  {
    if s != [] {
      var init, x := s[..|s| - 1], s[|s| - 1];
      assert Distinct(init) by {
        forall i, j | 0 <= i < j < |init| ensures init[i] != init[j] { assert init[i] == s[i] && init[j] == s[j]; }
      }
      assert x !in init by {
        forall j | 0 <= j < |init| ensures init[j] != x { assert init[j] == s[j]; }
      }
      SortDescDistinct(init, key);
      SortDescLaws(init, key);
      assert x !in multiset(SortDesc(init, key));
      InsertDescDistinct(SortDesc(init, key), x, key);
    }
  }
}
