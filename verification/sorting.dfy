/** Sorting by a two-level key. The game sorts lock-on candidates by distance
    (a stable sort, so equal distances keep enemy order) and the score service
    orders rows by time and then by creation time; both orders are a
    lexicographic comparison of two numbers. */
module Sorting {

  /** A sort key compared lexicographically: first `major`, then `minor`. */
  datatype Key = Key(major: real, minor: real)

  predicate KeyLe(a: Key, b: Key) {
    a.major < b.major || (a.major == b.major && a.minor <= b.minor)
  }

  ghost predicate SortedBy<T>(s: seq<T>, key: T -> Key) {
    forall i, j :: 0 <= i < j < |s| ==> KeyLe(key(s[i]), key(s[j]))
  }

  /** Every element of `s` has a key at least `b`. */
  ghost predicate AllAbove<T>(s: seq<T>, key: T -> Key, b: Key) {
    forall i :: 0 <= i < |s| ==> KeyLe(b, key(s[i]))
  }

  /** Inserts `x` into `s` before the first element it does not exceed. */
  function InsertBy<T(==)>(x: T, s: seq<T>, key: T -> Key): (r: seq<T>)
    ensures |r| == |s| + 1
    ensures multiset(r) == multiset(s) + multiset{x}
    decreases |s|
  {
    if |s| == 0 then [x]
    else if KeyLe(key(x), key(s[0])) then [x] + s
    else
      assert s == [s[0]] + s[1..];
      [s[0]] + InsertBy(x, s[1..], key)
  }

  /** A lower bound of `x` and of all of `s` bounds the insertion result. */
  lemma {:induction false} InsertByAbove<T>(x: T, s: seq<T>, key: T -> Key, b: Key)
    requires KeyLe(b, key(x)) && AllAbove(s, key, b)
    ensures AllAbove(InsertBy(x, s, key), key, b)
    decreases |s|
  {
    if |s| > 0 && !KeyLe(key(x), key(s[0])) {
      InsertByAbove(x, s[1..], key, b);
      var r := InsertBy(x, s, key);
      assert r == [s[0]] + InsertBy(x, s[1..], key);
      forall i | 0 <= i < |r| ensures KeyLe(b, key(r[i])) {
        if i > 0 {
          assert r[i] == InsertBy(x, s[1..], key)[i - 1];
        }
      }
    }
  }

  /** Inserting into a sorted sequence keeps it sorted. */
  lemma {:induction false} InsertBySorted<T>(x: T, s: seq<T>, key: T -> Key)
    requires SortedBy(s, key)
    ensures SortedBy(InsertBy(x, s, key), key)
    decreases |s|
  {
    if |s| > 0 && !KeyLe(key(x), key(s[0])) {
      var tail := InsertBy(x, s[1..], key);
      InsertBySorted(x, s[1..], key);
      InsertByAbove(x, s[1..], key, key(s[0]));
      var r := InsertBy(x, s, key);
      assert r == [s[0]] + tail;
      forall i, j | 0 <= i < j < |r| ensures KeyLe(key(r[i]), key(r[j])) {
        assert r[j] == tail[j - 1];
        if i > 0 {
          assert r[i] == tail[i - 1];
        }
      }
    } else if |s| > 0 {
      var r := InsertBy(x, s, key);
      assert r == [x] + s;
      forall i, j | 0 <= i < j < |r| ensures KeyLe(key(r[i]), key(r[j])) {
        assert r[j] == s[j - 1];
        if i > 0 {
          assert r[i] == s[i - 1];
        }
      }
    }
  }

  /** Insertion sort by `key`: a sorted permutation of `s`. */
  function SortBy<T(==)>(s: seq<T>, key: T -> Key): (r: seq<T>)
    ensures |r| == |s|
    ensures multiset(r) == multiset(s)
    ensures SortedBy(r, key)
    decreases |s|
  {
    if |s| == 0 then []
    else
      var n := |s| - 1;
      assert s == s[..n] + [s[n]];
      var sorted := SortBy(s[..n], key);
      InsertBySorted(s[n], sorted, key);
      InsertBy(s[n], sorted, key)
  }

  /** No element occurs twice. */
  ghost predicate Distinct<T>(s: seq<T>) {
    forall i, j :: 0 <= i < j < |s| ==> s[i] != s[j]
  }

  /** In a sequence without repeats every element occurs at most once. */
  lemma {:induction false} DistinctOccursOnce<T>(s: seq<T>, x: T)
    requires Distinct(s)
    ensures multiset(s)[x] <= 1
    decreases |s|
  {
    if |s| > 0 {
      var n := |s| - 1;
      assert s == s[..n] + [s[n]];
      DistinctOccursOnce(s[..n], x);
      if s[n] == x {
        assert x !in s[..n] by {
          forall k | 0 <= k < n ensures s[..n][k] != x {
            assert s[..n][k] == s[k];
          }
        }
      }
    }
  }

  /** An element at two positions occurs at least twice. */
  lemma RepeatOccursTwice<T>(s: seq<T>, i: nat, j: nat)
    requires i < j < |s| && s[i] == s[j]
    ensures multiset(s)[s[i]] >= 2
  {
    assert s == s[..j] + s[j..];
    assert s[i] == s[..j][i] && s[j] == s[j..][0];
  }

  /** A permutation of a sequence without repeats has none either. */
  lemma DistinctPermutation<T>(s: seq<T>, t: seq<T>)
    requires Distinct(s) && multiset(s) == multiset(t)
    ensures Distinct(t)
  {
    forall i, j | 0 <= i < j < |t| ensures t[i] != t[j] {
      if t[i] == t[j] {
        RepeatOccursTwice(t, i, j);
        DistinctOccursOnce(s, t[i]);
      }
    }
  }
}
