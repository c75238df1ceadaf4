/** `ORDER BY` over a list of sort keys: rows are compared on the first key, ties are broken by
    the next one, and so on. Each key maps a row to an integer standing for its place in that
    column's order. */
module Sorting {

  /** Lexicographic comparison on the keys: negative, zero or positive as `a` sorts before,
      level with, or after `b`. */
  function Compare<R>(keys: seq<R -> int>, a: R, b: R): (c: int)
    ensures -1 <= c <= 1
    ensures |keys| == 0 ==> c == 0
    decreases |keys|
  {
    if |keys| == 0 then 0
    else if keys[0](a) < keys[0](b) then -1
    else if keys[0](a) > keys[0](b) then 1
    else Compare(keys[1..], a, b)
  }

  /** Swapping the rows flips the comparison. */
  lemma {:induction false} CompareFlip<R>(keys: seq<R -> int>, a: R, b: R)
    ensures Compare(keys, a, b) == -Compare(keys, b, a)
    decreases |keys|
  {
    if |keys| > 0 {
      CompareFlip(keys[1..], a, b);
    }
  }

  /** "Sorts no later than" is transitive. */
  lemma {:induction false} CompareTrans<R>(keys: seq<R -> int>, a: R, b: R, c: R)
    requires Compare(keys, a, b) <= 0 && Compare(keys, b, c) <= 0
    ensures Compare(keys, a, c) <= 0
    decreases |keys|
  {
    if |keys| > 0 && keys[0](a) == keys[0](b) == keys[0](c) {
      CompareTrans(keys[1..], a, b, c);
    }
  }

  /** No row sorts before an earlier one. */
  predicate Sorted<R>(keys: seq<R -> int>, s: seq<R>) {
    forall i, j | 0 <= i < j < |s| :: Compare(keys, s[i], s[j]) <= 0
  }

  /** Puts `x` into a sorted sequence, ahead of the rows it ties with. */
  function Insert<R>(keys: seq<R -> int>, x: R, s: seq<R>): (r: seq<R>)
    ensures multiset(r) == multiset(s) + multiset{x}
    ensures forall k | 0 <= k < |r| :: r[k] == x || r[k] in s
    decreases |s|
  {
    if |s| == 0 then [x]
    else if Compare(keys, x, s[0]) <= 0 then [x] + s
    else
      assert s == [s[0]] + s[1..];
      [s[0]] + Insert(keys, x, s[1..])
  }

  /** Inserting into a sorted sequence keeps it sorted. */
  lemma {:induction false} InsertSorted<R>(keys: seq<R -> int>, x: R, s: seq<R>)
    requires Sorted(keys, s)
    ensures Sorted(keys, Insert(keys, x, s))
    decreases |s|
  {
    if |s| == 0 {
    } else if Compare(keys, x, s[0]) <= 0 {
      forall j | 0 < j < |s| ensures Compare(keys, x, s[j]) <= 0 {
        CompareTrans(keys, x, s[0], s[j]);
      }
    } else {
      var tail := s[1..];
      assert Sorted(keys, tail) by {
        forall i, j | 0 <= i < j < |tail| ensures Compare(keys, tail[i], tail[j]) <= 0 {
          assert tail[i] == s[i + 1] && tail[j] == s[j + 1];
        }
      }
      InsertSorted(keys, x, tail);
      var rest := Insert(keys, x, tail);
      CompareFlip(keys, x, s[0]);
      forall k | 0 <= k < |rest| ensures Compare(keys, s[0], rest[k]) <= 0 {
        if rest[k] != x {
          var m :| 0 <= m < |tail| && tail[m] == rest[k];
          assert tail[m] == s[m + 1];
        }
      }
      assert Insert(keys, x, s) == [s[0]] + rest;
    }
  }

  /** Insertion sort: a sorted rearrangement of the rows. */
  function Sort<R>(keys: seq<R -> int>, s: seq<R>): (r: seq<R>)
    ensures multiset(r) == multiset(s)
    ensures |r| == |s|
    ensures Sorted(keys, r)
    decreases |s|
  {
    if |s| == 0 then []
    else
      assert s == [s[0]] + s[1..];
      var rest := Sort(keys, s[1..]);
      InsertSorted(keys, s[0], rest);
      Insert(keys, s[0], rest)
  }

  /** A sorted sequence stays sorted in every slice. */
  lemma SortedSlice<R>(keys: seq<R -> int>, s: seq<R>, lo: nat, hi: nat)
    requires Sorted(keys, s) && lo <= hi <= |s|
    ensures Sorted(keys, s[lo..hi])
  {
    forall i, j | 0 <= i < j < hi - lo ensures Compare(keys, s[lo..hi][i], s[lo..hi][j]) <= 0 {
      assert s[lo..hi][i] == s[lo + i] && s[lo..hi][j] == s[lo + j];
    }
  }

  /** A slice holds some of the rows of the whole. */
  lemma SliceSub<R>(s: seq<R>, lo: nat, hi: nat)
    requires lo <= hi <= |s|
    ensures multiset(s[lo..hi]) <= multiset(s)
  {
    assert s == s[..lo] + s[lo..hi] + s[hi..];
  }

  /** Without sort keys every row ties, and the rows keep their order. */
  lemma {:induction false} SortNoKeys<R>(s: seq<R>)
    ensures Sort([], s) == s
    decreases |s|
  {
    if |s| > 0 {
      SortNoKeys(s[1..]);
      assert s == [s[0]] + s[1..];
    }
  }
}
