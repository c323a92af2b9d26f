/**
 * The two list operations the source builds its views from:
 * `Array.prototype.filter` (Keep) and the stable `Array.prototype.sort`
 * on a copy (SortBy). Every comparator in the source orders records
 * lexicographically by at most three integers, so SortBy takes a
 * function from an element to such a Key.
 */
module Seqs {

  /** `s.filter(p)`: the elements satisfying `p`, in their original order. */
  function Keep<T>(s: seq<T>, p: T -> bool): (r: seq<T>)
    ensures |r| <= |s|
    ensures forall k :: 0 <= k < |r| ==> r[k] in s && p(r[k])
    ensures forall k :: 0 <= k < |s| && p(s[k]) ==> s[k] in r
    decreases |s|
  {
    if s == [] then []
    else (if p(s[0]) then [s[0]] else []) + Keep(s[1..], p)
  }

  /** Filtering distributes over concatenation: it keeps relative order. */
  lemma {:induction false} KeepConcat<T>(a: seq<T>, b: seq<T>, p: T -> bool)
    ensures Keep(a + b, p) == Keep(a, p) + Keep(b, p)
    decreases |a|
  {
    if a == [] {
      assert a + b == b;
    } else {
      assert (a + b)[0] == a[0];
      assert (a + b)[1..] == a[1..] + b;
      KeepConcat(a[1..], b, p);
    }
  }

  /** Filtering keeps every copy of a selected element and no other. */
  lemma {:induction false} KeepMultiset<T>(s: seq<T>, p: T -> bool)
    ensures forall x :: multiset(Keep(s, p))[x] == if p(x) then multiset(s)[x] else 0
    decreases |s|
  {
    if s != [] {
      KeepMultiset(s[1..], p);
      assert s == [s[0]] + s[1..];
    }
  }

  /** A filter that every element passes changes nothing. */
  lemma {:induction false} KeepAll<T>(s: seq<T>, p: T -> bool)
    requires forall x :: x in s ==> p(x)
    ensures Keep(s, p) == s
    decreases |s|
  {
    if s != [] {
      KeepAll(s[1..], p);
      assert s == [s[0]] + s[1..];
    }
  }

  /** A sort key: compared by rank, then tier, then value. */
  datatype Key = Key(rank: int, tier: int, value: int)

  predicate KeyLe(a: Key, b: Key)
  {
    a.rank < b.rank ||
    (a.rank == b.rank && (a.tier < b.tier || (a.tier == b.tier && a.value <= b.value)))
  }

  /** `s` is in ascending key order. */
  ghost predicate SortedBy<T>(s: seq<T>, key: T -> Key)
  {
    forall i, j :: 0 <= i < j < |s| ==> KeyLe(key(s[i]), key(s[j]))
  }

  /** Puts `x` just before the first element whose key is not below its own. */
  function Insert<T>(x: T, s: seq<T>, key: T -> Key): (r: seq<T>)
    ensures |r| == |s| + 1
    ensures multiset(r) == multiset(s) + multiset{x}
    ensures forall k :: 0 <= k < |r| ==> r[k] == x || r[k] in s
    decreases |s|
  {
    if s == [] then [x]
    else if KeyLe(key(x), key(s[0])) then [x] + s
    else
      assert s == [s[0]] + s[1..];
      [s[0]] + Insert(x, s[1..], key)
  }

  lemma {:induction false} InsertSorted<T>(x: T, s: seq<T>, key: T -> Key)
    requires SortedBy(s, key)
    ensures SortedBy(Insert(x, s, key), key)
    decreases |s|
  {
    if s != [] && !KeyLe(key(x), key(s[0])) {
      var tail := s[1..];
      assert SortedBy(tail, key) by {
        forall i, j | 0 <= i < j < |tail| ensures KeyLe(key(tail[i]), key(tail[j])) {
          assert tail[i] == s[i + 1] && tail[j] == s[j + 1];
        }
      }
      InsertSorted(x, tail, key);
      var rest := Insert(x, tail, key);
      forall m | 0 <= m < |rest| ensures KeyLe(key(s[0]), key(rest[m])) {
        if rest[m] != x {
          var n :| 0 <= n < |tail| && tail[n] == rest[m];
          assert tail[n] == s[n + 1];
        }
      }
      var r := [s[0]] + rest;
      assert Insert(x, s, key) == r;
      forall i, j | 0 <= i < j < |r| ensures KeyLe(key(r[i]), key(r[j])) {
        if i == 0 {
          assert r[j] == rest[j - 1];
        } else {
          assert r[i] == rest[i - 1] && r[j] == rest[j - 1];
        }
      }
    }
  }

  /** A stable sort of a copy of `s` in ascending key order. */
  function SortBy<T>(s: seq<T>, key: T -> Key): (r: seq<T>)
    ensures |r| == |s|
    ensures multiset(r) == multiset(s)
    ensures SortedBy(r, key)
    decreases |s|
  {
    if s == [] then []
    else
      assert s == [s[0]] + s[1..];
      var sortedTail := SortBy(s[1..], key);
      InsertSorted(s[0], sortedTail, key);
      Insert(s[0], sortedTail, key)
  }

  /** Filtering a one-element sequence. */
  lemma KeepOne<T>(x: T, p: T -> bool)
    ensures Keep([x], p) == if p(x) then [x] else []
  {
    assert [x][1..] == [];
  }

  /** The elements whose key is `k`. */
  function SameKey<T>(key: T -> Key, k: Key): T -> bool
  {
    x => key(x) == k
  }

  lemma {:induction false} InsertKeepsClass<T>(x: T, s: seq<T>, key: T -> Key, k: Key)
    ensures Keep(Insert(x, s, key), SameKey(key, k))
         == (if key(x) == k then [x] else []) + Keep(s, SameKey(key, k))
    decreases |s|
  {
    var p := SameKey(key, k);
    assert p(x) == (key(x) == k);
    var mine: seq<T> := if p(x) then [x] else [];
    KeepOne(x, p);
    if s == [] {
      assert Insert(x, s, key) == [x];
    } else if KeyLe(key(x), key(s[0])) {
      assert Insert(x, s, key) == [x] + s;
      KeepConcat([x], s, p);
    } else {
      var rest := Insert(x, s[1..], key);
      assert Insert(x, s, key) == [s[0]] + rest;
      assert p(s[0]) == (key(s[0]) == k);
      var head: seq<T> := if p(s[0]) then [s[0]] else [];
      var others := Keep(s[1..], p);
      InsertKeepsClass(x, s[1..], key, k);
      KeepConcat([s[0]], rest, p);
      KeepOne(s[0], p);
      assert Keep([s[0]] + rest, p) == head + (mine + others);
      assert s == [s[0]] + s[1..];
      KeepConcat([s[0]], s[1..], p);
      assert Keep(s, p) == head + others;
      Interleave(head, mine, others);
    }
  }

  lemma Interleave<T>(a: seq<T>, b: seq<T>, c: seq<T>)
    requires a == [] || b == []
    ensures a + (b + c) == b + (a + c)
  {
  }

  /**
   * Stability: among elements with equal keys the sorted copy keeps the
   * input order, so `SortBy` is the result a stable sort must produce.
   */
  lemma {:induction false} SortByStable<T>(s: seq<T>, key: T -> Key, k: Key)
    ensures Keep(SortBy(s, key), SameKey(key, k)) == Keep(s, SameKey(key, k))
    decreases |s|
  {
    if s != [] {
      SortByStable(s[1..], key, k);
      InsertKeepsClass(s[0], SortBy(s[1..], key), key, k);
    }
  }
}
