/**
 * List operations shared by the client utilities and the controller: `Array.prototype.filter`,
 * a stable sort by an integer key (what `Array.prototype.sort` does with a comparator of the
 * form `(a, b) => key(a) - key(b)`), and the order-preserving sublist relation.
 */
module Seqs {

  /** `r` can be obtained from `s` by deleting elements, keeping the order of the rest. */
  ghost predicate IsSubsequence<T>(r: seq<T>, s: seq<T>)
    decreases |s|
  {
    if r == [] then true
    else if s == [] then false
    else (r[0] == s[0] && IsSubsequence(r[1..], s[1..])) || IsSubsequence(r, s[1..])
  }

  lemma {:induction false} SubsequenceReflexive<T>(s: seq<T>)
    ensures IsSubsequence(s, s)
    decreases |s|
  {
    if s != [] {
      SubsequenceReflexive(s[1..]);
    }
  }

  lemma {:induction false} SubsequenceTransitive<T>(a: seq<T>, b: seq<T>, c: seq<T>)
    requires IsSubsequence(a, b) && IsSubsequence(b, c)
    ensures IsSubsequence(a, c)
    decreases |c|
  {
    if a != [] {
      assert b != [] && c != [];
      if b[0] == c[0] && IsSubsequence(b[1..], c[1..]) {
        if a[0] == b[0] && IsSubsequence(a[1..], b[1..]) {
          SubsequenceTransitive(a[1..], b[1..], c[1..]);
        } else {
          SubsequenceTransitive(a, b[1..], c[1..]);
        }
      } else {
        SubsequenceTransitive(a, b, c[1..]);
      }
    }
  }

  /** `s.filter(keep)`: exactly the elements that satisfy `keep`, each as often as in `s`,
      in their original order. */
  function Filter<T(!new)>(s: seq<T>, keep: T -> bool): (r: seq<T>)
    ensures forall x :: multiset(r)[x] == if keep(x) then multiset(s)[x] else 0
    ensures forall x :: x in r <==> x in s && keep(x)
    ensures IsSubsequence(r, s)
    ensures (forall x :: x in s ==> keep(x)) ==> r == s
    decreases |s|
  {
    if s == [] then []
    else
      var rest := Filter(s[1..], keep);
      assert s == [s[0]] + s[1..];
      if keep(s[0]) then
        assert ([s[0]] + rest)[1..] == rest;
        [s[0]] + rest
      else
        assert rest != [] ==> IsSubsequence(rest, s[1..]);
        rest
  }

  /** Filtering a sequence with a known first element. */
  lemma FilterCons<T(!new)>(h: T, t: seq<T>, keep: T -> bool)
    ensures Filter([h] + t, keep) == (if keep(h) then [h] else []) + Filter(t, keep)
  {
    assert ([h] + t)[0] == h && ([h] + t)[1..] == t;
  }

  /** A sequence none of whose elements is kept filters to nothing. */
  lemma FilterNone<T(!new)>(s: seq<T>, keep: T -> bool)
    requires forall i :: 0 <= i < |s| ==> !keep(s[i])
    ensures Filter(s, keep) == []
  {
    var r := Filter(s, keep);
    forall x | x in s ensures !keep(x) {
      var i :| 0 <= i < |s| && s[i] == x;
    }
    assert multiset(r) == multiset{};
  }

  /** Elements that are all rejected can be dropped from the front before filtering. */
  lemma FilterSkipsRejectedPrefix<T(!new)>(a: seq<T>, b: seq<T>, keep: T -> bool)
    requires forall i :: 0 <= i < |a| ==> !keep(a[i])
    ensures Filter(a + b, keep) == Filter(b, keep)
  {
    FilterAppend(a, b, keep);
    FilterNone(a, keep);
    assert [] + Filter(b, keep) == Filter(b, keep);
  }

  /** Elements that are all rejected can be dropped from the back before filtering. */
  lemma FilterSkipsRejectedSuffix<T(!new)>(a: seq<T>, b: seq<T>, keep: T -> bool)
    requires forall i :: 0 <= i < |b| ==> !keep(b[i])
    ensures Filter(a + b, keep) == Filter(a, keep)
  {
    FilterAppend(a, b, keep);
    FilterNone(b, keep);
    assert Filter(a, keep) + [] == Filter(a, keep);
  }

  /** Filtering twice is filtering once by both conditions. */
  lemma {:induction false} FilterFilter<T(!new)>(s: seq<T>, p: T -> bool, q: T -> bool, both: T -> bool)
    requires forall x :: both(x) == (p(x) && q(x))
    ensures Filter(Filter(s, p), q) == Filter(s, both)
    decreases |s|
  {
    if s != [] {
      assert s == [s[0]] + s[1..];
      FilterCons(s[0], s[1..], p);
      FilterCons(s[0], s[1..], both);
      FilterFilter(s[1..], p, q, both);
      FilterCons(s[0], Filter(s[1..], p), q);
    }
  }

  /** Filtering distributes over concatenation. */
  lemma {:induction false} FilterAppend<T(!new)>(a: seq<T>, b: seq<T>, keep: T -> bool)
    ensures Filter(a + b, keep) == Filter(a, keep) + Filter(b, keep)
    decreases |a|
  {
    if a == [] {
      assert a + b == b;
    } else {
      var h, t := a[0], a[1..];
      assert a == [h] + t && a + b == [h] + (t + b);
      FilterAppend(t, b, keep);
      FilterCons(h, t, keep);
      FilterCons(h, t + b, keep);
      AppendAssociative(if keep(h) then [h] else [], Filter(t, keep), Filter(b, keep));
    }
  }

  lemma AppendAssociative<T>(x: seq<T>, y: seq<T>, z: seq<T>)
    ensures x + (y + z) == (x + y) + z
  {
  }

  ghost predicate SortedByKey<T>(s: seq<T>, key: T -> int) {
    forall i, j :: 0 <= i < j < |s| ==> key(s[i]) <= key(s[j])
  }

  /** A lower bound of every key of `s` and of `key(x)` bounds every key of a sequence with
      the elements of `s` and `x`. */
  lemma BoundCarries<T>(b: int, rest: seq<T>, s: seq<T>, x: T, key: T -> int)
    requires multiset(rest) == multiset(s) + multiset{x}
    requires b <= key(x)
    requires forall j :: 0 <= j < |s| ==> b <= key(s[j])
    ensures forall j :: 0 <= j < |rest| ==> b <= key(rest[j])
  {
    forall j | 0 <= j < |rest| ensures b <= key(rest[j]) {
      assert rest[j] in multiset(rest);
      if rest[j] != x {
        assert rest[j] in multiset(s);
        var k :| 0 <= k < |s| && s[k] == rest[j];
      }
    }
  }

  /** An element whose key bounds a sorted sequence can be put in front of it. */
  lemma ConsSorted<T>(h: T, t: seq<T>, key: T -> int)
    requires SortedByKey(t, key)
    requires forall j :: 0 <= j < |t| ==> key(h) <= key(t[j])
    ensures SortedByKey([h] + t, key)
  {
    var r := [h] + t;
    forall i, j | 0 <= i < j < |r| ensures key(r[i]) <= key(r[j]) {
      assert r[j] == t[j - 1];
      if i > 0 {
        assert r[i] == t[i - 1];
      }
    }
  }

  /** Puts `x` in front of the first element whose key is not smaller than its own. */
  function InsertByKey<T>(x: T, s: seq<T>, key: T -> int): seq<T>
    decreases |s|
  {
    if s == [] || key(x) <= key(s[0]) then [x] + s else [s[0]] + InsertByKey(x, s[1..], key)
  }

  lemma {:induction false} InsertPermutes<T>(x: T, s: seq<T>, key: T -> int)
    ensures multiset(InsertByKey(x, s, key)) == multiset(s) + multiset{x}
    ensures |InsertByKey(x, s, key)| == |s| + 1
    decreases |s|
  {
    if s != [] && key(x) > key(s[0]) {
      InsertPermutes(x, s[1..], key);
      assert s == [s[0]] + s[1..];
      assert multiset([s[0]] + InsertByKey(x, s[1..], key))
          == multiset{s[0]} + multiset(InsertByKey(x, s[1..], key));
    }
  }

  lemma {:induction false} InsertSorted<T>(x: T, s: seq<T>, key: T -> int)
    requires SortedByKey(s, key)
    ensures SortedByKey(InsertByKey(x, s, key), key)
    decreases |s|
  {
    if s == [] || key(x) <= key(s[0]) {
      assert forall j :: 0 <= j < |s| ==> key(s[0]) <= key(s[j]);
      ConsSorted(x, s, key);
    } else {
      var h, t := s[0], s[1..];
      assert SortedByKey(t, key) && forall j :: 0 <= j < |t| ==> key(h) <= key(t[j]) by {
        assert forall j :: 0 <= j < |t| ==> t[j] == s[j + 1];
      }
      var rest := InsertByKey(x, t, key);
      InsertSorted(x, t, key);
      InsertPermutes(x, t, key);
      BoundCarries(key(h), rest, t, x, key);
      ConsSorted(h, rest, key);
    }
  }

  lemma MultisetCons<T>(s: seq<T>)
    requires s != []
    ensures multiset(s) == multiset{s[0]} + multiset(s[1..])
  {
    assert s == [s[0]] + s[1..];
  }

  /** A stable insertion sort: ascending by `key`, ties in input order. */
  function SortByKey<T>(s: seq<T>, key: T -> int): (r: seq<T>)
    ensures SortedByKey(r, key)
    ensures multiset(r) == multiset(s)
    ensures |r| == |s|
    decreases |s|
  {
    if s == [] then []
    else
      var rest := SortByKey(s[1..], key);
      InsertSorted(s[0], rest, key);
      InsertPermutes(s[0], rest, key);
      MultisetCons(s);
      InsertByKey(s[0], rest, key)
  }

  /** Sorting a list that is already in key order returns it unchanged. */
  lemma {:induction false} SortSortedIsIdentity<T>(s: seq<T>, key: T -> int)
    requires SortedByKey(s, key)
    ensures SortByKey(s, key) == s
    decreases |s|
  {
    if s != [] {
      assert SortedByKey(s[1..], key);
      SortSortedIsIdentity(s[1..], key);
      assert s == [s[0]] + s[1..];
    }
  }
}
