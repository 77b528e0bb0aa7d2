/**
 * Row selection and ordering as SQL does them: `WHERE` as a filter that keeps table
 * order, `ORDER BY` as a sort on a key compared lexicographically (several sort
 * columns, each ascending or negated for descending, or the code points of a text).
 */
module Sequences {

  /** Lexicographic order on keys; a proper prefix comes first. */
  predicate KeyLe(a: seq<int>, b: seq<int>) {
    a == [] || (b != [] && (a[0] < b[0] || (a[0] == b[0] && KeyLe(a[1..], b[1..]))))
  }

  lemma {:induction false} KeyLeTotal(a: seq<int>, b: seq<int>)
    ensures KeyLe(a, b) || KeyLe(b, a)
  {
    if a != [] && b != [] && a[0] == b[0] {
      KeyLeTotal(a[1..], b[1..]);
    }
  }

  lemma {:induction false} KeyLeTransitive(a: seq<int>, b: seq<int>, c: seq<int>)
    requires KeyLe(a, b) && KeyLe(b, c)
    ensures KeyLe(a, c)
  {
    if a != [] && b != [] && c != [] && a[0] == b[0] && b[0] == c[0] {
      KeyLeTransitive(a[1..], b[1..], c[1..]);
    }
  }

  lemma {:induction false} KeyLeAntisymmetric(a: seq<int>, b: seq<int>)
    requires KeyLe(a, b) && KeyLe(b, a)
    ensures a == b
  {
    if a != [] && b != [] {
      KeyLeAntisymmetric(a[1..], b[1..]);
      assert a == [a[0]] + a[1..];
      assert b == [b[0]] + b[1..];
    }
  }

  /** Ordered by `key`, ascending. */
  predicate SortedBy<T>(s: seq<T>, key: T -> seq<int>) {
    forall i, j :: 0 <= i < j < |s| ==> KeyLe(key(s[i]), key(s[j]))
  }

  /** Inserts `x` before the first element whose key is not below its own. */
  function Insert<T>(x: T, s: seq<T>, key: T -> seq<int>): (r: seq<T>)
    requires SortedBy(s, key)
    ensures SortedBy(r, key)
    ensures multiset(r) == multiset(s) + multiset{x}
    ensures |r| == |s| + 1
  {
    if s == [] then [x]
    else if KeyLe(key(x), key(s[0])) then
      forall j | 0 <= j < |s| ensures KeyLe(key(x), key(s[j])) {
        if j > 0 { KeyLeTransitive(key(x), key(s[0]), key(s[j])); }
      }
      ConsSorted(x, s, key);
      [x] + s
    else
      KeyLeTotal(key(x), key(s[0]));
      var rest := Insert(x, s[1..], key);
      forall k | 0 <= k < |rest| ensures KeyLe(key(s[0]), key(rest[k])) {
        assert rest[k] in multiset(s[1..]) + multiset{x};
      }
      ConsSorted(s[0], rest, key);
      MultisetCons(s);
      [s[0]] + rest
  }

  /** An element whose key is not above any key of a sorted sequence can go in front. */
  lemma ConsSorted<T>(x: T, s: seq<T>, key: T -> seq<int>)
    requires SortedBy(s, key)
    requires forall k | 0 <= k < |s| :: KeyLe(key(x), key(s[k]))
    ensures SortedBy([x] + s, key)
  {
    var r := [x] + s;
    forall i, j | 0 <= i < j < |r| ensures KeyLe(key(r[i]), key(r[j])) {
      assert r[j] == s[j - 1];
      if i > 0 {
        assert r[i] == s[i - 1];
      }
    }
  }

  lemma MultisetCons<T>(s: seq<T>)
    requires s != []
    ensures multiset(s) == multiset{s[0]} + multiset(s[1..])
  {
    assert s == [s[0]] + s[1..];
  }

  /** `ORDER BY key`: the same rows, ordered. Rows with equal keys keep no promised order. */
  function SortBy<T>(s: seq<T>, key: T -> seq<int>): (r: seq<T>)
    ensures SortedBy(r, key)
    ensures multiset(r) == multiset(s)
    ensures |r| == |s|
  {
    if s == [] then []
    else
      MultisetCons(s);
      Insert(s[0], SortBy(s[1..], key), key)
  }

  /** Two sorted arrangements of the same rows with distinct keys start with the same row. */
  lemma SameHead<T>(a: seq<T>, b: seq<T>, key: T -> seq<int>)
    requires a != [] && SortedBy(a, key) && SortedBy(b, key) && multiset(a) == multiset(b)
    requires forall i, j :: 0 <= i < |a| && 0 <= j < |a| && i != j ==> key(a[i]) != key(a[j])
    ensures b != [] && a[0] == b[0]
  {
    assert a[0] in multiset(b);
    assert b[0] in multiset(a);
    var i :| 0 <= i < |b| && b[i] == a[0];
    var j :| 0 <= j < |a| && a[j] == b[0];
    if j != 0 {
      assert KeyLe(key(a[0]), key(a[j]));
      if i != 0 {
        assert KeyLe(key(b[0]), key(b[i]));
      }
      KeyLeAntisymmetric(key(a[0]), key(a[j]));
    }
  }

  /** Equal multisets with equal heads have equal tails. */
  lemma SameTails<T>(a: seq<T>, b: seq<T>)
    requires a != [] && b != [] && a[0] == b[0] && multiset(a) == multiset(b)
    ensures multiset(a[1..]) == multiset(b[1..])
  {
    assert a == [a[0]] + a[1..];
    assert b == [b[0]] + b[1..];
    assert multiset(a) == multiset{a[0]} + multiset(a[1..]);
    assert multiset(b) == multiset{b[0]} + multiset(b[1..]);
    assert multiset(a[1..]) == multiset(a) - multiset{a[0]};
    assert multiset(b[1..]) == multiset(b) - multiset{b[0]};
  }

  /** A sorted sequence of the same rows is the same sequence when no two rows share a key. */
  lemma {:induction false} SortedUnique<T>(a: seq<T>, b: seq<T>, key: T -> seq<int>)
    requires SortedBy(a, key) && SortedBy(b, key) && multiset(a) == multiset(b)
    requires forall i, j :: 0 <= i < |a| && 0 <= j < |a| && i != j ==> key(a[i]) != key(a[j])
    ensures a == b
  {
    if a != [] {
      SameHead(a, b, key);
      SameTails(a, b);
      forall p, q | 0 <= p < |a[1..]| && 0 <= q < |a[1..]| && p != q
        ensures key(a[1..][p]) != key(a[1..][q])
      {
        assert a[1..][p] == a[p + 1] && a[1..][q] == a[q + 1];
      }
      SortedUnique(a[1..], b[1..], key);
      assert a == [a[0]] + a[1..];
      assert b == [b[0]] + b[1..];
    } else {
      assert |b| == |multiset(b)| == 0;
    }
  }

  /** `WHERE p`: the rows that satisfy `p`, in table order. */
  function Filter<T>(s: seq<T>, p: T -> bool): (r: seq<T>)
    ensures |r| <= |s|
    ensures forall i :: 0 <= i < |r| ==> r[i] in s && p(r[i])
    ensures forall i :: 0 <= i < |s| && p(s[i]) ==> s[i] in r
  {
    if s == [] then []
    else if p(s[0]) then [s[0]] + Filter(s[1..], p)
    else Filter(s[1..], p)
  }

  /** The keys of a text: its code points, so that keys compare as the texts do. */
  function TextKey(s: string): (k: seq<int>)
    ensures |k| == |s|
    ensures forall i :: 0 <= i < |s| ==> k[i] == s[i] as int
  {
    if s == [] then [] else [s[0] as int] + TextKey(s[1..])
  }

  /** No two elements share a key. */
  predicate Distinct<T, K(==)>(s: seq<T>, key: T -> K) {
    forall i, j :: 0 <= i < j < |s| ==> key(s[i]) != key(s[j])
  }

  lemma DistinctTail<T, K>(s: seq<T>, key: T -> K)
    requires s != [] && Distinct(s, key)
    ensures Distinct(s[1..], key)
  {
    forall i, j | 0 <= i < j < |s[1..]| ensures key(s[1..][i]) != key(s[1..][j]) {
      assert s[1..][i] == s[i + 1] && s[1..][j] == s[j + 1];
    }
  }

  /** Putting in front an element whose key no element has keeps the keys distinct. */
  lemma DistinctCons<T, K>(x: T, s: seq<T>, key: T -> K)
    requires Distinct(s, key) && forall y | y in s :: key(y) != key(x)
    ensures Distinct([x] + s, key)
  {
    var r := [x] + s;
    forall i, j | 0 <= i < j < |r| ensures key(r[i]) != key(r[j]) {
      assert r[j] == s[j - 1];
      if i > 0 {
        assert r[i] == s[i - 1];
      }
    }
  }

  lemma {:induction false} FilterDistinct<T, K>(s: seq<T>, p: T -> bool, key: T -> K)
    requires Distinct(s, key)
    ensures Distinct(Filter(s, p), key)
  {
    if s != [] {
      var rest := Filter(s[1..], p);
      FilterDistinct(s[1..], p, key);
      if p(s[0]) {
        var r := [s[0]] + rest;
        forall i, j | 0 <= i < j < |r| ensures key(r[i]) != key(r[j]) {
          if i == 0 {
            var k :| 0 <= k < |s[1..]| && s[1..][k] == r[j];
            assert s[k + 1] == r[j];
          } else {
            assert r[i] == rest[i - 1] && r[j] == rest[j - 1];
          }
        }
      }
    }
  }

  /** Removing one element: the multiset loses it, and distinct keys stay distinct. */
  lemma RemoveAt<T, K>(a: seq<T>, k: int, key: T -> K)
    requires 0 <= k < |a|
    ensures multiset(a[..k] + a[k + 1..]) == multiset(a) - multiset{a[k]}
    ensures Distinct(a, key) ==> Distinct(a[..k] + a[k + 1..], key)
  {
    var a' := a[..k] + a[k + 1..];
    assert a == a[..k] + [a[k]] + a[k + 1..];
    assert multiset(a) == multiset(a[..k]) + multiset{a[k]} + multiset(a[k + 1..]);
    forall i | 0 <= i < |a'| ensures a'[i] == a[if i < k then i else i + 1] { }
  }

  /** The same elements in another order keep their keys distinct. */
  lemma {:induction false} PermutationDistinct<T, K>(a: seq<T>, b: seq<T>, key: T -> K)
    requires multiset(a) == multiset(b) && Distinct(a, key)
    ensures Distinct(b, key)
  {
    if b != [] {
      assert b[0] in multiset(a);
      var k :| 0 <= k < |a| && a[k] == b[0];
      var a' := a[..k] + a[k + 1..];
      RemoveAt(a, k, key);
      assert b == [b[0]] + b[1..];
      assert multiset(b[1..]) == multiset(b) - multiset{b[0]};
      PermutationDistinct(a', b[1..], key);
      forall y | y in b[1..] ensures key(y) != key(b[0]) {
        assert y in multiset(a');
        OtherKey(a, k, key, y);
      }
      DistinctCons(b[0], b[1..], key);
    }
  }

  /** With distinct keys, what remains after removing the element at `k` has a key other than its. */
  lemma OtherKey<T, K>(a: seq<T>, k: int, key: T -> K, y: T)
    requires 0 <= k < |a| && Distinct(a, key) && y in multiset(a[..k] + a[k + 1..])
    ensures key(y) != key(a[k])
  {
    var a' := a[..k] + a[k + 1..];
    var m :| 0 <= m < |a'| && a'[m] == y;
    assert a[if m < k then m else m + 1] == y;
  }
}
