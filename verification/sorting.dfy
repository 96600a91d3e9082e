/**
 * A stable insertion sort by a two-part key: a nesting depth first, a name
 * second. Directory entries are ordered by (number of `+`, name) and members
 * by (0, name), so one sort serves both callers.
 */
module Sorting {
  import opened Strings

  datatype Key = Key(depth: nat, name: string)

  /** The total preorder on keys: smaller depth first, ties broken by name. */
  predicate KeyLe(a: Key, b: Key)
  {
    a.depth < b.depth || (a.depth == b.depth && LexLe(a.name, b.name))
  }

  lemma KeyLeTotal(a: Key, b: Key)
    ensures KeyLe(a, b) || KeyLe(b, a)
  {
    LexLeTotal(a.name, b.name);
  }

  lemma KeyLeTransitive(a: Key, b: Key, c: Key)
    requires KeyLe(a, b) && KeyLe(b, c)
    ensures KeyLe(a, c)
  {
    if a.depth == b.depth == c.depth {
      LexLeTransitive(a.name, b.name, c.name);
    }
  }

  lemma KeyLeAntisymmetric(a: Key, b: Key)
    requires KeyLe(a, b) && KeyLe(b, a)
    ensures a == b
  {
    LexLeAntisymmetric(a.name, b.name);
  }

  predicate SortedBy<T>(s: seq<T>, key: T -> Key)
  {
    forall i, j :: 0 <= i < j < |s| ==> KeyLe(key(s[i]), key(s[j]))
  }

  /** Inserts `x` before the first element whose key is not below it. */
  function Insert<T>(x: T, s: seq<T>, key: T -> Key): seq<T>
  {
    if |s| == 0 then [x]
    else if KeyLe(key(x), key(s[0])) then [x] + s
    else [s[0]] + Insert(x, s[1..], key)
  }

  function SortByKey<T>(s: seq<T>, key: T -> Key): seq<T>
  {
    if |s| == 0 then [] else Insert(s[0], SortByKey(s[1..], key), key)
  }

  lemma {:induction false} InsertPermutation<T>(x: T, s: seq<T>, key: T -> Key)
    ensures multiset(Insert(x, s, key)) == multiset(s) + multiset{x}
  {
    if |s| > 0 && !KeyLe(key(x), key(s[0])) {
      InsertPermutation(x, s[1..], key);
      assert s == [s[0]] + s[1..];
    }
  }

  lemma {:induction false} InsertSorted<T>(x: T, s: seq<T>, key: T -> Key)
    requires SortedBy(s, key)
    ensures SortedBy(Insert(x, s, key), key)
  {
    if |s| == 0 {
    } else if KeyLe(key(x), key(s[0])) {
      var r := [x] + s;
      forall i, j | 0 <= i < j < |r|
        ensures KeyLe(key(r[i]), key(r[j]))
      {
        if i == 0 && j > 1 {
          KeyLeTransitive(key(x), key(s[0]), key(s[j - 1]));
        }
      }
    } else {
      KeyLeTotal(key(x), key(s[0]));
      var tail := Insert(x, s[1..], key);
      InsertSorted(x, s[1..], key);
      InsertPermutation(x, s[1..], key);
      var r := [s[0]] + tail;
      forall j | 0 < j < |r|
        ensures KeyLe(key(s[0]), key(r[j]))
      {
        assert r[j] in multiset(tail);
        assert r[j] in multiset(s[1..]) + multiset{x};
        if r[j] != x {
          assert r[j] in s[1..];
          var k :| 0 <= k < |s[1..]| && s[1..][k] == r[j];
          assert s[k + 1] == r[j];
        }
      }
    }
  }

  /** The sorted listing is ordered by key. */
  lemma {:induction false} SortByKeySorted<T>(s: seq<T>, key: T -> Key)
    ensures SortedBy(SortByKey(s, key), key)
  {
    if |s| > 0 {
      SortByKeySorted(s[1..], key);
      InsertSorted(s[0], SortByKey(s[1..], key), key);
    }
  }

  /** The sorted listing holds exactly the input elements, each as often. */
  lemma {:induction false} SortByKeyPermutation<T>(s: seq<T>, key: T -> Key)
    ensures multiset(SortByKey(s, key)) == multiset(s)
  {
    if |s| > 0 {
      SortByKeyPermutation(s[1..], key);
      InsertPermutation(s[0], SortByKey(s[1..], key), key);
      assert s == [s[0]] + s[1..];
    }
  }

  /** Distinct elements have distinct keys. */
  ghost predicate KeysDistinct<T>(s: seq<T>, key: T -> Key)
  {
    forall i, j :: 0 <= i < |s| && 0 <= j < |s| && key(s[i]) == key(s[j]) ==> s[i] == s[j]
  }

  /** The head of a sorted sequence has the least key of all its elements. */
  lemma SortedHeadLeast<T>(a: seq<T>, key: T -> Key, x: T)
    requires SortedBy(a, key) && x in multiset(a)
    ensures KeyLe(key(a[0]), key(x))
  {
    var j :| 0 <= j < |a| && a[j] == x;
    if j == 0 {
      LexLeReflexive(key(x).name);
    }
  }

  lemma MultisetTail<T>(a: seq<T>, b: seq<T>)
    requires |a| > 0 && |b| > 0 && a[0] == b[0]
    requires multiset(a) == multiset(b)
    ensures multiset(a[1..]) == multiset(b[1..])
  {
    assert a == [a[0]] + a[1..];
    assert b == [b[0]] + b[1..];
    assert multiset(a[1..]) == multiset(a) - multiset{a[0]};
    assert multiset(b[1..]) == multiset(b) - multiset{b[0]};
  }

  /**
   * Two key-sorted sequences holding the same elements are equal when keys
   * identify elements: the sorted order does not depend on the input order.
   */
  lemma {:induction false} SortedUnique<T>(a: seq<T>, b: seq<T>, key: T -> Key)
    requires SortedBy(a, key) && SortedBy(b, key)
    requires multiset(a) == multiset(b)
    requires KeysDistinct(a, key)
    ensures a == b
  {
    if |a| == 0 {
      assert |b| == |multiset(b)| == 0;
    } else {
      assert |b| == |multiset(b)| == |multiset(a)| == |a|;
      assert a[0] in multiset(b) && b[0] in multiset(a);
      SortedHeadLeast(a, key, b[0]);
      SortedHeadLeast(b, key, a[0]);
      KeyLeAntisymmetric(key(a[0]), key(b[0]));
      var ja :| 0 <= ja < |a| && a[ja] == b[0];
      assert a[0] == b[0];
      MultisetTail(a, b);
      assert KeysDistinct(a[1..], key) by {
        forall i, j | 0 <= i < |a[1..]| && 0 <= j < |a[1..]| && key(a[1..][i]) == key(a[1..][j])
          ensures a[1..][i] == a[1..][j]
        {
          assert a[1..][i] == a[i + 1] && a[1..][j] == a[j + 1];
        }
      }
      SortedUnique(a[1..], b[1..], key);
      assert a == [a[0]] + a[1..] && b == [b[0]] + b[1..];
    }
  }

  /** Sorting ignores the order of its input when keys identify elements. */
  lemma SortByKeyIgnoresInputOrder<T>(s: seq<T>, t: seq<T>, key: T -> Key)
    requires multiset(s) == multiset(t)
    requires KeysDistinct(s, key)
    ensures SortByKey(s, key) == SortByKey(t, key)
  {
    var a, b := SortByKey(s, key), SortByKey(t, key);
    SortByKeySorted(s, key);
    SortByKeySorted(t, key);
    SortByKeyPermutation(s, key);
    SortByKeyPermutation(t, key);
    forall i, j | 0 <= i < |a| && 0 <= j < |a| && key(a[i]) == key(a[j])
      ensures a[i] == a[j]
    {
      assert a[i] in multiset(s) && a[j] in multiset(s);
      var p :| 0 <= p < |s| && s[p] == a[i];
      var q :| 0 <= q < |s| && s[q] == a[j];
    }
    SortedUnique(a, b, key);
  }

  /** Along a sorted sequence a strictly smaller depth always comes first. */
  lemma SortedDepthFirst<T>(s: seq<T>, key: T -> Key, i: int, j: int)
    requires SortedBy(s, key)
    requires 0 <= i < |s| && 0 <= j < |s|
    requires key(s[i]).depth < key(s[j]).depth
    ensures i < j
  {
  }
}
