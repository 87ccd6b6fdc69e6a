/**
 * The order of the groups that `groupby(['season', 'team'])` produces:
 * ascending by season, then by team code, comparing strings code point by
 * code point as Python does.
 */
module KeyOrder {

  /** A (season, team) group key. */
  type Key = (int, string)

  /** Python's `<` on `str`: lexicographic on code points, a proper prefix first. */
  predicate StrLess(a: string, b: string)
    decreases |a|
  {
    if a == [] then b != []
    else b != [] && (a[0] < b[0] || (a[0] == b[0] && StrLess(a[1..], b[1..])))
  }

  lemma {:induction false} StrLessIrreflexive(a: string)
    ensures !StrLess(a, a)
    decreases |a|
  {
    if a != [] {
      StrLessIrreflexive(a[1..]);
    }
  }

  lemma {:induction false} StrLessTransitive(a: string, b: string, c: string)
    requires StrLess(a, b) && StrLess(b, c)
    ensures StrLess(a, c)
    decreases |a|
  {
    if a != [] && a[0] == b[0] && b[0] == c[0] {
      StrLessTransitive(a[1..], b[1..], c[1..]);
    }
  }

  lemma {:induction false} StrLessTotal(a: string, b: string)
    requires a != b
    ensures StrLess(a, b) || StrLess(b, a)
    decreases |a|
  {
    if a != [] && b != [] && a[0] == b[0] {
      assert a == [a[0]] + a[1..];
      assert b == [b[0]] + b[1..];
      StrLessTotal(a[1..], b[1..]);
    }
  }

  /** The order of `groupby` keys: by season, then by team. */
  predicate KeyLess(a: Key, b: Key) {
    a.0 < b.0 || (a.0 == b.0 && StrLess(a.1, b.1))
  }

  /** `KeyLess` is a strict total order. */
  lemma KeyLessOrder()
    ensures forall a: Key :: !KeyLess(a, a)
    ensures forall a: Key, b: Key, c: Key :: KeyLess(a, b) && KeyLess(b, c) ==> KeyLess(a, c)
    ensures forall a: Key, b: Key :: a != b ==> KeyLess(a, b) || KeyLess(b, a)
  {
    forall a: Key ensures !KeyLess(a, a) {
      StrLessIrreflexive(a.1);
    }
    forall a: Key, b: Key, c: Key | KeyLess(a, b) && KeyLess(b, c) ensures KeyLess(a, c) {
      if a.0 == b.0 && b.0 == c.0 {
        StrLessTransitive(a.1, b.1, c.1);
      }
    }
    forall a: Key, b: Key | a != b ensures KeyLess(a, b) || KeyLess(b, a) {
      if a.0 == b.0 {
        StrLessTotal(a.1, b.1);
      }
    }
  }

  /** Strictly ascending, hence free of duplicates. */
  predicate Sorted(ks: seq<Key>) {
    forall i, j :: 0 <= i < j < |ks| ==> KeyLess(ks[i], ks[j])
  }

  lemma HeadBelowRest(s: seq<Key>)
    requires Sorted(s) && s != []
    ensures forall x :: x in s[1..] ==> KeyLess(s[0], x)
  {
    forall x | x in s[1..] ensures KeyLess(s[0], x) {
      var i :| 0 <= i < |s| - 1 && s[1..][i] == x;
      assert s[i + 1] == x;
    }
  }

  /** `k` put into its place in `s`, unless it is already there. */
  function InsertKey(k: Key, s: seq<Key>): (r: seq<Key>)
    ensures forall x :: x in r <==> x == k || x in s
    ensures Sorted(s) ==> Sorted(r)
  {
    if s == [] then [k]
    else if k == s[0] then s
    else if KeyLess(k, s[0]) then
      KeyLessOrder();
      [k] + s
    else
      var t := InsertKey(k, s[1..]);
      KeyLessOrder();
      assert forall x :: x in t ==> x == k || x in s[1..];
      if Sorted(s) then HeadBelowRest(s); [s[0]] + t else [s[0]] + t
  }

  /** The distinct keys of `ks` in ascending order: the group order of `groupby(...).sum()`. */
  function SortKeys(ks: seq<Key>): (r: seq<Key>)
    ensures Sorted(r)
    ensures forall x :: x in r <==> x in ks
  {
    if ks == [] then []
    else
      var p := SortKeys(ks[..|ks| - 1]);
      assert ks == ks[..|ks| - 1] + [ks[|ks| - 1]];
      InsertKey(ks[|ks| - 1], p)
  }

  /** Two sorted sequences with the same elements are equal: the group order is determined by the set of keys. */
  lemma {:induction false} SortedUnique(a: seq<Key>, b: seq<Key>)
    requires Sorted(a) && Sorted(b)
    requires forall x :: x in a <==> x in b
    ensures a == b
    decreases |a|
  {
    KeyLessOrder();
    assert a != [] ==> a[0] in b;
    assert b != [] ==> b[0] in a;
    if a != [] && b != [] {
      assert b[0] in a;
      var j :| 0 <= j < |a| && a[j] == b[0];
      assert a[0] in b;
      var m :| 0 <= m < |b| && b[m] == a[0];
      var a0, b0 := a[0], b[0];
      assert j != 0 ==> KeyLess(a0, b0);
      assert m != 0 ==> KeyLess(b0, a0);
      assert a0 == b0;
      forall x ensures x in a[1..] <==> x in b[1..] {
        if x in a[1..] {
          var i :| 1 <= i < |a| && a[i] == x;
          assert KeyLess(a[0], x);
          assert x in b;
        }
        if x in b[1..] {
          var i :| 1 <= i < |b| && b[i] == x;
          assert KeyLess(b[0], x);
          assert x in a;
        }
      }
      SortedUnique(a[1..], b[1..]);
      assert a == [a[0]] + a[1..];
      assert b == [b[0]] + b[1..];
    }
  }
}
