/**
 * `Array.prototype.sort` with a comparator of the form `(a, b) => key(b) - key(a)`:
 * a stable sort into non-increasing key order. Charts ranks its categories
 * this way and the transaction list orders its day groups this way.
 */
module Sorting {

  predicate Descending<T>(s: seq<T>, key: T -> int) {
    forall i, j :: 0 <= i < j < |s| ==> key(s[i]) >= key(s[j])
  }

  /** The elements of `s` whose key is `v`, in their order in `s`. */
  function WithKey<T>(s: seq<T>, key: T -> int, v: int): (r: seq<T>)
    ensures |r| <= |s|
  {
    if s == [] then []
    else (if key(s[0]) == v then [s[0]] else []) + WithKey(s[1..], key, v)
  }

  /** `WithKey` keeps exactly the elements of `s` whose key is `v`. */
  lemma {:induction false} WithKeyMembers<T>(s: seq<T>, key: T -> int, v: int)
    ensures forall x :: x in WithKey(s, key, v) <==> x in s && key(x) == v
  {
    if s != [] {
      WithKeyMembers(s[1..], key, v);
      assert s == [s[0]] + s[1..];
    }
  }

  lemma ConsDescending<T>(a: T, t: seq<T>, key: T -> int)
    requires Descending(t, key) && (t == [] || key(a) >= key(t[0]))
    ensures Descending([a] + t, key)
  {
    var r := [a] + t;
    forall i, j | 0 <= i < j < |r| ensures key(r[i]) >= key(r[j]) {
      if i == 0 {
        assert r[j] == t[j - 1];
        assert key(t[0]) >= key(t[j - 1]);
      } else {
        assert r[i] == t[i - 1] && r[j] == t[j - 1];
      }
    }
  }

  lemma WithKeyCons<T>(a: T, t: seq<T>, key: T -> int, v: int)
    ensures WithKey([a] + t, key, v) == (if key(a) == v then [a] else []) + WithKey(t, key, v)
  {
    assert ([a] + t)[0] == a;
    assert ([a] + t)[1..] == t;
  }

  /** Puts `x` in front of the first element whose key is not larger than its own. */
  function Insert<T>(x: T, s: seq<T>, key: T -> int): (r: seq<T>)
    ensures |r| == |s| + 1
    ensures r[0] == x || (s != [] && r[0] == s[0])
    ensures multiset(r) == multiset(s) + multiset{x}
    ensures Descending(s, key) ==> Descending(r, key)
  {
    if s == [] || key(s[0]) <= key(x) then
      ConsDescendingWhenSorted(x, s, key);
      [x] + s
    else
      var rest := Insert(x, s[1..], key);
      assert s == [s[0]] + s[1..];
      InsertStep(x, s, rest, key);
      [s[0]] + rest
  }

  /** The step of `Insert` that passes over a larger head keeps the order. */
  lemma InsertStep<T>(x: T, s: seq<T>, rest: seq<T>, key: T -> int)
    requires s != [] && key(x) < key(s[0])
    requires rest != [] && (rest[0] == x || (|s| > 1 && rest[0] == s[1]))
    requires Descending(s[1..], key) ==> Descending(rest, key)
    ensures Descending(s, key) ==> Descending([s[0]] + rest, key)
  {
    if Descending(s, key) {
      assert Descending(s[1..], key);
      if rest[0] != x {
        assert key(s[0]) >= key(s[1]);
      }
      ConsDescending(s[0], rest, key);
    }
  }

  lemma ConsDescendingWhenSorted<T>(x: T, s: seq<T>, key: T -> int)
    requires s == [] || key(s[0]) <= key(x)
    ensures Descending(s, key) ==> Descending([x] + s, key)
  {
    if Descending(s, key) {
      ConsDescending(x, s, key);
    }
  }

  /** The stable sort by non-increasing key. */
  function SortDescending<T>(s: seq<T>, key: T -> int): (r: seq<T>)
    ensures |r| == |s|
    ensures multiset(r) == multiset(s)
    ensures Descending(r, key)
  {
    if s == [] then []
    else
      assert s == [s[0]] + s[1..];
      Insert(s[0], SortDescending(s[1..], key), key)
  }

  lemma SwapEmpty<T>(a: seq<T>, b: seq<T>, w: seq<T>)
    requires a == [] || b == []
    ensures a + (b + w) == b + (a + w)
  {
  }

  lemma {:induction false} InsertWithKey<T>(x: T, s: seq<T>, key: T -> int, v: int)
    requires Descending(s, key)
    ensures WithKey(Insert(x, s, key), key, v) == (if key(x) == v then [x] else []) + WithKey(s, key, v)
  {
    if s == [] || key(s[0]) <= key(x) {
      WithKeyCons(x, s, key, v);
    } else {
      var rest := Insert(x, s[1..], key);
      assert Descending(s[1..], key);
      InsertWithKey(x, s[1..], key, v);
      WithKeyCons(s[0], rest, key, v);
      WithKeyCons(s[0], s[1..], key, v);
      assert [s[0]] + s[1..] == s;
      var w1 := WithKey(s[1..], key, v);
      var a: seq<T> := if key(s[0]) == v then [s[0]] else [];
      var b: seq<T> := if key(x) == v then [x] else [];
      assert WithKey(Insert(x, s, key), key, v) == a + (b + w1);
      assert WithKey(s, key, v) == a + w1;
      assert a == [] || b == [];
      SwapEmpty(a, b, w1);
    }
  }

  /**
   * Stability: for every key value, the elements with that key appear in the
   * sorted sequence in the order they had before.
   */
  lemma {:induction false} SortIsStable<T>(s: seq<T>, key: T -> int, v: int)
    ensures WithKey(SortDescending(s, key), key, v) == WithKey(s, key, v)
  {
    if s != [] {
      SortIsStable(s[1..], key, v);
      InsertWithKey(s[0], SortDescending(s[1..], key), key, v);
    }
  }

  /** A sequence already in order is left as it is. */
  lemma {:induction false} SortKeepsSorted<T>(s: seq<T>, key: T -> int)
    requires Descending(s, key)
    ensures SortDescending(s, key) == s
  {
    if s != [] {
      assert Descending(s[1..], key);
      SortKeepsSorted(s[1..], key);
      var t := s[1..];
      if t != [] {
        assert key(t[0]) <= key(s[0]);
      }
      assert [s[0]] + t == s;
    }
  }
}
