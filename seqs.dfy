/**
 * The array operations the components chain together: `filter`, a summing
 * `reduce`, and `String.prototype.includes`.
 */
module Seqs {

  /** `s.filter(p)`. */
  function Filter<T>(s: seq<T>, p: T -> bool): (r: seq<T>)
    ensures |r| <= |s|
    ensures forall i :: 0 <= i < |r| ==> r[i] in s && p(r[i])
    ensures forall i :: 0 <= i < |s| && p(s[i]) ==> s[i] in r
  {
    if s == [] then []
    else (if p(s[0]) then [s[0]] else []) + Filter(s[1..], p)
  }

  lemma {:induction false} FilterAppend<T>(s: seq<T>, t: seq<T>, p: T -> bool)
    ensures Filter(s + t, p) == Filter(s, p) + Filter(t, p)
  {
    if s == [] {
      assert s + t == t;
    } else {
      assert (s + t)[0] == s[0];
      assert (s + t)[1..] == s[1..] + t;
      FilterAppend(s[1..], t, p);
    }
  }

  /** A filter keeps every passing element as often as it occurs, and no other. */
  lemma {:induction false} FilterMultiplicity<T>(s: seq<T>, p: T -> bool)
    ensures forall x :: multiset(Filter(s, p))[x] == if p(x) then multiset(s)[x] else 0
  {
    if s != [] {
      FilterMultiplicity(s[1..], p);
      assert s == [s[0]] + s[1..];
    }
  }

  /** A filter that keeps everything is the identity. */
  lemma {:induction false} FilterAll<T>(s: seq<T>, p: T -> bool)
    requires forall i :: 0 <= i < |s| ==> p(s[i])
    ensures Filter(s, p) == s
  {
    if s != [] {
      FilterAll(s[1..], p);
    }
  }

  /** `s.reduce((acc, x) => acc + f(x), 0)`. */
  function Sum<T>(s: seq<T>, f: T -> int): int {
    if s == [] then 0 else f(s[0]) + Sum(s[1..], f)
  }

  lemma {:induction false} SumAppend<T>(s: seq<T>, t: seq<T>, f: T -> int)
    ensures Sum(s + t, f) == Sum(s, f) + Sum(t, f)
  {
    if s == [] {
      assert s + t == t;
    } else {
      assert (s + t)[0] == s[0];
      assert (s + t)[1..] == s[1..] + t;
      SumAppend(s[1..], t, f);
    }
  }

  /** Summing after a filter is summing the terms that pass it. */
  lemma {:induction false} SumFilter<T>(s: seq<T>, p: T -> bool, f: T -> int)
    ensures Sum(Filter(s, p), f) == Sum(s, x => if p(x) then f(x) else 0)
  {
    if s != [] {
      SumFilter(s[1..], p, f);
      SumAppend(if p(s[0]) then [s[0]] else [], Filter(s[1..], p), f);
    }
  }

  lemma {:induction false} SumNonNegative<T>(s: seq<T>, f: T -> int)
    requires forall i :: 0 <= i < |s| ==> f(s[i]) >= 0
    ensures Sum(s, f) >= 0
  {
    if s != [] {
      SumNonNegative(s[1..], f);
    }
  }

  /** `s.includes(sub)` on strings: `sub` occurs at some position of `s`. */
  predicate Includes(s: string, sub: string)
    decreases |s|
  {
    (|sub| <= |s| && s[..|sub|] == sub) || (s != [] && Includes(s[1..], sub))
  }

  lemma IncludesEmpty(s: string)
    ensures Includes(s, "")
  {
    assert s[..0] == "";
  }

  function Reverse<T>(s: seq<T>): (r: seq<T>)
    ensures |r| == |s|
    ensures forall i :: 0 <= i < |s| ==> r[i] == s[|s| - 1 - i]
  {
    if s == [] then [] else Reverse(s[1..]) + [s[0]]
  }

  /** Reversing a sequence with one more element at its end puts that element first. */
  lemma ReverseSnoc<T>(s: seq<T>, x: T)
    ensures Reverse(s + [x]) == [x] + Reverse(s)
  {
    var a, b := Reverse(s + [x]), [x] + Reverse(s);
    assert |a| == |b|;
    forall i | 0 <= i < |a| ensures a[i] == b[i] {
      if i > 0 {
        assert b[i] == Reverse(s)[i - 1] == s[|s| - i];
      }
    }
  }

  /** The keys of an association list, in order. */
  function Keys<K, V>(acc: seq<(K, V)>): (ks: seq<K>)
    ensures |ks| == |acc|
    ensures forall i :: 0 <= i < |acc| ==> ks[i] == acc[i].0
  {
    if acc == [] then [] else [acc[0].0] + Keys(acc[1..])
  }

  /** No element occurs twice. */
  predicate Distinct<T(==)>(ks: seq<T>) {
    forall i, j :: 0 <= i < j < |ks| ==> ks[i] != ks[j]
  }

  /** `r` is `s` with some elements left out, the rest in their original order. */
  predicate SubsequenceOf<T(==)>(r: seq<T>, s: seq<T>)
    decreases |s|
  {
    r == [] || (s != [] && ((r[0] == s[0] && SubsequenceOf(r[1..], s[1..])) || SubsequenceOf(r, s[1..])))
  }

  /** Appending the same element to both sides, kept or left out, keeps a subsequence a subsequence. */
  lemma {:induction false} SubsequenceSnoc<T>(r: seq<T>, s: seq<T>, x: T, keep: bool)
    requires SubsequenceOf(r, s)
    ensures SubsequenceOf(r + (if keep then [x] else []), s + [x])
    decreases |s|
  {
    var r' := r + (if keep then [x] else []);
    if s == [] {
      assert r == [];
      if keep {
        assert r'[1..] == [] && r'[0] == x;
      }
    } else if r == [] {
      SubsequenceSnoc(r, s[1..], x, keep);
      assert (s + [x])[1..] == s[1..] + [x];
      if keep {
        assert r' == [x];
      } else {
        assert r' == [];
      }
    } else {
      assert (s + [x])[0] == s[0] && (s + [x])[1..] == s[1..] + [x];
      assert r'[0] == r[0] && r'[1..] == r[1..] + (if keep then [x] else []);
      if r[0] == s[0] && SubsequenceOf(r[1..], s[1..]) {
        SubsequenceSnoc(r[1..], s[1..], x, keep);
      } else {
        SubsequenceSnoc(r, s[1..], x, keep);
      }
    }
  }

  lemma {:induction false} FilterIsSubsequence<T>(s: seq<T>, p: T -> bool)
    ensures SubsequenceOf(Filter(s, p), s)
  {
    if s != [] {
      FilterIsSubsequence(s[1..], p);
      var r := Filter(s, p);
      if p(s[0]) {
        assert r[0] == s[0] && r[1..] == Filter(s[1..], p);
      } else {
        assert r == Filter(s[1..], p);
      }
    }
  }
}
