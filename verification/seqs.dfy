/** Small facts about sequences used throughout the model: distinctness, first
    occurrences and filtering. */
module Seqs {

  /** No element occurs twice in `s`. */
  predicate Distinct<T(==)>(s: seq<T>) {
    forall i, j :: 0 <= i < j < |s| ==> s[i] != s[j]
  }

  /** The elements of `s` that satisfy `keep`, in their original order
      (a Python list comprehension `[x for x in s if keep(x)]`). */
  function Select<T(==, !new)>(s: seq<T>, keep: T -> bool): (r: seq<T>)
    ensures |r| <= |s|
    ensures forall x :: x in r <==> x in s && keep(x)
    ensures forall x :: multiset(r)[x] == if keep(x) then multiset(s)[x] else 0
    ensures Distinct(s) ==> Distinct(r)
    ensures (forall x :: x in s ==> keep(x)) ==> r == s
  {
    if s == [] then []
    else
      assert s == [s[0]] + s[1..];
      var rest := Select(s[1..], keep);
      DistinctCons(s[0], s[1..]);
      DistinctCons(s[0], rest);
      if keep(s[0]) then [s[0]] + rest else rest
  }

  /** Position of the first occurrence of `w` in `ws`. */
  function FirstIndex<T(==)>(ws: seq<T>, w: T): (i: nat)
    requires w in ws
    ensures i < |ws| && ws[i] == w && w !in ws[..i]
  {
    if ws[0] == w then 0 else FirstIndex(ws[1..], w) + 1
  }

  /** Extending a sequence does not move the first occurrence of an element it already held. */
  lemma {:induction false} FirstIndexExtend<T>(ws: seq<T>, x: T, w: T)
    requires w in ws
    ensures FirstIndex(ws + [x], w) == FirstIndex(ws, w)
  {
    if ws[0] != w {
      assert (ws + [x])[1..] == ws[1..] + [x];
      FirstIndexExtend(ws[1..], x, w);
    }
  }

  /** Filtering keeps the order of first occurrences: of two elements that survive, the
      one met first in the filtered sequence is the one met first in the original. */
  lemma {:induction false} SelectOrder<T(!new)>(s: seq<T>, keep: T -> bool, w: T, x: T)
    requires w in Select(s, keep) && x in Select(s, keep)
    ensures FirstIndex(Select(s, keep), w) < FirstIndex(Select(s, keep), x)
        <==> FirstIndex(s, w) < FirstIndex(s, x)
  {
    var r := Select(s, keep);
    var rest := Select(s[1..], keep);
    if keep(s[0]) {
      assert r == [s[0]] + rest;
      if w != s[0] && x != s[0] {
        assert r[1..] == rest;
        SelectOrder(s[1..], keep, w, x);
      }
    } else {
      assert r == rest;
      SelectOrder(s[1..], keep, w, x);
    }
  }

  /** Prepending `x` keeps a sequence free of repetitions exactly when `x` is new. */
  lemma DistinctCons<T>(x: T, s: seq<T>)
    ensures Distinct([x] + s) <==> Distinct(s) && x !in s
  {
    var xs := [x] + s;
    if Distinct(s) && x !in s {
      forall i, j | 0 <= i < j < |xs| ensures xs[i] != xs[j] {
        if i > 0 {
          assert xs[i] == s[i - 1];
        }
        assert xs[j] == s[j - 1];
      }
    }
    if Distinct(xs) {
      forall i, j | 0 <= i < j < |s| ensures s[i] != s[j] {
        assert s[i] == xs[i + 1] && s[j] == xs[j + 1];
      }
      forall k | 0 <= k < |s| ensures s[k] != x {
        assert s[k] == xs[k + 1] && x == xs[0];
      }
    }
  }

  lemma DistinctConcat<T>(a: seq<T>, b: seq<T>)
    requires Distinct(a) && Distinct(b)
    requires forall x :: x in a ==> x !in b
    ensures Distinct(a + b)
  {
    forall i, j | 0 <= i < j < |a + b|
      ensures (a + b)[i] != (a + b)[j]
    {
      if j < |a| {
      } else if i < |a| {
        assert (a + b)[i] in a;
        assert (a + b)[j] == b[j - |a|];
      } else {
        assert (a + b)[i] == b[i - |a|];
        assert (a + b)[j] == b[j - |a|];
      }
    }
  }

  /** A sequence without repetitions has as many elements as the set of its elements. */
  lemma {:induction false} DistinctCardinality<T>(s: seq<T>)
    requires Distinct(s)
    ensures |set x | x in s| == |s|
  {
    if s != [] {
      var tail := s[1..];
      assert Distinct(tail) by {
        forall i, j | 0 <= i < j < |tail| ensures tail[i] != tail[j] {
          assert tail[i] == s[i + 1] && tail[j] == s[j + 1];
        }
      }
      DistinctCardinality(tail);
      assert s[0] !in tail by {
        forall k | 0 <= k < |tail| ensures tail[k] != s[0] {
          assert tail[k] == s[k + 1];
        }
      }
      assert (set x | x in s) == {s[0]} + (set x | x in tail) by {
        assert s == [s[0]] + tail;
      }
      assert s[0] !in (set x | x in tail);
    }
  }
}
