/** Word counters as the comparator uses them: Python's `collections.Counter`
    built from a token list (app.py:54), added to another (app.py:148) and asked
    for its most common words (app.py:149). A counter remembers the order in
    which its keys were first inserted, because `most_common` breaks ties by it. */
module Counters {
  import opened Seqs

  /** Keys in insertion order, and the count of each key. */
  datatype CounterRep = CounterRep(keys: seq<string>, freq: map<string, nat>)

  /** What every counter of the comparator satisfies: the key order lists each key
      of `freq` once, and every count is positive. */
  predicate Valid(c: CounterRep) {
    && Distinct(c.keys)
    && (forall w :: w in c.keys ==> w in c.freq)
    && (forall w :: w in c.freq ==> w in c.keys && c.freq[w] >= 1)
  }

  type Counter = c: CounterRep | Valid(c) witness CounterRep([], map[])

  /** `Counter()`. */
  const Empty: Counter := CounterRep([], map[])

  /** `c.get(w, 0)`: the count of `w`, zero when absent. */
  function Get(c: CounterRep, w: string): (n: nat)
    ensures w !in c.freq ==> n == 0
  {
    if w in c.freq then c.freq[w] else 0
  }

  /** In a counter only absent words count zero, since every stored count is positive. */
  lemma GetZero(c: Counter, w: string)
    ensures Get(c, w) == 0 <==> w !in c.freq
  {
  }

  /** One step of counting a token: its count goes up by one; a new word is appended to the key order. */
  function Tally(c: Counter, w: string): (r: Counter)
    ensures Get(r, w) == Get(c, w) + 1
    ensures forall x :: x != w ==> Get(r, x) == Get(c, x)
    ensures w in c.freq ==> r.keys == c.keys
    ensures w !in c.freq ==> r.keys == c.keys + [w]
  {
    if w in c.freq then
      CounterRep(c.keys, c.freq[w := c.freq[w] + 1])
    else
      DistinctConcat(c.keys, [w]);
      CounterRep(c.keys + [w], c.freq[w := 1])
  }

  /** `Counter(ws)`: each word's count is the number of its occurrences in `ws`. */
  function CountOf(ws: seq<string>): (c: Counter)
    ensures forall w :: Get(c, w) == multiset(ws)[w]
    ensures forall w :: w in c.freq <==> w in ws
    decreases |ws|
  {
    if ws == [] then Empty
    else
      var init := ws[..|ws| - 1];
      assert ws == init + [ws[|ws| - 1]];
      Tally(CountOf(init), ws[|ws| - 1])
  }

  /** The counts of the keys `ks`, added up. */
  function SumOver(ks: seq<string>, c: Counter): nat {
    if ks == [] then 0 else SumOver(ks[..|ks| - 1], c) + Get(c, ks[|ks| - 1])
  }

  /** `sum(c.values())`. */
  function Total(c: Counter): nat {
    SumOver(c.keys, c)
  }

  /** `Counter()` holds no word: every count is zero and the counts add up to zero. */
  lemma EmptyCounter(w: string)
    ensures Empty.keys == [] && Get(Empty, w) == 0 && Total(Empty) == 0
  {
  }

  lemma {:induction false} SumOverAgree(ks: seq<string>, a: Counter, b: Counter)
    requires forall k :: k in ks ==> Get(a, k) == Get(b, k)
    ensures SumOver(ks, a) == SumOver(ks, b)
  {
    if ks != [] {
      SumOverAgree(ks[..|ks| - 1], a, b);
    }
  }

  /** Raising one key's count by one raises the sum over a repetition-free key list holding it by one. */
  lemma {:induction false} SumOverBump(ks: seq<string>, a: Counter, b: Counter, w: string)
    requires Distinct(ks) && w in ks
    requires Get(b, w) == Get(a, w) + 1
    requires forall x :: x != w ==> Get(b, x) == Get(a, x)
    ensures SumOver(ks, b) == SumOver(ks, a) + 1
  {
    var init, last := ks[..|ks| - 1], ks[|ks| - 1];
    assert Distinct(init);
    if last == w {
      assert w !in init;
      SumOverAgree(init, a, b);
    } else {
      assert w in init by {
        assert ks == init + [last];
      }
      SumOverBump(init, a, b, w);
    }
  }

  /** The counts of `Counter(ws)` add up to the number of tokens counted. */
  lemma {:induction false} TotalCountOf(ws: seq<string>)
    ensures Total(CountOf(ws)) == |ws|
  {
    if ws != [] {
      var init, w := ws[..|ws| - 1], ws[|ws| - 1];
      var c0 := CountOf(init);
      var c := CountOf(ws);
      assert c == Tally(c0, w);
      TotalCountOf(init);
      if w in c0.freq {
        SumOverBump(c0.keys, c0, c, w);
      } else {
        assert c.keys[..|c.keys| - 1] == c0.keys;
        SumOverAgree(c0.keys, c0, c);
      }
    }
  }

  /** Keys ordered by first occurrence in `ws`. */
  predicate FirstOccurrenceOrder(keys: seq<string>, ws: seq<string>)
    requires forall k :: 0 <= k < |keys| ==> keys[k] in ws
  {
    forall i, j :: 0 <= i < j < |keys| ==> FirstIndex(ws, keys[i]) < FirstIndex(ws, keys[j])
  }

  /** Appending a token keeps an existing key order ordered by first occurrence, and a
      token seen for the first time may go after all of them. */
  lemma KeyOrderExtend(keys: seq<string>, init: seq<string>, w: string)
    requires forall k :: 0 <= k < |keys| ==> keys[k] in init
    requires FirstOccurrenceOrder(keys, init)
    ensures FirstOccurrenceOrder(keys, init + [w])
    ensures w !in init ==> FirstOccurrenceOrder(keys + [w], init + [w])
  {
    var ws := init + [w];
    forall k | 0 <= k < |keys| ensures FirstIndex(ws, keys[k]) == FirstIndex(init, keys[k]) {
      FirstIndexExtend(init, w, keys[k]);
    }
    if w !in init {
      var ks := keys + [w];
      assert FirstIndex(ws, w) == |init| by {
        assert ws[..|init|] == init;
      }
      forall i, j | 0 <= i < j < |ks| ensures FirstIndex(ws, ks[i]) < FirstIndex(ws, ks[j]) {
        assert ks[i] == keys[i];
        if j < |keys| {
          assert ks[j] == keys[j];
        }
      }
    }
  }

  /** The keys of `Counter(ws)` are ordered by where each word first occurs in `ws`. */
  lemma {:induction false} CountOfKeyOrder(ws: seq<string>)
    ensures forall i, j :: 0 <= i < j < |CountOf(ws).keys| ==>
      FirstIndex(ws, CountOf(ws).keys[i]) < FirstIndex(ws, CountOf(ws).keys[j])
  {
    if ws != [] {
      var init, w := ws[..|ws| - 1], ws[|ws| - 1];
      assert ws == init + [w];
      var c0 := CountOf(init);
      CountOfKeyOrder(init);
      KeyOrderExtend(c0.keys, init, w);
    }
  }

  /** The words of `s` that are not keys of `a`, in their order in `s`. */
  function Absent(s: seq<string>, a: Counter): (r: seq<string>)
    ensures forall w :: w in r <==> w in s && w !in a.freq
    ensures Distinct(s) ==> Distinct(r)
  {
    if s == [] then []
    else
      var rest := Absent(s[1..], a);
      DistinctCons(s[0], s[1..]);
      DistinctCons(s[0], rest);
      if s[0] in a.freq then rest else [s[0]] + rest
  }

  /** A filter that keeps exactly the words missing from `a` computes `Absent`. */
  lemma {:induction false} SelectAbsent(s: seq<string>, a: Counter, keep: string -> bool)
    requires forall w :: w in s ==> keep(w) == (w !in a.freq)
    ensures Select(s, keep) == Absent(s, a)
  {
    if s != [] {
      SelectAbsent(s[1..], a, keep);
    }
  }

  /** Keys of `a` in their order, then the keys of `b` that `a` lacks, in theirs. */
  function UnionKeys(a: Counter, b: Counter): (u: seq<string>)
    ensures Distinct(u)
    ensures forall w :: w in u <==> w in a.freq || w in b.freq
  {
    var onlyB := Absent(b.keys, a);
    DistinctConcat(a.keys, onlyB);
    a.keys + onlyB
  }

  /** The union's key list has as many words as the union of the key sets. */
  lemma UnionCardinality(f1: Counter, f2: Counter)
    ensures |UnionKeys(f1, f2)| == |f1.freq.Keys + f2.freq.Keys|
  {
    var u := UnionKeys(f1, f2);
    DistinctCardinality(u);
    assert (set w | w in u) == f1.freq.Keys + f2.freq.Keys;
  }

  /** Every word of the union is counted at least once in one of the two counters. */
  lemma UnionKeysCounted(a: Counter, b: Counter)
    ensures forall w :: w in UnionKeys(a, b) ==> Get(a, w) + Get(b, w) >= 1
  {
    forall w | w in UnionKeys(a, b) ensures Get(a, w) + Get(b, w) >= 1 {
      if w in a.freq {
        assert Get(a, w) == a.freq[w] >= 1;
      } else {
        assert Get(b, w) == b.freq[w] >= 1;
      }
    }
  }

  /** A map giving each word of the union its summed count holds only positive counts. */
  lemma SumsPositive(a: Counter, b: Counter, ks: seq<string>, sums: map<string, nat>)
    requires ks == UnionKeys(a, b)
    requires forall w :: w in sums <==> w in ks
    requires forall w :: w in sums ==> sums[w] == Get(a, w) + Get(b, w)
    ensures forall w :: w in sums ==> sums[w] >= 1
  {
    UnionKeysCounted(a, b);
  }

  /** The key order of `a + b`: the keys of `a` whose summed count is positive, then
      the keys found only in `b` whose count is positive. For counters of positive
      counts no key is dropped. */
  function PlusKeys(a: Counter, b: Counter): (ks: seq<string>)
    ensures ks == UnionKeys(a, b)
  {
    var keepA := w => Get(a, w) + Get(b, w) > 0;
    var keepB := w => w !in a.freq && Get(b, w) > 0;
    SelectAbsent(b.keys, a, keepB);
    Select(a.keys, keepA) + Select(b.keys, keepB)
  }

  /** `a + b` on counters: each key of either counter with its summed count. */
  function Plus(a: Counter, b: Counter): (r: Counter)
    ensures forall w :: Get(r, w) == Get(a, w) + Get(b, w)
    ensures forall w :: w in r.freq <==> w in a.freq || w in b.freq
    ensures r.keys == UnionKeys(a, b)
  {
    var ks := PlusKeys(a, b);
    var sums := map w | w in ks :: Get(a, w) + Get(b, w);
    SumsPositive(a, b, ks, sums);
    CounterRep(ks, sums)
  }

  /** Every pair of positions in `s` is ordered by non-increasing count in `c`. */
  predicate NonIncreasing(s: seq<string>, c: CounterRep) {
    forall i, j :: 0 <= i < j < |s| ==> Get(c, s[i]) >= Get(c, s[j])
  }

  /** The words of `s` whose count in `c` is `v`, in their order in `s`. */
  function WithCount(s: seq<string>, c: CounterRep, v: nat): seq<string> {
    if s == [] then []
    else (if Get(c, s[0]) == v then [s[0]] else []) + WithCount(s[1..], c, v)
  }

  lemma {:induction false} WithCountConcat(s: seq<string>, t: seq<string>, c: CounterRep, v: nat)
    ensures WithCount(s + t, c, v) == WithCount(s, c, v) + WithCount(t, c, v)
  {
    if s == [] {
      assert s + t == t;
    } else {
      var head := if Get(c, s[0]) == v then [s[0]] else [];
      assert (s + t)[0] == s[0] && (s + t)[1..] == s[1..] + t;
      WithCountConcat(s[1..], t, c, v);
      assert WithCount(s + t, c, v) == head + (WithCount(s[1..], c, v) + WithCount(t, c, v));
      assert head + (WithCount(s[1..], c, v) + WithCount(t, c, v)) == (head + WithCount(s[1..], c, v)) + WithCount(t, c, v);
    }
  }

  /** Inserts `w` in front of the first word whose count does not exceed its own. */
  function InsertByCount(w: string, s: seq<string>, c: CounterRep): (r: seq<string>)
    ensures |r| == |s| + 1
    ensures multiset(r) == multiset(s) + multiset{w}
  {
    if s == [] || Get(c, w) >= Get(c, s[0]) then [w] + s
    else
      assert s == [s[0]] + s[1..];
      [s[0]] + InsertByCount(w, s[1..], c)
  }

  /** The first word of a sorted sequence has the largest count. */
  lemma HeadDominates(s: seq<string>, c: CounterRep)
    requires s != [] && NonIncreasing(s, c)
    ensures forall x :: x in s ==> Get(c, s[0]) >= Get(c, x)
  {
    forall x | x in s ensures Get(c, s[0]) >= Get(c, x) {
      var k :| 0 <= k < |s| && s[k] == x;
      if k > 0 {
        assert Get(c, s[0]) >= Get(c, s[k]);
      }
    }
  }

  /** The tail of a sorted sequence is sorted. */
  lemma TailSorted(s: seq<string>, c: CounterRep)
    requires s != [] && NonIncreasing(s, c)
    ensures NonIncreasing(s[1..], c)
  {
    forall i, j | 0 <= i < j < |s[1..]| ensures Get(c, s[1..][i]) >= Get(c, s[1..][j]) {
      assert s[1..][i] == s[i + 1] && s[1..][j] == s[j + 1];
    }
  }

  lemma {:induction false} InsertSorted(w: string, s: seq<string>, c: CounterRep)
    requires NonIncreasing(s, c)
    ensures NonIncreasing(InsertByCount(w, s, c), c)
  {
    if s != [] && Get(c, w) < Get(c, s[0]) {
      var rest := InsertByCount(w, s[1..], c);
      TailSorted(s, c);
      InsertSorted(w, s[1..], c);
      HeadDominates(s, c);
      var r := [s[0]] + rest;
      forall i, j | 0 <= i < j < |r| ensures Get(c, r[i]) >= Get(c, r[j]) {
        if i == 0 {
          var x := r[j];
          assert x == rest[j - 1];
          assert x in multiset(rest);
          assert x == w || x in multiset(s[1..]);
          assert x == w || x in s;
        } else {
          assert r[i] == rest[i - 1] && r[j] == rest[j - 1];
        }
      }
    }
  }

  lemma {:induction false} InsertDistinct(w: string, s: seq<string>, c: CounterRep)
    requires Distinct(s) && w !in s
    ensures Distinct(InsertByCount(w, s, c))
  {
    DistinctCons(w, s);
    if s != [] && Get(c, w) < Get(c, s[0]) {
      var rest := InsertByCount(w, s[1..], c);
      DistinctCons(s[0], s[1..]);
      InsertDistinct(w, s[1..], c);
      assert s[0] !in rest by {
        assert s[0] in rest <==> s[0] in multiset(rest);
      }
      DistinctCons(s[0], rest);
    }
  }

  lemma ConsWithCount(x: string, t: seq<string>, c: CounterRep, v: nat)
    ensures Get(c, x) == v ==> WithCount([x] + t, c, v) == [x] + WithCount(t, c, v)
    ensures Get(c, x) != v ==> WithCount([x] + t, c, v) == WithCount(t, c, v)
  {
    var r := [x] + t;
    assert r[0] == x && r[1..] == t;
  }

  /** Insertion places `w` before every word of equal count, keeping their order. */
  lemma {:induction false} InsertWithCount(w: string, s: seq<string>, c: CounterRep, v: nat)
    ensures WithCount(InsertByCount(w, s, c), c, v) == (if Get(c, w) == v then [w] else []) + WithCount(s, c, v)
  {
    if s != [] && Get(c, w) < Get(c, s[0]) {
      var rest := InsertByCount(w, s[1..], c);
      InsertWithCount(w, s[1..], c, v);
      assert InsertByCount(w, s, c) == [s[0]] + rest;
      assert s == [s[0]] + s[1..];
      ConsWithCount(s[0], rest, c, v);
      ConsWithCount(s[0], s[1..], c, v);
      var tail := WithCount(s[1..], c, v);
      if Get(c, w) == v {
        assert WithCount(rest, c, v) == [w] + tail;
      } else if Get(c, s[0]) == v {
        assert WithCount(rest, c, v) == tail;
      } else {
        assert WithCount(rest, c, v) == tail;
      }
    } else {
      assert InsertByCount(w, s, c) == [w] + s;
      ConsWithCount(w, s, c, v);
    }
  }

  /** A stable sort of `s` by non-increasing count. */
  function SortByCount(s: seq<string>, c: CounterRep): (r: seq<string>)
    ensures |r| == |s|
    ensures multiset(r) == multiset(s)
  {
    if s == [] then []
    else
      assert s == [s[0]] + s[1..];
      InsertByCount(s[0], SortByCount(s[1..], c), c)
  }

  /** The sort orders by non-increasing count, keeps a repetition-free sequence free of
      repetitions, and is stable: the words of each count keep their relative order. */
  lemma {:induction false} SortByCountCorrect(s: seq<string>, c: CounterRep)
    ensures NonIncreasing(SortByCount(s, c), c)
    ensures Distinct(s) ==> Distinct(SortByCount(s, c))
    ensures forall v :: WithCount(SortByCount(s, c), c, v) == WithCount(s, c, v)
  {
    if s != [] {
      var rest := SortByCount(s[1..], c);
      SortByCountCorrect(s[1..], c);
      InsertSorted(s[0], rest, c);
      DistinctCons(s[0], s[1..]);
      if Distinct(s) {
        assert s[0] !in rest by {
          assert s[0] in rest <==> s[0] in multiset(rest);
        }
        InsertDistinct(s[0], rest, c);
      }
      forall v ensures WithCount(SortByCount(s, c), c, v) == WithCount(s, c, v) {
        InsertWithCount(s[0], rest, c, v);
      }
    }
  }

  /** `[w for w, _ in c.most_common(n)]`: the first `n` keys after a stable sort by
      non-increasing count. */
  function MostCommon(c: Counter, n: nat): (r: seq<string>)
    ensures |r| == if n <= |c.keys| then n else |c.keys|
    ensures Distinct(r)
    ensures forall w :: w in r ==> w in c.freq
    ensures NonIncreasing(r, c)
    ensures forall w, x :: w in r && x in c.freq && x !in r ==> Get(c, w) >= Get(c, x)
    ensures forall v :: WithCount(r, c, v) <= WithCount(c.keys, c, v)
  {
    var sorted := SortByCount(c.keys, c);
    var k := if n <= |c.keys| then n else |c.keys|;
    MostCommonPrefix(c, sorted, k);
    sorted[..k]
  }

  /** Cutting the sorted keys after `k` words: the words kept outweigh the words cut,
      and for each count the words kept are the first keys with that count. */
  lemma MostCommonPrefix(c: Counter, sorted: seq<string>, k: nat)
    requires sorted == SortByCount(c.keys, c) && k <= |c.keys|
    ensures |sorted[..k]| == k
    ensures Distinct(sorted[..k])
    ensures forall w :: w in sorted[..k] ==> w in c.freq
    ensures NonIncreasing(sorted[..k], c)
    ensures forall w, x :: w in sorted[..k] && x in c.freq && x !in sorted[..k] ==> Get(c, w) >= Get(c, x)
    ensures forall v :: WithCount(sorted[..k], c, v) <= WithCount(c.keys, c, v)
  {
    SortByCountCorrect(c.keys, c);
    assert forall w :: w in sorted <==> w in c.keys by {
      assert forall w :: w in sorted <==> w in multiset(sorted);
    }
    PrefixOfSorted(sorted, k, c);
    forall v ensures WithCount(sorted[..k], c, v) <= WithCount(c.keys, c, v) {
      PrefixWithCount(sorted, k, c, v);
    }
  }

  /** A prefix of a sorted, repetition-free sequence is sorted and repetition-free,
      and outweighs every word after it. */
  lemma PrefixOfSorted(s: seq<string>, k: nat, c: CounterRep)
    requires k <= |s| && NonIncreasing(s, c) && Distinct(s)
    ensures NonIncreasing(s[..k], c) && Distinct(s[..k])
    ensures forall w :: w in s[..k] ==> w in s
    ensures forall w, x :: w in s[..k] && x in s && x !in s[..k] ==> Get(c, w) >= Get(c, x)
  {
    var top := s[..k];
    forall w, x | w in top && x in s && x !in top ensures Get(c, w) >= Get(c, x) {
      var i :| 0 <= i < k && top[i] == w;
      var q :| 0 <= q < |s| && s[q] == x;
      assert s[i] == w;
    }
  }

  /** For each count, the words of a prefix with that count begin the words of the whole with it. */
  lemma PrefixWithCount(s: seq<string>, k: nat, c: CounterRep, v: nat)
    requires k <= |s|
    ensures WithCount(s[..k], c, v) <= WithCount(s, c, v)
  {
    assert s == s[..k] + s[k..];
    WithCountConcat(s[..k], s[k..], c, v);
  }
}
