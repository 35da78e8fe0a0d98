/** The worked example of the comparator: text 1 "cat cat dog" and text 2
    "dog dog dog bird", both in English, with no stopwords and every token alphabetic.
    Counting the first text gives cat:2, dog:1 (keys in order of first occurrence);
    the second gives dog:3, bird:1. */
module Scenario {
  import opened Counters
  import opened WordFilter
  import opened Significance
  import opened Comparison
  import opened ChartData

  /** The counter of text 1: cat:2, dog:1, in that key order. */
  predicate Text1Counts(f: Counter) {
    f.keys == ["cat", "dog"] && Get(f, "cat") == 2 && Get(f, "dog") == 1
  }

  /** The counter of text 2: dog:3, bird:1, in that key order. */
  predicate Text2Counts(f: Counter) {
    f.keys == ["dog", "bird"] && Get(f, "dog") == 3 && Get(f, "bird") == 1
  }

  /** In a supported language, filtering keeps every token when all are alphabetic
      and none is one of that language's stopwords: the counter is `Counter(tokens)`. */
  lemma KeepsAll(tokens: seq<string>, lang: Lang, isAlpha: string -> bool, stopEs: set<string>, stopEn: set<string>)
    requires !lang.Other?
    requires forall w :: w in tokens ==> Admits(lang, isAlpha, stopEs, stopEn, w)
    ensures FilteredWords(tokens, lang, isAlpha, stopEs, stopEn) == CountOf(tokens)
  {
    assert Kept(tokens, lang, isAlpha, stopEs, stopEn) == tokens;
  }

  // The token lists are described element by element (`Tokens1`, `Tokens2`) rather
  // than as literals such as `["cat", "cat", "dog"]`, and their counters are built one
  // token at a time (`KeysStep` to `Keys2`): given a literal sequence, the solver
  // unrolls every recursive definition applied to it and runs out of resources.

  /** English text with no stopwords, every token alphabetic: plain `Counter(tokens)`. */
  lemma PlainEnglish(tokens: seq<string>)
    ensures FilteredWords(tokens, En, w => true, {}, {}) == CountOf(tokens)
  {
    KeepsAll(tokens, En, w => true, {}, {});
  }

  /** The tokens of text 1: "cat cat dog". */
  predicate Tokens1(ws: seq<string>) {
    |ws| == 3 && ws[0] == "cat" && ws[1] == "cat" && ws[2] == "dog"
  }

  /** The tokens of text 2: "dog dog dog bird". */
  predicate Tokens2(ws: seq<string>) {
    |ws| == 4 && ws[0] == "dog" && ws[1] == "dog" && ws[2] == "dog" && ws[3] == "bird"
  }

  /** Counting one more token appends it to the key order exactly when it is new. */
  lemma KeysStep(ws: seq<string>, k: nat)
    requires 0 < k <= |ws|
    ensures var before := CountOf(ws[..k - 1]).keys;
      CountOf(ws[..k]).keys == if ws[k - 1] in before then before else before + [ws[k - 1]]
  {
    assert ws[..k][..k - 1] == ws[..k - 1];
  }

  lemma Keys1Prefix(ws: seq<string>)
    requires Tokens1(ws)
    ensures CountOf(ws[..2]).keys == ["cat"]
  {
    assert ws[..0] == [];
    KeysStep(ws, 1);
    KeysStep(ws, 2);
  }

  lemma Keys2Prefix(ws: seq<string>)
    requires Tokens2(ws)
    ensures CountOf(ws[..3]).keys == ["dog"]
  {
    assert ws[..0] == [];
    KeysStep(ws, 1);
    KeysStep(ws, 2);
    KeysStep(ws, 3);
  }

  lemma Keys1(ws: seq<string>)
    requires Tokens1(ws)
    ensures CountOf(ws[..3]).keys == ["cat", "dog"]
  {
    Keys1Prefix(ws);
    KeysStep(ws, 3);
    assert "dog" !in ["cat"];
  }

  lemma Keys2(ws: seq<string>)
    requires Tokens2(ws)
    ensures CountOf(ws[..4]).keys == ["dog", "bird"]
  {
    Keys2Prefix(ws);
    KeysStep(ws, 4);
    assert "bird" !in ["dog"];
  }

  lemma Occurrences1(ws: seq<string>)
    requires Tokens1(ws)
    ensures multiset(ws)["cat"] == 2 && multiset(ws)["dog"] == 1
  {
    assert ws == ["cat", "cat", "dog"];
  }

  lemma Occurrences2(ws: seq<string>)
    requires Tokens2(ws)
    ensures multiset(ws)["dog"] == 3 && multiset(ws)["bird"] == 1
  {
    assert ws == ["dog", "dog", "dog", "bird"];
  }

  /** Counting "cat cat dog" gives text 1's counter. */
  lemma CountsText1(ws: seq<string>)
    requires Tokens1(ws)
    ensures Text1Counts(CountOf(ws))
  {
    Keys1(ws);
    assert ws[..3] == ws;
    Occurrences1(ws);
  }

  /** Counting "dog dog dog bird" gives text 2's counter. */
  lemma CountsText2(ws: seq<string>)
    requires Tokens2(ws)
    ensures Text2Counts(CountOf(ws))
  {
    Keys2(ws);
    assert ws[..4] == ws;
    Occurrences2(ws);
  }

  lemma ScenarioUnion(f1: Counter, f2: Counter)
    requires Text1Counts(f1) && Text2Counts(f2)
    ensures UnionKeys(f1, f2) == ["cat", "dog", "bird"]
  {
    var ks := f2.keys;
    assert "dog" in f1.freq && "bird" !in f1.freq;
    assert ks[1..] == ["bird"] && ks[1..][1..] == [];
    assert Absent(ks[1..], f1) == ["bird"];
  }

  /** "cat" is exclusive to text 1, "bird" to text 2, and "dog" (1 against 3) shows no
      notable skew: 3 is more than twice 1 but does not exceed the floor of 5. */
  lemma ScenarioTable(f1: Counter, f2: Counter)
    requires Text1Counts(f1) && Text2Counts(f2)
    ensures Table(f1, f2) == [Row("cat", 2, 0, ExclusiveToText1), Row("dog", 1, 3, NoSkew), Row("bird", 0, 1, ExclusiveToText2)]
  {
    ScenarioUnion(f1, f2);
  }

  lemma ScenarioTotal(f1: Counter, f2: Counter)
    requires Text1Counts(f1) && Text2Counts(f2)
    ensures Plus(f1, f2).keys == ["cat", "dog", "bird"]
    ensures Get(Plus(f1, f2), "cat") == 2 && Get(Plus(f1, f2), "dog") == 4 && Get(Plus(f1, f2), "bird") == 1
  {
    ScenarioUnion(f1, f2);
    assert "bird" !in f1.freq && "cat" !in f2.freq;
  }

  lemma SortBird(c: Counter)
    ensures SortByCount(["bird"], c) == ["bird"]
  {
    assert ["bird"][1..] == [];
  }

  lemma SortDogBird(c: Counter)
    requires Get(c, "dog") >= Get(c, "bird")
    ensures SortByCount(["dog", "bird"], c) == ["dog", "bird"]
  {
    SortBird(c);
    assert ["dog", "bird"][1..] == ["bird"];
  }

  lemma SortCatDogBird(c: Counter)
    requires Get(c, "cat") == 2 && Get(c, "dog") == 4 && Get(c, "bird") == 1
    ensures SortByCount(["cat", "dog", "bird"], c) == ["dog", "cat", "bird"]
  {
    SortDogBird(c);
    assert ["cat", "dog", "bird"][1..] == ["dog", "bird"];
    assert ["dog", "bird"][1..] == ["bird"];
    assert InsertByCount("cat", ["bird"], c) == ["cat", "bird"];
  }

  lemma TopOfTotal(total: Counter)
    requires total.keys == ["cat", "dog", "bird"]
    requires Get(total, "cat") == 2 && Get(total, "dog") == 4 && Get(total, "bird") == 1
    ensures MostCommon(total, 10) == ["dog", "cat", "bird"]
  {
    SortCatDogBird(total);
  }

  /** The chart ranks "dog" (4 in all) above "cat" (2) and "bird" (1). */
  lemma ScenarioTop(f1: Counter, f2: Counter)
    requires Text1Counts(f1) && Text2Counts(f2)
    ensures TopWords(f1, f2, 10) == ["dog", "cat", "bird"]
  {
    ScenarioTotal(f1, f2);
    TopOfTotal(Plus(f1, f2));
  }

  /** The whole comparison of text 1 "cat cat dog" and text 2 "dog dog dog bird", both in
      English, when every token is alphabetic and no stopword applies. */
  lemma CatDogScenario(t1: seq<string>, t2: seq<string>)
    requires Tokens1(t1) && Tokens2(t2)
    ensures var f1 := FilteredWords(t1, En, w => true, {}, {});
      var f2 := FilteredWords(t2, En, w => true, {}, {});
      && Table(f1, f2) == [Row("cat", 2, 0, ExclusiveToText1), Row("dog", 1, 3, NoSkew), Row("bird", 0, 1, ExclusiveToText2)]
      && TopWords(f1, f2, 10) == ["dog", "cat", "bird"]
  {
    PlainEnglish(t1);
    PlainEnglish(t2);
    CountsText1(t1);
    CountsText2(t2);
    ScenarioTable(CountOf(t1), CountOf(t2));
    ScenarioTop(CountOf(t1), CountOf(t2));
  }
}
