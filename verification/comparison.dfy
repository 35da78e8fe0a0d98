/** The comparison table (app.py:117-120 and 138): one row per word of either text,
    with its count in each text and its significance label. */
module Comparison {
  import opened Seqs
  import opened Counters
  import opened Significance

  /** A row of the table: Word, Frequency Text 1, Frequency Text 2, Significance. */
  datatype Row = Row(word: string, freq1: nat, freq2: nat, significance: Label)

  /** The table for two texts' counters. Rows follow the union of keys: the words of
      text 1, then the words found only in text 2. */
  function Table(f1: Counter, f2: Counter): (rows: seq<Row>)
    ensures |rows| == |UnionKeys(f1, f2)|
    ensures forall i, j :: 0 <= i < j < |rows| ==> rows[i].word != rows[j].word
    ensures forall w :: (w in f1.freq || w in f2.freq) <==> exists i :: 0 <= i < |rows| && rows[i].word == w
    ensures forall i :: 0 <= i < |rows| ==>
      && rows[i].freq1 == Get(f1, rows[i].word)
      && rows[i].freq2 == Get(f2, rows[i].word)
      && rows[i].freq1 + rows[i].freq2 >= 1
      && rows[i].significance == Classify(rows[i].freq1, rows[i].freq2)
  {
    var words := UnionKeys(f1, f2);
    var rows := seq(|words|, i requires 0 <= i < |words| =>
      Row(words[i], Get(f1, words[i]), Get(f2, words[i]), Classify(Get(f1, words[i]), Get(f2, words[i]))));
    TableRows(f1, f2, words, rows);
    rows
  }

  /** Rows built one per word of the union list cover the union exactly once each. */
  lemma TableRows(f1: Counter, f2: Counter, words: seq<string>, rows: seq<Row>)
    requires words == UnionKeys(f1, f2) && |rows| == |words|
    requires forall i :: 0 <= i < |rows| ==> rows[i] == Row(words[i], Get(f1, words[i]), Get(f2, words[i]), Classify(Get(f1, words[i]), Get(f2, words[i])))
    ensures |rows| == |UnionKeys(f1, f2)|
    ensures forall i, j :: 0 <= i < j < |rows| ==> rows[i].word != rows[j].word
    ensures forall w :: (w in f1.freq || w in f2.freq) <==> exists i :: 0 <= i < |rows| && rows[i].word == w
    ensures forall i :: 0 <= i < |rows| ==> rows[i].freq1 + rows[i].freq2 >= 1
  {
    UnionKeysCounted(f1, f2);
    forall w | w in f1.freq || w in f2.freq ensures exists i :: 0 <= i < |rows| && rows[i].word == w {
      var i :| 0 <= i < |words| && words[i] == w;
      assert rows[i].word == w;
    }
    forall i | 0 <= i < |rows| ensures rows[i].freq1 + rows[i].freq2 >= 1 {
      assert words[i] in words;
    }
  }

  /** The table has exactly as many rows as there are distinct words in the two texts. */
  lemma TableSize(f1: Counter, f2: Counter)
    ensures |Table(f1, f2)| == |f1.freq.Keys + f2.freq.Keys|
  {
    UnionCardinality(f1, f2);
  }

  /** Every row's label is the one its two counts call for, and a row's counts are
      never both zero, so "no notable skew" only comes from the two threshold rules. */
  lemma TableLabels(f1: Counter, f2: Counter, i: nat)
    requires i < |Table(f1, f2)|
    ensures var r := Table(f1, f2)[i];
      && (r.significance == ExclusiveToText1 <==> r.freq2 == 0)
      && (r.significance == ExclusiveToText2 <==> r.freq1 == 0)
  {
  }
}
