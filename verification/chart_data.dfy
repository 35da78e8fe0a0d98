/** The chart data (app.py:148-156): the words with the highest combined count in
    the two texts, each with its count per text, melted into one row per word and text. */
module ChartData {
  import opened Seqs
  import opened Counters

  /** A row of the wide chart table: Word, Frequency Text 1, Frequency Text 2. */
  datatype ChartRow = ChartRow(word: string, freq1: nat, freq2: nat)

  /** A row of the melted table: Word, Text (the name of the column it came from), Frequency. */
  datatype MeltedRow = MeltedRow(word: string, text: string, frequency: nat)

  /** A word's count in both texts together. */
  function Combined(f1: Counter, f2: Counter, w: string): nat {
    Get(f1, w) + Get(f2, w)
  }

  /** `[word for word, freq in (Counter(f1) + Counter(f2)).most_common(n)]`. */
  function TopWords(f1: Counter, f2: Counter, n: nat): (top: seq<string>)
    ensures |top| == if n <= |UnionKeys(f1, f2)| then n else |UnionKeys(f1, f2)|
    ensures Distinct(top)
    ensures forall w :: w in top ==> w in f1.freq || w in f2.freq
    ensures forall i, j :: 0 <= i < j < |top| ==> Combined(f1, f2, top[i]) >= Combined(f1, f2, top[j])
    ensures forall w, x :: w in top && (x in f1.freq || x in f2.freq) && x !in top ==>
      Combined(f1, f2, w) >= Combined(f1, f2, x)
    ensures forall v :: WithCount(top, Plus(f1, f2), v) <= WithCount(UnionKeys(f1, f2), Plus(f1, f2), v)
  {
    var top := MostCommon(Plus(f1, f2), n);
    MostCommonOfSum(f1, f2, n, top);
    top
  }

  /** What `most_common` promises about the summed counter, restated for the two texts. */
  lemma MostCommonOfSum(f1: Counter, f2: Counter, n: nat, top: seq<string>)
    requires top == MostCommon(Plus(f1, f2), n)
    ensures |top| == if n <= |UnionKeys(f1, f2)| then n else |UnionKeys(f1, f2)|
    ensures forall w :: w in top ==> w in f1.freq || w in f2.freq
    ensures forall i, j :: 0 <= i < j < |top| ==> Combined(f1, f2, top[i]) >= Combined(f1, f2, top[j])
    ensures forall w, x :: w in top && (x in f1.freq || x in f2.freq) && x !in top ==>
      Combined(f1, f2, w) >= Combined(f1, f2, x)
  {
    var total := Plus(f1, f2);
    forall i, j | 0 <= i < j < |top| ensures Combined(f1, f2, top[i]) >= Combined(f1, f2, top[j]) {
      assert Get(total, top[i]) >= Get(total, top[j]);
    }
    forall w, x | w in top && (x in f1.freq || x in f2.freq) && x !in top
      ensures Combined(f1, f2, w) >= Combined(f1, f2, x)
    {
      assert x in total.freq;
    }
  }

  /** The wide chart table (app.py:150-152): one row per top word, in order, with the
      word's count in each text; the counts of a row add up to its combined count. */
  function ChartRows(f1: Counter, f2: Counter, n: nat): (rows: seq<ChartRow>)
    ensures Words(rows) == TopWords(f1, f2, n)
    ensures forall i :: 0 <= i < |rows| ==>
      && rows[i].freq1 == Get(f1, rows[i].word)
      && rows[i].freq2 == Get(f2, rows[i].word)
      && rows[i].freq1 + rows[i].freq2 == Combined(f1, f2, rows[i].word)
  {
    RowsOf(f1, f2, TopWords(f1, f2, n))
  }

  /** One chart row per word of `ws`, holding its count in each text. */
  function RowsOf(f1: Counter, f2: Counter, ws: seq<string>): (rows: seq<ChartRow>)
    ensures Words(rows) == ws
    ensures forall i :: 0 <= i < |rows| ==>
      && rows[i].freq1 == Get(f1, rows[i].word)
      && rows[i].freq2 == Get(f2, rows[i].word)
      && rows[i].freq1 + rows[i].freq2 == Combined(f1, f2, rows[i].word)
  {
    var rows := seq(|ws|, i requires 0 <= i < |ws| => ChartRow(ws[i], Get(f1, ws[i]), Get(f2, ws[i])));
    WordsOf(ws, rows);
    rows
  }

  lemma WordsOf(ws: seq<string>, rows: seq<ChartRow>)
    requires |rows| == |ws| && forall i :: 0 <= i < |rows| ==> rows[i].word == ws[i]
    ensures Words(rows) == ws
  {
  }

  /** The Word column of a chart table. */
  function Words(rows: seq<ChartRow>): (ws: seq<string>)
    ensures |ws| == |rows| && forall i :: 0 <= i < |rows| ==> ws[i] == rows[i].word
  {
    seq(|rows|, i requires 0 <= i < |rows| => rows[i].word)
  }

  /** One column of the wide table as melted rows labelled `text`. */
  function Column(rows: seq<ChartRow>, text: string, first: bool): (m: seq<MeltedRow>)
    ensures |m| == |rows|
    ensures forall i :: 0 <= i < |rows| ==>
      m[i] == MeltedRow(rows[i].word, text, if first then rows[i].freq1 else rows[i].freq2)
  {
    if rows == [] then []
    else [MeltedRow(rows[0].word, text, if first then rows[0].freq1 else rows[0].freq2)] + Column(rows[1..], text, first)
  }

  /** `pd.melt(df, id_vars=['Word'], var_name='Text', value_name='Frequency')` over the
      two frequency columns named `text1` and `text2`: all rows of the first column,
      then all rows of the second. */
  function Melt(rows: seq<ChartRow>, text1: string, text2: string): (m: seq<MeltedRow>)
    ensures |m| == 2 * |rows|
  {
    Column(rows, text1, true) + Column(rows, text2, false)
  }

  /** The melted rows that belong to word `w`, in order. */
  function RowsFor(m: seq<MeltedRow>, w: string): seq<MeltedRow> {
    if m == [] then [] else (if m[0].word == w then [m[0]] else []) + RowsFor(m[1..], w)
  }

  lemma {:induction false} RowsForConcat(a: seq<MeltedRow>, b: seq<MeltedRow>, w: string)
    ensures RowsFor(a + b, w) == RowsFor(a, w) + RowsFor(b, w)
  {
    if a == [] {
      assert a + b == b;
    } else {
      var head := if a[0].word == w then [a[0]] else [];
      assert (a + b)[0] == a[0] && (a + b)[1..] == a[1..] + b;
      RowsForConcat(a[1..], b, w);
      assert RowsFor(a + b, w) == head + (RowsFor(a[1..], w) + RowsFor(b, w));
      assert head + (RowsFor(a[1..], w) + RowsFor(b, w)) == (head + RowsFor(a[1..], w)) + RowsFor(b, w);
    }
  }

  /** A column holds no row for a word that is not in the table. */
  lemma {:induction false} ColumnRowsForAbsent(rows: seq<ChartRow>, text: string, first: bool, w: string)
    requires forall i :: 0 <= i < |rows| ==> rows[i].word != w
    ensures RowsFor(Column(rows, text, first), w) == []
  {
    if rows != [] {
      ColumnRowsForAbsent(rows[1..], text, first, w);
    }
  }

  /** A column of a table without repeated words holds exactly one row for each of its words. */
  lemma {:induction false} ColumnRowsFor(rows: seq<ChartRow>, text: string, first: bool, i: nat)
    requires i < |rows|
    requires forall p, q :: 0 <= p < q < |rows| ==> rows[p].word != rows[q].word
    ensures RowsFor(Column(rows, text, first), rows[i].word) ==
      [MeltedRow(rows[i].word, text, if first then rows[i].freq1 else rows[i].freq2)]
  {
    if i == 0 {
      ColumnRowsForAbsent(rows[1..], text, first, rows[0].word);
    } else {
      ColumnRowsFor(rows[1..], text, first, i - 1);
    }
  }

  /** Melting gives every word of the chart exactly two rows: its count in text 1
      under the first column's name, then its count in text 2 under the second's. */
  lemma MeltRowsPerWord(rows: seq<ChartRow>, text1: string, text2: string, i: nat)
    requires i < |rows|
    requires forall p, q :: 0 <= p < q < |rows| ==> rows[p].word != rows[q].word
    ensures RowsFor(Melt(rows, text1, text2), rows[i].word) ==
      [MeltedRow(rows[i].word, text1, rows[i].freq1), MeltedRow(rows[i].word, text2, rows[i].freq2)]
  {
    RowsForConcat(Column(rows, text1, true), Column(rows, text2, false), rows[i].word);
    ColumnRowsFor(rows, text1, true, i);
    ColumnRowsFor(rows, text2, false, i);
  }

  /** Melting adds no word that is not in the chart. */
  lemma MeltRowsAbsent(rows: seq<ChartRow>, text1: string, text2: string, w: string)
    requires forall i :: 0 <= i < |rows| ==> rows[i].word != w
    ensures RowsFor(Melt(rows, text1, text2), w) == []
  {
    RowsForConcat(Column(rows, text1, true), Column(rows, text2, false), w);
    ColumnRowsForAbsent(rows, text1, true, w);
    ColumnRowsForAbsent(rows, text2, false, w);
  }

  /** Melting the rows of distinct words gives each of them exactly two rows, carrying
      its count in text 1 and then its count in text 2, and no other word any. */
  lemma MeltRowsOf(f1: Counter, f2: Counter, ws: seq<string>, text1: string, text2: string, w: string)
    requires Distinct(ws)
    ensures var m := Melt(RowsOf(f1, f2, ws), text1, text2);
      && (w in ws ==> RowsFor(m, w) == [MeltedRow(w, text1, Get(f1, w)), MeltedRow(w, text2, Get(f2, w))])
      && (w !in ws ==> RowsFor(m, w) == [])
  {
    var rows := RowsOf(f1, f2, ws);
    assert Words(rows) == ws;
    forall p, q | 0 <= p < q < |rows| ensures rows[p].word != rows[q].word {
      assert rows[p].word == ws[p] && rows[q].word == ws[q];
    }
    if w in ws {
      var i :| 0 <= i < |ws| && ws[i] == w;
      assert rows[i].word == w;
      MeltRowsPerWord(rows, text1, text2, i);
    } else {
      forall i | 0 <= i < |rows| ensures rows[i].word != w {
        assert rows[i].word == ws[i];
      }
      MeltRowsAbsent(rows, text1, text2, w);
    }
  }

  /** The melted chart data: each of the top words has exactly two rows, carrying its
      count in text 1 and then its count in text 2, and no other word has any. */
  lemma ChartMelted(f1: Counter, f2: Counter, n: nat, text1: string, text2: string, w: string)
    ensures var m := Melt(ChartRows(f1, f2, n), text1, text2);
      && (w in TopWords(f1, f2, n) ==>
            RowsFor(m, w) == [MeltedRow(w, text1, Get(f1, w)), MeltedRow(w, text2, Get(f2, w))])
      && (w !in TopWords(f1, f2, n) ==> RowsFor(m, w) == [])
  {
    var top := TopWords(f1, f2, n);
    assert ChartRows(f1, f2, n) == RowsOf(f1, f2, top);
    MeltRowsOf(f1, f2, top, text1, text2, w);
  }
}
