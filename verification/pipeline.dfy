/** One press of "Generate WordCloud and Comparison" (app.py:99-156, 183): both texts
    are counted, then the comparison table and the melted chart data are built from
    the two counters. Tokenising a lower-cased text (`word_tokenize(texto.lower())`),
    alphabeticity and the stopword lists are parameters. */
module Pipeline {
  import opened Seqs
  import opened Counters
  import opened WordFilter
  import opened Significance
  import opened Comparison
  import opened ChartData

  /** What the page shows for one comparison: the two counters (also fed to the word
      clouds), the comparison table and the melted chart data. */
  datatype Report = Report(freq1: Counter, freq2: Counter, table: seq<Row>, chart: seq<MeltedRow>)

  /** How one press of the button ends: the warning for a missing text; the word-cloud
      call raising for text `k`, whose counter holds no word (the WordCloud library
      refuses to plot zero words), so nothing after it is shown; or the full report. */
  datatype Outcome = MissingText | NoWordsToPlot(k: nat) | Shown(report: Report)

  /** The name of a text's frequency column, `f'Frequency Text {k} ({idioma})'`. */
  function ColumnName(k: nat, tag: string): (name: string)
    requires k == 1 || k == 2
    ensures |name| == |tag| + 19 && name[15] == (if k == 1 then '1' else '2')
  {
    "Frequency Text " + (if k == 1 then "1" else "2") + " (" + tag + ")"
  }

  /** The two frequency columns never share a name, whatever the two language tags,
      so the melted rows of the two texts stay apart. */
  lemma ColumnNamesDiffer(tag1: string, tag2: string)
    ensures ColumnName(1, tag1) != ColumnName(2, tag2)
  {
    assert ColumnName(1, tag1)[15] != ColumnName(2, tag2)[15];
  }

  /** The comparison: the warning when a text is missing; otherwise text 1 is counted
      and plotted, then text 2, and the page stops at the first counter with no word;
      otherwise the table and the chart are built from the two counters. */
  function Compare(text1: string, tag1: string, text2: string, tag2: string, chartWords: nat,
                   tokenizeLower: string -> seq<string>, isAlpha: string -> bool,
                   stopEs: set<string>, stopEn: set<string>): (r: Outcome)
    ensures r.MissingText? <==> text1 == "" || text2 == ""
    ensures var f1 := FilteredWords(tokenizeLower(text1), LangOf(tag1), isAlpha, stopEs, stopEn);
      var f2 := FilteredWords(tokenizeLower(text2), LangOf(tag2), isAlpha, stopEs, stopEn);
      && (r.NoWordsToPlot? <==> text1 != "" && text2 != "" && (f1.keys == [] || f2.keys == []))
      && (r.NoWordsToPlot? ==> (r.k == 1 <==> f1.keys == []) && (r.k == 1 || r.k == 2))
      && (r.Shown? ==> r.report.freq1 == f1 && r.report.freq2 == f2 && f1.keys != [] && f2.keys != [])
    ensures r.Shown? ==>
      && r.report.table == Table(r.report.freq1, r.report.freq2)
      && r.report.chart == Melt(ChartRows(r.report.freq1, r.report.freq2, chartWords), ColumnName(1, tag1), ColumnName(2, tag2))
  {
    if text1 == "" || text2 == "" then MissingText
    else
      var f1 := FilteredWords(tokenizeLower(text1), LangOf(tag1), isAlpha, stopEs, stopEn);
      if f1.keys == [] then NoWordsToPlot(1)
      else
        var f2 := FilteredWords(tokenizeLower(text2), LangOf(tag2), isAlpha, stopEs, stopEn);
        if f2.keys == [] then NoWordsToPlot(2)
        else
          var rows := ChartRows(f1, f2, chartWords);
          Shown(Report(f1, f2, Table(f1, f2), Melt(rows, ColumnName(1, tag1), ColumnName(2, tag2))))
  }

  /** A shown report has one table row per word of either text, and there is at least
      one such word; the chart has two rows for each of the top words, which number
      the requested count or every word, whichever is fewer. */
  lemma ShownSizes(text1: string, tag1: string, text2: string, tag2: string, chartWords: nat,
                   tokenizeLower: string -> seq<string>, isAlpha: string -> bool,
                   stopEs: set<string>, stopEn: set<string>)
    ensures var r := Compare(text1, tag1, text2, tag2, chartWords, tokenizeLower, isAlpha, stopEs, stopEn);
      r.Shown? ==>
        var u := |UnionKeys(r.report.freq1, r.report.freq2)|;
        && 0 < |r.report.table| == u
        && |r.report.chart| == 2 * (if chartWords <= u then chartWords else u)
  {
    var r := Compare(text1, tag1, text2, tag2, chartWords, tokenizeLower, isAlpha, stopEs, stopEn);
    if r.Shown? {
      var f1, f2 := r.report.freq1, r.report.freq2;
      var rows := ChartRows(f1, f2, chartWords);
      assert |rows| == |Words(rows)|;
      TableSize(f1, f2);
      assert f1.keys[0] in UnionKeys(f1, f2);
    }
  }

  /** A text in an unsupported language has no words, so the page stops at its word
      cloud: no table and no chart are shown. */
  lemma UnsupportedLanguageAborts(text1: string, tag1: string, text2: string, tag2: string, chartWords: nat,
                                  tokenizeLower: string -> seq<string>, isAlpha: string -> bool,
                                  stopEs: set<string>, stopEn: set<string>)
    requires text1 != "" && text2 != ""
    requires (tag1 != "es" && tag1 != "en") || (tag2 != "es" && tag2 != "en")
    ensures var r := Compare(text1, tag1, text2, tag2, chartWords, tokenizeLower, isAlpha, stopEs, stopEn);
      r.NoWordsToPlot? && ((tag1 != "es" && tag1 != "en") ==> r.k == 1)
  {
    if tag1 != "es" && tag1 != "en" {
      UnsupportedLanguageIsEmpty(tokenizeLower(text1), tag1, isAlpha, stopEs, stopEn);
    } else {
      UnsupportedLanguageIsEmpty(tokenizeLower(text2), tag2, isAlpha, stopEs, stopEn);
    }
  }

  /** In the chart of a comparison, each of the top words has two rows, one per text
      and labelled with that text's column name, carrying its count in that text; no
      other word appears. */
  lemma CompareChart(text1: string, tag1: string, text2: string, tag2: string, chartWords: nat,
                     tokenizeLower: string -> seq<string>, isAlpha: string -> bool,
                     stopEs: set<string>, stopEn: set<string>, w: string)
    ensures var r := Compare(text1, tag1, text2, tag2, chartWords, tokenizeLower, isAlpha, stopEs, stopEn);
      r.Shown? ==>
      && (w in TopWords(r.report.freq1, r.report.freq2, chartWords) ==>
            RowsFor(r.report.chart, w) ==
              [MeltedRow(w, ColumnName(1, tag1), Get(r.report.freq1, w)), MeltedRow(w, ColumnName(2, tag2), Get(r.report.freq2, w))])
      && (w !in TopWords(r.report.freq1, r.report.freq2, chartWords) ==> RowsFor(r.report.chart, w) == [])
  {
    var r := Compare(text1, tag1, text2, tag2, chartWords, tokenizeLower, isAlpha, stopEs, stopEn);
    if r.Shown? {
      ChartMelted(r.report.freq1, r.report.freq2, chartWords, ColumnName(1, tag1), ColumnName(2, tag2), w);
    }
  }
}
