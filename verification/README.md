# TextComparator word statistics, modelled in Dafny

TextComparator is a Streamlit page, `app.py`. It takes two texts, each tagged as Spanish (`es`) or English (`en`), and compares their vocabulary. This project models the word-statistics pipeline behind the page as pure Dafny functions, and proves what each step promises.

1. **Filter and count** (`obtener_palabras_filtradas_nltk_multiidioma`, module `WordFilter`).
   - The language tag picks a stopword list.
   - Any other tag gives an empty counter.
   - Tokens that are alphabetic and not stopwords are kept, then counted.
2. **Counters** (module `Counters`) model Python's `collections.Counter`:
   - counting a token list;
   - `.get(w, 0)`;
   - `+`, including its key order;
   - `most_common(n)`, a stable sort by descending count, cut after `n` words.

   A counter keeps its keys in insertion order, because `most_common` breaks ties by that order.
3. **Comparison table** (module `Comparison`): one row per word of either text, holding its count in each text and its significance label.
4. **Significance classifier** (`palabras_significativas`, module `Significance`): five first-match rules. They use a factor of 2 and a floor of 5.
5. **Chart data** (module `ChartData`):
   - the `n` words with the highest combined count, each with its count per text;
   - the same data melted into one row per word and text.
6. **One comparison** (module `Pipeline`):
   - both texts non-empty: the two counters, the table and the chart data;
   - a text missing: the warning;
   - a text with no word left after filtering: the page stops at that text's word cloud, because the WordCloud library refuses to plot zero words.
7. **The worked example** "cat cat dog" against "dog dog dog bird" (module `Scenario`).

Module `Seqs` holds sequence facts (distinctness, first occurrences, filtering) used throughout.

Parameters stand for code outside the model:
- `tokenizeLower` stands for `word_tokenize(texto.lower())`;
- `isAlpha` stands for `str.isalpha`;
- `stopEs` and `stopEn` stand for NLTK's Spanish and English stopword lists.

## Model

| member | source | states |
|---|---|---|
| WordFilter.LangOf | app.py:43-48 | a tag selects Spanish exactly when it is "es" and English exactly when it is "en"; any other tag is kept as an unsupported language |
| WordFilter.Admits | app.py:43-52 | an unsupported language admits no token; Spanish admits exactly the alphabetic tokens outside the Spanish stopwords, English likewise with the English stopwords |
| Seqs.Select | app.py:51-53 | a list comprehension with a condition: an element is in the result exactly when it is in the input and passes the condition, and each passing element occurs as often as in the input; a list without repetitions stays without them; when every element passes, the result is the input |
| WordFilter.Kept | app.py:51-53 | every kept token is admitted: the language is supported, the token is alphabetic, and it is not one of that language's stopwords; each admitted word is kept as often as it occurs, each other word never; when every token is admitted nothing is dropped; the kept tokens keep the order of their first occurrences (see `Seqs.SelectOrder`) |
| WordFilter.FilteredWords | app.py:42-54 | an unsupported language gives the empty counter; every key is admitted with a count of at least 1; each word's count is its number of occurrences when admitted and 0 otherwise; the counts add up to the number of kept tokens |
| WordFilter.UnsupportedLanguageIsEmpty | app.py:43-48 | whatever the text, a tag other than "es" or "en" yields `Counter()` |
| WordFilter.KeptOrder | app.py:50-53 | of two kept words, the one met first among the kept tokens is the one met first among all the tokens |
| WordFilter.FilteredWordsKeyOrder | app.py:50-54 | a text's counter lists its words in the order in which the kept tokens first show them |
| WordFilter.FilteredWordsTokenOrder | app.py:50-54 | a text's counter lists its words in the order of their first occurrence among all the text's tokens, stopwords and non-words included |
| Seqs.SelectOrder | app.py:51-53 | a list comprehension with a condition keeps the order of first occurrences: for two surviving elements, the first one met in the result is the first one met in the input |
| Counters.Get | app.py:119-120 | `c.get(w, 0)`: a word that is not a key counts 0 |
| Counters.GetZero | app.py:119-120 | in a counter, a word counts 0 exactly when it is not a key, since every stored count is positive |
| Counters.EmptyCounter | app.py:48 | `Counter()` has no keys, counts every word 0, and its counts add up to 0 |
| Counters.Tally | app.py:54 | counting one token raises its count by one and leaves every other count alone; a new word goes to the end of the key order, a known one leaves it unchanged |
| Counters.CountOf | app.py:54 | `Counter(ws)`: each word's count is its number of occurrences in `ws`; the keys are exactly the words of `ws` |
| Counters.TotalCountOf | app.py:51-54 | the counts of `Counter(ws)` add up to the length of `ws` |
| Counters.CountOfKeyOrder | app.py:54 | the keys of `Counter(ws)` are ordered by each word's first occurrence in `ws` |
| Counters.UnionKeys | app.py:117-118 | the union of two counters' keys, listed without repetition: a word is listed exactly when it is a key of either counter |
| Counters.Plus | app.py:148 | `a + b`: each word's count is the sum of its two counts, and a word is a key exactly when it is a key of either counter; the key order is `a`'s keys, then the keys found only in `b` |
| Counters.SortByCount | app.py:149 | the sort returns as many words as it is given, and the same words as often: it is a permutation |
| Counters.SortByCountCorrect | app.py:149 | the sort orders words by non-increasing count and keeps a list free of repetitions free of them; it is stable, so the words of each count keep their relative order |
| Counters.MostCommon | app.py:149 | `most_common(n)` returns min(n, number of keys) distinct keys in non-increasing count; each returned word outweighs each key left out; for every count, the words of that count that are returned are the first ones in insertion order |
| Comparison.Table | app.py:117-120 | one row per word of either text, with no word twice and no other word; each row holds `freq1.get(w, 0)` and `freq2.get(w, 0)`, which are never both 0, and its label is the classifier's verdict on the two counts |
| Comparison.TableSize | app.py:117-118 | the table has as many rows as the union of the two key sets has words |
| Comparison.TableLabels | app.py:127-130 | in any row, "Exclusive to Text 1" holds exactly when the text 2 count is 0, and "Exclusive to Text 2" exactly when the text 1 count is 0 |
| Significance.Classify | app.py:124-135 | each label on its own: exclusive to text 1 iff c1 > 0 = c2; exclusive to text 2 iff c2 > 0 = c1; more in text 1 iff both counts are positive, c1 > 2·c2 and c1 > 5; more in text 2 likewise with the texts swapped; no label in every remaining case |
| Significance.Caption | app.py:127-135 | the column text is empty exactly for "no notable skew" |
| Significance.ClassifySymmetric | app.py:127-135 | swapping the two counts swaps each Text 1 label with its Text 2 counterpart and keeps "no notable skew" |
| Significance.ClassifyBoundaries | app.py:131-135 | (10,3) is significantly more in text 1; (6,3) and (1,3) get no label; (3,10) is significantly more in text 2; (5,0) and (1000,0) are exclusive to text 1; (0,0) gets no label |
| ChartData.TopWords | app.py:148-149 | the top `n` words by combined count: min(n, union size) of them, distinct, all from either text, in non-increasing combined count; each outweighs every word left out; ties go to the word met first in the summed counter's key order |
| ChartData.ChartRows | app.py:150-152 | the chart table's Word column is the top words, and each row carries the word's original count in each text |
| ChartData.Melt | app.py:156 | melting doubles the number of rows |
| ChartData.MeltRowsPerWord | app.py:156 | in a table without repeated words, melting gives each word exactly two rows: its text 1 count under the first column's name, then its text 2 count under the second's |
| ChartData.MeltRowsOf | app.py:150-156 | melting the rows built for a list of distinct words gives each listed word its two per-text rows and no other word any row |
| ChartData.ChartMelted | app.py:148-156 | in the melted chart data each top word has exactly its two per-text rows with its original counts, and no other word appears |
| Pipeline.ColumnName | app.py:119-120 | the column name `Frequency Text k (tag)` has the tag's length plus 19 characters, with the text number at position 15 |
| Pipeline.ColumnNamesDiffer | app.py:151-152 | the two frequency columns never share a name, whatever the tags, so melted rows from the two texts stay apart |
| Pipeline.Compare | app.py:99-156 | the warning comes exactly when a text is empty; otherwise the page stops at a word cloud exactly when a counter has no word, at text 1's if its counter is empty; a shown report holds the filtered counts of the two texts' tokens, both non-empty, the comparison table of the two counters and the melted chart rows of their top words |
| Pipeline.ShownSizes | app.py:117-156 | a shown table has one row per word of either text, at least one; the chart has two rows for each top word, as many as requested or every word, whichever is fewer |
| Pipeline.UnsupportedLanguageAborts | app.py:42-106 | with both texts present and a tag other than "es" or "en", the page stops at a word cloud, at text 1's when its tag is the unsupported one |
| Pipeline.CompareChart | app.py:148-156 | in a comparison's chart, each top word has its two rows, named after the two frequency columns and carrying its count in each text, and no other word appears |
| Scenario.KeepsAll | app.py:42-54 | in Spanish or English, when every token is alphabetic and none is one of that language's stopwords, filtering and counting is plain `Counter(tokens)` |
| Scenario.CountsText1 | app.py:54 | counting "cat cat dog" gives cat:2, dog:1, in that key order |
| Scenario.CountsText2 | app.py:54 | counting "dog dog dog bird" gives dog:3, bird:1, in that key order |
| Scenario.ScenarioTable | app.py:117-138 | for those two counters the table is cat (2, 0, exclusive to text 1), dog (1, 3, no label), bird (0, 1, exclusive to text 2) |
| Scenario.ScenarioTop | app.py:148-149 | for those two counters the top ten words are dog (4), cat (2), bird (1) |
| Scenario.CatDogScenario | app.py:42-152 | end to end, from the two token lists in English with no stopwords: the table above and the ranking dog, cat, bird |

## Left out

- NLTK resource setup (app.py:5-8, 19-39) is not modelled. It covers data paths, `nltk.download` and probing for missing resources; this is I/O.
- Tokenising and lower-casing are not modelled. `word_tokenize(texto.lower())` (app.py:50) is the parameter `tokenizeLower`.
- Unicode alphabeticity is not modelled. `str.isalpha` (app.py:52) is the parameter `isAlpha`.
- The stopword lists are not modelled. NLTK's lists (app.py:20-29) are the parameters `stopEs` and `stopEn`.
- The word clouds (app.py:57-64, 103, 106) and the `max_words` slider (app.py:91) are not modelled, except that a word cloud of a counter with no word ends the page. That follows the WordCloud library's `generate_from_frequencies`, which raises when given zero words; the library is not part of this model, and `Compare` states the stop as `NoWordsToPlot`.
- Altair chart styling and colours (app.py:157-180) are not modelled; they are rendering only.
- The Streamlit widgets, layout, spinner and warning (app.py:67-113, 140, 144, 183) are not modelled. The guard at app.py:101 is kept, as `Compare` returning `MissingText`.
- The session-state sort (app.py:95-96, 142-143) is not modelled. `sort_by` starts as `None` and nothing in the file ever sets it, so the sort never runs.
- pandas DataFrame mechanics (app.py:121, 138, 153) are not modelled. Tables are sequences of row datatypes.
- Comparison.Table: rows come in a fixed order, "keys of text 1, then keys only in text 2". `list(all_words)` at app.py:118 iterates a Python set, whose order depends on string hashes and is not reproducible. The row set, the row contents and the labels are modelled exactly; only that order differs.
- Counters.MostCommon returns only the words. `most_common` yields (word, count) pairs, and app.py:149 keeps just the words. `heapq.nlargest`, which `most_common(n)` uses, is documented as equivalent to a stable `sorted(..., reverse=True)[:n]`. The model follows that equivalent.
- Determinism is not stated as a lemma. The model is made of functions, so identical inputs give identical results by construction.
