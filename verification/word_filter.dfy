/** `obtener_palabras_filtradas_nltk_multiidioma` (app.py:42-54): the words of one
    text, filtered by alphabeticity and the language's stopword list, then counted.
    Tokenisation and lower-casing happen before this step: the tokens arrive as a
    sequence. Alphabeticity (`str.isalpha`) and the two stopword lists are parameters. */
module WordFilter {
  import opened Seqs
  import opened Counters

  /** The language tag of a text; any tag other than "es" or "en" is kept verbatim. */
  datatype Lang = Es | En | Other(tag: string)

  /** Reads a language tag as the selector widgets produce it. */
  function LangOf(tag: string): (l: Lang)
    ensures l == Es <==> tag == "es"
    ensures l == En <==> tag == "en"
    ensures l.Other? ==> l.tag == tag
  {
    if tag == "es" then Es else if tag == "en" then En else Other(tag)
  }

  /** A token survives the filter: the language is supported, the token is
      alphabetic, and it is not one of that language's stopwords. */
  predicate Admits(lang: Lang, isAlpha: string -> bool, stopEs: set<string>, stopEn: set<string>, w: string): (b: bool)
    ensures lang.Other? ==> !b
    ensures lang == Es ==> (b <==> isAlpha(w) && w !in stopEs)
    ensures lang == En ==> (b <==> isAlpha(w) && w !in stopEn)
  {
    match lang
    case Es => isAlpha(w) && w !in stopEs
    case En => isAlpha(w) && w !in stopEn
    case Other(_) => false
  }

  /** `[w for w in word_tokens if w.isalpha() and w not in stop_words]`. */
  function Kept(tokens: seq<string>, lang: Lang, isAlpha: string -> bool, stopEs: set<string>, stopEn: set<string>): (ws: seq<string>)
    ensures forall w :: w in ws ==> Admits(lang, isAlpha, stopEs, stopEn, w)
    ensures forall w :: multiset(ws)[w] == if Admits(lang, isAlpha, stopEs, stopEn, w) then multiset(tokens)[w] else 0
    ensures (forall w :: w in tokens ==> Admits(lang, isAlpha, stopEs, stopEn, w)) ==> ws == tokens
  {
    Select(tokens, w => Admits(lang, isAlpha, stopEs, stopEn, w))
  }

  /** The word counts of one text: an unsupported language gives the empty counter;
      otherwise the kept tokens are counted. */
  function FilteredWords(tokens: seq<string>, lang: Lang, isAlpha: string -> bool, stopEs: set<string>, stopEn: set<string>): (c: Counter)
    ensures lang.Other? ==> c.keys == [] && c.freq == map[]
    ensures forall w :: w in c.freq ==> Admits(lang, isAlpha, stopEs, stopEn, w) && c.freq[w] >= 1
    ensures forall w :: Get(c, w) == if Admits(lang, isAlpha, stopEs, stopEn, w) then multiset(tokens)[w] else 0
    ensures Total(c) == |Kept(tokens, lang, isAlpha, stopEs, stopEn)|
  {
    if lang.Other? then Empty
    else
      var ws := Kept(tokens, lang, isAlpha, stopEs, stopEn);
      TotalCountOf(ws);
      CountOf(ws)
  }

  /** Whatever the text, a language other than Spanish or English yields no words. */
  lemma UnsupportedLanguageIsEmpty(tokens: seq<string>, tag: string, isAlpha: string -> bool, stopEs: set<string>, stopEn: set<string>)
    requires tag != "es" && tag != "en"
    ensures FilteredWords(tokens, LangOf(tag), isAlpha, stopEs, stopEn) == Empty
  {
  }

  /** Filtering keeps the tokens' order: of two kept words, the one met first among
      the kept tokens is the one met first among all the tokens. */
  lemma KeptOrder(tokens: seq<string>, lang: Lang, isAlpha: string -> bool, stopEs: set<string>, stopEn: set<string>,
                  w: string, x: string)
    requires w in Kept(tokens, lang, isAlpha, stopEs, stopEn) && x in Kept(tokens, lang, isAlpha, stopEs, stopEn)
    ensures var ws := Kept(tokens, lang, isAlpha, stopEs, stopEn);
      FirstIndex(ws, w) < FirstIndex(ws, x) <==> FirstIndex(tokens, w) < FirstIndex(tokens, x)
  {
    SelectOrder(tokens, w => Admits(lang, isAlpha, stopEs, stopEn, w), w, x);
  }

  /** Words listed in order of first occurrence among the kept tokens are also listed
      in order of first occurrence among all the tokens. */
  lemma KeysFollowTokens(tokens: seq<string>, lang: Lang, isAlpha: string -> bool, stopEs: set<string>, stopEn: set<string>,
                         ks: seq<string>)
    requires forall k :: 0 <= k < |ks| ==> ks[k] in Kept(tokens, lang, isAlpha, stopEs, stopEn)
    requires var ws := Kept(tokens, lang, isAlpha, stopEs, stopEn);
      forall i, j :: 0 <= i < j < |ks| ==> FirstIndex(ws, ks[i]) < FirstIndex(ws, ks[j])
    ensures forall i, j :: 0 <= i < j < |ks| ==>
      ks[i] in tokens && ks[j] in tokens && FirstIndex(tokens, ks[i]) < FirstIndex(tokens, ks[j])
  {
    forall i, j | 0 <= i < j < |ks|
      ensures ks[i] in tokens && ks[j] in tokens && FirstIndex(tokens, ks[i]) < FirstIndex(tokens, ks[j])
    {
      KeptOrder(tokens, lang, isAlpha, stopEs, stopEn, ks[i], ks[j]);
    }
  }

  /** The keys of a text's counter follow the order in which the kept words first appear. */
  lemma FilteredWordsKeyOrder(tokens: seq<string>, lang: Lang, isAlpha: string -> bool, stopEs: set<string>, stopEn: set<string>)
    ensures var ws := Kept(tokens, lang, isAlpha, stopEs, stopEn);
      var ks := FilteredWords(tokens, lang, isAlpha, stopEs, stopEn).keys;
      forall i, j :: 0 <= i < j < |ks| ==> FirstIndex(ws, ks[i]) < FirstIndex(ws, ks[j])
  {
    if !lang.Other? {
      CountOfKeyOrder(Kept(tokens, lang, isAlpha, stopEs, stopEn));
    }
  }

  /** The keys of a text's counter follow the order in which the words first appear
      among all the tokens of the text, stopwords and non-words included. */
  lemma FilteredWordsTokenOrder(tokens: seq<string>, lang: Lang, isAlpha: string -> bool, stopEs: set<string>, stopEn: set<string>)
    ensures var ks := FilteredWords(tokens, lang, isAlpha, stopEs, stopEn).keys;
      forall i, j :: 0 <= i < j < |ks| ==>
        ks[i] in tokens && ks[j] in tokens && FirstIndex(tokens, ks[i]) < FirstIndex(tokens, ks[j])
  {
    if !lang.Other? {
      var ws := Kept(tokens, lang, isAlpha, stopEs, stopEn);
      CountOfKeyOrder(ws);
      KeysFollowTokens(tokens, lang, isAlpha, stopEs, stopEn, CountOf(ws).keys);
    }
  }
}
