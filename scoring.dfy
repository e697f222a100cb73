/** Keyword extraction and extractive sentence ranking (app.js `extractKeywords`,
 *  `scoreSentences`, `topSentences`).  `Math.log` is a parameter `ln`: every
 *  property here holds whatever logarithm is supplied. */
module Scoring {
  import opened Seqs
  import opened Text
  import opened Sorting
  import opened Tokenizer

  /** The natural logarithm, left abstract. */
  type Ln = real -> real

  // ---------- keywords ----------

  datatype ScoredWord = ScoredWord(word: string, score: real)

  function WordScore(w: ScoredWord): real {
    w.score
  }

  /** The `tf` entry of `w`: its number of occurrences. */
  function Occurrences(words: seq<string>, w: string): nat
    decreases |words|
  {
    if words == [] then 0
    else Occurrences(words[..|words| - 1], w) + (if words[|words| - 1] == w then 1 else 0)
  }

  /** `sentences.filter(s => s.toLowerCase().includes(w)).length`: substring containment,
   *  so a word also counts for a sentence that only contains it inside a longer word. */
  function DocFreq(sentences: seq<string>, w: string): (r: nat)
    ensures r <= |sentences|
    decreases |sentences|
  {
    if sentences == [] then 0
    else (if Contains(Lower(sentences[0]), w) then 1 else 0) + DocFreq(sentences[1..], w)
  }

  /** The document frequency is positive exactly when some sentence contains `w`, and
   *  equals the sentence count exactly when every sentence does. */
  lemma {:induction false} DocFreqCounts(sentences: seq<string>, w: string)
    ensures DocFreq(sentences, w) > 0 <==> exists k :: 0 <= k < |sentences| && Contains(Lower(sentences[k]), w)
    ensures DocFreq(sentences, w) == |sentences| <==> forall k :: 0 <= k < |sentences| ==> Contains(Lower(sentences[k]), w)
    decreases |sentences|
  {
    if sentences != [] {
      DocFreqCounts(sentences[1..], w);
      assert forall k :: 1 <= k < |sentences| ==> sentences[k] == sentences[1..][k - 1];
    }
  }

  /** The `idf` entry of `w`. */
  function Idf(sentences: seq<string>, w: string, ln: Ln): real {
    ln((|sentences| + 1) as real / (DocFreq(sentences, w) + 1) as real) + 1.0
  }

  /** Words longer than 6 characters get 30% more weight. */
  function LengthBoost(w: string): real {
    if |w| > 6 then 1.3 else 1.0
  }

  function KeywordValue(words: seq<string>, sentences: seq<string>, w: string, ln: Ln): real {
    Occurrences(words, w) as real * Idf(sentences, w, ln) * LengthBoost(w)
  }

  /** `wordSet.map(w => ({ word: w, score: ... }))`. */
  function ScoreWords(cands: seq<string>, words: seq<string>, sentences: seq<string>, ln: Ln): seq<ScoredWord> {
    seq(|cands|, k requires 0 <= k < |cands| => ScoredWord(cands[k], KeywordValue(words, sentences, cands[k], ln)))
  }

  function WordsOf(ks: seq<ScoredWord>): seq<string> {
    seq(|ks|, k requires 0 <= k < |ks| => ks[k].word)
  }

  /** The scored candidates, best first; ties keep the candidates' order. */
  function RankWords(cands: seq<string>, words: seq<string>, sentences: seq<string>, ln: Ln): seq<ScoredWord> {
    SortDesc(ScoreWords(cands, words, sentences, ln), WordScore)
  }

  /** `scored.slice(0, topN).map(s => s.word)`. */
  function TopWords(cands: seq<string>, words: seq<string>, sentences: seq<string>, topN: nat, ln: Ln): seq<string> {
    WordsOf(Take(RankWords(cands, words, sentences, ln), topN))
  }

  lemma TopWordsAreCandidates(cands: seq<string>, words: seq<string>, sentences: seq<string>, topN: nat, ln: Ln)
    ensures |TopWords(cands, words, sentences, topN, ln)| == if topN < |cands| then topN else |cands|
    ensures forall k :: 0 <= k < |Take(RankWords(cands, words, sentences, ln), topN)| ==>
              Take(RankWords(cands, words, sentences, ln), topN)[k] in ScoreWords(cands, words, sentences, ln)
    ensures forall k :: 0 <= k < |TopWords(cands, words, sentences, topN, ln)| ==>
              TopWords(cands, words, sentences, topN, ln)[k] in cands
  {
    var scored := ScoreWords(cands, words, sentences, ln);
    var top := Take(RankWords(cands, words, sentences, ln), topN);
    forall k | 0 <= k < |top| ensures top[k] in scored && top[k].word in cands {
      assert top[k] in top;
      TakeSortedMember(scored, WordScore, topN, top[k]);
      var j :| 0 <= j < |scored| && scored[j] == top[k];
    }
  }

  /** Distinct candidates give distinct keywords: each word is scored once. */
  lemma TopWordsDistinct(cands: seq<string>, words: seq<string>, sentences: seq<string>, topN: nat, ln: Ln)
    requires Distinct(cands)
    ensures Distinct(TopWords(cands, words, sentences, topN, ln))
  {
    var scored := ScoreWords(cands, words, sentences, ln);
    var ranked := RankWords(cands, words, sentences, ln);
    var top := Take(ranked, topN);
    assert Distinct(scored) by {
      forall i, j | 0 <= i < j < |scored| ensures scored[i] != scored[j] {
        assert scored[i].word == cands[i] && scored[j].word == cands[j];
      }
    }
    DistinctPerm(scored, ranked);
    SliceSubseq(ranked, 0, |top|);
    DistinctSubseq(top, ranked);
    TopWordsAreCandidates(cands, words, sentences, topN, ln);
  }

  /** Ranking: no candidate left out scores higher than a keyword kept. */
  lemma TopWordsDominate(cands: seq<string>, words: seq<string>, sentences: seq<string>, topN: nat, ln: Ln, w: string, v: string)
    requires w in cands && w !in TopWords(cands, words, sentences, topN, ln)
    requires v in TopWords(cands, words, sentences, topN, ln)
    ensures KeywordValue(words, sentences, w, ln) <= KeywordValue(words, sentences, v, ln)
  {
    var scored := ScoreWords(cands, words, sentences, ln);
    var top := Take(RankWords(cands, words, sentences, ln), topN);
    var i :| 0 <= i < |cands| && cands[i] == w;
    var x := scored[i];
    var j :| 0 <= j < |top| && WordsOf(top)[j] == v;
    TopWordsAreCandidates(cands, words, sentences, topN, ln);
    forall m | 0 <= m < |top| ensures top[m] != x {
      assert WordsOf(top)[m] == top[m].word;
    }
    TopDominates(scored, WordScore, topN, x, top[j]);
    var b :| 0 <= b < |scored| && scored[b] == top[j];
  }

  // ---------- ties among keywords ----------

  /** The words of `ws` whose keyword value is `c`, in the order of `ws`. */
  function ValueTies(ws: seq<string>, words: seq<string>, sentences: seq<string>, ln: Ln, c: real): seq<string>
    decreases |ws|
  {
    if ws == [] then []
    else (if KeywordValue(words, sentences, ws[0], ln) == c then [ws[0]] else []) + ValueTies(ws[1..], words, sentences, ln, c)
  }

  /** Each record scored with its own word's value. */
  predicate ScoredBy(ks: seq<ScoredWord>, words: seq<string>, sentences: seq<string>, ln: Ln) {
    forall k :: 0 <= k < |ks| ==> ks[k].score == KeywordValue(words, sentences, ks[k].word, ln)
  }

  lemma {:induction false} TiesOfScored(ks: seq<ScoredWord>, words: seq<string>, sentences: seq<string>, ln: Ln, c: real)
    requires ScoredBy(ks, words, sentences, ln)
    ensures WordsOf(Ties(ks, WordScore, c)) == ValueTies(WordsOf(ks), words, sentences, ln, c)
    decreases |ks|
  {
    if ks != [] {
      assert ScoredBy(ks[1..], words, sentences, ln) by {
        assert forall k :: 0 <= k < |ks[1..]| ==> ks[1..][k] == ks[k + 1];
      }
      TiesOfScored(ks[1..], words, sentences, ln, c);
      var head := if WordScore(ks[0]) == c then [ks[0]] else [];
      var rest := Ties(ks[1..], WordScore, c);
      assert Ties(ks, WordScore, c) == head + rest;
      WordsOfConcat(head, rest);
      WordsOfConcat([ks[0]], ks[1..]);
      assert ks == [ks[0]] + ks[1..];
    }
  }

  lemma WordsOfConcat(a: seq<ScoredWord>, b: seq<ScoredWord>)
    ensures WordsOf(a + b) == WordsOf(a) + WordsOf(b)
  {
  }

  lemma WordsOfPrefix(a: seq<ScoredWord>, b: seq<ScoredWord>)
    requires |a| <= |b| && a == b[..|a|]
    ensures |WordsOf(a)| <= |WordsOf(b)| && WordsOf(a) == WordsOf(b)[..|WordsOf(a)|]
  {
  }

  /** Among candidates of equal value, the top words are the ones listed first. */
  lemma TopWordsTies(cands: seq<string>, words: seq<string>, sentences: seq<string>, topN: nat, ln: Ln, c: real)
    ensures var kept, all := ValueTies(TopWords(cands, words, sentences, topN, ln), words, sentences, ln, c),
                             ValueTies(cands, words, sentences, ln, c);
            |kept| <= |all| && kept == all[..|kept|]
  {
    var scored := ScoreWords(cands, words, sentences, ln);
    var top := Take(SortDesc(scored, WordScore), topN);
    assert WordsOf(scored) == cands;
    TiesOfScored(scored, words, sentences, ln, c);
    assert ScoredBy(top, words, sentences, ln) by {
      TopWordsAreCandidates(cands, words, sentences, topN, ln);
      forall k | 0 <= k < |top| ensures top[k].score == KeywordValue(words, sentences, top[k].word, ln) {
        var j :| 0 <= j < |scored| && scored[j] == top[k];
      }
    }
    TiesOfScored(top, words, sentences, ln, c);
    TopTies(scored, WordScore, topN, c);
    WordsOfPrefix(Ties(top, WordScore, c), Ties(scored, WordScore, c));
  }

  /** A non-stop word is among the distinct non-stop words. */
  lemma DedupContentKeeps(ws: seq<string>, w: string)
    requires w in ws && !IsStopWord(w)
    ensures w in Dedup(ContentWords(ws))
  {
    ContentWordsMembers(ws, w);
    var content := ContentWords(ws);
    var k :| 0 <= k < |content| && content[k] == w;
  }

  /** The distinct non-stop words of `text` in order of first occurrence: the keys of `tf`. */
  function Candidates(text: string): (r: seq<string>)
    ensures Distinct(r)
    ensures forall k :: 0 <= k < |r| ==> !IsStopWord(r[k]) && r[k] in Words(text)
    ensures forall w :: w in Words(text) && !IsStopWord(w) ==> w in r
  {
    var content := ContentWords(Words(text));
    var r := Dedup(content);
    assert forall k :: 0 <= k < |r| ==> r[k] in content;
    forall w | w in Words(text) && !IsStopWord(w) ensures w in r {
      DedupContentKeeps(Words(text), w);
    }
    r
  }

  /** `extractKeywords(text, topN)`: the `topN` best-scoring candidates (or all of them),
   *  distinct, none of them a stop word. */
  function Keywords(text: string, topN: nat, ln: Ln): (r: seq<string>)
    ensures |r| == if topN < |Candidates(text)| then topN else |Candidates(text)|
    ensures Distinct(r)
    ensures forall k :: 0 <= k < |r| ==> r[k] in Candidates(text)
  {
    var cands, words, sentences := Candidates(text), ContentWords(Words(text)), Sentences(text);
    TopWordsAreCandidates(cands, words, sentences, topN, ln);
    TopWordsDistinct(cands, words, sentences, topN, ln);
    TopWords(cands, words, sentences, topN, ln)
  }

  /** Every keyword is a word token of the text and no stop word. */
  lemma KeywordsAreContentWords(text: string, topN: nat, ln: Ln)
    ensures forall k :: 0 <= k < |Keywords(text, topN, ln)| ==>
              IsWordToken(Keywords(text, topN, ln)[k]) && !IsStopWord(Keywords(text, topN, ln)[k]) &&
              Keywords(text, topN, ln)[k] in Words(text)
  {
    var r := Keywords(text, topN, ln);
    forall k | 0 <= k < |r| ensures IsWordToken(r[k]) && !IsStopWord(r[k]) && r[k] in Words(text) {
      var c := Candidates(text);
      var j :| 0 <= j < |c| && c[j] == r[k];
      var m :| 0 <= m < |Words(text)| && Words(text)[m] == r[k];
    }
  }

  /** No candidate left out of `extractKeywords(text, topN)` outscores a keyword returned. */
  lemma KeywordsAreTopScored(text: string, topN: nat, ln: Ln, w: string, v: string)
    requires w in Candidates(text) && w !in Keywords(text, topN, ln)
    requires v in Keywords(text, topN, ln)
    ensures var words, sentences := ContentWords(Words(text)), Sentences(text);
            KeywordValue(words, sentences, w, ln) <= KeywordValue(words, sentences, v, ln)
  {
    TopWordsDominate(Candidates(text), ContentWords(Words(text)), Sentences(text), topN, ln, w, v);
  }

  /** Ties go to the word seen first: among candidates of equal value, the keywords
   *  returned are the ones that come first in the text. */
  lemma KeywordsBreakTiesByFirstSeen(text: string, topN: nat, ln: Ln, c: real)
    ensures var words, sentences := ContentWords(Words(text)), Sentences(text);
            var kept, all := ValueTies(Keywords(text, topN, ln), words, sentences, ln, c),
                             ValueTies(Candidates(text), words, sentences, ln, c);
            |kept| <= |all| && kept == all[..|kept|]
  {
    TopWordsTies(Candidates(text), ContentWords(Words(text)), Sentences(text), topN, ln, c);
  }

  lemma {:induction false} OccurrencesAbsent(words: seq<string>, w: string)
    requires w !in words
    ensures Occurrences(words, w) == 0
    decreases |words|
  {
    if words != [] {
      assert w !in words[..|words| - 1];
      OccurrencesAbsent(words[..|words| - 1], w);
    }
  }

  lemma OccurrencesSnoc(words: seq<string>, x: string, w: string)
    ensures Occurrences(words + [x], w) == Occurrences(words, w) + (if x == w then 1 else 0)
  {
    assert (words + [x])[..|words|] == words;
  }

  /** The counts and keys `CountTerms` keeps for the words seen so far. */
  ghost predicate Counted(seen: seq<string>, tf: map<string, nat>, keys: seq<string>) {
    keys == Dedup(seen) &&
    (forall w :: w in tf <==> w in keys) &&
    (forall w :: w in tf ==> tf[w] == Occurrences(seen, w))
  }

  /** A word seen before bumps its count. */
  lemma CountAgain(seen: seq<string>, w: string, tf: map<string, nat>, keys: seq<string>)
    requires Counted(seen, tf, keys) && w in tf
    ensures Counted(seen + [w], tf[w := tf[w] + 1], keys)
  {
    DedupSnoc(seen, w);
    var t := tf[w := tf[w] + 1];
    forall x | x in t ensures t[x] == Occurrences(seen + [w], x) {
      OccurrencesSnoc(seen, w, x);
    }
  }

  /** A new word enters the counts with 1 and is appended to the keys. */
  lemma CountFirst(seen: seq<string>, w: string, tf: map<string, nat>, keys: seq<string>)
    requires Counted(seen, tf, keys) && w !in tf
    ensures Counted(seen + [w], tf[w := 1], keys + [w])
  {
    DedupSnoc(seen, w);
    OccurrencesAbsent(seen, w);
    var t := tf[w := 1];
    forall x | x in t ensures t[x] == Occurrences(seen + [w], x) {
      OccurrencesSnoc(seen, w, x);
    }
  }

  /** The `forEach` filling `tf`: occurrence counts, and the keys in insertion order. */
  method CountTerms(words: seq<string>) returns (tf: map<string, nat>, keys: seq<string>)
    ensures keys == Dedup(words)
    ensures forall k :: 0 <= k < |keys| ==> keys[k] in tf
    ensures forall w :: w in tf ==> tf[w] == Occurrences(words, w)
  {
    tf, keys := map[], [];
    var i := 0;
    while i < |words|
      invariant 0 <= i <= |words|
      invariant Counted(words[..i], tf, keys)
    {
      var w := words[i];
      assert words[..i + 1] == words[..i] + [w];
      if w in tf {
        CountAgain(words[..i], w, tf, keys);
        tf := tf[w := tf[w] + 1];
      } else {
        CountFirst(words[..i], w, tf, keys);
        tf := tf[w := 1];
        keys := keys + [w];
      }
      i := i + 1;
    }
    assert words[..i] == words;
  }

  /** The `forEach` filling `idf`. */
  method InverseDocFreqs(keys: seq<string>, sentences: seq<string>, ln: Ln) returns (idf: map<string, real>)
    ensures forall k :: 0 <= k < |keys| ==> keys[k] in idf && idf[keys[k]] == Idf(sentences, keys[k], ln)
  {
    idf := map[];
    var k := 0;
    while k < |keys|
      invariant 0 <= k <= |keys|
      invariant forall j :: 0 <= j < k ==> keys[j] in idf && idf[keys[j]] == Idf(sentences, keys[j], ln)
    {
      var w := keys[k];
      var df := DocFreq(sentences, w);
      idf := idf[w := ln((|sentences| + 1) as real / (df + 1) as real) + 1.0];
      k := k + 1;
    }
  }

  /** `{ word: w, score: tf[w] * idf[w] * boost }` read off the two tables. */
  function TableScores(keys: seq<string>, tf: map<string, nat>, idf: map<string, real>): seq<ScoredWord>
    requires forall k :: 0 <= k < |keys| ==> keys[k] in tf && keys[k] in idf
  {
    seq(|keys|, j requires 0 <= j < |keys| =>
      ScoredWord(keys[j], tf[keys[j]] as real * idf[keys[j]] * LengthBoost(keys[j])))
  }

  /** Tables holding the counts and the `idf` values give the scores `ScoreWords` defines. */
  lemma TableScoresAreScores(keys: seq<string>, words: seq<string>, sentences: seq<string>, ln: Ln,
                             tf: map<string, nat>, idf: map<string, real>)
    requires forall k :: 0 <= k < |keys| ==> keys[k] in tf && keys[k] in idf
    requires forall w :: w in tf ==> tf[w] == Occurrences(words, w)
    requires forall k :: 0 <= k < |keys| ==> idf[keys[k]] == Idf(sentences, keys[k], ln)
    ensures TableScores(keys, tf, idf) == ScoreWords(keys, words, sentences, ln)
  {
    var t, s := TableScores(keys, tf, idf), ScoreWords(keys, words, sentences, ln);
    forall j | 0 <= j < |keys| ensures t[j] == s[j] {
      var w := keys[j];
      var c, d := tf[w], idf[w];
      assert c == Occurrences(words, w) && d == Idf(sentences, w, ln);
      assert t[j] == ScoredWord(w, c as real * d * LengthBoost(w));
    }
  }

  /** `extractKeywords` as the source runs it: one pass filling `tf` (whose keys keep
   *  insertion order), one pass filling `idf`, then a stable sort and a slice. */
  method ExtractKeywords(text: string, topN: nat, ln: Ln) returns (keywords: seq<string>)
    ensures keywords == Keywords(text, topN, ln)
  {
    var sentences := Sentences(text);
    var words := ContentWords(Words(text));
    var tf, keys := CountTerms(words);
    var idf := InverseDocFreqs(keys, sentences, ln);
    var scored := TableScores(keys, tf, idf);
    TableScoresAreScores(keys, words, sentences, ln, tf, idf);
    assert keys == Candidates(text);
    keywords := WordsOf(Take(SortDesc(scored, WordScore), topN));
  }

  // ---------- sentence scores ----------

  datatype ScoredSentence = ScoredSentence(sent: string, score: real, idx: nat)

  /** The first sentence weighs 1.5, the next two 1.2, the rest 1.0. */
  function PositionWeight(idx: nat): real {
    if idx == 0 then 1.5 else if idx < 3 then 1.2 else 1.0
  }

  /** Sentences of fewer than 8 whitespace tokens are damped to 70%. */
  function LengthPenalty(sent: string): real {
    if SplitWsLength(sent) < 8 then 0.7 else 1.0
  }

  /** `words.filter(w => keywords.has(w)).length`. */
  function Hits(words: seq<string>, keywords: seq<string>): (r: nat)
    ensures r <= |words|
    ensures r > 0 <==> exists k :: 0 <= k < |words| && words[k] in keywords
    decreases |words|
  {
    if words == [] then 0
    else
      var rest := Hits(words[1..], keywords);
      assert forall k :: 1 <= k < |words| ==> words[k] == words[1..][k - 1];
      (if words[0] in keywords then 1 else 0) + rest
  }

  /** A share `h / n` of hits among `n >= 1` words lies in [0, 1] and is positive exactly when `h` is. */
  lemma DensityBounds(h: nat, n: nat)
    requires 1 <= n && h <= n
    ensures 0.0 <= h as real / n as real <= 1.0
    ensures h as real / n as real > 0.0 <==> h > 0
  {
  }

  /** Damping a weight in [1, 1.5] by a factor in (0, 1] keeps a density in [0, 1.5]. */
  lemma WeightedBounds(d: real, p: real, l: real)
    requires 0.0 <= d <= 1.0 && 1.0 <= p <= 1.5 && 0.0 < l <= 1.0
    ensures 0.0 <= d * p * l <= 1.5
    ensures d * p * l > 0.0 <==> d > 0.0
  {
    assert d * p <= 1.0 * p by {
      assert (1.0 - d) * p >= 0.0;
    }
    assert d * p * l <= d * p by {
      assert d * p * (1.0 - l) >= 0.0;
    }
    if d > 0.0 {
      assert d * p > 0.0;
    }
  }

  /** Keyword density times the position weight times the length penalty. */
  function SentenceScore(sent: string, idx: nat, keywords: seq<string>): (r: real)
    ensures 0.0 <= r <= 1.5
    ensures r > 0.0 <==> Hits(Words(sent), keywords) > 0
  {
    var words := Words(sent);
    var hits := Hits(words, keywords);
    var n := if |words| > 1 then |words| else 1;
    var density := hits as real / n as real;
    DensityBounds(hits, n);
    WeightedBounds(density, PositionWeight(idx), LengthPenalty(sent));
    density * PositionWeight(idx) * LengthPenalty(sent)
  }

  /** The map of `scoreSentences` over the sentences: one entry per sentence, at its
   *  own position, with a score in [0, 1.5] that is positive exactly when one of the
   *  sentence's words is a keyword. */
  function ScoreEach(sentences: seq<string>, keywords: seq<string>): (r: seq<ScoredSentence>)
    ensures |r| == |sentences|
    ensures forall i :: 0 <= i < |r| ==> r[i].sent == sentences[i] && r[i].idx == i
    ensures forall i :: 0 <= i < |r| ==> 0.0 <= r[i].score <= 1.5
    ensures forall i :: 0 <= i < |r| ==>
              (r[i].score > 0.0 <==> exists k :: 0 <= k < |Words(r[i].sent)| && Words(r[i].sent)[k] in keywords)
  {
    seq(|sentences|, i requires 0 <= i < |sentences| =>
      ScoredSentence(sentences[i], SentenceScore(sentences[i], i, keywords), i))
  }

  lemma ScoreEachNumbered(sentences: seq<string>, keywords: seq<string>)
    ensures NumberedInOrder(ScoreEach(sentences, keywords))
    ensures Texts(ScoreEach(sentences, keywords)) == sentences
  {
  }

  /** `scoreSentences(text)`: the sentences scored against the 20 best keywords. */
  function ScoreSentences(text: string, ln: Ln): seq<ScoredSentence> {
    ScoreEach(Sentences(text), Keywords(text, 20, ln))
  }

  // ---------- top sentences ----------

  function ScoreKey(e: ScoredSentence): real {
    e.score
  }

  /** The key of the comparator `(a, b) => a.idx - b.idx`, as a descending sort. */
  function ReadingKey(e: ScoredSentence): real {
    -(e.idx as real)
  }

  /** `.filter(s => !exclude.has(s.sent) && s.score > 0)`; `topSentences` excludes nothing. */
  function Eligible(es: seq<ScoredSentence>, exclude: seq<string>): (r: seq<ScoredSentence>)
    ensures forall k :: 0 <= k < |r| ==> r[k].score > 0.0 && r[k].sent !in exclude
    ensures forall k :: 0 <= k < |es| && es[k].score > 0.0 && es[k].sent !in exclude ==> es[k] in r
    ensures IsSubseq(r, es)
    decreases |es|
  {
    if es == [] then []
    else
      var rest := Eligible(es[1..], exclude);
      assert es == [es[0]] + es[1..];
      assert forall k :: 1 <= k < |es| ==> es[k] == es[1..][k - 1];
      if es[0].score > 0.0 && es[0].sent !in exclude then
        SubseqRefl([es[0]]);
        SubseqConcat([es[0]], [es[0]], rest, es[1..]);
        [es[0]] + rest
      else
        SubseqDropFront(rest, [es[0]], es[1..]);
        rest
  }

  /** `.sort(byScoreDesc).slice(0, n).sort(byIndex)`. */
  function Best(es: seq<ScoredSentence>, n: nat): seq<ScoredSentence> {
    SortDesc(Take(SortDesc(es, ScoreKey), n), ReadingKey)
  }

  /** An entry is determined by its index. */
  predicate IndexedUniquely(es: seq<ScoredSentence>) {
    Distinct(es) && forall i, j :: 0 <= i < |es| && 0 <= j < |es| && es[i].idx == es[j].idx ==> es[i] == es[j]
  }

  /** What `Best` promises: the `n` best by score (or all), in increasing index order,
   *  and nothing left out outscores anything kept. */
  lemma BestIsTopInReadingOrder(es: seq<ScoredSentence>, n: nat)
    requires IndexedUniquely(es)
    ensures |Best(es, n)| == if n < |es| then n else |es|
    ensures forall k :: 0 <= k < |Best(es, n)| ==> Best(es, n)[k] in es
    ensures forall i, j :: 0 <= i < j < |Best(es, n)| ==> Best(es, n)[i].idx < Best(es, n)[j].idx
    ensures forall x, y :: x in es && x !in Best(es, n) && y in Best(es, n) ==> x.score <= y.score
  {
    var top := Take(SortDesc(es, ScoreKey), n);
    var r := Best(es, n);
    BestDistinct(es, n);
    forall k | 0 <= k < |r| ensures r[k] in es {
      assert r[k] in multiset(r);
      TakeSortedMember(es, ScoreKey, n, r[k]);
    }
    ReadingOrderIncreasing(r);
    forall x, y | x in es && x !in r && y in r ensures x.score <= y.score {
      assert y in multiset(r);
      assert x !in multiset(r);
      TopDominates(es, ScoreKey, n, x, y);
    }
  }

  /** Distinct entries stay distinct through ranking, truncation and re-sorting. */
  lemma BestDistinct(es: seq<ScoredSentence>, n: nat)
    requires Distinct(es)
    ensures Distinct(Best(es, n))
  {
    var ranked := SortDesc(es, ScoreKey);
    var top := Take(ranked, n);
    DistinctPerm(es, ranked);
    SliceSubseq(ranked, 0, |top|);
    DistinctSubseq(top, ranked);
    DistinctPerm(top, Best(es, n));
  }

  /** Sorted by `ReadingKey` with distinct indices means increasing index. */
  lemma ReadingOrderIncreasing(r: seq<ScoredSentence>)
    requires SortedDesc(r, ReadingKey)
    ensures forall i, j :: 0 <= i < j < |r| ==> r[i].idx <= r[j].idx
  {
    forall i, j | 0 <= i < j < |r| ensures r[i].idx <= r[j].idx {
      assert ReadingKey(r[i]) >= ReadingKey(r[j]);
    }
  }

  /** Ties go to the earlier sentence: among eligible entries of equal score, the ones
   *  `slice(0, n)` keeps after ranking are the first ones in reading order. */
  lemma BestBreaksTiesByReadingOrder(es: seq<ScoredSentence>, n: nat, c: real)
    ensures var kept, all := Ties(Take(SortDesc(es, ScoreKey), n), ScoreKey, c), Ties(es, ScoreKey, c);
            |kept| <= |all| && kept == all[..|kept|]
    ensures multiset(Best(es, n)) == multiset(Take(SortDesc(es, ScoreKey), n))
  {
    TopTies(es, ScoreKey, n, c);
  }

  /** The eligible entries, best `n` of them, back in reading order. */
  function TopOf(es: seq<ScoredSentence>, exclude: seq<string>, n: nat): seq<ScoredSentence> {
    Best(Eligible(es, exclude), n)
  }

  function Texts(es: seq<ScoredSentence>): seq<string> {
    seq(|es|, k requires 0 <= k < |es| => es[k].sent)
  }

  /** `topSentences(text, n)`. */
  function TopSentences(text: string, n: nat, ln: Ln): seq<string> {
    Texts(TopOf(ScoreSentences(text, ln), [], n))
  }

  /** Entries numbered by their positions. */
  predicate NumberedInOrder(es: seq<ScoredSentence>) {
    forall i :: 0 <= i < |es| ==> es[i].idx == i
  }

  lemma EligibleIndexedUniquely(es: seq<ScoredSentence>, exclude: seq<string>)
    requires NumberedInOrder(es)
    ensures IndexedUniquely(Eligible(es, exclude))
  {
    var pos := Eligible(es, exclude);
    assert Distinct(es);
    DistinctSubseq(pos, es);
    forall i, j | 0 <= i < |pos| && 0 <= j < |pos| && pos[i].idx == pos[j].idx ensures pos[i] == pos[j] {
      SubseqMember(pos, es, pos[i]);
      SubseqMember(pos, es, pos[j]);
    }
  }

  /** The guarantees of `topSentences` (and of the takeaways, which also exclude the summary):
   *  `min(n, #eligible)` entries, each with a positive score and not excluded, in strictly
   *  increasing original position, and no eligible entry left out scores higher than one
   *  returned. */
  lemma TopOfIsBest(es: seq<ScoredSentence>, exclude: seq<string>, n: nat)
    requires NumberedInOrder(es)
    ensures |TopOf(es, exclude, n)| == if n < |Eligible(es, exclude)| then n else |Eligible(es, exclude)|
    ensures forall k :: 0 <= k < |TopOf(es, exclude, n)| ==>
              TopOf(es, exclude, n)[k].score > 0.0 && TopOf(es, exclude, n)[k].sent !in exclude &&
              TopOf(es, exclude, n)[k] in es
    ensures forall i, j :: 0 <= i < j < |TopOf(es, exclude, n)| ==> TopOf(es, exclude, n)[i].idx < TopOf(es, exclude, n)[j].idx
    ensures forall x, y ::
              x in es && x.score > 0.0 && x.sent !in exclude && x !in TopOf(es, exclude, n) && y in TopOf(es, exclude, n)
              ==> x.score <= y.score
  {
    var pos := Eligible(es, exclude);
    var r := TopOf(es, exclude, n);
    EligibleIndexedUniquely(es, exclude);
    BestIsTopInReadingOrder(pos, n);
    forall k | 0 <= k < |r| ensures r[k].score > 0.0 && r[k].sent !in exclude && r[k] in es {
      var m :| 0 <= m < |pos| && pos[m] == r[k];
      SubseqMember(pos, es, r[k]);
    }
    forall x, y | x in es && x.score > 0.0 && x.sent !in exclude && x !in r && y in r ensures x.score <= y.score {
      var m :| 0 <= m < |es| && es[m] == x;
      assert x in pos;
    }
  }

  /** Entries drawn from `es` in increasing index order keep their texts' order. */
  lemma DrawnInOrder(es: seq<ScoredSentence>, r: seq<ScoredSentence>)
    requires NumberedInOrder(es)
    requires forall k :: 0 <= k < |r| ==> r[k] in es
    requires forall i, j :: 0 <= i < j < |r| ==> r[i].idx < r[j].idx
    ensures IsSubseq(Texts(r), Texts(es))
  {
    var pos := seq(|r|, k requires 0 <= k < |r| => r[k].idx);
    forall k | 0 <= k < |r| ensures pos[k] < |es| && Texts(r)[k] == Texts(es)[pos[k]] {
      var m :| 0 <= m < |es| && es[m] == r[k];
    }
    PickedSubseq(Texts(r), Texts(es), pos);
  }

  /** What `TopOf` returns is drawn from the sentences, in reading order. */
  lemma TopOfInReadingOrder(es: seq<ScoredSentence>, exclude: seq<string>, n: nat)
    requires NumberedInOrder(es)
    ensures IsSubseq(Texts(TopOf(es, exclude, n)), Texts(es))
  {
    TopOfIsBest(es, exclude, n);
    DrawnInOrder(es, TopOf(es, exclude, n));
  }

  /** At most `n` texts come back, none of them excluded. */
  lemma TopOfBounded(es: seq<ScoredSentence>, exclude: seq<string>, n: nat)
    requires NumberedInOrder(es)
    ensures |Texts(TopOf(es, exclude, n))| <= n
    ensures forall j :: 0 <= j < |Texts(TopOf(es, exclude, n))| ==> Texts(TopOf(es, exclude, n))[j] !in exclude
  {
    var r := TopOf(es, exclude, n);
    TopOfIsBest(es, exclude, n);
    forall j | 0 <= j < |r| ensures Texts(r)[j] !in exclude {
      assert Texts(r)[j] == r[j].sent;
    }
  }

  /** `topSentences(text, n)` returns sentences of `text`, in reading order. */
  lemma TopSentencesInReadingOrder(text: string, n: nat, ln: Ln)
    ensures IsSubseq(TopSentences(text, n, ln), Sentences(text))
  {
    var sentences, keywords := Sentences(text), Keywords(text, 20, ln);
    ScoreEachNumbered(sentences, keywords);
    TopOfInReadingOrder(ScoreEach(sentences, keywords), [], n);
  }
}
