/** The sentence and word tokenizers (app.js `tokenizeSentences`, `tokenizeWords`),
 *  the stop-word list, and the whitespace token count behind `s.split(/\s+/).length`. */
module Tokenizer {
  import opened Seqs
  import opened Text

  datatype Option<T> = None | Some(value: T)

  /** The fixed list of common English function words excluded from scoring. */
  const StopWordList: seq<string> := [
    "a", "an", "the", "and", "or", "but", "in", "on", "at", "to", "for", "of", "with",
    "is", "are", "was", "were", "be", "been", "being", "have", "has", "had", "do", "does",
    "did", "will", "would", "could", "should", "may", "might", "shall", "can", "need",
    "this", "that", "these", "those", "it", "its", "we", "our", "us", "you", "your",
    "he", "she", "they", "their", "them", "i", "me", "my", "what", "which", "who",
    "when", "where", "how", "why", "not", "no", "so", "if", "then", "than", "as", "up",
    "about", "after", "before", "by", "from", "into", "through", "during", "also",
    "just", "very", "now", "here", "there", "some", "any", "all", "both", "each", "more",
    "most", "other", "such", "even", "own", "same", "few",
    "only", "too", "s", "t", "able", "because", "come",
    "him", "like", "make", "many", "over", "say", "see", "thing"
  ]

  /** `list.includes(w)`, unfolded one element at a time. */
  predicate Listed(w: string, list: seq<string>)
    decreases |list|
  {
    list != [] && (list[0] == w || Listed(w, list[1..]))
  }

  /** `STOP_WORDS.has(w)`. */
  predicate IsStopWord(w: string) {
    Listed(w, StopWordList)
  }


  // ---------- whitespace tokens ----------

  /** Maximal runs of whitespace in `s`; `afterSpace` says whether the text before `s` ended in one. */
  function SpaceRuns(s: string, afterSpace: bool): nat
    decreases |s|
  {
    if s == [] then 0
    else (if IsSpace(s[0]) && !afterSpace then 1 else 0) + SpaceRuns(s[1..], IsSpace(s[0]))
  }

  /** Maximal runs of non-whitespace in `s`: its whitespace-separated tokens. */
  function TokenRuns(s: string, afterSpace: bool): nat
    decreases |s|
  {
    if s == [] then 0
    else (if !IsSpace(s[0]) && afterSpace then 1 else 0) + TokenRuns(s[1..], IsSpace(s[0]))
  }

  /** The number of whitespace-separated tokens of `s`. */
  function TokenCount(s: string): nat {
    TokenRuns(s, true)
  }

  /** `s.split(/\s+/).length`: one more piece than there are whitespace runs (so 1 for ""). */
  function SplitWsLength(s: string): nat {
    SpaceRuns(s, false) + 1
  }

  lemma {:induction false} RunsDiffer(s: string, afterSpace: bool)
    requires s != [] && !IsSpace(s[|s| - 1])
    ensures TokenRuns(s, afterSpace) == SpaceRuns(s, afterSpace) + (if afterSpace then 1 else 0)
    decreases |s|
  {
    if |s| > 1 {
      RunsDiffer(s[1..], IsSpace(s[0]));
    }
  }

  /** On a trimmed, non-empty string, `split(/\s+/)` yields exactly its tokens. */
  lemma SplitLengthIsTokenCount(s: string)
    requires s != [] && IsTrimmed(s)
    ensures SplitWsLength(s) == TokenCount(s)
  {
    RunsDiffer(s, true);
  }

  // ---------- sentences ----------

  predicate IsSentenceEnd(c: char) {
    c == '.' || c == '!' || c == '?'
  }

  /** No terminal punctuation mark is directly followed by whitespace. */
  predicate NoBreak(s: string) {
    forall i :: 0 <= i < |s| - 1 ==> !(IsSentenceEnd(s[i]) && IsSpace(s[i + 1]))
  }

  /** `s.replace(/([.!?])\s+/g, '$1|')`: each terminal mark followed by whitespace keeps
   *  the mark and has the whole whitespace run replaced by one `|`. */
  function MarkBreaks(s: string): (r: string)
    ensures s != [] ==> r != [] && r[0] == s[0]
    ensures NoBreak(r)
    decreases |s|
  {
    if s == [] then []
    else if IsSentenceEnd(s[0]) && |s| > 1 && IsSpace(s[1]) then
      [s[0], '|'] + MarkBreaks(s[SpaceRunEnd(s, 1)..])
    else
      [s[0]] + MarkBreaks(s[1..])
  }

  /** A kept sentence: trimmed, non-empty, with at least 5 whitespace-separated tokens. */
  predicate IsSentence(s: string) {
    s != [] && IsTrimmed(s) && TokenCount(s) >= 5
  }

  /** Holds no `|` and spans no terminal mark followed by whitespace. */
  predicate Unbroken(s: string) {
    '|' !in s && NoBreak(s)
  }

  /** Each piece is trimmed; the pieces with at least 5 whitespace tokens are kept, in order. */
  function KeepSentences(pieces: seq<string>): (r: seq<string>)
    ensures |r| <= |pieces|
    ensures forall k :: 0 <= k < |r| ==> IsSentence(r[k])
    decreases |pieces|
  {
    if pieces == [] then []
    else
      var t := Trim(pieces[0]);
      var rest := KeepSentences(pieces[1..]);
      if SplitWsLength(t) >= 5 then
        SplitLengthIsTokenCount(t);
        [t] + rest
      else rest
  }

  lemma {:induction false} KeepSentencesUnbroken(pieces: seq<string>)
    requires forall k :: 0 <= k < |pieces| ==> Unbroken(pieces[k])
    ensures forall k :: 0 <= k < |KeepSentences(pieces)| ==> Unbroken(KeepSentences(pieces)[k])
    decreases |pieces|
  {
    if pieces != [] {
      var t := Trim(pieces[0]);
      var rest := KeepSentences(pieces[1..]);
      KeepSentencesUnbroken(pieces[1..]);
      if SplitWsLength(t) >= 5 {
        TrimUnbroken(pieces[0]);
        var r := KeepSentences(pieces);
        assert r == [t] + rest;
        forall k | 0 <= k < |r| ensures Unbroken(r[k]) {
          if k > 0 {
            assert r[k] == rest[k - 1];
          }
        }
      }
    }
  }

  /** Exactly the trimmed pieces with at least 5 tokens are kept. */
  lemma {:induction false} KeepSentencesMembers(pieces: seq<string>, t: string)
    ensures t in KeepSentences(pieces) <==>
            exists k :: 0 <= k < |pieces| && Trim(pieces[k]) == t && SplitWsLength(t) >= 5
    decreases |pieces|
  {
    if pieces != [] {
      var rest := KeepSentences(pieces[1..]);
      KeepSentencesMembers(pieces[1..], t);
      if t in KeepSentences(pieces) && !(Trim(pieces[0]) == t && SplitWsLength(t) >= 5) {
        assert t in rest;
        var j :| 0 <= j < |pieces[1..]| && Trim(pieces[1..][j]) == t && SplitWsLength(t) >= 5;
        assert pieces[j + 1] == pieces[1..][j];
      }
      if k :| 0 <= k < |pieces| && Trim(pieces[k]) == t && SplitWsLength(t) >= 5 {
        if k > 0 {
          assert pieces[1..][k - 1] == pieces[k];
        }
      }
    }
  }

  lemma TrimUnbroken(s: string)
    ensures Unbroken(s) ==> Unbroken(Trim(s))
  {
    var k := SpaceRunEnd(s, 0);
    if Unbroken(s) {
      SliceNoBreak(s, k, k + |Trim(s)|);
    }
  }

  /** `tokenizeSentences(text)`: every sentence is trimmed, has at least 5 tokens,
   *  holds no `|`, and spans no terminal mark followed by whitespace. */
  function Sentences(text: string): (r: seq<string>)
    ensures forall k :: 0 <= k < |r| ==> IsSentence(r[k]) && Unbroken(r[k])
  {
    var marked := MarkBreaks(text);
    SplitNoBreak(marked, '|');
    KeepSentencesUnbroken(Split(marked, '|'));
    KeepSentences(Split(marked, '|'))
  }

  lemma SliceNoBreak(s: string, i: nat, j: nat)
    requires i <= j <= |s| && Unbroken(s)
    ensures Unbroken(s[i..j])
  {
    forall k | 0 <= k < j - i - 1 ensures !(IsSentenceEnd(s[i..j][k]) && IsSpace(s[i..j][k + 1])) {
      assert s[i..j][k] == s[i + k] && s[i..j][k + 1] == s[i + k + 1];
    }
  }

  lemma {:induction false} SplitNoBreak(s: string, sep: char)
    requires NoBreak(s) && !IsSpace(sep) && !IsSentenceEnd(sep)
    ensures forall k :: 0 <= k < |Split(s, sep)| ==> NoBreak(Split(s, sep)[k]) && sep !in Split(s, sep)[k]
    decreases |s|
  {
    if s != [] {
      var rest := Split(s[1..], sep);
      SplitNoBreak(s[1..], sep);
      if s[0] != sep {
        var p := [s[0]] + rest[0];
        forall i | 0 <= i < |p| - 1 ensures !(IsSentenceEnd(p[i]) && IsSpace(p[i + 1])) {
          if i == 0 {
            assert p[1] == rest[0][0] == s[1];
          } else {
            assert p[i] == rest[0][i - 1] && p[i + 1] == rest[0][i];
          }
        }
      }
    }
  }

  // ---------- sentence order ----------

  /** `s` with every occurrence of `c` deleted. */
  function Without(s: string, c: char): string
    decreases |s|
  {
    if s == [] then [] else (if s[0] == c then [] else [s[0]]) + Without(s[1..], c)
  }

  lemma {:induction false} WithoutConcat(a: string, b: string, c: char)
    ensures Without(a + b, c) == Without(a, c) + Without(b, c)
    decreases |a|
  {
    if a == [] {
      assert a + b == b;
    } else {
      var h := if a[0] == c then [] else [a[0]];
      WithoutConcat(a[1..], b, c);
      assert (a + b)[1..] == a[1..] + b;
      assert (a + b)[0] == a[0];
      assert Without(a + b, c) == h + Without(a[1..] + b, c);
      assert Without(a, c) == h + Without(a[1..], c);
      assert h + (Without(a[1..], c) + Without(b, c)) == (h + Without(a[1..], c)) + Without(b, c);
    }
  }

  /** The pieces of a split, laid end to end, are the string without its separators. */
  lemma {:induction false} FlattenSplit(s: string, sep: char)
    ensures Flatten(Split(s, sep)) == Without(s, sep)
    decreases |s|
  {
    if s != [] {
      var rest := Split(s[1..], sep);
      FlattenSplit(s[1..], sep);
      assert Flatten(rest) == rest[0] + Flatten(rest[1..]);
      if s[0] != sep {
        var r := Split(s, sep);
        assert r[1..] == rest[1..];
      }
    }
  }

  /** Marking breaks only deletes whitespace and inserts `|`. */
  lemma {:induction false} MarkBreaksSubseq(s: string)
    ensures IsSubseq(Without(MarkBreaks(s), '|'), s)
    decreases |s|
  {
    if s != [] {
      if IsSentenceEnd(s[0]) && |s| > 1 && IsSpace(s[1]) {
        var e := SpaceRunEnd(s, 1);
        MarkBreaksSubseq(s[e..]);
        WithoutConcat([s[0], '|'], MarkBreaks(s[e..]), '|');
        assert Without([s[0], '|'], '|') == [s[0]];
        SubseqDropFront(Without(MarkBreaks(s[e..]), '|'), s[1..e], s[e..]);
        SubseqRefl([s[0]]);
        SubseqConcat([s[0]], [s[0]], Without(MarkBreaks(s[e..]), '|'), s[1..e] + s[e..]);
        assert s == [s[0]] + (s[1..e] + s[e..]);
      } else {
        var w := Without(MarkBreaks(s[1..]), '|');
        MarkBreaksSubseq(s[1..]);
        WithoutConcat([s[0]], MarkBreaks(s[1..]), '|');
        assert s == [s[0]] + s[1..];
        if s[0] == '|' {
          assert Without(MarkBreaks(s), '|') == w;
          SubseqDropFront(w, [s[0]], s[1..]);
        } else {
          assert Without(MarkBreaks(s), '|') == [s[0]] + w;
          SubseqRefl([s[0]]);
          SubseqConcat([s[0]], [s[0]], w, s[1..]);
        }
      }
    }
  }

  lemma {:induction false} KeepSentencesSubseq(pieces: seq<string>)
    ensures IsSubseq(Flatten(KeepSentences(pieces)), Flatten(pieces))
    decreases |pieces|
  {
    if pieces != [] {
      var t := Trim(pieces[0]);
      var rest := KeepSentences(pieces[1..]);
      KeepSentencesSubseq(pieces[1..]);
      var k := SpaceRunEnd(pieces[0], 0);
      if SplitWsLength(t) >= 5 {
        assert KeepSentences(pieces) == [t] + rest;
        SliceSubseq(pieces[0], k, k + |t|);
        SubseqConcat(t, pieces[0], Flatten(rest), Flatten(pieces[1..]));
        assert Flatten([t] + rest) == t + Flatten(rest);
      } else {
        SubseqDropFront(Flatten(rest), pieces[0], Flatten(pieces[1..]));
      }
    }
  }

  /** The sentences, laid end to end, occur in the text in the same order:
   *  tokenizing only cuts, trims and drops. */
  lemma SentencesInOrder(text: string)
    ensures IsSubseq(Flatten(Sentences(text)), text)
  {
    var marked := MarkBreaks(text);
    KeepSentencesSubseq(Split(marked, '|'));
    FlattenSplit(marked, '|');
    MarkBreaksSubseq(text);
    SubseqTrans(Flatten(Sentences(text)), Without(marked, '|'), text);
  }

  // ---------- words ----------

  /** `\b` at position `i` of `s`. */
  predicate AtBoundary(s: string, i: nat)
    requires i <= |s|
  {
    (i > 0 && IsWordChar(s[i - 1])) != (i < |s| && IsWordChar(s[i]))
  }

  /** The end of the run of `[a-z']` characters starting at `j`. */
  function TailEnd(s: string, j: nat): (e: nat)
    requires j <= |s|
    ensures j <= e <= |s|
    ensures forall k :: j <= k < e ==> IsWordTail(s[k])
    ensures e == |s| || !IsWordTail(s[e])
    decreases |s| - j
  {
    if j < |s| && IsWordTail(s[j]) then TailEnd(s, j + 1) else j
  }

  /** The largest position in `lo..hi` that is a word boundary. */
  function LastBoundary(s: string, lo: nat, hi: nat): (r: Option<nat>)
    requires hi <= |s|
    ensures r.Some? ==> lo <= r.value <= hi && AtBoundary(s, r.value)
    ensures r.Some? ==> forall k :: r.value < k <= hi ==> !AtBoundary(s, k)
    ensures r.None? ==> forall k :: lo <= k <= hi ==> !AtBoundary(s, k)
    decreases hi
  {
    if hi < lo then None
    else if AtBoundary(s, hi) then Some(hi)
    else if hi == lo then None
    else LastBoundary(s, lo, hi - 1)
  }

  /** A word token: a lower-case letter, then at least two of `[a-z']`. */
  predicate IsWordToken(w: string) {
    |w| >= 3 && IsLowerLetter(w[0]) && forall k :: 0 <= k < |w| ==> IsWordTail(w[k])
  }

  /** One attempt of `/\b[a-z][a-z']{2,}\b/` at position `i`: the greedy `{2,}` backs off
   *  to the longest tail that ends at a word boundary. */
  function MatchAt(s: string, i: nat): (r: Option<nat>)
    ensures r.Some? ==> i + 3 <= r.value <= |s| && IsWordToken(s[i..r.value])
    ensures r.Some? ==> AtBoundary(s, i) && AtBoundary(s, r.value)
    ensures r.Some? ==> forall e :: r.value < e <= TailEnd(s, i + 1) ==> !AtBoundary(s, e)
    ensures r.None? && i < |s| && IsLowerLetter(s[i]) && AtBoundary(s, i) ==>
              forall e :: i + 3 <= e <= TailEnd(s, i + 1) ==> !AtBoundary(s, e)
  {
    if i < |s| && IsLowerLetter(s[i]) && AtBoundary(s, i) then
      LastBoundary(s, i + 3, TailEnd(s, i + 1))
    else None
  }

  /** The successive matches of `/\b[a-z][a-z']{2,}\b/g` from position `i` on. */
  function WordsFrom(s: string, i: nat): (r: seq<string>)
    ensures forall k :: 0 <= k < |r| ==> IsWordToken(r[k])
    decreases |s| - i
  {
    if i >= |s| then []
    else match MatchAt(s, i)
      case Some(e) => [s[i..e]] + WordsFrom(s, e)
      case None => WordsFrom(s, i + 1)
  }

  /** Each match of the word pattern sits in the string between two word boundaries. */
  lemma {:induction false} WordOccurrence(s: string, i: nat, w: string) returns (p: nat)
    requires w in WordsFrom(s, i)
    ensures p + |w| <= |s| && s[p..p + |w|] == w
    ensures AtBoundary(s, p) && AtBoundary(s, p + |w|)
    decreases |s| - i
  {
    match MatchAt(s, i)
    case Some(e) =>
      if w == s[i..e] {
        p := i;
      } else {
        p := WordOccurrence(s, e, w);
      }
    case None =>
      p := WordOccurrence(s, i + 1, w);
  }

  /** Lower-casing moves no word boundary. */
  lemma LowerBoundary(s: string, i: nat)
    requires i <= |s|
    ensures AtBoundary(Lower(s), i) == AtBoundary(s, i)
  {
  }

  /** `tokenizeWords(text)`. */
  function Words(text: string): seq<string> {
    WordsFrom(Lower(text), 0)
  }

  /** `tokenizeWords(text).filter(w => !STOP_WORDS.has(w))`. */
  function ContentWords(words: seq<string>): (r: seq<string>)
    ensures forall k :: 0 <= k < |r| ==> !IsStopWord(r[k]) && r[k] in words
    ensures IsSubseq(r, words)
    decreases |words|
  {
    if words == [] then []
    else
      var rest := ContentWords(words[1..]);
      if IsStopWord(words[0]) then
        SubseqDropFront(rest, [words[0]], words[1..]);
        assert words == [words[0]] + words[1..];
        rest
      else
        SubseqRefl([words[0]]);
        SubseqConcat([words[0]], [words[0]], rest, words[1..]);
        assert words == [words[0]] + words[1..];
        [words[0]] + rest
  }

  /** The stop-word filter keeps exactly the non-stop words. */
  lemma {:induction false} ContentWordsMembers(words: seq<string>, w: string)
    ensures w in ContentWords(words) <==> w in words && !IsStopWord(w)
    decreases |words|
  {
    if words != [] {
      ContentWordsMembers(words[1..], w);
      assert words == [words[0]] + words[1..];
    }
  }

  /** A string is a sentence of `text` exactly when it is the trim of a piece between
   *  marked breaks and has at least 5 tokens. */
  lemma SentencesMembers(text: string, t: string)
    ensures var pieces := Split(MarkBreaks(text), '|');
            t in Sentences(text) <==> exists k :: 0 <= k < |pieces| && Trim(pieces[k]) == t && SplitWsLength(t) >= 5
  {
    SentencesAreKept(text);
    KeepSentencesMembers(Split(MarkBreaks(text), '|'), t);
  }

  lemma SentencesAreKept(text: string)
    ensures Sentences(text) == KeepSentences(Split(MarkBreaks(text), '|'))
  {
  }

  // ---------- the caller's gate ----------

  /** The generate button's check: the trimmed transcript must have at least 20
   *  whitespace-separated tokens. */
  predicate HasEnoughContent(finalText: string, interimText: string) {
    var transcript := Trim(finalText + " " + interimText);
    transcript != [] && SplitWsLength(transcript) >= 20
  }

  lemma GateCountsTokens(finalText: string, interimText: string)
    ensures HasEnoughContent(finalText, interimText) <==> TokenCount(Trim(finalText + " " + interimText)) >= 20
  {
    var transcript := Trim(finalText + " " + interimText);
    if transcript != [] {
      SplitLengthIsTokenCount(transcript);
    }
  }
}
