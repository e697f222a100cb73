/** The flashcard generator (app.js `generateFlashcards`, lines 571-599): a card for each
 *  of the top keywords that has a long enough defining sentence, then, when that gives
 *  fewer than five cards, cards made from the best sentences; and the plain-text export. */
module Flashcards {
  import opened Seqs
  import opened Text
  import opened Tokenizer
  import opened Scoring
  import opened Helpers

  datatype Card = Card(term: string, def: string)

  /** No more cards than this. */
  const MaxCards: nat := 12

  /** Fewer keyword cards than this and the best sentences are used as well. */
  const MinCards: nat := 5

  /** The longest definition a card shows. */
  const CardLength: nat := 120

  function Terms(cards: seq<Card>): seq<string> {
    seq(|cards|, k requires 0 <= k < |cards| => cards[k].term)
  }

  // ---------- shortening ----------

  /** `def.length > 120 ? def.slice(0, 117) + '…' : def`. */
  function Shorten(d: string): string {
    if |d| > CardLength then d[..117] + "…" else d
  }

  /** A shortened definition fits on a card, starts as the definition does, and is the
   *  definition itself whenever that already fits; one that does not fit is cut to its
   *  first 117 characters and ends in the ellipsis. */
  lemma ShortenFits(d: string)
    ensures |Shorten(d)| <= CardLength
    ensures |d| <= CardLength <==> Shorten(d) == d
    ensures var n := if |d| < 117 then |d| else 117; Shorten(d)[..n] == d[..n]
    ensures |d| > CardLength ==> |Shorten(d)| == 118 && Shorten(d)[117] == '…'
  {
  }

  // ---------- the keyword loop ----------

  /** A card made for keyword `kw`: the prettified keyword, and its defining sentence,
   *  longer than 15 characters, shortened. */
  predicate FromKeyword(c: Card, kw: string, defOf: string -> string) {
    c.term == Prettify(kw) && |defOf(kw)| > 15 && c.def == Shorten(defOf(kw))
  }

  /** The keyword loop from the `i`-th keyword on: stop at twelve cards, and add a card
   *  for each keyword whose defining sentence is longer than 15 characters. */
  function Primary(kws: seq<string>, defOf: string -> string, i: nat, cards: seq<Card>): seq<Card>
    requires i <= |kws|
    decreases |kws| - i
  {
    if i == |kws| || |cards| >= MaxCards then cards
    else
      var d := defOf(kws[i]);
      if |d| > 15 then Primary(kws, defOf, i + 1, cards + [Card(Prettify(kws[i]), Shorten(d))])
      else Primary(kws, defOf, i + 1, cards)
  }

  /** The card comes from one of the first `i` keywords. */
  predicate FromKeywordBefore(c: Card, kws: seq<string>, i: nat, defOf: string -> string)
    requires i <= |kws|
  {
    exists j :: 0 <= j < i && FromKeyword(c, kws[j], defOf)
  }

  /** Each card comes from one of the first `i` keywords. */
  predicate FromKeywords(cards: seq<Card>, kws: seq<string>, i: nat, defOf: string -> string)
    requires i <= |kws|
  {
    forall k :: 0 <= k < |cards| ==> FromKeywordBefore(cards[k], kws, i, defOf)
  }

  /** Cards from the first `i` keywords come from the first `m`, for `i <= m`. */
  lemma FromKeywordsWiden(cards: seq<Card>, kws: seq<string>, i: nat, m: nat, defOf: string -> string)
    requires i <= m <= |kws| && FromKeywords(cards, kws, i, defOf)
    ensures FromKeywords(cards, kws, m, defOf)
  {
    forall k | 0 <= k < |cards| ensures FromKeywordBefore(cards[k], kws, m, defOf) {
      assert FromKeywordBefore(cards[k], kws, i, defOf);
      var j :| 0 <= j < i && FromKeyword(cards[k], kws[j], defOf);
    }
  }

  lemma TermsAppend(cards: seq<Card>, c: Card)
    ensures Terms(cards + [c]) == Terms(cards) + [c.term]
  {
  }

  /** One card more for keyword `i`: still from the keywords, and its term is new when the
   *  keywords are distinct word tokens. */
  lemma PrimaryStep(kws: seq<string>, defOf: string -> string, i: nat, cards: seq<Card>)
    requires i < |kws| && |defOf(kws[i])| > 15
    requires Distinct(kws) && forall k :: 0 <= k < |kws| ==> IsWordToken(kws[k])
    requires Distinct(Terms(cards)) && FromKeywords(cards, kws, i, defOf)
    ensures var c := Card(Prettify(kws[i]), Shorten(defOf(kws[i])));
            Distinct(Terms(cards + [c])) && FromKeywords(cards + [c], kws, i + 1, defOf)
  {
    var c := Card(Prettify(kws[i]), Shorten(defOf(kws[i])));
    var r := cards + [c];
    TermsAppend(cards, c);
    forall k | 0 <= k < |cards| ensures cards[k].term != c.term {
      assert FromKeywordBefore(cards[k], kws, i, defOf);
      var j :| 0 <= j < i && FromKeyword(cards[k], kws[j], defOf);
      if cards[k].term == c.term {
        PrettifyInjective(kws[j], kws[i]);
      }
    }
    FromKeywordsWiden(cards, kws, i, i + 1, defOf);
    forall k | 0 <= k < |r| ensures FromKeywordBefore(r[k], kws, i + 1, defOf) {
      if k == |cards| {
        assert FromKeyword(r[k], kws[i], defOf);
      } else {
        assert r[k] == cards[k];
      }
    }
  }

  /** The keyword loop makes every card from a keyword and never repeats a term. */
  lemma {:induction false} PrimarySound(kws: seq<string>, defOf: string -> string, i: nat, cards: seq<Card>)
    requires i <= |kws|
    requires Distinct(kws) && forall k :: 0 <= k < |kws| ==> IsWordToken(kws[k])
    requires Distinct(Terms(cards)) && FromKeywords(cards, kws, i, defOf)
    ensures Distinct(Terms(Primary(kws, defOf, i, cards)))
    ensures FromKeywords(Primary(kws, defOf, i, cards), kws, |kws|, defOf)
    decreases |kws| - i
  {
    if i == |kws| || |cards| >= MaxCards {
      FromKeywordsWiden(cards, kws, i, |kws|, defOf);
    } else if |defOf(kws[i])| > 15 {
      PrimaryStep(kws, defOf, i, cards);
      PrimarySound(kws, defOf, i + 1, cards + [Card(Prettify(kws[i]), Shorten(defOf(kws[i])))]);
    } else {
      FromKeywordsWiden(cards, kws, i, i + 1, defOf);
      PrimarySound(kws, defOf, i + 1, cards);
    }
  }

  /** The keyword loop stops at twelve cards. */
  lemma {:induction false} PrimaryCapped(kws: seq<string>, defOf: string -> string, i: nat, cards: seq<Card>)
    requires i <= |kws| && |cards| <= MaxCards
    ensures |Primary(kws, defOf, i, cards)| <= MaxCards
    decreases |kws| - i
  {
    if i < |kws| && |cards| < MaxCards {
      var d := defOf(kws[i]);
      PrimaryCapped(kws, defOf, i + 1, if |d| > 15 then cards + [Card(Prettify(kws[i]), Shorten(d))] else cards);
    }
  }

  /** Below the cap, every keyword from the `i`-th on whose defining sentence is longer
   *  than 15 characters got its card. */
  lemma {:induction false} PrimaryComplete(kws: seq<string>, defOf: string -> string, i: nat, cards: seq<Card>)
    requires i <= |kws|
    ensures var r := Primary(kws, defOf, i, cards);
            |r| < MaxCards ==> forall j :: i <= j < |kws| && |defOf(kws[j])| > 15 ==> Prettify(kws[j]) in Terms(r)
    decreases |kws| - i
  {
    if i < |kws| && |cards| < MaxCards {
      var d := defOf(kws[i]);
      var next := if |d| > 15 then cards + [Card(Prettify(kws[i]), Shorten(d))] else cards;
      assert Primary(kws, defOf, i, cards) == Primary(kws, defOf, i + 1, next);
      PrimaryComplete(kws, defOf, i + 1, next);
      var r := Primary(kws, defOf, i + 1, next);
      if |r| < MaxCards && |d| > 15 {
        PrimaryKeeps(kws, defOf, i + 1, next);
        assert Terms(r)[|cards|] == r[..|next|][|cards|].term;
      }
    }
  }

  /** The keyword loop keeps the cards it is given. */
  lemma {:induction false} PrimaryKeeps(kws: seq<string>, defOf: string -> string, i: nat, cards: seq<Card>)
    requires i <= |kws|
    ensures var r := Primary(kws, defOf, i, cards);
            |cards| <= |r| && r[..|cards|] == cards
    decreases |kws| - i
  {
    if i < |kws| && |cards| < MaxCards {
      var d := defOf(kws[i]);
      if |d| > 15 {
        var next := cards + [Card(Prettify(kws[i]), Shorten(d))];
        PrimaryKeeps(kws, defOf, i + 1, next);
        var r := Primary(kws, defOf, i, cards);
        assert r[..|cards|] == r[..|next|][..|cards|];
      } else {
        PrimaryKeeps(kws, defOf, i + 1, cards);
      }
    }
  }

  // ---------- the sentence loop ----------

  /** `tokenizeWords(sent).filter(w => !STOP_WORDS.has(w) && w.length > 4)`. */
  function LongWords(words: seq<string>): seq<string>
    decreases |words|
  {
    if words == [] then []
    else
      var rest := LongWords(words[1..]);
      if !IsStopWord(words[0]) && |words[0]| > 4 then [words[0]] + rest else rest
  }

  /** Exactly the long non-stop words are kept. */
  lemma {:induction false} LongWordsMembers(words: seq<string>, w: string)
    ensures w in LongWords(words) <==> w in words && !IsStopWord(w) && |w| > 4
    decreases |words|
  {
    if words != [] {
      LongWordsMembers(words[1..], w);
      assert words == [words[0]] + words[1..];
    }
  }

  /** The term a sentence gives: its first long non-stop word, prettified. */
  function SentenceTerm(sent: string): Option<string> {
    var kws := LongWords(Words(sent));
    if kws == [] then None else Some(Prettify(kws[0]))
  }

  /** A sentence gives a term exactly when it has a long non-stop word, and the term is
   *  such a word, prettified. */
  lemma SentenceTermIsLongWord(sent: string)
    ensures SentenceTerm(sent).Some? <==> exists w :: w in Words(sent) && !IsStopWord(w) && |w| > 4
    ensures SentenceTerm(sent).Some? ==>
              exists w :: w in Words(sent) && !IsStopWord(w) && |w| > 4 && SentenceTerm(sent).value == Prettify(w)
  {
    var kws := LongWords(Words(sent));
    if kws != [] {
      LongWordsMembers(Words(sent), kws[0]);
    }
    forall w | w in Words(sent) && !IsStopWord(w) && |w| > 4 ensures kws != [] {
      LongWordsMembers(Words(sent), w);
    }
  }

  /** The sentence loop from the `i`-th sentence on: stop at twelve cards, skip sentences
   *  with no term and terms already on a card, and add a card for each new term. */
  function Backfill(extras: seq<string>, termOf: string -> Option<string>, i: nat, cards: seq<Card>): seq<Card>
    requires i <= |extras|
    decreases |extras| - i
  {
    if i == |extras| || |cards| >= MaxCards then cards
    else match termOf(extras[i])
      case None => Backfill(extras, termOf, i + 1, cards)
      case Some(term) =>
        if term in Terms(cards) then Backfill(extras, termOf, i + 1, cards)
        else Backfill(extras, termOf, i + 1, cards + [Card(term, Shorten(extras[i]))])
  }

  /** A card made from sentence `sent`: its term, and the sentence shortened. */
  predicate FromSentence(c: Card, sent: string, termOf: string -> Option<string>) {
    termOf(sent) == Some(c.term) && c.def == Shorten(sent)
  }

  /** Each card from position `n` on comes from one of the sentences. */
  predicate FromSentences(cards: seq<Card>, n: nat, extras: seq<string>, termOf: string -> Option<string>) {
    forall k :: n <= k < |cards| ==> exists j :: 0 <= j < |extras| && FromSentence(cards[k], extras[j], termOf)
  }

  /** One card more for sentence `i`, whose term is new. */
  lemma BackfillStep(extras: seq<string>, termOf: string -> Option<string>, i: nat, cards: seq<Card>, n: nat)
    requires i < |extras| && termOf(extras[i]).Some? && termOf(extras[i]).value !in Terms(cards)
    requires Distinct(Terms(cards)) && FromSentences(cards, n, extras, termOf)
    ensures var c := Card(termOf(extras[i]).value, Shorten(extras[i]));
            Distinct(Terms(cards + [c])) && FromSentences(cards + [c], n, extras, termOf)
  {
    var c := Card(termOf(extras[i]).value, Shorten(extras[i]));
    var r := cards + [c];
    TermsAppend(cards, c);
    forall k | n <= k < |r| ensures exists j :: 0 <= j < |extras| && FromSentence(r[k], extras[j], termOf) {
      if k == |cards| {
        assert FromSentence(r[k], extras[i], termOf);
      } else {
        assert r[k] == cards[k];
      }
    }
  }

  /** The sentence loop keeps the cards it is given, adds after them, respects the cap,
   *  makes every added card from a sentence and never repeats a term. */
  lemma {:induction false} BackfillSound(extras: seq<string>, termOf: string -> Option<string>, i: nat,
                                         cards: seq<Card>, n: nat)
    requires i <= |extras| && |cards| <= MaxCards
    requires Distinct(Terms(cards)) && FromSentences(cards, n, extras, termOf)
    ensures var r := Backfill(extras, termOf, i, cards);
            |cards| <= |r| <= MaxCards && r[..|cards|] == cards &&
            Distinct(Terms(r)) && FromSentences(r, n, extras, termOf)
    decreases |extras| - i
  {
    if i < |extras| && |cards| < MaxCards {
      var t := termOf(extras[i]);
      if t.Some? && t.value !in Terms(cards) {
        var c := Card(t.value, Shorten(extras[i]));
        BackfillStep(extras, termOf, i, cards, n);
        BackfillSound(extras, termOf, i + 1, cards + [c], n);
        var r := Backfill(extras, termOf, i, cards);
        assert r[..|cards|] == r[..|cards| + 1][..|cards|];
      } else {
        BackfillSound(extras, termOf, i + 1, cards, n);
      }
    }
  }

  /** The sentence loop keeps the cards it is given. */
  lemma {:induction false} BackfillKeeps(extras: seq<string>, termOf: string -> Option<string>, i: nat,
                                         cards: seq<Card>)
    requires i <= |extras|
    ensures var r := Backfill(extras, termOf, i, cards);
            |cards| <= |r| && r[..|cards|] == cards
    decreases |extras| - i
  {
    if i < |extras| && |cards| < MaxCards {
      var t := termOf(extras[i]);
      if t.Some? && t.value !in Terms(cards) {
        var next := cards + [Card(t.value, Shorten(extras[i]))];
        BackfillKeeps(extras, termOf, i + 1, next);
        var r := Backfill(extras, termOf, i, cards);
        assert r[..|cards|] == r[..|next|][..|cards|];
      } else {
        BackfillKeeps(extras, termOf, i + 1, cards);
      }
    }
  }

  /** Below the cap, the term of every sentence from the `i`-th on is on a card. */
  lemma {:induction false} BackfillComplete(extras: seq<string>, termOf: string -> Option<string>, i: nat,
                                            cards: seq<Card>)
    requires i <= |extras|
    ensures var r := Backfill(extras, termOf, i, cards);
            |r| < MaxCards ==> forall j :: i <= j < |extras| && termOf(extras[j]).Some? ==> termOf(extras[j]).value in Terms(r)
    decreases |extras| - i
  {
    if i < |extras| && |cards| < MaxCards {
      var t := termOf(extras[i]);
      var next := if t.Some? && t.value !in Terms(cards) then cards + [Card(t.value, Shorten(extras[i]))] else cards;
      assert Backfill(extras, termOf, i, cards) == Backfill(extras, termOf, i + 1, next);
      BackfillComplete(extras, termOf, i + 1, next);
      var r := Backfill(extras, termOf, i + 1, next);
      if |r| < MaxCards && t.Some? {
        BackfillKeeps(extras, termOf, i + 1, next);
        var m :| 0 <= m < |next| && Terms(next)[m] == t.value by {
          if t.value !in Terms(cards) {
            TermsAppend(cards, Card(t.value, Shorten(extras[i])));
            assert Terms(next)[|cards|] == t.value;
          }
        }
        assert Terms(r)[m] == r[..|next|][m].term == next[m].term == Terms(next)[m];
        assert termOf(extras[i]).value in Terms(r);
      }
    }
  }

  // ---------- generateFlashcards ----------

  /** The keyword cards, then the sentence cards when there are fewer than five. */
  function CardsFrom(kws: seq<string>, defOf: string -> string,
                     extras: seq<string>, termOf: string -> Option<string>): seq<Card> {
    var primary := Primary(kws, defOf, 0, []);
    if |primary| < MinCards then Backfill(extras, termOf, 0, primary) else primary
  }

  /** `findDefiningSentence(transcript, kw)` for each keyword. */
  function DefOf(transcript: string): string -> string {
    kw => FindDefiningSentence(transcript, kw)
  }

  /** The cards `generateFlashcards(transcript)` makes. */
  function CardsOf(transcript: string, ln: Ln): seq<Card> {
    CardsFrom(Keywords(transcript, 15, ln), DefOf(transcript), TopSentences(transcript, 10, ln), SentenceTerm)
  }

  /** At most twelve cards with distinct terms; the keyword cards come first, each for a
   *  distinct keyword; the sentence cards are added only when there are fewer than five
   *  keyword cards, and each is made from one of the given sentences. */
  lemma CardsFromSound(kws: seq<string>, defOf: string -> string, extras: seq<string>, termOf: string -> Option<string>)
    requires Distinct(kws) && forall k :: 0 <= k < |kws| ==> IsWordToken(kws[k])
    ensures var r, p := CardsFrom(kws, defOf, extras, termOf), Primary(kws, defOf, 0, []);
            |r| <= MaxCards && Distinct(Terms(r)) &&
            |p| <= |r| && r[..|p|] == p && FromKeywords(p, kws, |kws|, defOf) &&
            (|p| >= MinCards ==> r == p) && FromSentences(r, |p|, extras, termOf)
  {
    var p := Primary(kws, defOf, 0, []);
    PrimarySound(kws, defOf, 0, []);
    PrimaryCapped(kws, defOf, 0, []);
    if |p| < MinCards {
      BackfillSound(extras, termOf, 0, p, |p|);
    }
  }

  /** Below twelve cards nothing was passed over: every keyword with a defining sentence
   *  longer than 15 characters has its card and, when the sentences were used, so does
   *  every sentence's term. */
  lemma CardsFromComplete(kws: seq<string>, defOf: string -> string, extras: seq<string>, termOf: string -> Option<string>)
    ensures var r, p := CardsFrom(kws, defOf, extras, termOf), Primary(kws, defOf, 0, []);
            |r| < MaxCards ==>
              (forall j :: 0 <= j < |kws| && |defOf(kws[j])| > 15 ==> Prettify(kws[j]) in Terms(r)) &&
              (|p| < MinCards ==> forall j :: 0 <= j < |extras| && termOf(extras[j]).Some? ==> termOf(extras[j]).value in Terms(r))
  {
    var r, p := CardsFrom(kws, defOf, extras, termOf), Primary(kws, defOf, 0, []);
    PrimaryComplete(kws, defOf, 0, []);
    if |p| < MinCards {
      BackfillComplete(extras, termOf, 0, p);
      BackfillKeeps(extras, termOf, 0, p);
      forall t | t in Terms(p) ensures t in Terms(r) {
        var m :| 0 <= m < |p| && Terms(p)[m] == t;
        assert Terms(r)[m] == r[..|p|][m].term == p[m].term;
      }
    }
  }

  /** Every card fits: its definition is at most 120 characters. */
  lemma CardsFit(kws: seq<string>, defOf: string -> string, extras: seq<string>, termOf: string -> Option<string>)
    requires Distinct(kws) && forall k :: 0 <= k < |kws| ==> IsWordToken(kws[k])
    ensures forall k :: 0 <= k < |CardsFrom(kws, defOf, extras, termOf)| ==>
              |CardsFrom(kws, defOf, extras, termOf)[k].def| <= CardLength
  {
    var r, p := CardsFrom(kws, defOf, extras, termOf), Primary(kws, defOf, 0, []);
    CardsFromSound(kws, defOf, extras, termOf);
    forall k | 0 <= k < |r| ensures |r[k].def| <= CardLength {
      if k < |p| {
        assert r[k] == p[k] && FromKeywordBefore(p[k], kws, |kws|, defOf);
        var j :| 0 <= j < |kws| && FromKeyword(p[k], kws[j], defOf);
        ShortenFits(defOf(kws[j]));
      } else {
        var j :| 0 <= j < |extras| && FromSentence(r[k], extras[j], termOf);
        ShortenFits(extras[j]);
      }
    }
  }

  /** What `generateFlashcards` promises of its cards for any transcript. */
  lemma FlashcardsGuarantees(transcript: string, ln: Ln)
    ensures var r, p := CardsOf(transcript, ln), Primary(Keywords(transcript, 15, ln), DefOf(transcript), 0, []);
            |r| <= MaxCards && Distinct(Terms(r)) &&
            |p| <= |r| && r[..|p|] == p && (|p| >= MinCards ==> r == p) &&
            FromKeywords(p, Keywords(transcript, 15, ln), |Keywords(transcript, 15, ln)|, DefOf(transcript)) &&
            FromSentences(r, |p|, TopSentences(transcript, 10, ln), SentenceTerm)
    ensures forall k :: 0 <= k < |CardsOf(transcript, ln)| ==> |CardsOf(transcript, ln)[k].def| <= CardLength
  {
    var kws := Keywords(transcript, 15, ln);
    KeywordsAreContentWords(transcript, 15, ln);
    CardsFromSound(kws, DefOf(transcript), TopSentences(transcript, 10, ln), SentenceTerm);
    CardsFit(kws, DefOf(transcript), TopSentences(transcript, 10, ln), SentenceTerm);
  }

  /** Fewer than twelve cards only when every keyword with a long enough defining
   *  sentence got its card and, if the best sentences were used, each of their terms. */
  lemma FlashcardsComplete(transcript: string, ln: Ln)
    ensures var r, kws := CardsOf(transcript, ln), Keywords(transcript, 15, ln);
            |r| < MaxCards ==>
              forall j :: 0 <= j < |kws| && |FindDefiningSentence(transcript, kws[j])| > 15 ==> Prettify(kws[j]) in Terms(r)
    ensures var r, p := CardsOf(transcript, ln), Primary(Keywords(transcript, 15, ln), DefOf(transcript), 0, []);
            var extras := TopSentences(transcript, 10, ln);
            |r| < MaxCards && |p| < MinCards ==>
              forall j :: 0 <= j < |extras| && SentenceTerm(extras[j]).Some? ==> SentenceTerm(extras[j]).value in Terms(r)
  {
    CardsFromComplete(Keywords(transcript, 15, ln), DefOf(transcript), TopSentences(transcript, 10, ln), SentenceTerm);
  }

  // ---------- the loops as the source runs them ----------

  /** `for (const kw of keywords)`: break at twelve cards, push a card for a long definition. */
  method PrimaryPass(kws: seq<string>, defOf: string -> string) returns (cards: seq<Card>)
    ensures cards == Primary(kws, defOf, 0, [])
  {
    cards := [];
    var i := 0;
    while i < |kws|
      invariant 0 <= i <= |kws|
      invariant Primary(kws, defOf, i, cards) == Primary(kws, defOf, 0, [])
      decreases |kws| - i
    {
      if |cards| >= MaxCards {
        break;
      }
      var def := defOf(kws[i]);
      if def != [] && |def| > 15 {
        cards := cards + [Card(Prettify(kws[i]), Shorten(def))];
      }
      i := i + 1;
    }
  }

  /** `for (const sent of extras)`: break at twelve cards, skip a sentence with no long
   *  word, push a card unless `pairs.find` finds its term. */
  method BackfillPass(extras: seq<string>, termOf: string -> Option<string>, cards0: seq<Card>)
    returns (cards: seq<Card>)
    ensures cards == Backfill(extras, termOf, 0, cards0)
  {
    cards := cards0;
    var i := 0;
    while i < |extras|
      invariant 0 <= i <= |extras|
      invariant Backfill(extras, termOf, i, cards) == Backfill(extras, termOf, 0, cards0)
      decreases |extras| - i
    {
      if |cards| >= MaxCards {
        break;
      }
      var t := termOf(extras[i]);
      if t.None? {
        i := i + 1;
        continue;
      }
      if t.value !in Terms(cards) {
        cards := cards + [Card(t.value, Shorten(extras[i]))];
      }
      i := i + 1;
    }
  }

  // ---------- export ----------

  /** The text assigned to `generatedContent`: `TERM: …` and `DEF: …` lines per card,
   *  cards separated by a blank line. */
  function FlashcardsExport(cards: seq<Card>): string {
    Records(seq(|cards|, k requires 0 <= k < |cards| => ("TERM: " + cards[k].term, "DEF: " + cards[k].def)))
  }

  /** When no term or definition holds a newline, the export reads back line by line. */
  lemma FlashcardsExportLines(cards: seq<Card>)
    requires |cards| >= 1
    requires forall k :: 0 <= k < |cards| ==> '\n' !in cards[k].term && '\n' !in cards[k].def
    ensures var lines := Split(FlashcardsExport(cards), '\n');
            |lines| == 3 * |cards| - 1 &&
            (forall k :: 0 <= k < |cards| ==>
               lines[3 * k] == "TERM: " + cards[k].term && lines[3 * k + 1] == "DEF: " + cards[k].def) &&
            forall k :: 0 <= k < |cards| - 1 ==> lines[3 * k + 2] == ""
  {
    var rs := seq(|cards|, k requires 0 <= k < |cards| => ("TERM: " + cards[k].term, "DEF: " + cards[k].def));
    forall k | 0 <= k < |rs| ensures '\n' !in rs[k].0 && '\n' !in rs[k].1 {
      assert rs[k].0 == "TERM: " + cards[k].term && rs[k].1 == "DEF: " + cards[k].def;
    }
    RecordsSplit(rs);
    RecordLinesAt(rs);
  }

  /** `generateFlashcards(transcript)`: the cards and the export text. */
  method GenerateFlashcards(transcript: string, ln: Ln) returns (cards: seq<Card>, content: string)
    ensures cards == CardsOf(transcript, ln)
    ensures content == FlashcardsExport(cards)
  {
    var keywords := ExtractKeywords(transcript, 15, ln);
    cards := PrimaryPass(keywords, DefOf(transcript));
    if |cards| < MinCards {
      var extras := TopSentences(transcript, 10, ln);
      cards := BackfillPass(extras, SentenceTerm, cards);
    }
    content := FlashcardsExport(cards);
  }
}
