/** The notes generator (app.js `generateNotes`, lines 396-443): a three-sentence
 *  summary, key topics drawn chunk by chunk, detailed bullets, key terms and
 *  takeaways, and the plain-text export built from them. */
module Notes {
  import opened Seqs
  import opened Text
  import opened Tokenizer
  import opened Scoring
  import opened Helpers

  datatype Notes = Notes(
    summary: seq<string>,
    topics: seq<string>,
    detailed: seq<string>,
    keyTerms: seq<string>,
    takeaways: seq<string>)

  function Min(a: nat, b: nat): nat {
    if a < b then a else b
  }

  function Max(a: nat, b: nat): nat {
    if a < b then b else a
  }

  /** `Math.ceil(k * 0.4)`, computed exactly: the least `r` with `5 r >= 2 k`. */
  function CeilTwoFifths(k: nat): (r: nat)
    ensures 5 * r >= 2 * k
    ensures r == 0 || 5 * (r - 1) < 2 * k
  {
    (2 * k + 4) / 5
  }

  /** The number of detailed bullets asked for: `Math.min(12, Math.ceil(k * 0.4))`. */
  function DetailCount(k: nat): nat {
    Min(12, CeilTwoFifths(k))
  }

  /** `Math.max(4, Math.floor(k / 5))`. */
  function ChunkSize(k: nat): (r: nat)
    ensures r >= 4
  {
    Max(4, k / 5)
  }

  /** A prettified word token: a capital letter, then lower-case letters and apostrophes. */
  predicate IsTopicWord(t: string) {
    |t| >= 3 && 'A' <= t[0] <= 'Z' && forall k :: 1 <= k < |t| ==> IsWordTail(t[k])
  }

  /** The chunk `sentences.slice(i, i + size).join(' ')`. */
  function Chunk(ss: seq<string>, i: nat, size: nat): string
    requires i <= |ss|
  {
    Join(ss[i..Min(i + size, |ss|)], " ")
  }

  /** The keyword each chunk contributes, from the chunk starting at `from` on: the first of
   *  `keywordsOf(chunk)`, if any, for every chunk in turn. */
  function ChunkKeywords(ss: seq<string>, size: nat, from: nat, keywordsOf: string -> seq<string>): seq<string>
    requires size > 0
    decreases |ss| - from
  {
    if from >= |ss| then []
    else Take(keywordsOf(Chunk(ss, from, size)), 1) + ChunkKeywords(ss, size, from + size, keywordsOf)
  }

  /** When every keyword `keywordsOf` yields is a content word, so is every chunk keyword. */
  lemma {:induction false} ChunkKeywordsAreContentWords(ss: seq<string>, size: nat, from: nat,
                                                        keywordsOf: string -> seq<string>)
    requires size > 0
    requires forall t, k :: 0 <= k < |keywordsOf(t)| ==> IsWordToken(keywordsOf(t)[k]) && !IsStopWord(keywordsOf(t)[k])
    ensures forall k :: 0 <= k < |ChunkKeywords(ss, size, from, keywordsOf)| ==>
              IsWordToken(ChunkKeywords(ss, size, from, keywordsOf)[k]) &&
              !IsStopWord(ChunkKeywords(ss, size, from, keywordsOf)[k])
    decreases |ss| - from
  {
    if from < |ss| {
      var head := Take(keywordsOf(Chunk(ss, from, size)), 1);
      var rest := ChunkKeywords(ss, size, from + size, keywordsOf);
      ChunkKeywordsAreContentWords(ss, size, from + size, keywordsOf);
      var r := head + rest;
      forall k | 0 <= k < |r| ensures IsWordToken(r[k]) && !IsStopWord(r[k]) {
        if k >= |head| {
          assert r[k] == rest[k - |head|];
        }
      }
    }
  }

  /** The topics the chunk loop pushes, `prettify(extractKeywords(chunk, 1)[0])` for each
   *  chunk that has a keyword. */
  function ChunkTopics(ss: seq<string>, size: nat, ln: Ln): seq<string>
    requires size > 0
  {
    PrettifyAll(ChunkKeywords(ss, size, 0, t => Keywords(t, 1, ln)))
  }

  /** The key topics: the distinct chunk topics, at most six. */
  function KeyTopics(ss: seq<string>, size: nat, ln: Ln): seq<string>
    requires size > 0
  {
    Take(Dedup(ChunkTopics(ss, size, ln)), 6)
  }

  /** At most six pairwise distinct topics, each a prettified word that is no stop word. */
  lemma KeyTopicsAreDistinctWords(ss: seq<string>, size: nat, ln: Ln)
    requires size > 0
    ensures |KeyTopics(ss, size, ln)| <= 6 && Distinct(KeyTopics(ss, size, ln))
    ensures forall k :: 0 <= k < |KeyTopics(ss, size, ln)| ==>
              IsTopicWord(KeyTopics(ss, size, ln)[k]) && !IsStopWord(Lower(KeyTopics(ss, size, ln)[k]))
  {
    var keywordsOf := t => Keywords(t, 1, ln);
    forall t: string
      ensures forall k :: 0 <= k < |keywordsOf(t)| ==> IsWordToken(keywordsOf(t)[k]) && !IsStopWord(keywordsOf(t)[k])
    {
      KeywordsAreContentWords(t, 1, ln);
    }
    ChunkKeywordsAreContentWords(ss, size, 0, keywordsOf);
    TopicsAreDistinctWords(ChunkKeywords(ss, size, 0, keywordsOf));
  }

  /** A content word, prettified, is a topic word whose lower-case form is no stop word. */
  lemma PrettifiedTopic(w: string)
    requires IsWordToken(w) && !IsStopWord(w)
    ensures IsTopicWord(Prettify(w)) && !IsStopWord(Lower(Prettify(w)))
  {
    PrettifyRoundTrip(w);
  }

  /** Prettified content words, de-duplicated and cut at six, are distinct topic words. */
  lemma TopicsAreDistinctWords(kws: seq<string>)
    requires forall k :: 0 <= k < |kws| ==> IsWordToken(kws[k]) && !IsStopWord(kws[k])
    ensures |Take(Dedup(PrettifyAll(kws)), 6)| <= 6 && Distinct(Take(Dedup(PrettifyAll(kws)), 6))
    ensures forall k :: 0 <= k < |Take(Dedup(PrettifyAll(kws)), 6)| ==>
              IsTopicWord(Take(Dedup(PrettifyAll(kws)), 6)[k]) && !IsStopWord(Lower(Take(Dedup(PrettifyAll(kws)), 6)[k]))
  {
    var all := PrettifyAll(kws);
    var r := Take(Dedup(all), 6);
    TakeDedup(all, 6);
    forall k | 0 <= k < |r| ensures IsTopicWord(r[k]) && !IsStopWord(Lower(r[k])) {
      var j :| 0 <= j < |all| && all[j] == r[k];
      PrettifiedTopic(kws[j]);
    }
  }

  /** `'• ' + line` for each line, joined by newlines. */
  function Bullets(xs: seq<string>): string {
    Join(seq(|xs|, k requires 0 <= k < |xs| => "• " + xs[k]), "\n")
  }

  /** The bullet list splits back into its lines when no line holds a newline. */
  lemma BulletsRoundTrip(xs: seq<string>)
    requires |xs| >= 1
    requires forall k :: 0 <= k < |xs| ==> '\n' !in xs[k]
    ensures Split(Bullets(xs), '\n') == seq(|xs|, k requires 0 <= k < |xs| => "• " + xs[k])
  {
    var lines := seq(|xs|, k requires 0 <= k < |xs| => "• " + xs[k]);
    forall k | 0 <= k < |lines| ensures '\n' !in lines[k] {
      assert lines[k] == "• " + xs[k];
    }
    SplitJoin(lines, '\n');
  }

  /** The text assigned to `generatedContent`. */
  function NotesExport(n: Notes): string {
    Join([
      "=== SUMMARY ===",
      Join(n.summary, " "),
      "",
      "=== KEY TOPICS ===",
      Bullets(n.topics),
      "",
      "=== DETAILED NOTES ===",
      Bullets(n.detailed),
      "",
      "=== KEY TERMS ===",
      Join(n.keyTerms, ", "),
      "",
      "=== TAKEAWAYS ===",
      Bullets(n.takeaways)
    ], "\n")
  }

  /** The lines of a bullet list: one `• ` line per item, or one empty line when there
   *  are no items (`[].join('\n')` is the empty string). */
  function BulletLines(xs: seq<string>): seq<string> {
    if xs == [] then [""] else seq(|xs|, k requires 0 <= k < |xs| => "• " + xs[k])
  }

  lemma BulletsAreLines(xs: seq<string>)
    ensures Bullets(xs) == Join(BulletLines(xs), "\n")
    ensures BulletLines(xs) != []
  {
  }

  /** Joining sections, three of them joined first, is joining all their lines. */
  lemma JoinSections(p1: seq<string>, t: seq<string>, p2: seq<string>, d: seq<string>,
                     p3: seq<string>, w: seq<string>, sep: string)
    requires p1 != [] && t != [] && p2 != [] && d != [] && p3 != [] && w != []
    ensures Join(p1 + [Join(t, sep)] + p2 + [Join(d, sep)] + p3 + [Join(w, sep)], sep) ==
            Join(p1 + t + p2 + d + p3 + w, sep)
  {
    var bt, bd, bw := [Join(t, sep)], [Join(d, sep)], [Join(w, sep)];
    JoinConcat(p1, bt, sep);
    JoinConcat(p1 + bt, p2, sep);
    JoinConcat(p1 + bt + p2, bd, sep);
    JoinConcat(p1 + bt + p2 + bd, p3, sep);
    JoinConcat(p1 + bt + p2 + bd + p3, bw, sep);
    JoinConcat(p1, t, sep);
    JoinConcat(p1 + t, p2, sep);
    JoinConcat(p1 + t + p2, d, sep);
    JoinConcat(p1 + t + p2 + d, p3, sep);
    JoinConcat(p1 + t + p2 + d + p3, w, sep);
  }

  lemma BulletLinesFree(xs: seq<string>)
    requires forall k :: 0 <= k < |xs| ==> '\n' !in xs[k]
    ensures forall k :: 0 <= k < |BulletLines(xs)| ==> '\n' !in BulletLines(xs)[k]
  {
    forall k | 0 <= k < |BulletLines(xs)| ensures '\n' !in BulletLines(xs)[k] {
      if xs != [] {
        assert BulletLines(xs)[k] == "• " + xs[k];
      }
    }
  }

  /** No line of the sections holds a newline. */
  lemma SectionsFree(p: seq<string>, q: seq<string>, c: char)
    requires forall k :: 0 <= k < |p| ==> c !in p[k]
    requires forall k :: 0 <= k < |q| ==> c !in q[k]
    ensures forall k :: 0 <= k < |p + q| ==> c !in (p + q)[k]
  {
    forall k | 0 <= k < |p + q| ensures c !in (p + q)[k] {
      if k >= |p| {
        assert (p + q)[k] == q[k - |p|];
      }
    }
  }

  /** The export is its sections joined by newlines, each bullet list a block of its own. */
  lemma NotesExportSections(n: Notes)
    ensures NotesExport(n) ==
            Join(NotesHead(n) + [Bullets(n.topics)] + NotesMiddle() + [Bullets(n.detailed)] +
                 NotesTail(n) + [Bullets(n.takeaways)], "\n")
  {
    assert NotesHead(n) + [Bullets(n.topics)] + NotesMiddle() + [Bullets(n.detailed)] +
           NotesTail(n) + [Bullets(n.takeaways)] ==
           ["=== SUMMARY ===", Join(n.summary, " "), "", "=== KEY TOPICS ===", Bullets(n.topics),
            "", "=== DETAILED NOTES ===", Bullets(n.detailed),
            "", "=== KEY TERMS ===", Join(n.keyTerms, ", "), "", "=== TAKEAWAYS ===", Bullets(n.takeaways)];
  }

  /** The lines before the topic bullets. */
  function NotesHead(n: Notes): seq<string> {
    ["=== SUMMARY ===", Join(n.summary, " "), "", "=== KEY TOPICS ==="]
  }

  /** The lines between the topic bullets and the detailed bullets. */
  function NotesMiddle(): seq<string> {
    ["", "=== DETAILED NOTES ==="]
  }

  /** The lines between the detailed bullets and the takeaway bullets. */
  function NotesTail(n: Notes): seq<string> {
    ["", "=== KEY TERMS ===", Join(n.keyTerms, ", "), "", "=== TAKEAWAYS ==="]
  }

  /** The lines of the export, section by section. */
  function NotesLines(n: Notes): seq<string> {
    NotesHead(n) + BulletLines(n.topics) + NotesMiddle() + BulletLines(n.detailed) + NotesTail(n) + BulletLines(n.takeaways)
  }

  lemma NotesLinesFree(n: Notes)
    requires forall k :: 0 <= k < |n.summary| ==> '\n' !in n.summary[k]
    requires forall k :: 0 <= k < |n.topics| ==> '\n' !in n.topics[k]
    requires forall k :: 0 <= k < |n.detailed| ==> '\n' !in n.detailed[k]
    requires forall k :: 0 <= k < |n.keyTerms| ==> '\n' !in n.keyTerms[k]
    requires forall k :: 0 <= k < |n.takeaways| ==> '\n' !in n.takeaways[k]
    ensures forall k :: 0 <= k < |NotesLines(n)| ==> '\n' !in NotesLines(n)[k]
  {
    var p1, t, p2, d, p3, w := NotesHead(n), BulletLines(n.topics), NotesMiddle(), BulletLines(n.detailed), NotesTail(n), BulletLines(n.takeaways);
    JoinFree(n.summary, " ", '\n');
    JoinFree(n.keyTerms, ", ", '\n');
    BulletLinesFree(n.topics);
    BulletLinesFree(n.detailed);
    BulletLinesFree(n.takeaways);
    SectionsFree(p1, t, '\n');
    SectionsFree(p1 + t, p2, '\n');
    SectionsFree(p1 + t + p2, d, '\n');
    SectionsFree(p1 + t + p2 + d, p3, '\n');
    SectionsFree(p1 + t + p2 + d + p3, w, '\n');
  }

  /** When no item holds a newline, the notes export reads back as its five headed
   *  sections, a blank line between them: the summary on one line, the topics, detailed
   *  notes and takeaways one bullet per line, and the key terms on one line. */
  lemma NotesExportLines(n: Notes)
    requires forall k :: 0 <= k < |n.summary| ==> '\n' !in n.summary[k]
    requires forall k :: 0 <= k < |n.topics| ==> '\n' !in n.topics[k]
    requires forall k :: 0 <= k < |n.detailed| ==> '\n' !in n.detailed[k]
    requires forall k :: 0 <= k < |n.keyTerms| ==> '\n' !in n.keyTerms[k]
    requires forall k :: 0 <= k < |n.takeaways| ==> '\n' !in n.takeaways[k]
    ensures Split(NotesExport(n), '\n') ==
            ["=== SUMMARY ===", Join(n.summary, " "), "", "=== KEY TOPICS ==="] + BulletLines(n.topics) +
            ["", "=== DETAILED NOTES ==="] + BulletLines(n.detailed) +
            ["", "=== KEY TERMS ===", Join(n.keyTerms, ", "), "", "=== TAKEAWAYS ==="] + BulletLines(n.takeaways)
  {
    BulletsAreLines(n.topics);
    BulletsAreLines(n.detailed);
    BulletsAreLines(n.takeaways);
    NotesExportSections(n);
    JoinSections(NotesHead(n), BulletLines(n.topics), NotesMiddle(), BulletLines(n.detailed), NotesTail(n), BulletLines(n.takeaways), "\n");
    NotesLinesFree(n);
    SplitJoin(NotesLines(n), '\n');
  }

  function PrettifyAll(ws: seq<string>): seq<string> {
    seq(|ws|, k requires 0 <= k < |ws| => Prettify(ws[k]))
  }

  lemma PrettifyAllConcat(a: seq<string>, b: seq<string>)
    ensures PrettifyAll(a + b) == PrettifyAll(a) + PrettifyAll(b)
  {
  }

  /** The notes built from the sentences, their scores and the key terms. */
  function NotesFrom(sentences: seq<string>, es: seq<ScoredSentence>, keyTerms: seq<string>, ln: Ln): Notes {
    var summary := Texts(TopOf(es, [], 3));
    Notes(
      summary,
      KeyTopics(sentences, ChunkSize(|sentences|), ln),
      Texts(TopOf(es, [], DetailCount(|sentences|))),
      PrettifyAll(keyTerms),
      Texts(TopOf(es, summary, 4)))
  }

  /** What `generateNotes(transcript)` computes. */
  function NotesOf(transcript: string, ln: Ln): Notes {
    NotesFrom(Sentences(transcript), ScoreSentences(transcript, ln), Keywords(transcript, 12, ln), ln)
  }

  /** The notes' guarantees for any numbered scoring of the sentences. */
  lemma NotesFromGuarantees(sentences: seq<string>, es: seq<ScoredSentence>, keyTerms: seq<string>, ln: Ln)
    requires NumberedInOrder(es) && Texts(es) == sentences
    ensures var n := NotesFrom(sentences, es, keyTerms, ln);
            |n.summary| <= 3 && |n.detailed| <= DetailCount(|sentences|) && |n.keyTerms| == |keyTerms|
    ensures var n := NotesFrom(sentences, es, keyTerms, ln);
            |n.topics| <= 6 && Distinct(n.topics) &&
            forall j :: 0 <= j < |n.topics| ==> IsTopicWord(n.topics[j]) && !IsStopWord(Lower(n.topics[j]))
    ensures var n := NotesFrom(sentences, es, keyTerms, ln);
            |n.takeaways| <= 4 && forall j :: 0 <= j < |n.takeaways| ==> n.takeaways[j] !in n.summary
    ensures var n := NotesFrom(sentences, es, keyTerms, ln);
            IsSubseq(n.summary, sentences) && IsSubseq(n.detailed, sentences) && IsSubseq(n.takeaways, sentences)
  {
    var summary := Texts(TopOf(es, [], 3));
    TopOfBounded(es, [], 3);
    TopOfBounded(es, [], DetailCount(|sentences|));
    TopOfBounded(es, summary, 4);
    TopOfInReadingOrder(es, [], 3);
    TopOfInReadingOrder(es, [], DetailCount(|sentences|));
    TopOfInReadingOrder(es, summary, 4);
    KeyTopicsAreDistinctWords(sentences, ChunkSize(|sentences|), ln);
  }

  /** The guarantees of the notes: at most 3 summary sentences, at most 6 distinct topics
   *  (each a prettified non-stop word), at most `min(12, ceil(0.4 k))` detailed bullets
   *  for `k` sentences, at most 12 key terms, and at most 4 takeaways, none of them a
   *  summary sentence; every sentence list is drawn from the transcript in reading order. */
  lemma NotesGuarantees(transcript: string, ln: Ln)
    ensures var n, k := NotesOf(transcript, ln), |Sentences(transcript)|;
            |n.summary| <= 3 && |n.detailed| <= DetailCount(k) && |n.keyTerms| <= 12
    ensures var n := NotesOf(transcript, ln);
            |n.topics| <= 6 && Distinct(n.topics) &&
            forall j :: 0 <= j < |n.topics| ==> IsTopicWord(n.topics[j]) && !IsStopWord(Lower(n.topics[j]))
    ensures var n := NotesOf(transcript, ln);
            |n.takeaways| <= 4 && forall j :: 0 <= j < |n.takeaways| ==> n.takeaways[j] !in n.summary
    ensures var n := NotesOf(transcript, ln);
            IsSubseq(n.summary, Sentences(transcript)) && IsSubseq(n.detailed, Sentences(transcript)) &&
            IsSubseq(n.takeaways, Sentences(transcript))
  {
    var sentences, keywords := Sentences(transcript), Keywords(transcript, 20, ln);
    ScoreEachNumbered(sentences, keywords);
    NotesFromGuarantees(sentences, ScoreEach(sentences, keywords), Keywords(transcript, 12, ln), ln);
  }

  /** One chunk of the loop: its first keyword, prettified, extends the topics found so far. */
  lemma ChunkTopicsStep(ss: seq<string>, size: nat, i: nat, keywordsOf: string -> seq<string>,
                        topics: seq<string>)
    requires size > 0 && i < |ss|
    requires topics + PrettifyAll(ChunkKeywords(ss, size, i, keywordsOf)) ==
             PrettifyAll(ChunkKeywords(ss, size, 0, keywordsOf))
    ensures var kw := keywordsOf(Chunk(ss, i, size));
            var next := if |kw| > 0 then topics + [Prettify(kw[0])] else topics;
            next + PrettifyAll(ChunkKeywords(ss, size, i + size, keywordsOf)) ==
            PrettifyAll(ChunkKeywords(ss, size, 0, keywordsOf))
  {
    var kw := keywordsOf(Chunk(ss, i, size));
    var rest := ChunkKeywords(ss, size, i + size, keywordsOf);
    assert ChunkKeywords(ss, size, i, keywordsOf) == Take(kw, 1) + rest;
    PrettifyAllConcat(Take(kw, 1), rest);
    assert PrettifyAll(Take(kw, 1)) == if |kw| > 0 then [Prettify(kw[0])] else [];
  }

  /** The chunk loop of `generateNotes`: the sentences are taken `chunkSize` at a time,
   *  joined, and the first keyword of each chunk, if any, is pushed prettified. */
  method ChunkTopicsLoop(sentences: seq<string>, chunkSize: nat, keywordsOf: string -> seq<string>)
    returns (topics: seq<string>)
    requires chunkSize > 0
    ensures topics == PrettifyAll(ChunkKeywords(sentences, chunkSize, 0, keywordsOf))
  {
    topics := [];
    var i: nat := 0;
    while i < |sentences|
      invariant topics + PrettifyAll(ChunkKeywords(sentences, chunkSize, i, keywordsOf)) ==
                PrettifyAll(ChunkKeywords(sentences, chunkSize, 0, keywordsOf))
      decreases |sentences| - i
    {
      var kw := keywordsOf(Join(sentences[i..Min(i + chunkSize, |sentences|)], " "));
      ChunkTopicsStep(sentences, chunkSize, i, keywordsOf, topics);
      if |kw| > 0 {
        topics := topics + [Prettify(kw[0])];
      }
      i := i + chunkSize;
    }
  }

  /** `generateNotes(transcript)` as the source runs it. */
  method GenerateNotes(transcript: string, ln: Ln) returns (notes: Notes, content: string)
    ensures notes == NotesOf(transcript, ln)
    ensures content == NotesExport(notes)
  {
    var sentences := Sentences(transcript);
    var keywords := ExtractKeywords(transcript, 12, ln);
    var scored := ScoreSentences(transcript, ln);
    var summaryLines := Texts(TopOf(scored, [], 3));
    var detailedBullets := Texts(TopOf(scored, [], DetailCount(|sentences|)));
    var topics := ChunkTopicsLoop(sentences, ChunkSize(|sentences|), t => Keywords(t, 1, ln));
    var uniqueTopics := Take(Dedup(topics), 6);
    var takeaways := Texts(TopOf(scored, summaryLines, 4));
    notes := Notes(summaryLines, uniqueTopics, detailedBullets, PrettifyAll(keywords), takeaways);
    content := NotesExport(notes);
  }
}
