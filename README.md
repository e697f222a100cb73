# Lecture notes, quiz and flashcards: the text-analysis engine

This project models the text-analysis engine of a browser app that turns a lecture
transcript into study material. The engine is `app.js`, lines 293-623, plus the
generate button's length check at line 630. It has five parts:

- **Tokenizer** (`tokenizer.dfy`):
  - the stop-word list;
  - the sentence splitter: mark `[.!?]` followed by whitespace with `|`, split on `|`, trim each piece, and keep pieces of at least five whitespace-separated tokens;
  - the word tokenizer: lower-case the text, then find `\b[a-z][a-z']{2,}\b`;
  - the gate that asks for at least 20 tokens.
- **Scoring** (`scoring.dfy`):
  - TF-IDF keyword extraction, both as a specification function and as a method with the source's `tf` and `idf` tables;
  - sentence scoring by keyword density, position and length;
  - `topSentences`: filter, sort by score, take `n`, and restore reading order.
- **Helpers** (`helpers.dfy`):
  - `prettify`;
  - `findDefiningSentence`: the first sentence that mentions the term and has a definition cue, else the first one that mentions it, else the empty string.
- **Notes** (`notes.dfy`): `generateNotes`, which builds five things and the exported text:
  - the summary;
  - the detailed bullets;
  - topics per chunk of sentences;
  - key terms;
  - takeaways.
- **Quiz** (`quiz.dfy`): `generateQuiz`. Four strategies run in turn over the ranked sentences, sharing a cap of eight items and a set of used sentences:
  - a "What is X?" item, from the lazy definition regular expression followed through its backtracking order;
  - an "explained about" item;
  - a fill-in-the-blank item;
  - padding.

  Then comes the `Qn:`/`A:` export.
- **Flashcards** (`flashcards.dfy`): `generateFlashcards`.
  - Up to twelve keyword cards, each defined by the keyword's defining sentence, shortened to 120 characters.
  - When fewer than five cards result, a backfill from the top sentences, each naming its first long non-stop word.
  - Then the `TERM:`/`DEF:` export.

`text.dfy` holds the string helpers: ASCII lower-casing, whitespace, `trim`, `split`, `join`, and the blank-line-separated record layout the exports share. `seqs.dfy` holds the sequence facts (distinctness, subsequences, dedup). `sorting.dfy` holds a stable descending insertion sort.

The source's loops are methods: `ChunkTopicsLoop` in the notes generator, `RunPass` in the quiz generator, `PrimaryPass` and `BackfillPass` in the flashcard generator, and `CountTerms` and `InverseDocFreqs` in the keyword extractor. Each method is proved to compute what a specification function defines. The properties the app relies on are proved about those functions:
- caps;
- no repeated sentence or term;
- provenance of every item;
- reading order;
- the best-scored selection;
- completeness when the cap is not reached;
- that each export reads back line by line.

`Math.log` is a parameter `ln: real -> real`, and scores are exact reals.

## Model

| member | source | states |
|---|---|---|
| Tokenizer.GateCountsTokens | app.js:629-630 | the generate button accepts the trimmed transcript exactly when it has at least 20 whitespace-separated tokens |
| Tokenizer.SplitLengthIsTokenCount | app.js:314 | for a non-empty trimmed string, the length of `split(/\s+/)` equals its number of whitespace-separated tokens |
| Tokenizer.MarkBreaks | app.js:311 | marking sentence ends leaves no sentence-end mark followed by whitespace, and keeps the first character |
| Tokenizer.KeepSentences | app.js:313-314 | keeps only trimmed pieces with at least five tokens, and never more pieces than it was given |
| Tokenizer.Sentences | app.js:309-315 | every sentence is trimmed, has at least five tokens, and holds no sentence end followed by whitespace |
| Tokenizer.SentencesInOrder | app.js:309-315 | the sentences, concatenated, are a subsequence of the text: nothing is invented and order is kept |
| Tokenizer.MarkBreaksSubseq | app.js:311 | removing the inserted marks leaves a subsequence of the original text |
| Tokenizer.FlattenSplit | app.js:312 | splitting on a separator and concatenating the pieces deletes exactly the separators |
| Tokenizer.KeepSentencesMembers | app.js:313-314 | a string is kept exactly when it is the trim of some piece and has at least 5 tokens |
| Tokenizer.SentencesMembers | app.js:309-315 | a string is a sentence exactly when it is the trim of a piece between marked breaks and has at least 5 tokens |
| Tokenizer.KeepSentencesSubseq | app.js:313-314 | the kept pieces, concatenated, are a subsequence of all the pieces |
| Tokenizer.TrimUnbroken | app.js:313 | trimming keeps a piece free of sentence breaks |
| Tokenizer.SplitNoBreak | app.js:312 | each piece of the split holds no break and no separator |
| Tokenizer.MatchAt | app.js:319 | a word match starts and ends at word boundaries, is a word token of three or more characters, and is the longest such match the tail allows |
| Tokenizer.WordOccurrence | app.js:318-320 | every word found occurs in the text between two word boundaries |
| Tokenizer.WordsFrom | app.js:319 | every word found is a word token: a lower-case letter followed by two or more letters or apostrophes |
| Tokenizer.LowerBoundary | app.js:319 | lower-casing does not move word boundaries |
| Tokenizer.ContentWords | app.js:325 | the stop-word filter keeps only non-stop words, in order |
| Tokenizer.ContentWordsMembers | app.js:325 | a word survives the stop-word filter exactly when it is in the input and is not a stop word |
| Tokenizer.LastBoundary | app.js:319 | finds the last word boundary in a range, or proves there is none |
| Text.Trim | app.js:313 | `trim` returns a contiguous slice with no whitespace at either end, starting at the first non-space |
| Text.TrimDropsSpace | app.js:313 | what `trim` removes on either side is all whitespace |
| Text.TrimTrimmed | app.js:313 | trimming an already trimmed string changes nothing |
| Text.SplitJoin | app.js:433 | joining pieces with a separator they do not contain and splitting again gives the pieces back |
| Text.JoinSplit | app.js:312 | splitting on a separator and joining with it gives the original string |
| Text.RecordsSplit | app.js:547 | the blank-line-separated export splits back into its record lines |
| Text.LowerIdempotent | app.js:319 | lower-casing twice is lower-casing once |
| Text.NatToString | app.js:547 | item numbers are written as non-empty decimal digits with no leading zero |
| Sorting.SortDesc | app.js:343 | the sort is a permutation of its input, ordered by descending score |
| Sorting.InsertSorted | app.js:343 | inserting into a descending sequence keeps it descending |
| Sorting.InsertTies | app.js:343 | inserting into a descending sequence puts the new element after every element of equal score |
| Sorting.SortDescStable | app.js:343 | the sort is stable: elements of equal score keep their input order |
| Sorting.TopTies | app.js:343-345 | among elements of equal score, the first `n` after sorting keep a prefix of them in input order |
| Sorting.TopDominates | app.js:345 | everything left out of the first `n` after sorting scores no higher than everything kept |
| Scoring.DocFreq | app.js:335 | the number of sentences whose lower case contains the word is at most the number of sentences |
| Scoring.DocFreqCounts | app.js:335 | the count is positive exactly when some sentence contains the word, and equals the sentence count exactly when every sentence does |
| Scoring.Candidates | app.js:325-333 | the candidate words are distinct non-stop words of the text, and every non-stop word of the text is a candidate |
| Scoring.TopWordsTies | app.js:340-345 | among words of equal value, the top words are a prefix of the candidates with that value |
| Scoring.KeywordsBreakTiesByFirstSeen | app.js:340-345 | among candidates of equal value, the keywords returned are the ones seen first in the text |
| Scoring.Keywords | app.js:323-346 | `extractKeywords` returns min(topN, candidates) distinct candidate words |
| Scoring.KeywordsAreContentWords | app.js:323-346 | every keyword is a word token of the text and not a stop word |
| Scoring.KeywordsAreTopScored | app.js:340-345 | any candidate left out scores tf·idf·length-boost no higher than any keyword returned |
| Scoring.TopWordsDistinct | app.js:340-345 | the ranked top words repeat no word |
| Scoring.CountTerms | app.js:328-333 | the term-frequency loop counts every word's occurrences, and its keys are the words in first-seen order |
| Scoring.CountAgain | app.js:329 | counting a word already in the table keeps the table equal to the counts of the words seen |
| Scoring.CountFirst | app.js:329 | counting a new word adds it with count 1 and appends it to the keys |
| Scoring.InverseDocFreqs | app.js:332-337 | the idf loop gives every key its `log((N+1)/(df+1)) + 1` |
| Scoring.TableScoresAreScores | app.js:340-342 | scores read from the `tf` and `idf` tables equal the specification's scores |
| Scoring.ExtractKeywords | app.js:323-346 | the table-based method returns exactly the specification's keywords |
| Scoring.Hits | app.js:355 | the hit count is at most the word count, and positive exactly when some word is a keyword |
| Scoring.SentenceScore | app.js:353-359 | a sentence's score lies in [0, 1.5] and is positive exactly when it contains a keyword |
| Scoring.DensityBounds | app.js:358 | keyword density lies in [0, 1] and is positive exactly when there is a hit |
| Scoring.WeightedBounds | app.js:356-358 | the position and length weights keep the score in [0, 1.5] and keep its sign |
| Scoring.ScoreEach | app.js:349-361 | one scored entry per sentence, with its own text and index, scored in [0, 1.5], positive exactly when it has a keyword |
| Scoring.ScoreEachNumbered | app.js:353-359 | the scored entries are numbered in reading order and carry the sentences unchanged |
| Scoring.Eligible | app.js:366 | the filter keeps exactly the positively scored entries not excluded, in order |
| Scoring.BestIsTopInReadingOrder | app.js:367-369 | sort, slice and re-sort keep min(n, eligible) entries in reading order, and none left out scores higher than one kept |
| Scoring.TopOfIsBest | app.js:364-371 | top sentences are positively scored, not excluded, in reading order, and dominate every eligible sentence left out |
| Scoring.TopOfBounded | app.js:368 | at most `n` sentences are returned, none of them excluded |
| Scoring.BestBreaksTiesByReadingOrder | app.js:367-368 | among sentences of equal score, the ones taken are the first in reading order, and the best selection holds exactly the taken sentences |
| Scoring.TopOfInReadingOrder | app.js:369-370 | the selected sentences are a subsequence of the scored sentences |
| Scoring.TopSentencesInReadingOrder | app.js:364-371 | `topSentences` is a subsequence of the transcript's sentences |
| Helpers.PrettifyRoundTrip | app.js:374-376 | `prettify` upper-cases only the first letter, and lower-casing undoes it |
| Helpers.PrettifyInjective | app.js:374-376 | distinct word tokens prettify to distinct terms |
| Helpers.FirstWanted | app.js:384-390 | finds the first sentence satisfying the filter, or proves there is none |
| Helpers.FindDefining | app.js:384-390 | returns the first defining sentence; failing that, the first mentioning one; failing that, the empty string |
| Helpers.FindDefiningSentenceIsSentence | app.js:378-391 | the result is empty exactly when no sentence mentions the term; otherwise it is a sentence that mentions the term |
| Notes.CeilTwoFifths | app.js:406 | `Math.ceil(k * 0.4)` is the least r with 5r >= 2k |
| Notes.ChunkSize | app.js:409 | the chunk size is at least 4 |
| Notes.ChunkKeywordsAreContentWords | app.js:411-415 | every chunk keyword is a word token and not a stop word |
| Notes.ChunkTopicsStep | app.js:412-414 | one chunk iteration keeps the topics collected so far a prefix of all chunk topics |
| Notes.ChunkTopicsLoop | app.js:410-415 | the chunk loop collects the prettified first keyword of every chunk, in order |
| Notes.KeyTopicsAreDistinctWords | app.js:410-416 | at most six topics, no repeats, each a capitalised non-stop word |
| Notes.TopicsAreDistinctWords | app.js:416 | dedup-then-slice of prettified keywords gives at most six distinct topic words |
| Notes.PrettifiedTopic | app.js:414 | a prettified keyword is a capitalised word whose lower case is not a stop word |
| Notes.BulletsRoundTrip | app.js:433 | a bullet list splits back into one `• ` line per item |
| Notes.NotesExportLines | app.js:428-443 | with no newline in any item, the notes export reads back line by line: each section header, the summary on one line, one `• ` line per topic, detailed note and takeaway (one empty line for an empty list), the key terms on one line, and an empty line between sections |
| Notes.PrettifyAllConcat | app.js:414 | prettifying a concatenation is concatenating the prettified parts |
| Notes.NotesFromGuarantees | app.js:396-425 | at most 3 summary lines, ceil-bounded details, at most 6 distinct topics and 4 takeaways; no takeaway is in the summary; every list is in reading order |
| Notes.NotesGuarantees | app.js:396-425 | the same guarantees for the notes of a whole transcript, with at most 12 key terms |
| Notes.GenerateNotes | app.js:396-443 | the method computes the specified notes and their export text |
| Quiz.DefinitionSplit | app.js:502 | a regular-expression match gives a non-empty subject before the verb and a non-empty answer after it |
| Quiz.DefinitionSplitIsLazy | app.js:502 | the match succeeds exactly when some split exists, and its subject is the shortest of any match |
| Quiz.DefinitionSplitAtIs | app.js:502 | for "word is rest", the subject is the word and the answer starts after " is " |
| Quiz.BackOff | app.js:502 | the greedy `\s+` backs off to the longest run whose rest matches `(.+)$`, or proves no run does |
| Quiz.TryVerbsSound | app.js:502 | a verb alternative found is really one of the alternatives, followed by whitespace and an answer |
| Quiz.TryVerbsComplete | app.js:502 | if some alternative fits at a position, trying them in order finds one |
| Quiz.VerbFromSound | app.js:502 | a verb found after the subject is separated from it by whitespace |
| Quiz.VerbFromComplete | app.js:502 | if a verb fits after some whitespace, backing off the whitespace finds one |
| Quiz.SubjectFromSound | app.js:502 | the subject found is free of line terminators and gives a real split |
| Quiz.SubjectFromComplete | app.js:502 | if a split exists at a subject end, the lazy search stops no later than there |
| Quiz.SubjectBeforeIs | app.js:502 | a space-free subject followed by " is " splits at that " is " |
| Quiz.DefinitionItemIsMatch | app.js:494-506 | strategy 1 applies exactly when a cue occurs and the pattern matches; it asks about the shortest subject and answers with the rest |
| Quiz.DefinitionItemOfIs | app.js:502-504 | for "word is rest", the item is "What is word?" answered by the rest |
| Quiz.ExplainedItemAsksAboutContentWord | app.js:515-521 | strategy 2 applies exactly when there are two non-stop words, asks about a non-stop word of the sentence, and answers with the sentence |
| Quiz.BlankWord | app.js:529-531 | the blanked word is a non-stop word of the sentence longer than five characters |
| Quiz.FirstBounded | app.js:532 | finds the first case-insensitive whole-word match, or proves there is none |
| Quiz.BlankChanges | app.js:529-533 | whenever a blank word is chosen, blanking it changes the sentence |
| Quiz.FillInItemApplies | app.js:529-536 | strategy 3 applies exactly when the sentence has a long non-stop word |
| Quiz.BlankedItemBlanks | app.js:532-534 | the fill-in question replaces the first whole-word match by six underscores, and the answer names the word and the sentence |
| Quiz.PassExtends | app.js:495-509 | a strategy loop only appends, never passing eight items |
| Quiz.PassAdds | app.js:495-509 | each entry a loop adds comes from an unused ranked sentence that its strategy applies to, and no sentence is used twice |
| Quiz.PassComplete | app.js:526-537 | below the cap, every sentence the strategy applies to has been used |
| Quiz.RunSound | app.js:495-545 | a later strategy's pass keeps the entries capped, distinct, drawn from the ranked sentences and ordered by strategy |
| Quiz.PassesSound | app.js:495-545 | strategies run in order keep the entries sound |
| Quiz.QuizGuarantees | app.js:484-545 | at most eight items, no sentence used twice, every item from a ranked sentence, and items grouped by strategy in the order they run |
| Quiz.QuizItemsMade | app.js:484-545 | every item is what its strategy makes of its sentence |
| Quiz.QuizUsesAll | app.js:539-545 | with fewer than eight items, every ranked sentence was used |
| Quiz.QuizEntriesInOrder | app.js:495-545 | the quiz is the four strategy passes, in order |
| Quiz.RankedSentencesArePositive | app.js:486-488 | every ranked sentence is the text of a sentence scored above zero |
| Quiz.QuizFromPositiveSentences | app.js:486-545 | every quiz item's sentence is a sentence scored above zero |
| Quiz.RankedKeepsReadingOrderOfTies | app.js:486-488 | sentences of equal score are ranked in reading order |
| Quiz.RankedByScore | app.js:486-488 | the ranked sentences are exactly the positively scored ones, best first |
| Quiz.RunPass | app.js:495-545 | a strategy loop's item list and used set are the items and sources of the specified pass |
| Quiz.QuizFrom | app.js:490-545 | the four loops produce exactly the specified quiz items |
| Quiz.QuizExportLines | app.js:547 | with no newline in any question or answer, the export reads back as `Qn: q`, `A: a`, then a blank line |
| Quiz.GenerateQuiz | app.js:484-547 | the method returns the specified items over the ranked sentences, and their export |
| Flashcards.ShortenFits | app.js:580 | a shortened definition fits in 120 characters; it is unchanged exactly when it already fits; and a longer one is cut to its first 117 characters followed by an ellipsis, 118 characters in all |
| Flashcards.PrimaryStep | app.js:577-581 | adding a keyword's card keeps the terms distinct and every card traceable to its keyword |
| Flashcards.PrimarySound | app.js:575-583 | keyword cards have distinct terms; each is a prettified keyword with a definition over 15 characters, shortened |
| Flashcards.PrimaryCapped | app.js:576 | the keyword loop stops at twelve cards |
| Flashcards.PrimaryComplete | app.js:575-583 | below the cap, every keyword with a definition over 15 characters has a card |
| Flashcards.PrimaryKeeps | app.js:575-583 | the keyword loop only appends |
| Flashcards.LongWordsMembers | app.js:590 | the filter keeps exactly the non-stop words longer than four characters |
| Flashcards.SentenceTermIsLongWord | app.js:590-592 | a sentence yields a term exactly when it has a long non-stop word, and the term is that word prettified |
| Flashcards.BackfillStep | app.js:593-595 | adding a backfill card with a new term keeps the terms distinct and the card traceable to its sentence |
| Flashcards.BackfillSound | app.js:588-596 | the backfill only appends, stays within twelve cards, and keeps the terms distinct and traceable |
| Flashcards.BackfillComplete | app.js:588-596 | below the cap, every top sentence that yields a term has that term on a card |
| Flashcards.CardsFromSound | app.js:572-597 | at most twelve distinct-term cards; keyword cards first; backfill only when fewer than five; every card traceable |
| Flashcards.CardsFromComplete | app.js:572-597 | below the cap, no qualifying keyword or backfill term is missing |
| Flashcards.CardsFit | app.js:580 | every card's definition fits in 120 characters |
| Flashcards.FlashcardsGuarantees | app.js:571-597 | the guarantees above for the cards of a whole transcript |
| Flashcards.FlashcardsComplete | app.js:571-597 | below the cap, every keyword whose defining sentence is over 15 characters has a card; when backfill ran, so does every term the top sentences yield |
| Flashcards.PrimaryPass | app.js:575-583 | the keyword loop computes the specified keyword cards |
| Flashcards.BackfillPass | app.js:587-596 | the backfill loop computes the specified backfill |
| Flashcards.FlashcardsExportLines | app.js:599 | with no newline in any card, the export reads back as `TERM: t`, `DEF: d`, then a blank line |
| Flashcards.GenerateFlashcards | app.js:571-599 | the method returns the specified cards and their export |

## Left out

- The user interface is not modelled: speech recognition, file upload, clipboard, download, toasts, tabs, and the HTML each generator returns along with `escapeHtml`. These are I/O and rendering. Only the text assigned to `generatedContent` is modelled.
- The orchestrator's dispatch between the three generators is not modelled; only its length check is. The dispatch is a UI switch on the selected tab.
- `Math.log` is the parameter `ln`, and JavaScript doubles are exact reals. Floating-point rounding is not modelled, so equal scores compare equal exactly.
- Character classes follow ASCII: `toLowerCase`, `toUpperCase` and the `/i` flag map only `A`-`Z`. The whitespace class lists the characters JavaScript's `\s` matches. Lengths count characters, not UTF-16 code units.
- The `tf` object is a map. The JavaScript object's inherited keys (`constructor` and the like) are not modelled.
- Variables the source computes but never reads are left out: `sentences` in `generateQuiz`, and `allWords` in `generateNotes`.
- Quiz.DefinitionSplitIsLazy: fixes the subject end as the shortest of any match, but does not pin down which answer start is chosen when several verb and whitespace choices fit at that end.
- Quiz.BlankChanges: shows that the `blanked !== sent` guard in strategy 3 never fails for a chosen word under the ASCII case mapping, so that branch is modelled but is never taken. With full Unicode case mapping it can fail: the Kelvin sign U+212A lower-cases to `k`, so a word such as `kelvin` can be chosen from a sentence that spells it with that sign, yet `/\bkelvin\b/i` does not match it, and the sentence comes back unchanged.
- Tokenizer.Sentences: a sentence may still contain a newline (a sentence end followed by a newline is a break, but a bare newline is not). The line-by-line export lemmas therefore assume no newline in any item.
