/** The quiz generator (app.js `generateQuiz`, lines 484-547): four strategies run one
 *  after the other over the positively scored sentences, best first, sharing a cap of
 *  eight items and the set of sentences already used; and the plain-text export. */
module Quiz {
  import opened Seqs
  import opened Text
  import opened Tokenizer
  import opened Scoring
  import opened Helpers
  import opened Sorting

  // ---------- the definition pattern ----------
  //
  // `sent.match(/^(.+?)\s+(?:is|are|means|refers to|is called)\s+(.+)$/i)`, followed
  // through the backtracking order of a regular-expression engine: the lazy subject
  // grows one character at a time; for each subject end the greedy `\s+` backs off from
  // its longest run; at each verb position the alternatives are tried in order; the
  // second `\s+` backs off likewise; and `(.+)$` needs a non-empty rest of the string
  // free of line terminators. `.` matches anything but a line terminator, `^` and `$`
  // anchor at the ends of the string, and `/i` makes the ASCII letters of the verbs
  // match in either case.

  /** The verb alternatives, in the order the pattern tries them. */
  const Verbs: seq<string> := ["is", "are", "means", "refers to", "is called"]

  /** `(.+)$` from position `j`: a non-empty rest with no line terminator in it. */
  predicate RestOfLine(s: string, j: nat) {
    j < |s| && forall k :: j <= k < |s| ==> !IsLineTerminator(s[k])
  }

  /** All of `s[i..j]` is whitespace. */
  predicate SpacesBetween(s: string, i: nat, j: nat)
    requires i <= j <= |s|
  {
    forall k :: i <= k < j ==> IsSpace(s[k])
  }

  /** The verb, in any ASCII case, at position `k`. */
  predicate VerbAt(s: string, k: nat, verb: string) {
    k + |verb| <= |s| && Lower(s[k..k + |verb|]) == verb
  }

  /** The verb alternative `w` at `k`, then whitespace, then `(.+)$` from `j`. */
  predicate VerbRunAt(s: string, k: nat, w: nat, j: nat) {
    w < |Verbs| && k + |Verbs[w]| < j <= |s| && VerbAt(s, k, Verbs[w]) &&
    SpacesBetween(s, k + |Verbs[w]|, j) && RestOfLine(s, j)
  }

  /** Between the subject ending at `e` and the answer starting at `j`: whitespace, a verb
   *  alternative, whitespace, and the answer runs to the end of the string. */
  ghost predicate VerbBetween(s: string, e: nat, j: nat) {
    exists k, w :: VerbRunAt(s, k, w, j) && e < k && SpacesBetween(s, e, k)
  }

  /** A match of the definition pattern with the subject `s[..e]` and the answer `s[j..]`. */
  ghost predicate SplitsAt(s: string, e: nat, j: nat) {
    1 <= e < j <= |s| && (forall i :: 0 <= i < e ==> !IsLineTerminator(s[i])) && VerbBetween(s, e, j)
  }

  /** `(.+)$` after the second `\s+`, whose longest run from `lo` ends at `j`: the run backs
   *  off one character at a time. */
  function BackOff(s: string, lo: nat, j: nat): (r: Option<nat>)
    requires lo <= j <= |s|
    ensures r.Some? ==> lo < r.value <= j && RestOfLine(s, r.value)
    ensures r.None? ==> forall k :: lo < k <= j ==> !RestOfLine(s, k)
    decreases j
  {
    if j <= lo then None
    else if RestOfLine(s, j) then Some(j)
    else BackOff(s, lo, j - 1)
  }

  /** The verb alternatives from the `v`-th on, in order, at position `k`, each followed by `\s+(.+)$`. */
  function TryVerbs(s: string, k: nat, v: nat): (r: Option<nat>)
    ensures r.Some? ==> k < r.value <= |s|
    decreases |Verbs| - v
  {
    if v >= |Verbs| then None
    else if VerbAt(s, k, Verbs[v]) then
      var lo := k + |Verbs[v]|;
      var r := BackOff(s, lo, SpaceRunEnd(s, lo));
      if r.Some? then r else TryVerbs(s, k, v + 1)
    else TryVerbs(s, k, v + 1)
  }

  /** The first `\s+` after a subject ending at `e`, backing off from position `k`: the verb
   *  alternatives are tried at `k`, then at `k - 1`, down to `e + 1`. */
  function VerbFrom(s: string, e: nat, k: nat): (r: Option<nat>)
    ensures r.Some? ==> e < r.value <= |s|
    decreases k
  {
    if k <= e then None
    else
      var r := TryVerbs(s, k, 0);
      if r.Some? then r else VerbFrom(s, e, k - 1)
  }

  /** The lazy subject `(.+?)` ending at `e`, then at `e + 1`, and so on; it cannot grow
   *  past a line terminator. */
  function SubjectFrom(s: string, e: nat): (r: Option<(nat, nat)>)
    requires 1 <= e
    ensures r.Some? ==> e <= r.value.0 < r.value.1 <= |s|
    decreases |s| - e
  {
    if e > |s| || IsLineTerminator(s[e - 1]) then None
    else
      var j := VerbFrom(s, e, SpaceRunEnd(s, e));
      if j.Some? then Some((e, j.value)) else SubjectFrom(s, e + 1)
  }

  /** `sent.match(...)`: the split of a sentence into the subject `s[..e]` and the answer
   *  `s[j..]`, if the definition pattern matches. */
  function DefinitionSplit(s: string): (r: Option<(nat, nat)>)
    ensures r.Some? ==> 1 <= r.value.0 < r.value.1 <= |s|
  {
    SubjectFrom(s, 1)
  }

  // ---------- what the search finds is a match ----------

  lemma {:induction false} TryVerbsSound(s: string, k: nat, v: nat)
    requires TryVerbs(s, k, v).Some?
    ensures exists w :: v <= w && VerbRunAt(s, k, w, TryVerbs(s, k, v).value)
    decreases |Verbs| - v
  {
    var lo := k + |Verbs[v]|;
    if VerbAt(s, k, Verbs[v]) && BackOff(s, lo, SpaceRunEnd(s, lo)).Some? {
      assert VerbRunAt(s, k, v, TryVerbs(s, k, v).value);
    } else {
      TryVerbsSound(s, k, v + 1);
    }
  }

  lemma {:induction false} VerbFromSound(s: string, e: nat, k: nat)
    requires e <= k <= |s| && SpacesBetween(s, e, k) && VerbFrom(s, e, k).Some?
    ensures VerbBetween(s, e, VerbFrom(s, e, k).value)
    decreases k
  {
    if TryVerbs(s, k, 0).Some? {
      TryVerbsSound(s, k, 0);
    } else {
      VerbFromSound(s, e, k - 1);
    }
  }

  lemma {:induction false} SubjectFromSound(s: string, e: nat)
    requires 1 <= e && SubjectFrom(s, e).Some?
    requires forall i :: 0 <= i < e - 1 ==> !IsLineTerminator(s[i])
    ensures SplitsAt(s, SubjectFrom(s, e).value.0, SubjectFrom(s, e).value.1)
    decreases |s| - e
  {
    assert forall i :: 0 <= i < e ==> !IsLineTerminator(s[i]);
    if VerbFrom(s, e, SpaceRunEnd(s, e)).Some? {
      VerbFromSound(s, e, SpaceRunEnd(s, e));
    } else {
      SubjectFromSound(s, e + 1);
    }
  }

  // ---------- and the search misses no match ----------

  /** A whitespace run from `lo` ends no later than where the scan for it stops. */
  lemma SpaceRunBound(s: string, lo: nat, j: nat)
    requires lo <= j <= |s| && SpacesBetween(s, lo, j)
    ensures j <= SpaceRunEnd(s, lo)
  {
  }

  /** Trying the verbs from the `v`-th on misses none that leads to a match. */
  lemma {:induction false} TryVerbsComplete(s: string, k: nat, v: nat, w: nat, j: nat)
    requires v <= w && VerbRunAt(s, k, w, j)
    ensures TryVerbs(s, k, v).Some?
    decreases w - v
  {
    if v == w {
      SpaceRunBound(s, k + |Verbs[w]|, j);
    } else if !(VerbAt(s, k, Verbs[v]) && BackOff(s, k + |Verbs[v]|, SpaceRunEnd(s, k + |Verbs[v]|)).Some?) {
      TryVerbsComplete(s, k, v + 1, w, j);
    }
  }

  /** Backing the first whitespace run off from `k` misses no verb position that leads to a match. */
  lemma {:induction false} VerbFromComplete(s: string, e: nat, k: nat, m: nat, w: nat, j: nat)
    requires e < m <= k && VerbRunAt(s, m, w, j)
    ensures VerbFrom(s, e, k).Some?
    decreases k
  {
    if m == k {
      TryVerbsComplete(s, k, 0, w, j);
    } else if TryVerbs(s, k, 0).None? {
      VerbFromComplete(s, e, k - 1, m, w, j);
    }
  }

  /** At a subject end that admits a match, the verb search finds one. */
  lemma SplitFound(s: string, e: nat, j: nat)
    requires SplitsAt(s, e, j)
    ensures VerbFrom(s, e, SpaceRunEnd(s, e)).Some?
  {
    var k, w :| VerbRunAt(s, k, w, j) && e < k && SpacesBetween(s, e, k);
    SpaceRunBound(s, e, k);
    VerbFromComplete(s, e, SpaceRunEnd(s, e), k, w, j);
  }

  /** The lazy subject stops no later than a subject end at which the verb search succeeds. */
  lemma {:induction false} SubjectFromComplete(s: string, e: nat, m: nat)
    requires 1 <= e <= m <= |s| && forall i :: 0 <= i < m ==> !IsLineTerminator(s[i])
    requires VerbFrom(s, m, SpaceRunEnd(s, m)).Some?
    ensures SubjectFrom(s, e).Some? && SubjectFrom(s, e).value.0 <= m
    decreases m - e
  {
    assert !IsLineTerminator(s[e - 1]);
    if e < m && VerbFrom(s, e, SpaceRunEnd(s, e)).None? {
      SubjectFromComplete(s, e + 1, m);
    }
  }

  /** `match` gives a match of the pattern, fails exactly when the pattern has none, and its
   *  lazy subject is the shortest one any match has. */
  lemma DefinitionSplitIsLazy(s: string)
    ensures DefinitionSplit(s).Some? ==> SplitsAt(s, DefinitionSplit(s).value.0, DefinitionSplit(s).value.1)
    ensures DefinitionSplit(s).None? <==> forall e, j :: !SplitsAt(s, e, j)
    ensures DefinitionSplit(s).Some? ==> forall e, j :: SplitsAt(s, e, j) ==> DefinitionSplit(s).value.0 <= e
  {
    if DefinitionSplit(s).Some? {
      SubjectFromSound(s, 1);
    }
    forall e, j | SplitsAt(s, e, j) ensures DefinitionSplit(s).Some? && DefinitionSplit(s).value.0 <= e {
      SplitFound(s, e, j);
      SubjectFromComplete(s, 1, e);
    }
  }

  // ---------- a sentence of the form "X is Y" ----------

  /** A one-word subject, `is`, and an answer on the same line: the pattern splits right
   *  around the `is`, so the answer is the whole rest of the sentence. */
  lemma DefinitionSplitAtIs(w: string, rest: string)
    requires w != [] && forall i :: 0 <= i < |w| ==> !IsSpace(w[i])
    requires rest != [] && !IsSpace(rest[0]) && forall i :: 0 <= i < |rest| ==> !IsLineTerminator(rest[i])
    ensures DefinitionSplit(w + " is " + rest) == Some((|w|, |w| + 4))
  {
    var s := w + " is " + rest;
    var n := |w|;
    assert forall i :: 0 <= i < n ==> s[i] == w[i];
    assert s[n] == ' ' && s[n + 1] == 'i' && s[n + 2] == 's' && s[n + 3] == ' ';
    assert s[n + 4..] == rest;
    NoSpaceInFrom(s, 0, n);
    SubjectBeforeIs(s, n, 1);
  }

  /** No whitespace in `s[i..j]`, one position at a time. */
  predicate NoSpaceIn(s: string, i: nat, j: nat)
    requires j <= |s|
    decreases j - i
  {
    i >= j || (!IsSpace(s[i]) && NoSpaceIn(s, i + 1, j))
  }

  lemma {:induction false} NoSpaceInFrom(s: string, i: nat, j: nat)
    requires j <= |s| && forall k :: i <= k < j ==> !IsSpace(s[k])
    ensures NoSpaceIn(s, i, j)
    decreases j - i
  {
    if i < j {
      NoSpaceInFrom(s, i + 1, j);
    }
  }

  /** Scanning a subject without whitespace up to the ` is ` at `n`. */
  lemma {:induction false} SubjectBeforeIs(s: string, n: nat, e: nat)
    requires n + 4 < |s| && 1 <= e <= n && NoSpaceIn(s, e - 1, n)
    requires s[n] == ' ' && s[n + 1] == 'i' && s[n + 2] == 's' && s[n + 3] == ' '
    requires !IsSpace(s[n + 4]) && RestOfLine(s, n + 4)
    ensures SubjectFrom(s, e) == Some((n, n + 4))
    decreases n - e
  {
    assert !IsSpace(s[e - 1]) && NoSpaceIn(s, e, n);
    if e < n {
      SubjectBeforeIs(s, n, e + 1);
      SubjectGrows(s, e, (n, n + 4));
    } else {
      IsThenAnswer(s, n);
    }
  }

  /** A subject end followed by no whitespace leaves the lazy subject to grow. */
  lemma SubjectGrows(s: string, e: nat, m: (nat, nat))
    requires 1 <= e < |s| && !IsLineTerminator(s[e - 1]) && !IsSpace(s[e])
    requires SubjectFrom(s, e + 1) == Some(m)
    ensures SubjectFrom(s, e) == Some(m)
  {
    assert SpaceRunEnd(s, e) == e;
  }

  lemma IsThenAnswer(s: string, e: nat)
    requires e + 4 < |s| && s[e] == ' ' && s[e + 1] == 'i' && s[e + 2] == 's' && s[e + 3] == ' '
    requires !IsSpace(s[e + 4]) && RestOfLine(s, e + 4)
    ensures SpaceRunEnd(s, e) == e + 1 && VerbFrom(s, e, e + 1) == Some(e + 4)
  {
    IsVerbAt(s, e + 1);
    assert SpaceRunEnd(s, e + 4) == e + 4;
    assert BackOff(s, e + 3, e + 4) == Some(e + 4);
    assert TryVerbs(s, e + 1, 0) == Some(e + 4);
  }

  lemma IsVerbAt(s: string, k: nat)
    requires k + 2 <= |s| && s[k] == 'i' && s[k + 1] == 's'
    ensures VerbAt(s, k, Verbs[0]) && |Verbs[0]| == 2
  {
    assert s[k..k + 2] == Verbs[0];
    LowerWithoutUpper(Verbs[0]);
  }

  // ---------- the four strategies ----------

  datatype QuizItem = QuizItem(q: string, a: string)

  datatype Strategy = Definition | Explained | FillIn | Restate

  /** The cues the first strategy looks for in the lower-cased sentence. */
  const QuizCues: seq<string> := [" is ", " are ", " refers to ", " means ", " defined as ", " called "]

  /** Strategy 1, "What is X?": a sentence with a cue that the definition pattern splits. */
  function DefinitionItem(sent: string): Option<QuizItem> {
    if !HasCue(Lower(sent), QuizCues) then None
    else
      match DefinitionSplit(sent)
      case None => None
      case Some((e, j)) => Some(QuizItem("What is " + Trim(sent[..e]) + "?", Trim(sent[j..])))
  }

  /** Strategy 2: a sentence with at least two non-stop words, asked about its first one. */
  function ExplainedItem(sent: string): Option<QuizItem> {
    var kws := ContentWords(Words(sent));
    if |kws| < 2 then None
    else Some(QuizItem("According to the lecture, what is explained about \"" + Prettify(kws[0]) + "\"?", sent))
  }

  /** The words longer than `n` characters, in order. */
  function LongerThan(ws: seq<string>, n: nat): (r: seq<string>)
    ensures forall k :: 0 <= k < |r| ==> |r[k]| > n && r[k] in ws
    decreases |ws|
  {
    if ws == [] then []
    else if |ws[0]| > n then [ws[0]] + LongerThan(ws[1..], n)
    else LongerThan(ws[1..], n)
  }

  /** The word strategy 3 blanks out: the second long non-stop word, or the only one. */
  function BlankWord(sent: string): (r: Option<string>)
    ensures r.Some? ==> |r.value| > 5 && !IsStopWord(r.value) && r.value in Words(sent)
  {
    var kws := LongerThan(ContentWords(Words(sent)), 5);
    if kws == [] then None else Some(kws[if |kws| > 1 then 1 else 0])
  }

  /** `w` in any ASCII case at `i`, with a word boundary on either side. */
  predicate BoundedAt(s: string, w: string, i: nat) {
    i + |w| <= |s| && Lower(s[i..i + |w|]) == w && AtBoundary(s, i) && AtBoundary(s, i + |w|)
  }

  /** The first match of `\bw\b` (case-insensitive) at or after `from`. */
  function FirstBounded(s: string, w: string, from: nat): (r: Option<nat>)
    ensures r.Some? ==> from <= r.value && BoundedAt(s, w, r.value)
    ensures r.Some? ==> forall k :: from <= k < r.value ==> !BoundedAt(s, w, k)
    ensures r.None? ==> forall k :: from <= k ==> !BoundedAt(s, w, k)
    decreases |s| - from
  {
    if from + |w| > |s| then None
    else if BoundedAt(s, w, from) then Some(from)
    else FirstBounded(s, w, from + 1)
  }

  /** `s.replace(new RegExp(`\\b${w}\\b`, 'i'), '______')`: the first bounded match of `w`
   *  replaced by six underscores, or `s` unchanged when there is none. */
  function Blank(s: string, w: string): string {
    match FirstBounded(s, w, 0)
    case None => s
    case Some(i) => s[..i] + "______" + s[i + |w|..]
  }

  /** Strategy 3, fill in the blank, offered only when blanking changed the sentence. */
  function FillInItem(sent: string): Option<QuizItem> {
    match BlankWord(sent)
    case None => None
    case Some(w) => BlankedItem(sent, w)
  }

  /** The fill-in item for the word `w`, if blanking it changes the sentence. */
  function BlankedItem(sent: string, w: string): Option<QuizItem> {
    var blanked := Blank(sent, w);
    if blanked != sent then
      Some(QuizItem("Complete the sentence: \"" + blanked + "\"", "\"" + Prettify(w) + "\" — Full sentence: " + sent))
    else None
  }

  /** Strategy 4, padding: any sentence not yet used. */
  function RestateItem(sent: string): Option<QuizItem> {
    Some(QuizItem("What does the following statement mean in the context of this lecture?", sent))
  }

  function StrategyItem(kind: Strategy): string -> Option<QuizItem> {
    match kind
    case Definition => DefinitionItem
    case Explained => ExplainedItem
    case FillIn => FillInItem
    case Restate => RestateItem
  }

  /** Strategy 1 asks about the subject the definition pattern finds and answers with the
   *  rest of the sentence: it applies exactly when a cue occurs and the pattern matches,
   *  and its subject is the shortest one of any match. */
  lemma DefinitionItemIsMatch(sent: string)
    ensures DefinitionItem(sent).Some? <==> HasCue(Lower(sent), QuizCues) && exists e, j :: SplitsAt(sent, e, j)
    ensures DefinitionItem(sent).Some? ==>
              var (e, j) := DefinitionSplit(sent).value;
              SplitsAt(sent, e, j) && (forall e', j' :: SplitsAt(sent, e', j') ==> e <= e') &&
              DefinitionItem(sent).value == QuizItem("What is " + Trim(sent[..e]) + "?", Trim(sent[j..]))
  {
    DefinitionSplitIsLazy(sent);
  }

  /** "X is Y" with a one-word subject gives the question "What is X?" with the answer Y. */
  lemma DefinitionItemOfIs(w: string, rest: string)
    requires w != [] && forall i :: 0 <= i < |w| ==> !IsSpace(w[i])
    requires rest != [] && !IsSpace(rest[0]) && forall i :: 0 <= i < |rest| ==> !IsLineTerminator(rest[i])
    ensures DefinitionItem(w + " is " + rest) == Some(QuizItem("What is " + w + "?", Trim(rest)))
  {
    var sent := w + " is " + rest;
    DefinitionSplitAtIs(w, rest);
    LowerConcat(w, " is ");
    LowerConcat(w + " is ", rest);
    LowerWithoutUpper(" is ");
    var sl := Lower(sent);
    assert sl[|w|..|w| + 4] == QuizCues[0];
    ContainsAt(sl, QuizCues[0], |w|);
    assert sent[..|w|] == w && sent[|w| + 4..] == rest;
    TrimTrimmed(w);
  }

  /** Strategy 2 applies exactly when the sentence has two non-stop words; it asks about a
   *  non-stop word of the sentence and answers with the sentence. */
  lemma ExplainedItemAsksAboutContentWord(sent: string)
    ensures ExplainedItem(sent).Some? <==> |ContentWords(Words(sent))| >= 2
    ensures ExplainedItem(sent).Some? ==>
              ExplainedItem(sent).value.a == sent &&
              exists w :: w in Words(sent) && !IsStopWord(w) &&
                          ExplainedItem(sent).value.q == "According to the lecture, what is explained about \"" + Prettify(w) + "\"?"
  {
    var kws := ContentWords(Words(sent));
    if |kws| >= 2 {
      assert kws[0] in Words(sent) && !IsStopWord(kws[0]);
    }
  }

  /** A word of the sentence occurs in it, in some case, between two word boundaries. */
  lemma WordIsBounded(sent: string, w: string) returns (p: nat)
    requires w in Words(sent)
    ensures BoundedAt(sent, w, p)
  {
    p := WordOccurrence(Lower(sent), 0, w);
    LowerSlice(sent, p, p + |w|);
    LowerBoundary(sent, p);
    LowerBoundary(sent, p + |w|);
  }

  /** Blanking a word token out where it occurs changes the sentence. */
  lemma BlankAt(sent: string, w: string, i: nat)
    requires IsWordToken(w) && BoundedAt(sent, w, i)
    ensures sent[..i] + "______" + sent[i + |w|..] != sent
  {
    var b := sent[..i] + "______" + sent[i + |w|..];
    assert b[i] == '_';
    assert LowerChar(sent[i]) == Lower(sent[i..i + |w|])[0] == w[0];
  }

  /** The blanked word occurs in the sentence as a whole word, so blanking always changes
   *  the sentence and the `blanked !== sent` guard never fails. */
  lemma BlankChanges(sent: string)
    requires BlankWord(sent).Some?
    ensures FirstBounded(sent, BlankWord(sent).value, 0).Some?
    ensures Blank(sent, BlankWord(sent).value) != sent
  {
    var w := BlankWord(sent).value;
    var p := WordIsBounded(sent, w);
    var i := FirstBounded(sent, w, 0).value;
    BlankAt(sent, w, i);
  }

  /** Strategy 3 applies exactly when the sentence has a non-stop word longer than five letters. */
  lemma FillInItemApplies(sent: string)
    ensures FillInItem(sent).Some? <==> BlankWord(sent).Some?
  {
    if BlankWord(sent).Some? {
      BlankChanges(sent);
    }
  }

  /** Strategy 3's question is the sentence with the word's first whole-word occurrence,
   *  in any case, replaced by a blank; the answer names the word and quotes the sentence. */
  lemma BlankedItemBlanks(sent: string, w: string)
    requires BlankedItem(sent, w).Some?
    ensures FirstBounded(sent, w, 0).Some? &&
            var i := FirstBounded(sent, w, 0).value;
            BoundedAt(sent, w, i) && (forall k :: 0 <= k < i ==> !BoundedAt(sent, w, k)) &&
            BlankedItem(sent, w).value.q == "Complete the sentence: \"" + (sent[..i] + "______" + sent[i + |w|..]) + "\"" &&
            BlankedItem(sent, w).value.a == "\"" + Prettify(w) + "\" — Full sentence: " + sent
  {
    BlankFirst(sent, w);
  }

  /** A blank that changed the sentence replaced the first bounded match. */
  lemma BlankFirst(sent: string, w: string)
    requires Blank(sent, w) != sent
    ensures FirstBounded(sent, w, 0).Some? &&
            var i := FirstBounded(sent, w, 0).value;
            Blank(sent, w) == sent[..i] + "______" + sent[i + |w|..]
  {
  }

  // ---------- the strategy loops ----------

  /** An item with the strategy that made it and the sentence it used. */
  datatype Entry = Entry(kind: Strategy, source: string, item: QuizItem)

  const MaxItems: nat := 8

  function Sources(es: seq<Entry>): seq<string> {
    seq(|es|, k requires 0 <= k < |es| => es[k].source)
  }

  function Items(es: seq<Entry>): seq<QuizItem> {
    seq(|es|, k requires 0 <= k < |es| => es[k].item)
  }

  /** The `used` set. */
  function SourceSet(es: seq<Entry>): set<string> {
    set k | 0 <= k < |es| :: es[k].source
  }

  /** One strategy's loop from the `i`-th ranked sentence on: stop at the cap, skip used
   *  sentences, and add an item for each sentence the strategy applies to. */
  function Pass(kind: Strategy, itemFor: string -> Option<QuizItem>, ranked: seq<string>, i: nat, es: seq<Entry>): seq<Entry>
    requires i <= |ranked|
    decreases |ranked| - i
  {
    if i == |ranked| || |es| >= MaxItems then es
    else if ranked[i] in Sources(es) then Pass(kind, itemFor, ranked, i + 1, es)
    else match itemFor(ranked[i])
      case Some(item) => Pass(kind, itemFor, ranked, i + 1, es + [Entry(kind, ranked[i], item)])
      case None => Pass(kind, itemFor, ranked, i + 1, es)
  }

  lemma SourcesAppend(es: seq<Entry>, e: Entry)
    ensures Sources(es + [e]) == Sources(es) + [e.source]
  {
  }

  /** Entries kept as a prefix keep their sources. */
  lemma SourcesOfPrefix(es: seq<Entry>, r: seq<Entry>)
    requires |es| <= |r| && r[..|es|] == es
    ensures forall x :: x in Sources(es) ==> x in Sources(r)
  {
    forall x | x in Sources(es) ensures x in Sources(r) {
      var m :| 0 <= m < |es| && Sources(es)[m] == x;
      assert Sources(r)[m] == r[..|es|][m].source;
    }
  }

  /** A pass keeps the entries it is given, adds after them, and respects the cap. */
  lemma {:induction false} PassExtends(kind: Strategy, itemFor: string -> Option<QuizItem>, ranked: seq<string>,
                                       i: nat, es: seq<Entry>)
    requires i <= |ranked| && |es| <= MaxItems
    ensures var r := Pass(kind, itemFor, ranked, i, es);
            |es| <= |r| <= MaxItems && r[..|es|] == es
    decreases |ranked| - i
  {
    if i == |ranked| || |es| >= MaxItems {
    } else if ranked[i] in Sources(es) {
      PassExtends(kind, itemFor, ranked, i + 1, es);
    } else {
      match itemFor(ranked[i])
      case Some(item) =>
        var es' := es + [Entry(kind, ranked[i], item)];
        PassExtends(kind, itemFor, ranked, i + 1, es');
        var r := Pass(kind, itemFor, ranked, i + 1, es');
        assert r[..|es|] == r[..|es'|][..|es|];
      case None =>
        PassExtends(kind, itemFor, ranked, i + 1, es);
    }
  }

  /** Each entry a pass adds comes from a ranked sentence not used before, made by the
   *  strategy; so the sentences used stay distinct. */
  lemma {:induction false} PassAdds(kind: Strategy, itemFor: string -> Option<QuizItem>, ranked: seq<string>,
                                    i: nat, es: seq<Entry>)
    requires i <= |ranked| && |es| <= MaxItems && Distinct(Sources(es))
    ensures var r := Pass(kind, itemFor, ranked, i, es);
            |es| <= |r| && Distinct(Sources(r)) &&
            forall k :: |es| <= k < |r| ==>
              r[k].kind == kind && r[k].source in ranked[i..] && itemFor(r[k].source) == Some(r[k].item)
    decreases |ranked| - i
  {
    PassExtends(kind, itemFor, ranked, i, es);
    if i == |ranked| || |es| >= MaxItems {
    } else if ranked[i] in Sources(es) {
      PassAdds(kind, itemFor, ranked, i + 1, es);
      var r := Pass(kind, itemFor, ranked, i + 1, es);
      forall k | |es| <= k < |r| ensures r[k].source in ranked[i..] {
        assert ranked[i + 1..] == ranked[i..][1..];
      }
    } else {
      match itemFor(ranked[i])
      case Some(item) =>
        var e := Entry(kind, ranked[i], item);
        var es' := es + [e];
        SourcesAppend(es, e);
        assert Distinct(Sources(es')) by {
          forall a, b | 0 <= a < b < |Sources(es')| ensures Sources(es')[a] != Sources(es')[b] {
            if b == |es| {
              assert Sources(es')[a] == Sources(es)[a];
            }
          }
        }
        PassAdds(kind, itemFor, ranked, i + 1, es');
        PassExtends(kind, itemFor, ranked, i + 1, es');
        var r := Pass(kind, itemFor, ranked, i + 1, es');
        forall k | |es| <= k < |r|
          ensures r[k].kind == kind && r[k].source in ranked[i..] && itemFor(r[k].source) == Some(r[k].item)
        {
          if k == |es| {
            assert r[k] == r[..|es'|][k] == e;
          } else {
            assert ranked[i + 1..] == ranked[i..][1..];
          }
        }
      case None =>
        PassAdds(kind, itemFor, ranked, i + 1, es);
        var r := Pass(kind, itemFor, ranked, i + 1, es);
        forall k | |es| <= k < |r| ensures r[k].source in ranked[i..] {
          assert ranked[i + 1..] == ranked[i..][1..];
        }
    }
  }

  /** Unless the cap stopped it, a pass leaves unused only sentences used before or ones the
   *  strategy does not apply to. */
  lemma {:induction false} PassComplete(kind: Strategy, itemFor: string -> Option<QuizItem>, ranked: seq<string>,
                                        i: nat, es: seq<Entry>)
    requires i <= |ranked| && |es| <= MaxItems
    ensures var r := Pass(kind, itemFor, ranked, i, es);
            |r| < MaxItems ==> forall k :: i <= k < |ranked| ==> ranked[k] in Sources(r) || itemFor(ranked[k]).None?
    decreases |ranked| - i
  {
    if i == |ranked| || |es| >= MaxItems {
    } else {
      var es' := if ranked[i] in Sources(es) || itemFor(ranked[i]).None? then es
                 else es + [Entry(kind, ranked[i], itemFor(ranked[i]).value)];
      assert Pass(kind, itemFor, ranked, i, es) == Pass(kind, itemFor, ranked, i + 1, es');
      PassComplete(kind, itemFor, ranked, i + 1, es');
      PassExtends(kind, itemFor, ranked, i + 1, es');
      var r := Pass(kind, itemFor, ranked, i + 1, es');
      if |r| < MaxItems && itemFor(ranked[i]).Some? {
        assert ranked[i] in Sources(es') by {
          if ranked[i] !in Sources(es) {
            SourcesAppend(es, Entry(kind, ranked[i], itemFor(ranked[i]).value));
          }
        }
        SourcesOfPrefix(es', r);
      }
    }
  }

  /** The order in which the strategies run. */
  function Rank(kind: Strategy): nat {
    match kind
    case Definition => 0
    case Explained => 1
    case FillIn => 2
    case Restate => 3
  }

  const Order: seq<Strategy> := [Definition, Explained, FillIn, Restate]

  function Run(kind: Strategy, ranked: seq<string>, es: seq<Entry>): seq<Entry> {
    Pass(kind, StrategyItem(kind), ranked, 0, es)
  }

  /** The passes of the given strategies, one after the other. */
  function Passes(kinds: seq<Strategy>, ranked: seq<string>, es: seq<Entry>): seq<Entry>
    decreases |kinds|
  {
    if kinds == [] then es else Passes(kinds[1..], ranked, Run(kinds[0], ranked, es))
  }

  /** The entries of the quiz over the ranked sentences: the four strategies in turn. */
  function QuizEntries(ranked: seq<string>): seq<Entry> {
    Passes(Order, ranked, [])
  }

  lemma QuizEntriesInOrder(ranked: seq<string>)
    ensures QuizEntries(ranked) ==
            Run(Restate, ranked, Run(FillIn, ranked, Run(Explained, ranked, Run(Definition, ranked, []))))
  {
    assert Order[1..][1..][1..][1..] == [];
  }

  /** The entry's item is what its strategy makes of its sentence. */
  predicate Made(e: Entry) {
    StrategyItem(e.kind)(e.source) == Some(e.item)
  }

  predicate AllMade(es: seq<Entry>) {
    forall k :: 0 <= k < |es| ==> Made(es[k])
  }

  /** Within the cap, no sentence used twice, each entry from a ranked sentence and by a
   *  strategy ranked at most `bound`, and the entries in the order the strategies run. */
  predicate Sound(es: seq<Entry>, ranked: seq<string>, bound: nat) {
    |es| <= MaxItems && Distinct(Sources(es)) &&
    (forall k :: 0 <= k < |es| ==> Rank(es[k].kind) <= bound && es[k].source in ranked) &&
    forall i, j :: 0 <= i < j < |es| ==> Rank(es[i].kind) <= Rank(es[j].kind)
  }

  /** A pass for a strategy that runs no earlier keeps the entries sound. */
  lemma RunSound(kind: Strategy, ranked: seq<string>, es: seq<Entry>, bound: nat)
    requires Sound(es, ranked, bound) && bound <= Rank(kind)
    ensures Sound(Run(kind, ranked, es), ranked, Rank(kind))
  {
    var r := Run(kind, ranked, es);
    PassExtends(kind, StrategyItem(kind), ranked, 0, es);
    PassAdds(kind, StrategyItem(kind), ranked, 0, es);
    forall k | 0 <= k < |r| ensures Rank(r[k].kind) <= Rank(kind) && r[k].source in ranked {
      if k < |es| {
        assert r[k] == r[..|es|][k] == es[k];
      }
    }
    forall i, j | 0 <= i < j < |r| ensures Rank(r[i].kind) <= Rank(r[j].kind) {
      if j < |es| {
        assert r[i] == r[..|es|][i] && r[j] == r[..|es|][j];
      } else if i < |es| {
        assert r[i] == r[..|es|][i];
      }
    }
  }

  /** Strategies run in rank order keep the entries sound. */
  lemma {:induction false} PassesSound(kinds: seq<Strategy>, ranked: seq<string>, es: seq<Entry>, bound: nat)
    requires Sound(es, ranked, bound) && kinds != []
    requires bound <= Rank(kinds[0]) && forall i :: 0 <= i < |kinds| - 1 ==> Rank(kinds[i]) <= Rank(kinds[i + 1])
    ensures Sound(Passes(kinds, ranked, es), ranked, Rank(kinds[|kinds| - 1]))
    decreases |kinds|
  {
    RunSound(kinds[0], ranked, es, bound);
    if |kinds| > 1 {
      PassesSound(kinds[1..], ranked, Run(kinds[0], ranked, es), Rank(kinds[0]));
    }
  }

  /** The guarantees of `generateQuiz` over the ranked sentences: at most eight items; no
   *  sentence used twice; each from a ranked sentence; and the strategies' items in the
   *  order the strategies run. */
  lemma QuizGuarantees(ranked: seq<string>)
    ensures Sound(QuizEntries(ranked), ranked, Rank(Restate))
  {
    PassesSound(Order, ranked, [], 0);
  }

  /** Every entry a pass adds is made by its strategy. */
  lemma RunMade(kind: Strategy, ranked: seq<string>, es: seq<Entry>)
    requires AllMade(es) && |es| <= MaxItems && Distinct(Sources(es))
    ensures AllMade(Run(kind, ranked, es))
  {
    var r := Run(kind, ranked, es);
    PassExtends(kind, StrategyItem(kind), ranked, 0, es);
    PassAdds(kind, StrategyItem(kind), ranked, 0, es);
    forall k | 0 <= k < |r| ensures Made(r[k]) {
      if k < |es| {
        assert r[k] == r[..|es|][k] == es[k];
      }
    }
  }

  lemma {:induction false} PassesMade(kinds: seq<Strategy>, ranked: seq<string>, es: seq<Entry>)
    requires AllMade(es) && |es| <= MaxItems && Distinct(Sources(es))
    ensures AllMade(Passes(kinds, ranked, es))
    decreases |kinds|
  {
    if kinds != [] {
      var kind := kinds[0];
      RunMade(kind, ranked, es);
      PassExtends(kind, StrategyItem(kind), ranked, 0, es);
      PassAdds(kind, StrategyItem(kind), ranked, 0, es);
      PassesMade(kinds[1..], ranked, Run(kind, ranked, es));
    }
  }

  /** Every quiz item is the one its strategy makes of its sentence. */
  lemma QuizItemsMade(ranked: seq<string>)
    ensures AllMade(QuizEntries(ranked))
  {
    PassesMade(Order, ranked, []);
  }

  /** Passes keep the entries they are given and respect the cap. */
  lemma {:induction false} PassesExtend(kinds: seq<Strategy>, ranked: seq<string>, es: seq<Entry>)
    requires |es| <= MaxItems
    ensures var r := Passes(kinds, ranked, es);
            |es| <= |r| <= MaxItems && r[..|es|] == es
    decreases |kinds|
  {
    if kinds != [] {
      var es' := Run(kinds[0], ranked, es);
      PassExtends(kinds[0], StrategyItem(kinds[0]), ranked, 0, es);
      PassesExtend(kinds[1..], ranked, es');
      var r := Passes(kinds, ranked, es);
      assert r[..|es|] == r[..|es'|][..|es|];
    }
  }

  /** The padding pass uses every sentence it reaches. */
  lemma RestateUsesAll(ranked: seq<string>, es: seq<Entry>)
    requires |es| <= MaxItems
    ensures var r := Run(Restate, ranked, es);
            |r| < MaxItems ==> forall k :: 0 <= k < |ranked| ==> ranked[k] in Sources(r)
  {
    var itemFor := StrategyItem(Restate);
    assert forall x :: itemFor(x).Some?;
    PassComplete(Restate, itemFor, ranked, 0, es);
  }

  /** Once the padding pass has run, fewer than eight items means every ranked sentence was used. */
  lemma {:induction false} PassesUseAll(kinds: seq<Strategy>, ranked: seq<string>, es: seq<Entry>)
    requires |es| <= MaxItems && Restate in kinds
    ensures var r := Passes(kinds, ranked, es);
            |r| < MaxItems ==> forall k :: 0 <= k < |ranked| ==> ranked[k] in Sources(r)
    decreases |kinds|
  {
    var es' := Run(kinds[0], ranked, es);
    PassExtends(kinds[0], StrategyItem(kinds[0]), ranked, 0, es);
    PassesExtend(kinds[1..], ranked, es');
    var r := Passes(kinds, ranked, es);
    if kinds[0] == Restate {
      RestateUsesAll(ranked, es);
      SourcesOfPrefix(es', r);
    } else {
      assert Restate in kinds[1..] by {
        var m :| 0 <= m < |kinds| && kinds[m] == Restate;
        assert kinds[1..][m - 1] == Restate;
      }
      PassesUseAll(kinds[1..], ranked, es');
    }
  }

  /** Fewer than eight items only when every ranked sentence was used. */
  lemma QuizUsesAll(ranked: seq<string>)
    ensures |QuizEntries(ranked)| < MaxItems ==> forall k :: 0 <= k < |ranked| ==> ranked[k] in Sources(QuizEntries(ranked))
  {
    assert Order[3] == Restate;
    PassesUseAll(Order, ranked, []);
  }

  // ---------- generateQuiz ----------

  /** `scoreSentences(transcript).filter(s => s.score > 0).sort((a, b) => b.score - a.score)`. */
  function RankedEntries(scored: seq<ScoredSentence>): seq<ScoredSentence> {
    SortDesc(Eligible(scored, []), ScoreKey)
  }

  /** The ranked entries are exactly the positively scored ones, best first. */
  lemma RankedByScore(scored: seq<ScoredSentence>)
    ensures var r := RankedEntries(scored);
            SortedDesc(r, ScoreKey) &&
            (forall k :: 0 <= k < |r| ==> r[k] in scored && r[k].score > 0.0) &&
            (forall x :: x in scored && x.score > 0.0 ==> x in r)
  {
    var e, r := Eligible(scored, []), RankedEntries(scored);
    forall k | 0 <= k < |r| ensures r[k] in scored && r[k].score > 0.0 {
      assert r[k] in multiset(e);
      SubseqMember(e, scored, r[k]);
    }
    forall x | x in scored && x.score > 0.0 ensures x in r {
      assert x in multiset(r);
    }
  }

  /** Sentences of equal score are tried in reading order. */
  lemma RankedKeepsReadingOrderOfTies(scored: seq<ScoredSentence>, c: real)
    ensures Ties(RankedEntries(scored), ScoreKey, c) == Ties(Eligible(scored, []), ScoreKey, c)
  {
    SortDescStable(Eligible(scored, []), ScoreKey, c);
  }

  /** The sentences the strategies go through, best first. */
  function RankedSentences(scored: seq<ScoredSentence>): seq<string> {
    Texts(RankedEntries(scored))
  }

  /** Every ranked sentence is the text of a sentence scored above zero. */
  lemma RankedSentencesArePositive(scored: seq<ScoredSentence>, t: string)
    requires t in RankedSentences(scored)
    ensures exists x :: x in scored && x.sent == t && x.score > 0.0
  {
    var ranked := RankedSentences(scored);
    RankedByScore(scored);
    var m :| 0 <= m < |ranked| && ranked[m] == t;
    assert RankedEntries(scored)[m].sent == t;
  }

  /** Every quiz item comes from a sentence scored above zero. */
  lemma QuizFromPositiveSentences(scored: seq<ScoredSentence>)
    ensures var es := QuizEntries(RankedSentences(scored));
            forall k :: 0 <= k < |es| ==> exists x :: x in scored && x.sent == es[k].source && x.score > 0.0
  {
    var es := QuizEntries(RankedSentences(scored));
    QuizGuarantees(RankedSentences(scored));
    forall k | 0 <= k < |es| ensures exists x :: x in scored && x.sent == es[k].source && x.score > 0.0 {
      RankedSentencesArePositive(scored, es[k].source);
    }
  }

  lemma SourceSetMembers(es: seq<Entry>)
    ensures forall x :: x in SourceSet(es) <==> x in Sources(es)
  {
    forall x | x in Sources(es) ensures x in SourceSet(es) {
      var k :| 0 <= k < |es| && Sources(es)[k] == x;
      assert es[k].source == x;
    }
    forall x | x in SourceSet(es) ensures x in Sources(es) {
      var k :| 0 <= k < |es| && es[k].source == x;
      assert Sources(es)[k] == x;
    }
  }

  lemma SourceSetAppend(es: seq<Entry>, e: Entry)
    ensures SourceSet(es + [e]) == SourceSet(es) + {e.source}
  {
    var l, r := SourceSet(es + [e]), SourceSet(es) + {e.source};
    forall x | x in l ensures x in r {
      var k :| 0 <= k < |es| + 1 && (es + [e])[k].source == x;
      if k < |es| {
        assert es[k].source == x;
      }
    }
    forall x | x in r ensures x in l {
      if x == e.source {
        assert (es + [e])[|es|].source == x;
      } else {
        var k :| 0 <= k < |es| && es[k].source == x;
        assert (es + [e])[k].source == x;
      }
    }
  }

  /** One strategy loop: `for (const { sent } of scored)`, leaving at the cap, skipping
   *  used sentences, and recording each item the strategy makes. */
  method RunPass(kind: Strategy, itemFor: string -> Option<QuizItem>, ranked: seq<string>,
                 items0: seq<QuizItem>, used0: set<string>, ghost es0: seq<Entry>)
    returns (items: seq<QuizItem>, used: set<string>, ghost es: seq<Entry>)
    requires items0 == Items(es0) && used0 == SourceSet(es0)
    ensures es == Pass(kind, itemFor, ranked, 0, es0)
    ensures items == Items(es) && used == SourceSet(es)
  {
    items, used, es := items0, used0, es0;
    var i := 0;
    while i < |ranked|
      invariant 0 <= i <= |ranked|
      invariant items == Items(es) && used == SourceSet(es)
      invariant Pass(kind, itemFor, ranked, i, es) == Pass(kind, itemFor, ranked, 0, es0)
      decreases |ranked| - i
    {
      var sent := ranked[i];
      if |items| >= MaxItems {
        break;
      }
      SourceSetMembers(es);
      if sent in used {
        i := i + 1;
        continue;
      }
      match itemFor(sent) {
        case Some(item) =>
          ghost var e := Entry(kind, sent, item);
          assert Items(es + [e]) == items + [item];
          SourceSetAppend(es, e);
          items, used, es := items + [item], used + {sent}, es + [e];
        case None =>
      }
      i := i + 1;
    }
  }

  /** The four strategy loops over the ranked sentences. */
  method QuizFrom(ranked: seq<string>) returns (items: seq<QuizItem>)
    ensures items == Items(QuizEntries(ranked))
  {
    var used: set<string> := {};
    ghost var es: seq<Entry> := [];
    items := [];
    items, used, es := RunPass(Definition, StrategyItem(Definition), ranked, items, used, es);
    items, used, es := RunPass(Explained, StrategyItem(Explained), ranked, items, used, es);
    items, used, es := RunPass(FillIn, StrategyItem(FillIn), ranked, items, used, es);
    items, used, es := RunPass(Restate, StrategyItem(Restate), ranked, items, used, es);
    QuizEntriesInOrder(ranked);
  }

  /** The text assigned to `generatedContent`: `Qn: question` and `A: answer` per item,
   *  items separated by a blank line. */
  function QuizExport(items: seq<QuizItem>): string {
    Records(seq(|items|, k requires 0 <= k < |items| => ("Q" + NatToString(k + 1) + ": " + items[k].q, "A: " + items[k].a)))
  }

  /** When no question or answer holds a newline, the export reads back line by line: the
   *  numbered question, the answer, and a blank line between items. */
  lemma QuizExportLines(items: seq<QuizItem>)
    requires |items| >= 1
    requires forall k :: 0 <= k < |items| ==> '\n' !in items[k].q && '\n' !in items[k].a
    ensures var lines := Split(QuizExport(items), '\n');
            |lines| == 3 * |items| - 1 &&
            (forall k :: 0 <= k < |items| ==>
               lines[3 * k] == "Q" + NatToString(k + 1) + ": " + items[k].q && lines[3 * k + 1] == "A: " + items[k].a) &&
            forall k :: 0 <= k < |items| - 1 ==> lines[3 * k + 2] == ""
  {
    var rs := seq(|items|, k requires 0 <= k < |items| => ("Q" + NatToString(k + 1) + ": " + items[k].q, "A: " + items[k].a));
    forall k | 0 <= k < |rs| ensures '\n' !in rs[k].0 && '\n' !in rs[k].1 {
      var n := NatToString(k + 1);
      assert '\n' !in n by {
        forall m | 0 <= m < |n| ensures n[m] != '\n' {
        }
      }
    }
    RecordsSplit(rs);
    RecordLinesAt(rs);
  }

  /** `generateQuiz(transcript)`: the quiz items and the export text. */
  method GenerateQuiz(transcript: string, ln: Ln) returns (items: seq<QuizItem>, content: string)
    ensures items == Items(QuizEntries(RankedSentences(ScoreSentences(transcript, ln))))
    ensures content == QuizExport(items)
  {
    var scored := ScoreSentences(transcript, ln);
    var ranked := RankedSentences(scored);
    items := QuizFrom(ranked);
    content := QuizExport(items);
  }
}
