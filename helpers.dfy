/** The two small helpers of the engine: `prettify` (app.js:374-376) and
 *  `findDefiningSentence` (app.js:378-391). */
module Helpers {
  import opened Seqs
  import opened Text
  import opened Tokenizer

  // ---------- prettify ----------

  /** `prettify(word)`: the first character upper-cased, the rest unchanged. */
  function Prettify(w: string): string {
    if w == [] then [] else [UpperChar(w[0])] + w[1..]
  }

  /** On a word token `prettify` only capitalises the initial letter, and lower-casing undoes it. */
  lemma PrettifyRoundTrip(w: string)
    requires IsWordToken(w)
    ensures |Prettify(w)| == |w| && 'A' <= Prettify(w)[0] <= 'Z' && Prettify(w)[1..] == w[1..]
    ensures Lower(Prettify(w)) == w
  {
    var p := Prettify(w);
    forall k | 0 <= k < |w| ensures Lower(p)[k] == w[k] {
      if k > 0 {
        assert p[k] == w[k] && IsWordTail(w[k]);
      }
    }
  }

  /** Distinct word tokens stay distinct once prettified. */
  lemma PrettifyInjective(v: string, w: string)
    requires IsWordToken(v) && IsWordToken(w)
    requires Prettify(v) == Prettify(w)
    ensures v == w
  {
    PrettifyRoundTrip(v);
    PrettifyRoundTrip(w);
  }

  // ---------- findDefiningSentence ----------

  /** The definition cues, matched against the lower-cased sentence. */
  const DefinitionCues: seq<string> :=
    [" is ", " are ", " refers to ", " means ", " defined as ", " can be ", " involves ", " consists "]

  /** `defPatterns.some(p => p.test(sl))`. */
  predicate HasCue(sl: string, cues: seq<string>) {
    exists k :: 0 <= k < |cues| && Contains(sl, cues[k])
  }

  /** `s.toLowerCase().includes(term.toLowerCase())`. */
  predicate Mentions(s: string, term: string) {
    Contains(Lower(s), Lower(term))
  }

  /** A sentence that mentions the term and reads like a definition. */
  predicate Defines(s: string, term: string) {
    Mentions(s, term) && HasCue(Lower(s), DefinitionCues)
  }

  predicate Wanted(s: string, term: string, cued: bool) {
    if cued then Defines(s, term) else Mentions(s, term)
  }

  /** The index of the first wanted sentence. */
  function FirstWanted(ss: seq<string>, term: string, cued: bool, from: nat): (r: Option<nat>)
    requires from <= |ss|
    ensures r.Some? ==> from <= r.value < |ss| && Wanted(ss[r.value], term, cued)
    ensures r.Some? ==> forall k :: from <= k < r.value ==> !Wanted(ss[k], term, cued)
    ensures r.None? ==> forall k :: from <= k < |ss| ==> !Wanted(ss[k], term, cued)
    decreases |ss| - from
  {
    if from == |ss| then None
    else if Wanted(ss[from], term, cued) then Some(from)
    else FirstWanted(ss, term, cued, from + 1)
  }

  /** `findDefiningSentence` over a list of sentences: the first sentence that defines the
   *  term, else the first that mentions it, else the empty string. */
  function FindDefining(ss: seq<string>, term: string): (r: string)
    ensures forall k :: 0 <= k < |ss| && Defines(ss[k], term) ==> Defines(r, term) && r in ss[..k + 1]
    ensures (forall k :: 0 <= k < |ss| ==> !Defines(ss[k], term)) ==>
              forall k :: 0 <= k < |ss| && Mentions(ss[k], term) ==> Mentions(r, term) && r in ss[..k + 1]
    ensures (forall k :: 0 <= k < |ss| ==> !Mentions(ss[k], term)) ==> r == []
  {
    match FirstWanted(ss, term, true, 0)
    case Some(i) =>
      assert ss[i] == ss[..i + 1][i];
      ss[i]
    case None =>
      match FirstWanted(ss, term, false, 0)
      case Some(j) =>
        assert ss[j] == ss[..j + 1][j];
        ss[j]
      case None => []
  }

  /** `findDefiningSentence(text, term)`. */
  function FindDefiningSentence(text: string, term: string): string {
    FindDefining(Sentences(text), term)
  }

  /** What `findDefiningSentence` returns is empty or one of the text's sentences
   *  mentioning the term; it is empty only when no sentence mentions the term. */
  lemma FindDefiningSentenceIsSentence(text: string, term: string)
    ensures var r := FindDefiningSentence(text, term);
            r == [] <==> forall k :: 0 <= k < |Sentences(text)| ==> !Mentions(Sentences(text)[k], term)
    ensures var r := FindDefiningSentence(text, term);
            r != [] ==> r in Sentences(text) && Mentions(r, term)
  {
    var ss := Sentences(text);
    var r := FindDefining(ss, term);
    var d := FirstWanted(ss, term, true, 0);
    var m := FirstWanted(ss, term, false, 0);
    if d.Some? {
      assert r == ss[d.value] && IsSentence(ss[d.value]);
    } else if m.Some? {
      assert r == ss[m.value] && IsSentence(ss[m.value]);
    }
  }
}
