/** Characters and strings as the engine's JavaScript sees them: the `\s`
 *  class (which is also what `trim` removes), the `\b` word characters,
 *  ASCII case mapping, `trim`, `includes`, `split` on one character and `join`. */
module Text {
  import opened Seqs

  // ---------- character classes ----------

  /** JavaScript's LineTerminator code points: what `.` in a regular expression does not match. */
  predicate IsLineTerminator(c: char) {
    c == '\n' || c == '\r' || c == '\U{2028}' || c == '\U{2029}'
  }

  /** JavaScript's `\s`: WhiteSpace and LineTerminator code points. */
  predicate IsSpace(c: char) {
    || c == ' ' || c == '\t' || c == '\U{0B}' || c == '\U{0C}'
    || c == '\U{A0}' || c == '\U{1680}' || ('\U{2000}' <= c <= '\U{200A}')
    || c == '\U{202F}' || c == '\U{205F}' || c == '\U{3000}' || c == '\U{FEFF}'
    || IsLineTerminator(c)
  }

  /** The characters `\w` matches, relative to which `\b` is decided. */
  predicate IsWordChar(c: char) {
    ('a' <= c <= 'z') || ('A' <= c <= 'Z') || ('0' <= c <= '9') || c == '_'
  }

  predicate IsLowerLetter(c: char) {
    'a' <= c <= 'z'
  }

  /** The character class `[a-z']`. */
  predicate IsWordTail(c: char) {
    IsLowerLetter(c) || c == '\''
  }

  // ---------- case mapping (ASCII letters only) ----------

  function LowerChar(c: char): char {
    if 'A' <= c <= 'Z' then (c as int + 32) as char else c
  }

  function UpperChar(c: char): char {
    if 'a' <= c <= 'z' then (c as int - 32) as char else c
  }

  /** `s.toLowerCase()` restricted to ASCII letters. */
  function Lower(s: string): string {
    seq(|s|, i requires 0 <= i < |s| => LowerChar(s[i]))
  }

  /** Lower-casing twice changes nothing more. */
  lemma LowerIdempotent(s: string)
    ensures Lower(Lower(s)) == Lower(s)
  {
  }

  /** Text without upper-case ASCII letters is its own lower case. */
  lemma LowerWithoutUpper(s: string)
    requires forall k :: 0 <= k < |s| ==> !('A' <= s[k] <= 'Z')
    ensures Lower(s) == s
  {
  }

  lemma LowerSlice(s: string, i: nat, j: nat)
    requires i <= j <= |s|
    ensures Lower(s[i..j]) == Lower(s)[i..j]
  {
  }

  lemma LowerConcat(a: string, b: string)
    ensures Lower(a + b) == Lower(a) + Lower(b)
  {
  }

  // ---------- trimming ----------

  predicate AllSpace(s: string) {
    forall i :: 0 <= i < |s| ==> IsSpace(s[i])
  }

  /** Neither starts nor ends with whitespace. */
  predicate IsTrimmed(s: string) {
    s == [] || (!IsSpace(s[0]) && !IsSpace(s[|s| - 1]))
  }

  /** The end of the whitespace run that starts at `i`. */
  function SpaceRunEnd(s: string, i: nat): (e: nat)
    requires i <= |s|
    ensures i <= e <= |s|
    ensures forall k :: i <= k < e ==> IsSpace(s[k])
    ensures e == |s| || !IsSpace(s[e])
    decreases |s| - i
  {
    if i < |s| && IsSpace(s[i]) then SpaceRunEnd(s, i + 1) else i
  }

  /** The start of the whitespace run that ends at `j`, going back no further than `lo`. */
  function SpaceRunStart(s: string, lo: nat, j: nat): (b: nat)
    requires lo <= j <= |s|
    ensures lo <= b <= j
    ensures forall k :: b <= k < j ==> IsSpace(s[k])
    ensures b == lo || !IsSpace(s[b - 1])
    decreases j
  {
    if lo < j && IsSpace(s[j - 1]) then SpaceRunStart(s, lo, j - 1) else j
  }

  /** `s.trim()`: the slice of `s` left after removing the whitespace at both ends. */
  function Trim(s: string): (r: string)
    ensures IsTrimmed(r)
    ensures var k := SpaceRunEnd(s, 0); k + |r| <= |s| && r == s[k..k + |r|]
  {
    var k := SpaceRunEnd(s, 0);
    s[k..SpaceRunStart(s, k, |s|)]
  }

  /** What `trim` removes is whitespace only, at both ends. */
  lemma TrimDropsSpace(s: string)
    ensures var k := SpaceRunEnd(s, 0);
            AllSpace(s[..k]) && AllSpace(s[k + |Trim(s)|..])
  {
    var k := SpaceRunEnd(s, 0);
    var b := SpaceRunStart(s, k, |s|);
    assert Trim(s) == s[k..b];
    assert forall i :: 0 <= i < |s| - b ==> s[b..][i] == s[b + i];
  }

  /** `trim` leaves a trimmed string as it is. */
  lemma TrimTrimmed(s: string)
    requires IsTrimmed(s)
    ensures Trim(s) == s
  {
  }

  // ---------- searching, splitting, joining ----------

  /** `s.includes(t)`. */
  predicate Contains(s: string, t: string)
    decreases |s|
  {
    t <= s || (s != [] && Contains(s[1..], t))
  }

  /** An occurrence at a known position. */
  lemma {:induction false} ContainsAt(s: string, t: string, p: nat)
    requires p + |t| <= |s| && s[p..p + |t|] == t
    ensures Contains(s, t)
    decreases p
  {
    if p > 0 {
      assert s[1..][p - 1..p - 1 + |t|] == t;
      ContainsAt(s[1..], t, p - 1);
    }
  }

  /** `s.split(sep)` for a one-character separator: the pieces between separators, empty ones included. */
  function Split(s: string, sep: char): (r: seq<string>)
    ensures |r| >= 1
    ensures forall k :: 0 <= k < |r| ==> sep !in r[k]
    ensures s != [] && s[0] != sep ==> r[0] != [] && r[0][0] == s[0]
    decreases |s|
  {
    if s == [] then [[]]
    else
      var rest := Split(s[1..], sep);
      if s[0] == sep then [[]] + rest else [[s[0]] + rest[0]] + rest[1..]
  }

  /** `xs.join(sep)`. */
  function Join(xs: seq<string>, sep: string): string
    decreases |xs|
  {
    if xs == [] then []
    else if |xs| == 1 then xs[0]
    else xs[0] + sep + Join(xs[1..], sep)
  }

  /** Splitting and joining back with the same separator gives the string again. */
  lemma {:induction false} JoinSplit(s: string, sep: char)
    ensures Join(Split(s, sep), [sep]) == s
    decreases |s|
  {
    if s != [] {
      var rest := Split(s[1..], sep);
      JoinSplit(s[1..], sep);
      if s[0] == sep {
        assert s == [sep] + s[1..];
      } else {
        var r := Split(s, sep);
        assert r[1..] == rest[1..];
        if |rest| == 1 {
          assert s == [s[0]] + rest[0];
        } else {
          assert Join(rest, [sep]) == rest[0] + [sep] + Join(rest[1..], [sep]);
          assert s == [s[0]] + s[1..];
        }
      }
    }
  }

  lemma {:induction false} SplitPrefix(a: string, b: string, sep: char)
    requires sep !in a
    ensures Split(a + b, sep) == [a + Split(b, sep)[0]] + Split(b, sep)[1..]
    decreases |a|
  {
    if a != [] {
      assert a == [a[0]] + a[1..];
      assert a[0] != sep && sep !in a[1..];
      SplitPrefix(a[1..], b, sep);
      assert (a + b)[1..] == a[1..] + b;
      var r, s := Split(a[1..] + b, sep), Split(b, sep);
      assert r[0] == a[1..] + s[0] && r[1..] == s[1..];
      assert [a[0]] + r[0] == a + s[0];
    } else {
      var r := Split(b, sep);
      assert a + b == b && a + r[0] == r[0];
      assert r == [r[0]] + r[1..];
    }
  }

  /** Joining pieces free of the separator and splitting again gives the pieces back. */
  lemma {:induction false} SplitJoin(xs: seq<string>, sep: char)
    requires |xs| >= 1
    requires forall k :: 0 <= k < |xs| ==> sep !in xs[k]
    ensures Split(Join(xs, [sep]), sep) == xs
    decreases |xs|
  {
    if |xs| == 1 {
      SplitPrefix(xs[0], [], sep);
      assert xs[0] + [] == xs[0];
    } else {
      SplitJoin(xs[1..], sep);
      var tail := [sep] + Join(xs[1..], [sep]);
      assert Join(xs, [sep]) == xs[0] + tail;
      SplitPrefix(xs[0], tail, sep);
      assert Split(tail, sep) == [[]] + xs[1..];
      assert xs[0] + [] == xs[0];
    }
  }

  /** Joining two non-empty lists is joining each and putting the separator between. */
  lemma {:induction false} JoinConcat(a: seq<string>, b: seq<string>, sep: string)
    requires a != [] && b != []
    ensures Join(a + b, sep) == Join(a, sep) + sep + Join(b, sep)
    decreases |a|
  {
    assert (a + b)[0] == a[0] && (a + b)[1..] == a[1..] + b;
    if |a| > 1 {
      JoinConcat(a[1..], b, sep);
    }
  }

  /** A character in neither the pieces nor the separator is not in their join. */
  lemma {:induction false} JoinFree(xs: seq<string>, sep: string, c: char)
    requires c !in sep
    requires forall k :: 0 <= k < |xs| ==> c !in xs[k]
    ensures c !in Join(xs, sep)
    decreases |xs|
  {
    if |xs| > 1 {
      JoinFree(xs[1..], sep, c);
    }
  }

  /** Two-line records, `first\nsecond`, separated by blank lines: the shape of the quiz
   *  and flashcard exports (`records.map(...).join('\n\n')`). */
  function Records(rs: seq<(string, string)>): string {
    Join(seq(|rs|, k requires 0 <= k < |rs| => rs[k].0 + "\n" + rs[k].1), "\n\n")
  }

  /** The lines of the records: each record's two lines, and an empty line between records. */
  function RecordLines(rs: seq<(string, string)>): (r: seq<string>)
    decreases |rs|
  {
    if rs == [] then []
    else if |rs| == 1 then [rs[0].0, rs[0].1]
    else [rs[0].0, rs[0].1, ""] + RecordLines(rs[1..])
  }

  /** Where each record's lines are. */
  lemma {:induction false} RecordLinesAt(rs: seq<(string, string)>)
    requires |rs| >= 1
    ensures |RecordLines(rs)| == 3 * |rs| - 1
    ensures forall k :: 0 <= k < |rs| ==>
              RecordLines(rs)[3 * k] == rs[k].0 && RecordLines(rs)[3 * k + 1] == rs[k].1
    ensures forall k :: 0 <= k < |rs| - 1 ==> RecordLines(rs)[3 * k + 2] == ""
    decreases |rs|
  {
    if |rs| > 1 {
      RecordLinesAt(rs[1..]);
      var r, t := RecordLines(rs), RecordLines(rs[1..]);
      forall k | 1 <= k < |rs| ensures r[3 * k] == rs[k].0 && r[3 * k + 1] == rs[k].1 {
        assert r[3 * k] == t[3 * (k - 1)] && r[3 * k + 1] == t[3 * (k - 1) + 1];
      }
      forall k | 1 <= k < |rs| - 1 ensures r[3 * k + 2] == "" {
        assert r[3 * k + 2] == t[3 * (k - 1) + 2];
      }
    }
  }

  /** The records are their lines joined by newlines. */
  lemma {:induction false} RecordsJoinLines(rs: seq<(string, string)>)
    ensures Join(RecordLines(rs), "\n") == Records(rs)
    decreases |rs|
  {
    var blocks := seq(|rs|, k requires 0 <= k < |rs| => rs[k].0 + "\n" + rs[k].1);
    if |rs| == 1 {
      var xs := RecordLines(rs);
      assert Join(xs, "\n") == rs[0].0 + "\n" + Join(xs[1..], "\n");
    } else if |rs| > 1 {
      RecordsJoinLines(rs[1..]);
      RecordLinesAt(rs[1..]);
      var tail := RecordLines(rs[1..]);
      var xs := [rs[0].0, rs[0].1, ""] + tail;
      assert xs[1..] == [rs[0].1, ""] + tail;
      assert xs[1..][1..] == [""] + tail;
      assert ([""] + tail)[1..] == tail;
      assert Join(xs, "\n") == rs[0].0 + "\n" + Join(xs[1..], "\n");
      assert Join(xs[1..], "\n") == rs[0].1 + "\n" + Join([""] + tail, "\n");
      assert Join([""] + tail, "\n") == "" + "\n" + Join(tail, "\n");
      assert blocks[1..] == seq(|rs| - 1, k requires 0 <= k < |rs| - 1 => rs[1..][k].0 + "\n" + rs[1..][k].1);
      assert Records(rs) == blocks[0] + "\n\n" + Records(rs[1..]);
    }
  }

  lemma {:induction false} RecordLinesFree(rs: seq<(string, string)>, c: char)
    requires forall k :: 0 <= k < |rs| ==> c !in rs[k].0 && c !in rs[k].1
    ensures forall m :: 0 <= m < |RecordLines(rs)| ==> c !in RecordLines(rs)[m]
    decreases |rs|
  {
    if |rs| > 1 {
      RecordLinesFree(rs[1..], c);
      var r, t := RecordLines(rs), RecordLines(rs[1..]);
      forall m | 3 <= m < |r| ensures c !in r[m] {
        assert r[m] == t[m - 3];
      }
    }
  }

  /** When no field holds a newline, the records split back into their lines. */
  lemma RecordsSplit(rs: seq<(string, string)>)
    requires |rs| >= 1
    requires forall k :: 0 <= k < |rs| ==> '\n' !in rs[k].0 && '\n' !in rs[k].1
    ensures Split(Records(rs), '\n') == RecordLines(rs)
  {
    RecordsJoinLines(rs);
    RecordLinesFree(rs, '\n');
    SplitJoin(RecordLines(rs), '\n');
  }

  // ---------- numbers ----------

  function DigitChar(d: nat): char
    requires d < 10
  {
    "0123456789"[d]
  }

  /** The decimal numeral of `n`, as a template literal prints it. */
  function NatToString(n: nat): (r: string)
    ensures r != []
    ensures forall k :: 0 <= k < |r| ==> '0' <= r[k] <= '9'
    ensures n > 0 ==> r[0] != '0'
  {
    if n < 10 then [DigitChar(n)] else NatToString(n / 10) + [DigitChar(n % 10)]
  }
}
