/** Generic facts about sequences that the engine relies on: distinctness,
 *  order-preserving de-duplication (`[...new Set(xs)]`), `xs.slice(0, n)`,
 *  and the subsequence relation used to say "in reading order". */
module Seqs {

  /** No element occurs twice. */
  predicate Distinct<T(==)>(s: seq<T>) {
    forall i, j :: 0 <= i < j < |s| ==> s[i] != s[j]
  }

  /** `xs.slice(0, n)`: the first `n` elements, or all of them when there are fewer. */
  function Take<T>(s: seq<T>, n: nat): (r: seq<T>)
    ensures |r| == if n < |s| then n else |s|
    ensures r == s[..|r|]
  {
    if n < |s| then s[..n] else s
  }

  /** The concatenation of a sequence of sequences. */
  function Flatten<T>(xss: seq<seq<T>>): seq<T> {
    if xss == [] then [] else xss[0] + Flatten(xss[1..])
  }

  /** `a` is obtained from `b` by deleting elements: `a`'s elements occur in `b` in the same order. */
  predicate IsSubseq<T(==)>(a: seq<T>, b: seq<T>)
    decreases |b|
  {
    a == [] || (b != [] && ((a[0] == b[0] && IsSubseq(a[1..], b[1..])) || IsSubseq(a, b[1..])))
  }

  /** `[...new Set(s)]`: the distinct elements of `s`, each at its first occurrence. */
  function Dedup<T(==)>(s: seq<T>): (r: seq<T>)
    ensures Distinct(r)
    ensures forall i :: 0 <= i < |r| ==> r[i] in s
    ensures forall i :: 0 <= i < |s| ==> s[i] in r
    ensures |r| <= |s|
  {
    if s == [] then []
    else
      var d := Dedup(s[..|s| - 1]);
      assert s == s[..|s| - 1] + [s[|s| - 1]];
      if s[|s| - 1] in d then d else d + [s[|s| - 1]]
  }

  // ---------- the subsequence relation ----------

  lemma {:induction false} SubseqRefl<T>(a: seq<T>)
    ensures IsSubseq(a, a)
    decreases |a|
  {
    if a != [] {
      SubseqRefl(a[1..]);
    }
  }

  lemma {:induction false} SubseqMember<T>(a: seq<T>, b: seq<T>, x: T)
    requires IsSubseq(a, b) && x in a
    ensures x in b
    decreases |b|
  {
    if a[0] == b[0] && IsSubseq(a[1..], b[1..]) {
      if x != a[0] {
        SubseqMember(a[1..], b[1..], x);
      }
    } else {
      SubseqMember(a, b[1..], x);
    }
  }

  lemma {:induction false} SubseqDropFront<T>(a: seq<T>, x: seq<T>, b: seq<T>)
    requires IsSubseq(a, b)
    ensures IsSubseq(a, x + b)
    decreases |x|
  {
    if x != [] {
      SubseqDropFront(a, x[1..], b);
      assert (x + b)[1..] == x[1..] + b;
      if a != [] {
        assert IsSubseq(a, (x + b)[1..]);
      }
    } else {
      assert x + b == b;
    }
  }

  lemma {:induction false} SubseqConcat<T>(a1: seq<T>, b1: seq<T>, a2: seq<T>, b2: seq<T>)
    requires IsSubseq(a1, b1) && IsSubseq(a2, b2)
    ensures IsSubseq(a1 + a2, b1 + b2)
    decreases |b1|
  {
    if a1 == [] {
      assert a1 + a2 == a2;
      SubseqDropFront(a2, b1, b2);
    } else if a1[0] == b1[0] && IsSubseq(a1[1..], b1[1..]) {
      SubseqConcat(a1[1..], b1[1..], a2, b2);
      assert (a1 + a2)[1..] == a1[1..] + a2;
      assert (b1 + b2)[1..] == b1[1..] + b2;
    } else {
      SubseqConcat(a1, b1[1..], a2, b2);
      assert (b1 + b2)[1..] == b1[1..] + b2;
    }
  }

  lemma SubseqDropBack<T>(a: seq<T>, b: seq<T>, x: seq<T>)
    requires IsSubseq(a, b)
    ensures IsSubseq(a, b + x)
  {
    SubseqConcat(a, b, [], x);
    assert a + [] == a;
  }

  lemma {:induction false} SubseqTrans<T>(a: seq<T>, b: seq<T>, c: seq<T>)
    requires IsSubseq(a, b) && IsSubseq(b, c)
    ensures IsSubseq(a, c)
    decreases |c|
  {
    if a != [] {
      if b[0] == c[0] && IsSubseq(b[1..], c[1..]) {
        if a[0] == b[0] && IsSubseq(a[1..], b[1..]) {
          SubseqTrans(a[1..], b[1..], c[1..]);
        } else {
          SubseqTrans(a, b[1..], c[1..]);
        }
      } else {
        SubseqTrans(a, b, c[1..]);
      }
    }
  }

  /** A contiguous slice is a subsequence. */
  lemma SliceSubseq<T>(s: seq<T>, i: nat, j: nat)
    requires i <= j <= |s|
    ensures IsSubseq(s[i..j], s)
  {
    SubseqRefl(s[i..j]);
    SubseqDropFront(s[i..j], s[..i], s[i..j]);
    SubseqDropBack(s[i..j], s[..i] + s[i..j], s[j..]);
    assert s[..i] + s[i..j] + s[j..] == s;
  }

  /** Elements picked from `b` at strictly increasing positions form a subsequence of `b`. */
  lemma {:induction false} PickedSubseq<T>(a: seq<T>, b: seq<T>, pos: seq<nat>)
    requires |pos| == |a|
    requires forall k :: 0 <= k < |pos| ==> pos[k] < |b| && a[k] == b[pos[k]]
    requires forall i, j :: 0 <= i < j < |pos| ==> pos[i] < pos[j]
    ensures IsSubseq(a, b)
    decreases |b|
  {
    if a != [] {
      if pos[0] == 0 {
        var pos' := seq(|pos| - 1, k requires 0 <= k < |pos| - 1 => pos[k + 1] - 1);
        PickedSubseq(a[1..], b[1..], pos');
      } else {
        var pos' := seq(|pos|, k requires 0 <= k < |pos| => pos[k] - 1);
        PickedSubseq(a, b[1..], pos');
      }
    }
  }

  /** The first `n` distinct elements are distinct, and each is an element. */
  lemma TakeDedup<T>(s: seq<T>, n: nat)
    ensures |Take(Dedup(s), n)| <= n && Distinct(Take(Dedup(s), n))
    ensures forall k :: 0 <= k < |Take(Dedup(s), n)| ==> Take(Dedup(s), n)[k] in s
  {
    var d := Dedup(s);
    var r := Take(d, n);
    forall k | 0 <= k < |r| ensures r[k] in s {
      assert r[k] == d[k];
    }
    forall i, j | 0 <= i < j < |r| ensures r[i] != r[j] {
      assert r[i] == d[i] && r[j] == d[j];
    }
  }

  lemma DedupSnoc<T>(s: seq<T>, x: T)
    ensures Dedup(s + [x]) == if x in Dedup(s) then Dedup(s) else Dedup(s) + [x]
  {
    assert (s + [x])[..|s|] == s;
  }

  /** The sequence of first occurrences is in the order of `s`. */
  lemma {:induction false} DedupSubseq<T>(s: seq<T>)
    ensures IsSubseq(Dedup(s), s)
    decreases |s|
  {
    if s != [] {
      var init, last := s[..|s| - 1], s[|s| - 1];
      assert s == init + [last];
      DedupSubseq(init);
      if last in Dedup(init) {
        SubseqDropBack(Dedup(init), init, [last]);
      } else {
        SubseqRefl([last]);
        SubseqConcat(Dedup(init), init, [last], [last]);
      }
    }
  }

  // ---------- distinctness under reordering and deletion ----------

  lemma {:induction false} DistinctCountsOnce<T>(s: seq<T>, x: T)
    requires Distinct(s)
    ensures multiset(s)[x] <= 1
    decreases |s|
  {
    if s != [] {
      assert s == [s[0]] + s[1..];
      assert Distinct(s[1..]) by {
        forall i, j | 0 <= i < j < |s[1..]| ensures s[1..][i] != s[1..][j] {
          assert s[1..][i] == s[i + 1] && s[1..][j] == s[j + 1];
        }
      }
      DistinctCountsOnce(s[1..], x);
      if x == s[0] {
        forall k | 0 <= k < |s| - 1 ensures s[1..][k] != x {
          assert s[1..][k] == s[k + 1];
        }
        assert x !in s[1..];
      }
    }
  }

  lemma RepeatCountsTwice<T>(t: seq<T>, i: nat, j: nat)
    requires i < j < |t| && t[i] == t[j]
    ensures multiset(t)[t[i]] >= 2
  {
    assert t == t[..j] + [t[j]] + t[j + 1..];
    assert t[..j][i] == t[i];
    assert t[i] in multiset(t[..j]);
  }

  /** A reordering of a sequence without repetitions has none either. */
  lemma DistinctPerm<T>(s: seq<T>, t: seq<T>)
    requires Distinct(s) && multiset(s) == multiset(t)
    ensures Distinct(t)
  {
    forall i, j | 0 <= i < j < |t| ensures t[i] != t[j] {
      if t[i] == t[j] {
        RepeatCountsTwice(t, i, j);
        DistinctCountsOnce(s, t[i]);
      }
    }
  }

  lemma {:induction false} SubseqMultiset<T>(a: seq<T>, b: seq<T>)
    requires IsSubseq(a, b)
    ensures multiset(a) <= multiset(b)
    decreases |b|
  {
    if a != [] {
      assert b == [b[0]] + b[1..];
      if a[0] == b[0] && IsSubseq(a[1..], b[1..]) {
        SubseqMultiset(a[1..], b[1..]);
        assert a == [a[0]] + a[1..];
      } else {
        SubseqMultiset(a, b[1..]);
      }
    }
  }

  /** Deleting elements from a sequence without repetitions leaves none. */
  lemma DistinctSubseq<T>(a: seq<T>, b: seq<T>)
    requires IsSubseq(a, b) && Distinct(b)
    ensures Distinct(a)
  {
    SubseqMultiset(a, b);
    forall i, j | 0 <= i < j < |a| ensures a[i] != a[j] {
      if a[i] == a[j] {
        RepeatCountsTwice(a, i, j);
        DistinctCountsOnce(b, a[i]);
      }
    }
  }
}
