/** `Array.prototype.sort` with a numeric comparator, as the engine uses it.
 *  The language requires the sort to be stable, and a stable sort under a
 *  consistent comparator has exactly one possible result, so a stable insertion
 *  sort stands for it.  `xs.sort((a, b) => key(b) - key(a))` is `SortDesc(xs, key)`;
 *  an ascending sort `(a, b) => a.k - b.k` is `SortDesc` on the key `-k`. */
module Sorting {
  import opened Seqs

  /** Ordered by non-increasing key. */
  predicate SortedDesc<T>(s: seq<T>, key: T -> real) {
    forall i, j :: 0 <= i < j < |s| ==> key(s[i]) >= key(s[j])
  }

  /** Inserts `x` into `s` after every element whose key is at least `x`'s. */
  function Insert<T>(x: T, s: seq<T>, key: T -> real): (r: seq<T>)
    ensures |r| == |s| + 1
    ensures multiset(r) == multiset(s) + multiset{x}
    decreases |s|
  {
    if s == [] || key(s[0]) < key(x) then [x] + s
    else
      assert s == [s[0]] + s[1..];
      [s[0]] + Insert(x, s[1..], key)
  }

  lemma {:induction false} InsertSorted<T>(x: T, s: seq<T>, key: T -> real)
    requires SortedDesc(s, key)
    ensures SortedDesc(Insert(x, s, key), key)
    decreases |s|
  {
    if s != [] && key(s[0]) >= key(x) {
      var r' := Insert(x, s[1..], key);
      InsertSorted(x, s[1..], key);
      forall k | 0 <= k < |r'| ensures key(s[0]) >= key(r'[k]) {
        assert r'[k] in multiset(r');
        if r'[k] != x {
          assert r'[k] in multiset(s[1..]);
          var m :| 0 <= m < |s[1..]| && s[1..][m] == r'[k];
          assert s[1..][m] == s[m + 1];
        }
      }
    }
  }

  /** The stable sort by descending key. */
  function SortDesc<T>(s: seq<T>, key: T -> real): (r: seq<T>)
    ensures |r| == |s|
    ensures multiset(r) == multiset(s)
    ensures SortedDesc(r, key)
    decreases |s|
  {
    if s == [] then []
    else
      assert s == s[..|s| - 1] + [s[|s| - 1]];
      InsertSorted(s[|s| - 1], SortDesc(s[..|s| - 1], key), key);
      Insert(s[|s| - 1], SortDesc(s[..|s| - 1], key), key)
  }

  // ---------- stability ----------

  /** The elements of `s` whose key is `c`, in the order of `s`: the ties a stable sort
   *  leaves in their original order. */
  function Ties<T>(s: seq<T>, key: T -> real, c: real): seq<T>
    decreases |s|
  {
    if s == [] then [] else (if key(s[0]) == c then [s[0]] else []) + Ties(s[1..], key, c)
  }

  lemma {:induction false} TiesConcat<T>(a: seq<T>, b: seq<T>, key: T -> real, c: real)
    ensures Ties(a + b, key, c) == Ties(a, key, c) + Ties(b, key, c)
    decreases |a|
  {
    if a != [] {
      assert (a + b)[0] == a[0] && (a + b)[1..] == a[1..] + b;
      TiesConcat(a[1..], b, key, c);
    } else {
      assert a + b == b;
    }
  }

  lemma {:induction false} TiesNone<T>(s: seq<T>, key: T -> real, c: real)
    requires forall k :: 0 <= k < |s| ==> key(s[k]) < c
    ensures Ties(s, key, c) == []
    decreases |s|
  {
    if s != [] {
      assert forall k :: 0 <= k < |s[1..]| ==> s[1..][k] == s[k + 1];
      TiesNone(s[1..], key, c);
    }
  }

  lemma TiesCons<T>(h: T, s: seq<T>, key: T -> real, c: real)
    ensures Ties([h] + s, key, c) == (if key(h) == c then [h] else []) + Ties(s, key, c)
  {
    assert ([h] + s)[0] == h && ([h] + s)[1..] == s;
  }

  lemma SortedTail<T>(s: seq<T>, key: T -> real)
    requires SortedDesc(s, key) && s != []
    ensures SortedDesc(s[1..], key)
  {
    assert forall k :: 0 <= k < |s[1..]| ==> s[1..][k] == s[k + 1];
  }

  /** A descending sequence whose head is below `c` has no element of key `c`. */
  lemma TiesBelowHead<T>(s: seq<T>, key: T -> real, c: real)
    requires SortedDesc(s, key) && s != [] && key(s[0]) < c
    ensures Ties(s, key, c) == []
  {
    assert forall k :: 0 <= k < |s| ==> key(s[k]) <= key(s[0]);
    TiesNone(s, key, c);
  }

  /** Inserting `x` puts it after every element of equal key. */
  lemma {:induction false} InsertTies<T>(x: T, s: seq<T>, key: T -> real, c: real)
    requires SortedDesc(s, key)
    ensures Ties(Insert(x, s, key), key, c) == Ties(s, key, c) + (if key(x) == c then [x] else [])
    decreases |s|
  {
    if s == [] || key(s[0]) < key(x) {
      TiesCons(x, s, key, c);
      if key(x) == c && s != [] {
        TiesBelowHead(s, key, c);
      }
    } else {
      SortedTail(s, key);
      InsertTies(x, s[1..], key, c);
      TiesCons(s[0], Insert(x, s[1..], key), key, c);
    }
  }

  /** The sort is stable: elements of equal key keep their relative order. */
  lemma {:induction false} SortDescStable<T>(s: seq<T>, key: T -> real, c: real)
    ensures Ties(SortDesc(s, key), key, c) == Ties(s, key, c)
    decreases |s|
  {
    if s != [] {
      var init, last := s[..|s| - 1], s[|s| - 1];
      assert s == init + [last];
      SortDescStable(init, key, c);
      InsertTies(last, SortDesc(init, key), key, c);
      TiesConcat(init, [last], key, c);
      assert Ties([last], key, c) == (if key(last) == c then [last] else []) by {
        assert [last][1..] == [];
      }
    }
  }

  /** Among elements of equal key, `xs.sort(byKeyDesc).slice(0, n)` keeps the ones that
   *  come first in `s`: its ties are a prefix of the ties of `s`. */
  lemma TopTies<T>(s: seq<T>, key: T -> real, n: nat, c: real)
    ensures var t, u := Ties(Take(SortDesc(s, key), n), key, c), Ties(s, key, c);
            |t| <= |u| && t == u[..|t|]
  {
    var r := SortDesc(s, key);
    var top := Take(r, n);
    assert r == top + r[|top|..];
    TiesConcat(top, r[|top|..], key, c);
    SortDescStable(s, key, c);
  }

  /** Ranking then truncating, `xs.sort(byKeyDesc).slice(0, n)`, keeps the best:
   *  nothing left out has a larger key than anything kept. */
  lemma TopDominates<T>(s: seq<T>, key: T -> real, n: nat, x: T, y: T)
    requires x in s && x !in Take(SortDesc(s, key), n)
    requires y in Take(SortDesc(s, key), n)
    ensures key(x) <= key(y)
  {
    var r := SortDesc(s, key);
    var t := Take(r, n);
    assert x in multiset(r);
    assert r == t + r[|t|..];
    var i :| 0 <= i < |r| - |t| && r[|t|..][i] == x;
    var j :| 0 <= j < |t| && t[j] == y;
    assert t[j] == r[j] && r[|t|..][i] == r[|t| + i];
  }

  /** What `slice(0, n)` keeps of a sorted list is drawn from the list. */
  lemma TakeSortedMember<T>(s: seq<T>, key: T -> real, n: nat, y: T)
    requires y in Take(SortDesc(s, key), n)
    ensures y in s
  {
    var r := SortDesc(s, key);
    assert y in r;
    assert y in multiset(r);
  }
}
