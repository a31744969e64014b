/** Counting dictionaries as the reports use them: `d[k] = d.get(k, 0) + 1`
    on a Python dict (which lists keys in first-insertion order),
    `collections.Counter`, and sorting the items by count, largest first,
    with Python's stable sort. */
module Tally {

  /** A `str -> int` dict of counts, as its items in insertion order. */
  type Counts = seq<(string, nat)>

  /** No key is listed twice. */
  predicate Distinct(c: Counts) {
    forall i, j :: 0 <= i < j < |c| ==> c[i].0 != c[j].0
  }

  /** `d.get(k, 0)` */
  function Get(c: Counts, k: string): nat {
    if |c| == 0 then 0 else if c[0].0 == k then c[0].1 else Get(c[1..], k)
  }

  /** The keys, in order. */
  function Keys(c: Counts): (ks: seq<string>)
    ensures |ks| == |c| && forall i :: 0 <= i < |c| ==> ks[i] == c[i].0
  {
    if |c| == 0 then [] else [c[0].0] + Keys(c[1..])
  }

  /** `sum(d.values())` */
  function Total(c: Counts): nat {
    if |c| == 0 then 0 else c[0].1 + Total(c[1..])
  }

  /** `d[k] = d.get(k, 0) + 1`: an existing key keeps its place, a new one
      goes last. */
  function Bump(c: Counts, k: string): Counts {
    if |c| == 0 then [(k, 1)]
    else if c[0].0 == k then [(k, c[0].1 + 1)] + c[1..]
    else [c[0]] + Bump(c[1..], k)
  }

  /** How often `x` occurs in `xs`. */
  function Occurrences(xs: seq<string>, x: string): nat {
    if |xs| == 0 then 0 else Occurrences(xs[..|xs| - 1], x) + (if xs[|xs| - 1] == x then 1 else 0)
  }

  /** The counts of `xs`, bumped one element at a time, in order
      (`Counter(xs)`, or the loop that fills a dict). */
  function Count(xs: seq<string>): Counts {
    if |xs| == 0 then [] else Bump(Count(xs[..|xs| - 1]), xs[|xs| - 1])
  }

  /** Bumping adds one to `k`'s count and to the total, keeps the keys
      distinct, and lists `k` last when it is new. */
  lemma {:induction false} BumpCounts(c: Counts, k: string)
    requires Distinct(c)
    ensures Distinct(Bump(c, k))
    ensures forall x :: Get(Bump(c, k), x) == Get(c, x) + (if x == k then 1 else 0)
    ensures Total(Bump(c, k)) == Total(c) + 1
    ensures Keys(Bump(c, k)) == if k in Keys(c) then Keys(c) else Keys(c) + [k]
  {
    if |c| > 0 {
      assert Distinct(c[1..]) by {
        forall i, j | 0 <= i < j < |c[1..]| ensures c[1..][i].0 != c[1..][j].0 {
          assert c[1..][i] == c[i + 1] && c[1..][j] == c[j + 1];
        }
      }
      if c[0].0 == k {
        var r := Bump(c, k);
        assert r[1..] == c[1..];
        forall i, j | 0 <= i < j < |r| ensures r[i].0 != r[j].0 {
          assert r[i].0 == c[i].0 && r[j].0 == c[j].0;
        }
        assert Keys(r) == [k] + Keys(r[1..]);
      } else {
        BumpCounts(c[1..], k);
        var r := Bump(c, k);
        assert r[1..] == Bump(c[1..], k);
        forall j | 0 < j < |r| ensures r[0].0 != r[j].0 {
          KeysOfTail(c, r, k, j);
        }
        forall i, j | 0 <= i < j < |r| ensures r[i].0 != r[j].0 {
          if i > 0 {
            assert r[i] == r[1..][i - 1] && r[j] == r[1..][j - 1];
          }
        }
        assert k in Keys(c) <==> k in Keys(c[1..]);
      }
    }
  }

  /** The key of a later entry of a bump is a key of the original tail or
      the bumped key, so it differs from the untouched first key. */
  lemma KeysOfTail(c: Counts, r: Counts, k: string, j: nat)
    requires Distinct(c) && |c| > 0 && c[0].0 != k
    requires r == [c[0]] + Bump(c[1..], k) && 0 < j < |r|
    requires Keys(Bump(c[1..], k)) == if k in Keys(c[1..]) then Keys(c[1..]) else Keys(c[1..]) + [k]
    ensures r[0].0 != r[j].0
  {
    var t := Keys(Bump(c[1..], k));
    assert r[j].0 == t[j - 1];
    if j - 1 < |c| - 1 {
      assert t[j - 1] == Keys(c[1..])[j - 1] == c[j].0;
    }
  }

  /** The counts of `xs` list every element once, each with the number of
      times it occurs, and add up to `|xs|`. */
  lemma {:induction false} CountIsOccurrences(xs: seq<string>)
    ensures Distinct(Count(xs))
    ensures forall x :: Get(Count(xs), x) == Occurrences(xs, x)
    ensures Total(Count(xs)) == |xs|
    ensures forall x :: x in Keys(Count(xs)) <==> x in xs
  {
    if |xs| > 0 {
      var init, last := xs[..|xs| - 1], xs[|xs| - 1];
      CountIsOccurrences(init);
      BumpCounts(Count(init), last);
      assert xs == init + [last];
      forall x ensures x in Keys(Count(xs)) <==> x in xs {
        assert x in xs <==> x in init || x == last;
      }
    }
  }

  /** Sorted by count, largest first. */
  predicate NonIncreasing(c: Counts) {
    forall i, j :: 0 <= i < j < |c| ==> c[i].1 >= c[j].1
  }

  /** The entries with count v, in order. */
  function WithCount(c: Counts, v: nat): Counts {
    if |c| == 0 then [] else (if c[0].1 == v then [c[0]] else []) + WithCount(c[1..], v)
  }

  /** Put `p` into the sorted `s` ahead of every entry whose count is not
      larger. */
  function Insert(p: (string, nat), s: Counts): Counts {
    if |s| == 0 || p.1 >= s[0].1 then [p] + s else [s[0]] + Insert(p, s[1..])
  }

  /** `sorted(d.items(), key=lambda x: x[1], reverse=True)` */
  function SortDesc(c: Counts): Counts {
    if |c| == 0 then [] else Insert(c[0], SortDesc(c[1..]))
  }

  /** Inserting keeps every item and adds `p`. */
  lemma {:induction false} InsertIsPermutation(p: (string, nat), s: Counts)
    ensures multiset(Insert(p, s)) == multiset([p] + s)
  {
    if |s| > 0 && p.1 < s[0].1 {
      InsertIsPermutation(p, s[1..]);
      assert s == [s[0]] + s[1..];
    }
  }

  /** The tail of a sorted list is sorted. */
  lemma TailNonIncreasing(s: Counts)
    requires |s| > 0 && NonIncreasing(s)
    ensures NonIncreasing(s[1..])
  {
    forall i, j | 0 <= i < j < |s[1..]| ensures s[1..][i].1 >= s[1..][j].1 {
      assert s[1..][i] == s[i + 1] && s[1..][j] == s[j + 1];
    }
  }

  /** Inserting into a sorted list keeps it sorted. */
  lemma {:induction false} InsertSorted(p: (string, nat), s: Counts)
    requires NonIncreasing(s)
    ensures NonIncreasing(Insert(p, s))
  {
    if |s| > 0 && p.1 < s[0].1 {
      var tail := s[1..];
      TailNonIncreasing(s);
      InsertSorted(p, tail);
      InsertIsPermutation(p, tail);
      var r := Insert(p, s);
      var rest := Insert(p, tail);
      assert r == [s[0]] + rest;
      forall i, j | 0 <= i < j < |r| ensures r[i].1 >= r[j].1 {
        if i == 0 {
          assert r[j] == rest[j - 1];
          assert r[j] in multiset([p] + tail);
          if r[j] != p {
            assert r[j] in tail;
          }
        } else {
          assert r[i] == rest[i - 1] && r[j] == rest[j - 1];
        }
      }
    }
  }

  /** Inserting into a sorted list puts `p` ahead of the items of its own
      count. */
  lemma {:induction false} InsertStable(p: (string, nat), s: Counts, v: nat)
    ensures WithCount(Insert(p, s), v) == (if p.1 == v then [p] else []) + WithCount(s, v)
  {
    if |s| > 0 && p.1 < s[0].1 {
      InsertStable(p, s[1..], v);
      var r := Insert(p, s);
      assert r[1..] == Insert(p, s[1..]);
      if p.1 == v {
        HeadNotInWithCount(s, v);
      }
    } else {
      var r := Insert(p, s);
      assert r[1..] == s;
    }
  }

  /** A head whose count is not v contributes nothing to the entries with
      count v. */
  lemma HeadNotInWithCount(s: Counts, v: nat)
    requires |s| > 0 && s[0].1 > v
    ensures WithCount(s, v) == WithCount(s[1..], v)
  {
  }

  /** Sorting orders the items by count, largest first, loses and adds
      nothing, and keeps items of equal count in their original order
      (Python's sort is stable, also with `reverse=True`). */
  lemma {:induction false} SortDescSorts(c: Counts)
    ensures NonIncreasing(SortDesc(c))
    ensures multiset(SortDesc(c)) == multiset(c)
    ensures forall v :: WithCount(SortDesc(c), v) == WithCount(c, v)
  {
    if |c| > 0 {
      SortDescSorts(c[1..]);
      InsertSorted(c[0], SortDesc(c[1..]));
      InsertIsPermutation(c[0], SortDesc(c[1..]));
      forall v ensures WithCount(SortDesc(c), v) == WithCount(c, v) {
        InsertStable(c[0], SortDesc(c[1..]), v);
      }
      assert c == [c[0]] + c[1..];
    }
  }

  /** `Counter(xs).most_common(n)`: the n largest counts, ties in
      first-seen order. */
  function MostCommon(xs: seq<string>, n: nat): (top: Counts)
    ensures |top| <= n
  {
    var sorted := SortDesc(Count(xs));
    if |sorted| <= n then sorted else sorted[..n]
  }

  /** The most common entries are the largest counts of `xs`: each is a
      distinct element of `xs` with its real count, they are sorted, any
      element left out occurs no more often than the last one kept, and
      entries of equal count keep the first-seen order of `Count(xs)`. */
  lemma MostCommonIsTop(xs: seq<string>, n: nat)
    ensures var top := MostCommon(xs, n);
      && NonIncreasing(top)
      && Distinct(top)
      && (forall i :: 0 <= i < |top| ==> top[i].0 in xs && top[i].1 == Occurrences(xs, top[i].0))
      && |top| == (if |Count(xs)| <= n then |Count(xs)| else n)
      && (|top| > 0 ==> forall x :: x in xs && x !in Keys(top) ==> Occurrences(xs, x) <= top[|top| - 1].1)
      && (forall v :: WithCount(top, v) <= WithCount(Count(xs), v))
  {
    MostCommonEntries(xs, n);
    MostCommonDistinct(xs, n);
    MostCommonLeftOut(xs, n);
    MostCommonTies(xs, n);
  }

  /** The kept entries are sorted elements of `xs` with their real counts. */
  lemma MostCommonEntries(xs: seq<string>, n: nat)
    ensures var top := MostCommon(xs, n);
      && NonIncreasing(top)
      && (forall i :: 0 <= i < |top| ==> top[i].0 in xs && top[i].1 == Occurrences(xs, top[i].0))
      && |top| == (if |Count(xs)| <= n then |Count(xs)| else n)
  {
    var c := Count(xs);
    CountIsOccurrences(xs);
    SortDescSorts(c);
    var sorted := SortDesc(c);
    forall i | 0 <= i < |MostCommon(xs, n)| ensures MostCommon(xs, n)[i].0 in xs && MostCommon(xs, n)[i].1 == Occurrences(xs, MostCommon(xs, n)[i].0) {
      var e := sorted[i];
      assert MostCommon(xs, n)[i] == e;
      assert e in multiset(c);
      EntryOfDistinct(c, e);
    }
    assert |multiset(sorted)| == |multiset(c)|;
  }

  /** No element is kept twice. */
  lemma MostCommonDistinct(xs: seq<string>, n: nat)
    ensures Distinct(MostCommon(xs, n))
  {
    var c := Count(xs);
    CountIsOccurrences(xs);
    SortDescSorts(c);
    var sorted := SortDesc(c);
    PermutedDistinct(c, sorted);
    var top := MostCommon(xs, n);
    assert forall k :: 0 <= k < |top| ==> top[k] == sorted[k];
  }

  /** An element of `xs` that is not kept occurs no more often than the
      last entry kept. */
  lemma MostCommonLeftOut(xs: seq<string>, n: nat)
    ensures var top := MostCommon(xs, n);
      |top| > 0 ==> forall x :: x in xs && x !in Keys(top) ==> Occurrences(xs, x) <= top[|top| - 1].1
  {
    var c := Count(xs);
    CountIsOccurrences(xs);
    SortDescSorts(c);
    var sorted := SortDesc(c);
    var top := MostCommon(xs, n);
    assert forall k :: 0 <= k < |top| ==> top[k] == sorted[k];
    forall x | x in xs && x !in Keys(top) && |top| > 0
      ensures Occurrences(xs, x) <= top[|top| - 1].1
    {
      assert x in Keys(c);
      var i :| 0 <= i < |c| && Keys(c)[i] == x;
      EntryOfDistinct(c, c[i]);
      assert c[i] in multiset(sorted);
      var m :| 0 <= m < |sorted| && sorted[m] == c[i];
      assert forall k :: 0 <= k < |top| ==> Keys(top)[k] == sorted[k].0;
      assert m >= |top|;
      assert sorted[|top| - 1].1 >= sorted[m].1;
    }
  }

  /** Entries of equal count come in the order of `Count(xs)`, the order in
      which their elements first occur. */
  lemma MostCommonTies(xs: seq<string>, n: nat)
    ensures forall v :: WithCount(MostCommon(xs, n), v) <= WithCount(Count(xs), v)
  {
    var c := Count(xs);
    SortDescSorts(c);
    var sorted := SortDesc(c);
    forall v ensures WithCount(MostCommon(xs, n), v) <= WithCount(c, v) {
      if n < |sorted| {
        WithCountOfPrefix(sorted, n, v);
      }
    }
  }

  /** Filtering a prefix gives a prefix of the filtered whole. */
  lemma {:induction false} WithCountOfPrefix(s: Counts, n: nat, v: nat)
    requires n <= |s|
    ensures WithCount(s[..n], v) <= WithCount(s, v)
  {
    if n > 0 {
      assert s[..n][1..] == s[1..][..n - 1];
      WithCountOfPrefix(s[1..], n - 1, v);
    }
  }

  /** A permutation of a table without repeated keys has none either. */
  lemma PermutedDistinct(c: Counts, s: Counts)
    requires Distinct(c) && multiset(s) == multiset(c)
    ensures Distinct(s)
  {
    forall i, j | 0 <= i < j < |s| ensures s[i].0 != s[j].0 {
      assert s[i] in multiset(c) && s[j] in multiset(c);
      EntryOfDistinct(c, s[i]);
      EntryOfDistinct(c, s[j]);
      DistinctOnce(c, s[i]);
      TwiceCounted(s, i, j);
    }
  }

  /** In a table without repeated keys every entry occurs once at most. */
  lemma {:induction false} DistinctOnce(c: Counts, e: (string, nat))
    requires Distinct(c)
    ensures multiset(c)[e] <= 1
  {
    if |c| > 0 {
      var t := c[1..];
      assert Distinct(t) by {
        forall i, j | 0 <= i < j < |t| ensures t[i].0 != t[j].0 {
          assert t[i] == c[i + 1] && t[j] == c[j + 1];
        }
      }
      DistinctOnce(t, e);
      assert c == [c[0]] + t;
      assert forall k :: 0 <= k < |t| ==> t[k].0 != c[0].0 by {
        forall k | 0 <= k < |t| ensures t[k].0 != c[0].0 {
          assert t[k] == c[k + 1];
        }
      }
      assert c[0] !in t;
    }
  }

  /** An entry at two positions is counted twice. */
  lemma TwiceCounted(s: Counts, i: nat, j: nat)
    requires i < j < |s|
    ensures s[i] == s[j] ==> multiset(s)[s[i]] >= 2
  {
    assert s == s[..j] + s[j..];
    assert s[..j][i] == s[i];
    assert s[j..][0] == s[j];
  }

  /** An entry of a distinct table is its key with the key's count. */
  lemma {:induction false} EntryOfDistinct(c: Counts, e: (string, nat))
    requires Distinct(c) && e in c
    ensures e.0 in Keys(c) && Get(c, e.0) == e.1
  {
    if c[0] != e {
      assert Distinct(c[1..]) by {
        forall i, j | 0 <= i < j < |c[1..]| ensures c[1..][i].0 != c[1..][j].0 {
          assert c[1..][i] == c[i + 1] && c[1..][j] == c[j + 1];
        }
      }
      assert e in c[1..];
      EntryOfDistinct(c[1..], e);
      var k :| 0 <= k < |c[1..]| && c[1..][k] == e;
      assert c[0].0 != c[k + 1].0;
    }
  }
}
