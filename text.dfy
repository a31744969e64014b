/** The string operations the source takes from Python's `str`: `split()` with
    no argument, `lower()`, `strip()`, `startswith`, `in` on strings,
    `str.join` and `replace`. Characters are treated as ASCII: `lower()`
    only maps 'A'..'Z', and whitespace is the ASCII part of `str.isspace()`. */
module Text {

  /** The ASCII characters Python's `str.isspace()` accepts: space, \t \n \v \f \r
      (9..13) and the separators \x1c..\x1f (28..31). */
  predicate IsSpace(c: char) {
    c == ' ' || (9 <= c as int <= 13) || (28 <= c as int <= 31)
  }

  function LowerChar(c: char): char {
    if 'A' <= c <= 'Z' then (c as int + 32) as char else c
  }

  /** `s.lower()` */
  function Lower(s: string): string {
    seq(|s|, i requires 0 <= i < |s| => LowerChar(s[i]))
  }

  predicate IsLower(s: string) {
    forall i :: 0 <= i < |s| ==> LowerChar(s[i]) == s[i]
  }

  /** A token of `split()`: non-empty and free of whitespace. */
  predicate IsWord(w: string) {
    |w| > 0 && forall i :: 0 <= i < |w| ==> !IsSpace(w[i])
  }

  /** Length of the leading run of non-whitespace characters. */
  function WordLen(s: string): (n: nat)
    ensures n <= |s|
    ensures forall i :: 0 <= i < n ==> !IsSpace(s[i])
    ensures n < |s| ==> IsSpace(s[n])
  {
    if |s| == 0 || IsSpace(s[0]) then 0 else 1 + WordLen(s[1..])
  }

  /** `s.split()`: the maximal runs of non-whitespace characters, in order. */
  function Words(s: string): seq<string>
    decreases |s|
  {
    if |s| == 0 then []
    else if IsSpace(s[0]) then Words(s[1..])
    else
      var n := WordLen(s);
      [s[..n]] + Words(s[n..])
  }

  /** `sep.join(ts)` */
  function Join(ts: seq<string>, sep: string): string {
    if |ts| == 0 then ""
    else if |ts| == 1 then ts[0]
    else ts[0] + sep + Join(ts[1..], sep)
  }

  /** `sub` occurs in `s` starting at index `i`. */
  predicate OccursAt(s: string, sub: string, i: int) {
    0 <= i <= |s| - |sub| && s[i..i + |sub|] == sub
  }

  /** `sub in s` */
  predicate Contains(s: string, sub: string) {
    exists i :: 0 <= i <= |s| - |sub| && OccursAt(s, sub, i)
  }

  /** `s.startswith(p)` */
  predicate StartsWith(s: string, p: string) {
    |p| <= |s| && s[..|p|] == p
  }

  /** A concatenation starts with its first part, and dropping that part
      leaves the rest. */
  lemma PrefixOfConcat(p: string, rest: string)
    ensures StartsWith(p + rest, p) && (p + rest)[|p|..] == rest
  {
    assert (p + rest)[..|p|] == p;
  }

  /** `s.replace(a, b)` for single characters. */
  function ReplaceChar(s: string, a: char, b: char): string {
    seq(|s|, i requires 0 <= i < |s| => if s[i] == a then b else s[i])
  }

  /** The number of leading characters satisfying `drop`. */
  function LeadLen(s: string, drop: char -> bool): (n: nat)
    ensures n <= |s|
    ensures forall k :: 0 <= k < n ==> drop(s[k])
    ensures n < |s| ==> !drop(s[n])
  {
    if |s| > 0 && drop(s[0]) then 1 + LeadLen(s[1..], drop) else 0
  }

  /** Where the run of trailing `drop` characters of `s[lo..]` starts. */
  function TrailStart(s: string, lo: nat, drop: char -> bool): (m: nat)
    requires lo <= |s|
    ensures lo <= m <= |s|
    ensures forall k :: m <= k < |s| ==> drop(s[k])
    ensures m > lo ==> !drop(s[m - 1])
    decreases |s|
  {
    if |s| > lo && drop(s[|s| - 1]) then TrailStart(s[..|s| - 1], lo, drop) else |s|
  }

  /** `r` is `s` with every leading and trailing `drop` character removed,
      and with nothing else removed. */
  ghost predicate StrippedOf(s: string, r: string, drop: char -> bool) {
    exists i :: StrippedAt(s, r, drop, i)
  }

  /** `r` is `s[i..i + |r|]`, everything outside it satisfies `drop`, and its
      first and last characters do not. */
  ghost predicate StrippedAt(s: string, r: string, drop: char -> bool, i: int) {
    && 0 <= i <= |s| - |r|
    && s[i..i + |r|] == r
    && (forall k :: 0 <= k < i ==> drop(s[k]))
    && (forall k :: i + |r| <= k < |s| ==> drop(s[k]))
    && (r == [] || (!drop(r[0]) && !drop(r[|r| - 1])))
  }

  /** `s.strip(chars)`: both ends trimmed. */
  function Strip(s: string, drop: char -> bool): (r: string)
    ensures StrippedOf(s, r, drop)
  {
    var lo := LeadLen(s, drop);
    var hi := TrailStart(s, lo, drop);
    assert StrippedAt(s, s[lo..hi], drop, lo);
    s[lo..hi]
  }

  /** Stripping `p + b + q`, where `p` and `q` consist of `drop` characters
      and `b` neither starts nor ends with one, gives `b`. */
  lemma StripOfPadded(p: string, b: string, q: string, drop: char -> bool)
    requires forall k :: 0 <= k < |p| ==> drop(p[k])
    requires forall k :: 0 <= k < |q| ==> drop(q[k])
    requires b != [] && !drop(b[0]) && !drop(b[|b| - 1])
    ensures Strip(p + b + q, drop) == b
  {
    var s := p + b + q;
    var lo := LeadLen(s, drop);
    assert s[|p|] == b[0];
    forall k | 0 <= k < |p| ensures drop(s[k]) { assert s[k] == p[k]; }
    assert lo == |p|;
    var hi := TrailStart(s, lo, drop);
    var m := |p| + |b|;
    assert s[m - 1] == b[|b| - 1];
    forall k | m <= k < |s| ensures drop(s[k]) { assert s[k] == q[k - m]; }
    assert hi == m;
    assert s[lo..hi] == b;
  }

  /** `s.strip()` */
  function StripSpace(s: string): string {
    Strip(s, IsSpace)
  }

  lemma LowerCharIdempotent(c: char)
    ensures LowerChar(LowerChar(c)) == LowerChar(c)
  {
  }

  /** Lower-casing twice is lower-casing once. */
  lemma LowerIsLower(s: string)
    ensures IsLower(Lower(s))
    ensures Lower(Lower(s)) == Lower(s)
  {
    forall i | 0 <= i < |s| ensures LowerChar(Lower(s)[i]) == Lower(s)[i] {
      LowerCharIdempotent(s[i]);
    }
  }

  lemma LowerOfLower(s: string)
    requires IsLower(s)
    ensures Lower(s) == s
  {
  }

  /** Every token of `split()` is a non-empty, whitespace-free run of
      characters of the input. */
  lemma {:induction false} WordsAreWords(s: string)
    ensures forall w :: w in Words(s) ==> IsWord(w)
    ensures forall w, c :: w in Words(s) && c in w ==> c in s
    decreases |s|
  {
    if |s| == 0 {
    } else if IsSpace(s[0]) {
      WordsAreWords(s[1..]);
      forall w, c | w in Words(s) && c in w ensures c in s {
        assert c in s[1..];
        var j :| 0 <= j < |s[1..]| && s[1..][j] == c;
        assert s[j + 1] == c;
      }
    } else {
      var n := WordLen(s);
      WordsAreWords(s[n..]);
      forall w, c | w in Words(s) && c in w ensures c in s {
        if w == s[..n] {
          var j :| 0 <= j < |w| && w[j] == c;
          assert s[j] == c;
        } else {
          assert w in Words(s[n..]);
          assert c in s[n..];
          var j :| 0 <= j < |s[n..]| && s[n..][j] == c;
          assert s[n + j] == c;
        }
      }
    }
  }

  lemma {:induction false} WordLenOfWordThenSpace(t: string, u: string)
    requires forall i :: 0 <= i < |t| ==> !IsSpace(t[i])
    requires |u| == 0 || IsSpace(u[0])
    ensures WordLen(t + u) == |t|
    decreases |t|
  {
    if |t| > 0 {
      assert (t + u)[1..] == t[1..] + u;
      WordLenOfWordThenSpace(t[1..], u);
    }
  }

  lemma WordsOfWord(t: string)
    requires IsWord(t)
    ensures Words(t) == [t]
  {
    WordLenOfWordThenSpace(t, "");
    assert t + "" == t;
  }

  /** Splitting the space-joined tokens gives the tokens back. */
  lemma {:induction false} WordsOfJoin(ts: seq<string>)
    requires forall i :: 0 <= i < |ts| ==> IsWord(ts[i])
    ensures Words(Join(ts, " ")) == ts
  {
    if |ts| == 0 {
    } else if |ts| == 1 {
      WordsOfWord(ts[0]);
    } else {
      var t, j := ts[0], Join(ts[1..], " ");
      var s := t + " " + j;
      assert s == t + (" " + j);
      WordLenOfWordThenSpace(t, " " + j);
      assert s[..|t|] == t;
      assert s[|t|..] == " " + j;
      assert (" " + j)[1..] == j;
      WordsOfJoin(ts[1..]);
      assert Words(s) == [t] + Words(" " + j);
    }
  }

  /** Joining lower-case strings with a space gives a lower-case string. */
  lemma {:induction false} JoinIsLower(ts: seq<string>)
    requires forall i :: 0 <= i < |ts| ==> IsLower(ts[i])
    ensures IsLower(Join(ts, " "))
  {
    if |ts| > 1 {
      JoinIsLower(ts[1..]);
      var j := Join(ts[1..], " ");
      forall k | 0 <= k < |ts[0] + " " + j|
        ensures LowerChar((ts[0] + " " + j)[k]) == (ts[0] + " " + j)[k]
      {
        if k < |ts[0]| {
          assert (ts[0] + " " + j)[k] == ts[0][k];
        } else if k > |ts[0]| {
          assert (ts[0] + " " + j)[k] == j[k - |ts[0]| - 1];
        }
      }
    }
  }

  /** Every string of `ts` occurs in `sep.join(ts)`. */
  lemma {:induction false} JoinContains(ts: seq<string>, sep: string, k: nat)
    requires k < |ts|
    ensures Contains(Join(ts, sep), ts[k])
  {
    if |ts| == 1 {
      assert OccursAt(Join(ts, sep), ts[0], 0);
    } else if k == 0 {
      var s := Join(ts, sep);
      assert s == ts[0] + (sep + Join(ts[1..], sep));
      assert OccursAt(s, ts[0], 0);
    } else {
      JoinContains(ts[1..], sep, k - 1);
      var j := Join(ts[1..], sep);
      var i :| 0 <= i <= |j| - |ts[k]| && OccursAt(j, ts[k], i);
      var p := |ts[0] + sep|;
      var s := Join(ts, sep);
      assert s == (ts[0] + sep) + j;
      assert s[p + i..p + i + |ts[k]|] == j[i..i + |ts[k]|];
      assert OccursAt(s, ts[k], p + i);
    }
  }
}
