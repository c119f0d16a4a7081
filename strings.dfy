/**
  Models of the Go standard-library string operations that the printer uses:
  strings.LastIndex, strings.Split on a one-character separator, the ordering
  of strings and sort.Strings. Strings are sequences of characters (runes).
 */
module StringLib {

  /** `r` is a suffix of `s`. */
  predicate IsSuffix(r: string, s: string)
  {
    |r| <= |s| && r == s[|s| - |r|..]
  }

  /** `pat` occurs in `s` starting at index `i`. */
  predicate OccursAt(s: string, pat: string, i: int)
  {
    0 <= i && i + |pat| <= |s| && s[i..i + |pat|] == pat
  }

  /** No occurrence of `pat` in `s` starts at index `from` or later. */
  ghost predicate NoOccurrenceFrom(s: string, pat: string, from: int)
  {
    forall i :: from <= i ==> !OccursAt(s, pat, i)
  }

  /** An occurrence inside the suffix `s[k..]` is an occurrence in `s`, shifted by `k`. */
  lemma OccursInSuffix(s: string, pat: string, k: nat, i: int)
    requires k <= |s|
    ensures OccursAt(s[k..], pat, i) <==> 0 <= i && OccursAt(s, pat, k + i)
  {
    if 0 <= i && k + i + |pat| <= |s| {
      assert s[k..][i..i + |pat|] == s[k + i..k + i + |pat|];
    }
  }

  /** The last index below `n` at which `pat` starts in `s`, or -1 when there is none. */
  function LastIndexBelow(s: string, pat: string, n: nat): (r: int)
    ensures -1 <= r < n
    ensures r >= 0 ==> OccursAt(s, pat, r)
    ensures forall i :: r < i < n ==> !OccursAt(s, pat, i)
    decreases n
  {
    if n == 0 then -1
    else if OccursAt(s, pat, n - 1) then n - 1
    else LastIndexBelow(s, pat, n - 1)
  }

  /** strings.LastIndex: the start of the last occurrence of `pat` in `s`, or -1. */
  function LastIndex(s: string, pat: string): (r: int)
    ensures -1 <= r <= |s|
    ensures r >= 0 ==> OccursAt(s, pat, r)
    ensures NoOccurrenceFrom(s, pat, r + 1)
  {
    LastIndexBelow(s, pat, |s| + 1)
  }

  /** The concatenation of `parts` with `sep` between neighbours (strings.Join). */
  function Join(parts: seq<string>, sep: char): string
    requires |parts| >= 1
  {
    if |parts| == 1 then parts[0] else parts[0] + [sep] + Join(parts[1..], sep)
  }

  /** `s` contains no `sep`. */
  predicate Free(s: string, sep: char)
  {
    forall i :: 0 <= i < |s| ==> s[i] != sep
  }

  /**
    strings.Split on a one-character separator: the maximal `sep`-free pieces
    of `s`, in order. There is always at least one piece, and joining the pieces
    gives back `s`.
   */
  function Split(s: string, sep: char): (parts: seq<string>)
    ensures |parts| >= 1
    ensures forall k :: 0 <= k < |parts| ==> Free(parts[k], sep)
    ensures Join(parts, sep) == s
    decreases |s|
  {
    if s == [] then [[]]
    else
      var rest := Split(s[1..], sep);
      if s[0] == sep then
        assert Join([[]] + rest, sep) == [sep] + Join(rest, sep) by {
          assert ([[]] + rest)[1..] == rest;
        }
        [[]] + rest
      else
        var parts := [[s[0]] + rest[0]] + rest[1..];
        assert Join(parts, sep) == [s[0]] + Join(rest, sep) by {
          if |rest| > 1 {
            assert parts[1..] == rest[1..];
          }
        }
        parts
  }

  /** `r` is what follows the last `sep` in `s` (all of `s` when it has no `sep`). */
  predicate IsLastPiece(r: string, s: string, sep: char)
  {
    IsSuffix(r, s) && Free(r, sep) && (|r| < |s| ==> s[|s| - |r| - 1] == sep)
  }

  /** Only one string is the last piece of `s`. */
  lemma LastPieceUnique(r1: string, r2: string, s: string, sep: char)
    requires IsLastPiece(r1, s, sep) && IsLastPiece(r2, s, sep)
    ensures r1 == r2
  {
  }

  /** The last piece of a join is a suffix of it, preceded by `sep` when there is more than one piece. */
  lemma {:induction false} JoinLast(parts: seq<string>, sep: char)
    requires |parts| >= 1
    ensures var j := Join(parts, sep); var l := parts[|parts| - 1];
      |l| <= |j| && j[|j| - |l|..] == l && (|parts| > 1 ==> |l| < |j| && j[|j| - |l| - 1] == sep)
  {
    if |parts| > 1 {
      JoinLast(parts[1..], sep);
      var j := Join(parts, sep);
      var l := parts[|parts| - 1];
      var tail := Join(parts[1..], sep);
      assert j == (parts[0] + [sep]) + tail;
      assert parts[1..][|parts[1..]| - 1] == l;
      assert j[|j| - |tail|..] == tail;
      assert j[|j| - |l|..] == tail[|tail| - |l|..];
      if |parts| == 2 {
        assert tail == l;
        assert j[|j| - |l| - 1] == sep;
      } else {
        assert j[|j| - |l| - 1] == tail[|tail| - |l| - 1];
      }
    }
  }

  /**
    Go's `<=` on strings. Go compares the UTF-8 bytes; UTF-8 preserves the
    order of code points, so this is the lexicographic order on characters.
   */
  predicate LexLe(a: string, b: string)
    decreases |a|
  {
    a == [] || (b != [] && (a[0] < b[0] || (a[0] == b[0] && LexLe(a[1..], b[1..]))))
  }

  lemma {:induction false} LexLeTotal(a: string, b: string)
    ensures LexLe(a, b) || LexLe(b, a)
    decreases |a|
  {
    if a != [] && b != [] && a[0] == b[0] {
      LexLeTotal(a[1..], b[1..]);
    }
  }

  lemma {:induction false} LexLeAntisymmetric(a: string, b: string)
    requires LexLe(a, b) && LexLe(b, a)
    ensures a == b
    decreases |a|
  {
    if a != [] {
      LexLeAntisymmetric(a[1..], b[1..]);
      assert a == [a[0]] + a[1..] && b == [b[0]] + b[1..];
    }
  }

  lemma {:induction false} LexLeTransitive(a: string, b: string, c: string)
    requires LexLe(a, b) && LexLe(b, c)
    ensures LexLe(a, c)
    decreases |a|
  {
    if a != [] && a[0] == b[0] && b[0] == c[0] {
      LexLeTransitive(a[1..], b[1..], c[1..]);
    }
  }

  /** Non-decreasing in Go's string order. */
  ghost predicate Sorted(s: seq<string>)
  {
    forall i, j :: 0 <= i < j < |s| ==> LexLe(s[i], s[j])
  }

  /** Every element of `s` is at least `x`. */
  ghost predicate AllAtLeast(x: string, s: seq<string>)
  {
    forall i :: 0 <= i < |s| ==> LexLe(x, s[i])
  }

  lemma ConsSorted(x: string, s: seq<string>)
    requires Sorted(s) && AllAtLeast(x, s)
    ensures Sorted([x] + s)
  {
    var t := [x] + s;
    forall i, j | 0 <= i < j < |t| ensures LexLe(t[i], t[j]) {
      if i > 0 {
        assert t[i] == s[i - 1] && t[j] == s[j - 1];
      } else {
        assert t[j] == s[j - 1];
      }
    }
  }

  /** `x` inserted into sorted `s` before the first element it does not exceed. */
  function Insert(x: string, s: seq<string>): (r: seq<string>)
    requires Sorted(s)
    ensures Sorted(r)
    ensures multiset(r) == multiset(s) + multiset{x}
    decreases |s|
  {
    if s == [] then [x]
    else if LexLe(x, s[0]) then
      assert AllAtLeast(x, s) by {
        forall i | 0 <= i < |s| ensures LexLe(x, s[i]) {
          if i > 0 { LexLeTransitive(x, s[0], s[i]); }
        }
      }
      ConsSorted(x, s);
      [x] + s
    else
      var rest := Insert(x, s[1..]);
      assert s == [s[0]] + s[1..];
      assert AllAtLeast(s[0], rest) by {
        LexLeTotal(x, s[0]);
        forall i | 0 <= i < |rest| ensures LexLe(s[0], rest[i]) {
          assert rest[i] in multiset(rest);
          if rest[i] != x {
            assert rest[i] in multiset(s[1..]);
            var j :| 0 <= j < |s[1..]| && s[1..][j] == rest[i];
            assert s[j + 1] == rest[i];
          }
        }
      }
      ConsSorted(s[0], rest);
      [s[0]] + rest
  }

  /** sort.Strings: the strings of `s` in non-decreasing order. */
  function Sort(s: seq<string>): (r: seq<string>)
    ensures Sorted(r)
    ensures multiset(r) == multiset(s)
    ensures |r| == |s|
    decreases |s|
  {
    if s == [] then []
    else
      assert s == [s[0]] + s[1..];
      Insert(s[0], Sort(s[1..]))
  }

  /** The head of a sorted sequence is at most each of its elements. */
  lemma HeadIsLeast(s: seq<string>, x: string)
    requires Sorted(s) && x in multiset(s)
    ensures s != [] && LexLe(s[0], x)
  {
    var j :| 0 <= j < |s| && s[j] == x;
    if j == 0 {
      LexLeTotal(x, x);
    }
  }

  /** Dropping the head keeps a sequence sorted. */
  lemma SortedTail(s: seq<string>)
    requires Sorted(s) && s != []
    ensures Sorted(s[1..])
  {
    forall i, j | 0 <= i < j < |s[1..]| ensures LexLe(s[1..][i], s[1..][j]) {
      assert s[1..][i] == s[i + 1] && s[1..][j] == s[j + 1];
    }
  }

  /** Sequences with the same elements and the same head have tails with the same elements. */
  lemma TailMultiset(a: seq<string>, b: seq<string>)
    requires a != [] && b != [] && a[0] == b[0] && multiset(a) == multiset(b)
    ensures multiset(a[1..]) == multiset(b[1..])
  {
    assert a == [a[0]] + a[1..] && b == [b[0]] + b[1..];
    assert multiset(a[1..]) == multiset(a) - multiset{a[0]};
    assert multiset(b[1..]) == multiset(b) - multiset{b[0]};
  }

  /** Sequences with equal heads and equal tails are equal. */
  lemma ConsEqual(a: seq<string>, b: seq<string>)
    requires a != [] && b != [] && a[0] == b[0] && a[1..] == b[1..]
    ensures a == b
  {
    assert a == [a[0]] + a[1..] && b == [b[0]] + b[1..];
  }

  /** Two sorted sequences with the same elements are equal: the sorted order is unique. */
  lemma {:induction false} SortedUnique(a: seq<string>, b: seq<string>)
    requires Sorted(a) && Sorted(b)
    requires multiset(a) == multiset(b)
    ensures a == b
    decreases |a|
  {
    if a == [] {
      assert |b| == |multiset(b)| == 0;
    } else {
      assert a[0] in multiset(a);
      HeadIsLeast(b, a[0]);
      assert b[0] in multiset(b);
      HeadIsLeast(a, b[0]);
      LexLeAntisymmetric(a[0], b[0]);
      TailMultiset(a, b);
      SortedTail(a);
      SortedTail(b);
      SortedUnique(a[1..], b[1..]);
      ConsEqual(a, b);
    }
  }
}
