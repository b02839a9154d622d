/** Order-preserving filtering of sequences (JavaScript's `Array.prototype.filter`)
    and the facts about it that the window filter and the protocol denylist rely on. */
module Seqs {

  /** Keeps, in their original order, the elements of `s` that satisfy `keep`. */
  function Filter<T(==,!new)>(s: seq<T>, keep: T -> bool): (r: seq<T>)
    ensures |r| <= |s|
    ensures forall i :: 0 <= i < |r| ==> keep(r[i])
    ensures forall i :: 0 <= i < |r| ==> r[i] in s
    ensures forall i :: 0 <= i < |s| && keep(s[i]) ==> s[i] in r
    ensures forall x :: multiset(r)[x] == if keep(x) then multiset(s)[x] else 0
    decreases |s|
  {
    if |s| == 0 then []
    else
      assert s == [s[0]] + s[1..];
      if keep(s[0]) then [s[0]] + Filter(s[1..], keep)
      else Filter(s[1..], keep)
  }

  /** `a` can be obtained from `b` by deleting elements, without reordering. */
  ghost predicate SubsequenceOf<T>(a: seq<T>, b: seq<T>)
    decreases |b|
  {
    if |a| == 0 then true
    else if |b| == 0 then false
    else (a[0] == b[0] && SubsequenceOf(a[1..], b[1..])) || SubsequenceOf(a, b[1..])
  }

  /** `s` is non-decreasing under `key`. */
  ghost predicate SortedBy<T>(s: seq<T>, key: T -> int) {
    forall i, j :: 0 <= i < j < |s| ==> key(s[i]) <= key(s[j])
  }

  lemma {:induction false} FilterIsSubsequence<T(!new)>(s: seq<T>, keep: T -> bool)
    ensures SubsequenceOf(Filter(s, keep), s)
    decreases |s|
  {
    if |s| > 0 {
      FilterIsSubsequence(s[1..], keep);
      var r := Filter(s, keep);
      if keep(s[0]) {
        assert r[0] == s[0];
        assert r[1..] == Filter(s[1..], keep);
      }
    }
  }

  lemma {:induction false} SubsequenceMembers<T>(a: seq<T>, b: seq<T>)
    requires SubsequenceOf(a, b)
    ensures forall i :: 0 <= i < |a| ==> a[i] in b
    decreases |b|
  {
    if |a| > 0 && |b| > 0 {
      if a[0] == b[0] && SubsequenceOf(a[1..], b[1..]) {
        SubsequenceMembers(a[1..], b[1..]);
        forall i | 0 <= i < |a| ensures a[i] in b {
          if i > 0 {
            assert a[i] == a[1..][i - 1];
          }
        }
      } else {
        SubsequenceMembers(a, b[1..]);
      }
    }
  }

  /** Deleting elements from a sorted sequence leaves it sorted. */
  lemma {:induction false} SubsequenceKeepsSorted<T>(a: seq<T>, b: seq<T>, key: T -> int)
    requires SubsequenceOf(a, b)
    requires SortedBy(b, key)
    ensures SortedBy(a, key)
    decreases |b|
  {
    if |a| > 0 && |b| > 0 {
      assert SortedBy(b[1..], key) by {
        forall i, j | 0 <= i < j < |b[1..]| ensures key(b[1..][i]) <= key(b[1..][j]) {
          assert b[1..][i] == b[i + 1] && b[1..][j] == b[j + 1];
        }
      }
      if a[0] == b[0] && SubsequenceOf(a[1..], b[1..]) {
        SubsequenceKeepsSorted(a[1..], b[1..], key);
        SubsequenceMembers(a[1..], b[1..]);
        forall i, j | 0 <= i < j < |a| ensures key(a[i]) <= key(a[j]) {
          assert a[j] == a[1..][j - 1];
          assert a[1..][j - 1] in b[1..];
          var k :| 0 <= k < |b[1..]| && b[1..][k] == a[j];
          assert b[k + 1] == a[j];
          if i > 0 {
            assert a[i] == a[1..][i - 1];
          }
        }
      } else {
        SubsequenceKeepsSorted(a, b[1..], key);
      }
    }
  }

  /** Filtering a sequence all of whose elements pass returns it unchanged. */
  lemma {:induction false} FilterAllKept<T(!new)>(s: seq<T>, keep: T -> bool)
    requires forall i :: 0 <= i < |s| ==> keep(s[i])
    ensures Filter(s, keep) == s
    decreases |s|
  {
    if |s| > 0 {
      FilterAllKept(s[1..], keep);
      assert [s[0]] + s[1..] == s;
    }
  }

  /** Filtering twice with the same predicate is filtering once. */
  lemma FilterIdempotent<T(!new)>(s: seq<T>, keep: T -> bool)
    ensures Filter(Filter(s, keep), keep) == Filter(s, keep)
  {
    FilterAllKept(Filter(s, keep), keep);
  }

  /** When `keep`, once true along `s`, stays true, the filter returns a suffix of `s`:
      the suffix of its own length. */
  lemma {:induction false} FilterUpwardClosedIsSuffix<T(!new)>(s: seq<T>, keep: T -> bool)
    requires forall i, j :: 0 <= i <= j < |s| && keep(s[i]) ==> keep(s[j])
    ensures |Filter(s, keep)| <= |s|
    ensures Filter(s, keep) == s[|s| - |Filter(s, keep)|..]
    decreases |s|
  {
    if |s| > 0 {
      if keep(s[0]) {
        FilterAllKept(s, keep);
      } else {
        var t := s[1..];
        assert forall i, j :: 0 <= i <= j < |t| && keep(t[i]) ==> keep(t[j]) by {
          forall i, j | 0 <= i <= j < |t| && keep(t[i]) ensures keep(t[j]) {
            assert t[i] == s[i + 1] && t[j] == s[j + 1];
          }
        }
        FilterUpwardClosedIsSuffix(t, keep);
        assert t[|t| - |Filter(t, keep)|..] == s[|s| - |Filter(t, keep)|..];
      }
    }
  }

  /** The last `n` elements of `s`, or all of `s` when it is shorter. */
  function Newest<T>(s: seq<T>, n: nat): (r: seq<T>)
    ensures |r| == if |s| <= n then |s| else n
    ensures r == s[|s| - |r|..]
  {
    if |s| > n then s[|s| - n..] else s
  }

  /** Keeping the newest `n`, appending, and keeping the newest `n` again is the same as
      appending first. */
  lemma NewestThenAppend<T>(s: seq<T>, x: T, n: nat)
    ensures Newest(Newest(s, n) + [x], n) == Newest(s + [x], n)
  {
    var t := Newest(s, n);
    var a := Newest(t + [x], n);
    var b := Newest(s + [x], n);
    assert |a| == |b|;
    forall i | 0 <= i < |a| ensures a[i] == b[i] {
      if i < |a| - 1 {
        assert a[i] == t[|t| + 1 - |a| + i] == s[|s| + 1 - |a| + i];
      }
    }
  }
}
