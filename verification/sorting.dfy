/** Insertion sort on sequences by a lexicographic (major, minor) rank. The
    report's "most common" list and the doctor's agenda both order rows this
    way: by count then first appearance, and by date then primary key. */
module Sorting {

  datatype Rank = Rank(major: int, minor: int)

  predicate RankLeq(a: Rank, b: Rank) {
    a.major < b.major || (a.major == b.major && a.minor <= b.minor)
  }

  ghost predicate SortedBy<T>(s: seq<T>, rank: T -> Rank) {
    forall i, j :: 0 <= i < j < |s| ==> RankLeq(rank(s[i]), rank(s[j]))
  }

  /** Puts `x` in front of the first element it ranks at or before. */
  function Insert<T>(x: T, s: seq<T>, rank: T -> Rank): (r: seq<T>)
    requires SortedBy(s, rank)
    ensures SortedBy(r, rank)
    ensures multiset(r) == multiset(s) + multiset{x}
    ensures |r| == |s| + 1
  {
    if s == [] then [x]
    else if RankLeq(rank(x), rank(s[0])) then [x] + s
    else
      var tail := Insert(x, s[1..], rank);
      assert s == [s[0]] + s[1..];
      forall j | 0 <= j < |tail| ensures RankLeq(rank(s[0]), rank(tail[j])) {
        assert tail[j] in multiset(tail);
        if tail[j] != x {
          assert tail[j] in multiset(s[1..]);
          var k :| 0 <= k < |s[1..]| && s[1..][k] == tail[j];
          assert s[k + 1] == tail[j];
        }
      }
      [s[0]] + tail
  }

  /** Sorts by rank, keeping every element and nothing else. */
  function SortBy<T>(s: seq<T>, rank: T -> Rank): (r: seq<T>)
    ensures SortedBy(r, rank)
    ensures multiset(r) == multiset(s)
    ensures |r| == |s|
  {
    if s == [] then []
    else
      assert s == [s[0]] + s[1..];
      Insert(s[0], SortBy(s[1..], rank), rank)
  }

  predicate NoRepeats<T(==)>(s: seq<T>) {
    forall i, j :: 0 <= i < j < |s| ==> s[i] != s[j]
  }

  lemma {:induction false} NoRepeatsCount<T>(s: seq<T>, x: T)
    requires NoRepeats(s)
    ensures multiset(s)[x] <= 1
  {
    if s != [] {
      assert s == [s[0]] + s[1..];
      assert NoRepeats(s[1..]) by {
        forall i, j | 0 <= i < j < |s[1..]| ensures s[1..][i] != s[1..][j] {
          assert s[1..][i] == s[i + 1] && s[1..][j] == s[j + 1];
        }
      }
      NoRepeatsCount(s[1..], x);
      if s[0] == x {
        assert x !in s[1..];
      }
    }
  }

  /** A rearrangement of a sequence without repeats has none either. */
  lemma PermutationKeepsNoRepeats<T>(s: seq<T>, r: seq<T>)
    requires NoRepeats(s) && multiset(r) == multiset(s)
    ensures NoRepeats(r)
  {
    forall i, j | 0 <= i < j < |r| ensures r[i] != r[j] {
      var x := r[i];
      assert r == r[..i] + [x] + r[i + 1..j] + [r[j]] + r[j + 1..];
      assert multiset(r)[x] >= 1 + (if r[j] == x then 1 else 0);
      NoRepeatsCount(s, x);
    }
  }
}
