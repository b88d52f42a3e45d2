/** Python's `set(xs)` and the duplicate count `len(xs) - len(set(xs))` the
    text detector takes of word, bigram and trigram lists, and the occurrence
    count a frequency dictionary records. */
module Counting {

  /** `set(s)`: the elements of `s`, never more of them than `s` has entries. */
  function Distinct<T(==,!new)>(s: seq<T>): (r: set<T>)
    ensures forall x :: x in r <==> x in s
    ensures |r| <= |s|
    ensures s != [] ==> |r| >= 1
  {
    if s == [] then {}
    else
      var rest := Distinct(s[1..]);
      if s[0] in rest then rest else {s[0]} + rest
  }

  predicate NoDuplicates<T(==)>(s: seq<T>)
  {
    forall i, j :: 0 <= i < j < |s| ==> s[i] != s[j]
  }

  /** `s` has no repeated entry exactly when its head does not recur and its
      tail has no repeated entry. */
  lemma NoDuplicatesCons<T>(s: seq<T>)
    requires s != []
    ensures NoDuplicates(s) <==> s[0] !in s[1..] && NoDuplicates(s[1..])
  {
    if s[0] in s[1..] {
      var k :| 0 <= k < |s[1..]| && s[1..][k] == s[0];
      assert s[k + 1] == s[0];
    } else if NoDuplicates(s[1..]) {
      forall i, j | 0 <= i < j < |s| ensures s[i] != s[j] {
        if i > 0 {
          assert s[i] == s[1..][i - 1] && s[j] == s[1..][j - 1];
        } else {
          assert s[j] in s[1..];
        }
      }
    }
    if NoDuplicates(s) {
      forall i, j | 0 <= i < j < |s[1..]| ensures s[1..][i] != s[1..][j] {
        assert s[i + 1] != s[j + 1];
      }
    }
  }

  /** `set(s)` has as many elements as `s` exactly when no entry repeats. */
  lemma {:induction false} DistinctSizeIffNoDuplicates<T(!new)>(s: seq<T>)
    ensures |Distinct(s)| == |s| <==> NoDuplicates(s)
  {
    if s != [] {
      DistinctSizeIffNoDuplicates(s[1..]);
      NoDuplicatesCons(s);
      var rest := Distinct(s[1..]);
      if s[0] !in s[1..] {
        assert s[0] !in rest;
        assert |Distinct(s)| == |rest| + 1;
      }
    }
  }

  /** `len(s) - len(set(s))`: zero exactly when no entry repeats. */
  function DuplicateCount<T(==,!new)>(s: seq<T>): (n: nat)
    ensures n == 0 <==> NoDuplicates(s)
    ensures n < |s| || s == []
  {
    DistinctSizeIffNoDuplicates(s);
    |s| - |Distinct(s)|
  }

  /** Every entry of `s` occurs at least once and at most `|s|` times. */
  lemma {:induction false} OccurrenceBounds<T>(s: seq<T>, x: T)
    requires x in s
    ensures 1 <= multiset(s)[x] <= |s|
  {
    if s[0] == x {
      assert s == [s[0]] + s[1..];
      assert multiset(s) == multiset{s[0]} + multiset(s[1..]);
      if x in s[1..] {
        OccurrenceBounds(s[1..], x);
      }
    } else {
      assert s == [s[0]] + s[1..];
      assert multiset(s) == multiset{s[0]} + multiset(s[1..]);
      OccurrenceBounds(s[1..], x);
    }
  }
}
