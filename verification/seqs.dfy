/**
 Facts about sequences without repeated elements and about reorderings of
 them, used to state what deck construction and shuffling preserve.
 */
module Seqs {

  /** No element occurs twice in `s`. */
  predicate Distinct<T(==)>(s: seq<T>) {
    forall i, j :: 0 <= i < j < |s| ==> s[i] != s[j]
  }

  /** `b` is a reordering of `a`: the same elements, each as often. */
  predicate IsPermutation<T(==)>(a: seq<T>, b: seq<T>) {
    multiset(a) == multiset(b)
  }

  /** A sequence has no repeated element exactly when no element occurs in
      it more than once. */
  lemma {:induction false} DistinctIffSingleOccurrences<T>(s: seq<T>)
    ensures Distinct(s) <==> forall v :: multiset(s)[v] <= 1
  {
    if |s| > 0 {
      var rest := s[1..];
      assert s == [s[0]] + rest;
      assert multiset(s) == multiset{s[0]} + multiset(rest);
      DistinctIffSingleOccurrences(rest);
      if Distinct(s) {
        assert Distinct(rest) by {
          forall i, j | 0 <= i < j < |rest| ensures rest[i] != rest[j] {
            assert rest[i] == s[i + 1] && rest[j] == s[j + 1];
          }
        }
        assert s[0] !in rest by {
          forall j | 0 <= j < |rest| ensures rest[j] != s[0] {
            assert rest[j] == s[j + 1];
          }
        }
      } else {
        var i, j :| 0 <= i < j < |s| && s[i] == s[j];
        if i == 0 {
          assert s[0] in rest by {
            assert rest[j - 1] == s[j];
          }
          assert multiset(s)[s[0]] >= 2;
        } else {
          assert rest[i - 1] == rest[j - 1];
          assert !Distinct(rest);
          var v :| multiset(rest)[v] > 1;
          assert multiset(s)[v] > 1;
        }
      }
    }
  }

  /** Reordering keeps a sequence free of repetitions. */
  lemma PermutationKeepsDistinct<T>(a: seq<T>, b: seq<T>)
    requires IsPermutation(a, b) && Distinct(a)
    ensures Distinct(b)
  {
    DistinctIffSingleOccurrences(a);
    DistinctIffSingleOccurrences(b);
  }

  /** In a reordering of a repetition-free sequence, every element of the
      original occurs exactly once. */
  lemma PermutationKeepsEachOnce<T>(a: seq<T>, b: seq<T>, i: nat)
    requires IsPermutation(a, b) && Distinct(a) && i < |a|
    ensures multiset(b)[a[i]] == 1
  {
    DistinctIffSingleOccurrences(a);
    assert a[i] in multiset(a);
  }
}
