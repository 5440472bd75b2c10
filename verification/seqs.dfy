/** Sequence helpers shared by the tour operators: duplicates, swaps, filtering. */
module Seqs {

  /** No value occurs twice (the points of a map are pairwise distinct). */
  ghost predicate NoDuplicates<T(!new)>(s: seq<T>) {
    forall x :: multiset(s)[x] <= 1
  }

  /** `NoDuplicates` is the usual pairwise statement about positions. */
  lemma {:induction false} NoDuplicatesPairwise<T(!new)>(s: seq<T>)
    ensures NoDuplicates(s) <==> forall i, j :: 0 <= i < j < |s| ==> s[i] != s[j]
  {
    if |s| > 0 {
      NoDuplicatesPairwise(s[1..]);
      assert s == [s[0]] + s[1..];
      assert multiset(s) == multiset{s[0]} + multiset(s[1..]);
      if NoDuplicates(s) {
        assert multiset(s)[s[0]] <= 1;
        assert multiset(s[1..])[s[0]] == 0;
        forall x ensures multiset(s[1..])[x] <= 1 {
          assert multiset(s[1..])[x] <= multiset(s)[x];
        }
        forall i, j | 0 <= i < j < |s| ensures s[i] != s[j] {
          if i == 0 {
            assert s[j] == s[1..][j - 1];
            assert s[j] in multiset(s[1..]);
          } else {
            assert s[i] == s[1..][i - 1] && s[j] == s[1..][j - 1];
          }
        }
      }
      if forall i, j :: 0 <= i < j < |s| ==> s[i] != s[j] {
        forall i, j | 0 <= i < j < |s[1..]| ensures s[1..][i] != s[1..][j] {
          assert s[1..][i] == s[i + 1] && s[1..][j] == s[j + 1];
        }
        assert s[0] !in s[1..] by {
          forall j | 0 <= j < |s[1..]| ensures s[1..][j] != s[0] {
            assert s[1..][j] == s[j + 1];
          }
        }
        forall x ensures multiset(s)[x] <= 1 {
          if x == s[0] {
            assert multiset(s[1..])[x] == 0;
          }
        }
      }
    }
  }

  /** `s` with the values at positions `i` and `j` exchanged. */
  function Swap<T>(s: seq<T>, i: nat, j: nat): (r: seq<T>)
    requires i < |s| && j < |s|
    ensures |r| == |s|
    ensures r[i] == s[j] && r[j] == s[i]
    ensures forall m :: 0 <= m < |s| && m != i && m != j ==> r[m] == s[m]
    ensures multiset(r) == multiset(s)
  {
    var r := s[i := s[j]][j := s[i]];
    assert multiset(r) == multiset(s) by {
      if i != j {
        assert multiset(s[i := s[j]]) == multiset(s) - multiset{s[i]} + multiset{s[j]};
      }
    }
    r
  }

  /** The elements of `s` that are not in `b`, in their order in `s`. */
  function Without<T(==,!new)>(s: seq<T>, b: set<T>): (r: seq<T>)
    ensures |r| <= |s|
    ensures forall x :: x in r <==> x in s && x !in b
    ensures forall x :: multiset(r)[x] == if x in b then 0 else multiset(s)[x]
  {
    if |s| == 0 then []
    else
      assert s == [s[0]] + s[1..];
      if s[0] in b then Without(s[1..], b) else [s[0]] + Without(s[1..], b)
  }

  /** The set of values of a sequence. */
  function Elements<T(==,!new)>(s: seq<T>): (r: set<T>)
    ensures forall x :: x in r <==> x in s
  {
    set x | x in s
  }

  /** A sequence without duplicates whose values are among those of a duplicate-free
      `s` occurs in `s` exactly as often as in itself: filtering them out of `s` leaves
      the rest, and the two parts together are `s` again, as multisets. */
  lemma {:induction false} SplitByBlock<T(!new)>(s: seq<T>, block: seq<T>)
    requires NoDuplicates(s) && NoDuplicates(block)
    requires forall x :: x in block ==> x in s
    ensures multiset(Without(s, Elements(block))) + multiset(block) == multiset(s)
    ensures |Without(s, Elements(block))| + |block| == |s|
  {
    var f := Without(s, Elements(block));
    forall x ensures (multiset(f) + multiset(block))[x] == multiset(s)[x] {
      if x in block {
        assert multiset(block)[x] == 1 && multiset(s)[x] == 1;
      } else {
        assert multiset(block)[x] == 0;
      }
    }
    assert multiset(f) + multiset(block) == multiset(s);
    assert |multiset(f) + multiset(block)| == |multiset(s)|;
  }
}
