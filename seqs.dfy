/** Facts about sequences and the sets of their elements, used where the source
    turns a sequence into a Python `set` and compares lengths. */
module Seqs {

  /** The elements of `s` as a set: Python's `set(s)`. */
  function Elems<T>(s: seq<T>): set<T> {
    set x | x in s
  }

  /** No element occurs twice in `s`. */
  predicate NoDuplicates<T(==)>(s: seq<T>) {
    forall i, j :: 0 <= i < j < |s| ==> s[i] != s[j]
  }

  /** `order` lists the elements of `s`, each exactly once: one possible
      iteration order of a Python set. */
  predicate Enumerates<T(==)>(order: seq<T>, s: set<T>) {
    NoDuplicates(order) && Elems(order) == s
  }

  /** `len(set(s)) == len(s)` holds exactly when `s` has no repeated element,
      and `set(s)` is never larger than `s`. */
  lemma {:induction false} DistinctCount<T>(s: seq<T>)
    ensures |Elems(s)| <= |s|
    ensures |Elems(s)| == |s| <==> NoDuplicates(s)
  {
    if s != [] {
      var rest := s[1..];
      DistinctCount(rest);
      assert Elems(s) == Elems(rest) + {s[0]} by {
        assert forall x :: x in s <==> x == s[0] || x in rest;
      }
      if s[0] in rest {
        assert Elems(s) == Elems(rest);
        var j :| 0 <= j < |rest| && rest[j] == s[0];
        assert s[0] == s[j + 1];
      } else {
        assert |Elems(s)| == |Elems(rest)| + 1;
        if NoDuplicates(rest) {
          forall i, j | 0 <= i < j < |s| ensures s[i] != s[j] {
            if i > 0 {
              assert s[i] == rest[i - 1] && s[j] == rest[j - 1];
            } else {
              assert s[j] == rest[j - 1];
            }
          }
        } else {
          var i, j :| 0 <= i < j < |rest| && rest[i] == rest[j];
          assert s[i + 1] == s[j + 1];
        }
      }
    }
  }

  /** Two enumerations of one set have the same length. */
  lemma EnumerationLength<T>(order: seq<T>, s: set<T>)
    requires Enumerates(order, s)
    ensures |order| == |s|
  {
    DistinctCount(order);
  }
}
