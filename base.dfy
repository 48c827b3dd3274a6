/** Small vocabulary shared by the LeanAb model: optional values, PHP's
    empty() on strings, and duplicate-free sequences. */
module Base {

  /** PHP's null becomes None. */
  datatype Option<T> = None | Some(value: T)

  /** PHP's empty() applied to a string: true for "" and for "0". */
  predicate PhpEmpty(s: string)
  {
    s == "" || s == "0"
  }

  /** No element occurs twice (what a UNIQUE KEY guarantees of a column). */
  predicate Distinct<T(==)>(s: seq<T>)
  {
    forall i, j :: 0 <= i < j < |s| ==> s[i] != s[j]
  }

  /** Appending keeps a sequence duplicate-free exactly when the new element is not there yet. */
  lemma DistinctSnoc<T>(s: seq<T>, x: T)
    ensures Distinct(s + [x]) <==> Distinct(s) && x !in s
  {
    var t := s + [x];
    assert forall k :: 0 <= k < |s| ==> t[k] == s[k];
    assert t[|s|] == x;
    if Distinct(t) {
      forall k | 0 <= k < |s| ensures s[k] != x {
        assert t[k] != t[|s|];
      }
    }
    if Distinct(s) && x !in s {
      forall i, j | 0 <= i < j < |t| ensures t[i] != t[j] {
        assert s[i] in s;
      }
    }
  }
}
