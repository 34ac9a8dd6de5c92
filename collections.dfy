/** Sequence helpers shared by the processors: distinctness and order-keeping de-duplication. */
module Collections {

  /** The elements of `s` are pairwise distinct. */
  predicate Distinct<T(==)>(s: seq<T>) {
    forall i, j :: 0 <= i < j < |s| ==> s[i] != s[j]
  }

  /** A distinct sequence has as many elements as the set it enumerates. */
  lemma {:induction false} DistinctCardinality<T>(s: seq<T>, elems: set<T>)
    requires Distinct(s)
    requires forall x :: x in s <==> x in elems
    ensures |elems| == |s|
  {
    if s != [] {
      var n := |s|;
      var last := s[n - 1];
      var rest := elems - {last};
      forall x ensures x in s[..n - 1] <==> x in rest {
        if x in s[..n - 1] {
          var t :| 0 <= t < n - 1 && s[..n - 1][t] == x;
          assert s[t] == x;
        }
      }
      DistinctCardinality(s[..n - 1], rest);
    }
  }

  /** The indices are strictly increasing. */
  predicate Increasing(idx: seq<int>) {
    forall i, j :: 0 <= i < j < |idx| ==> idx[i] < idx[j]
  }

  /** `sub` is `s` read at the indices `idx`, in that order. */
  predicate Picks<T(==)>(sub: seq<T>, s: seq<T>, idx: seq<int>) {
    |idx| == |sub| && forall k :: 0 <= k < |idx| ==> 0 <= idx[k] < |s| && sub[k] == s[idx[k]]
  }

  /** The indices of the elements of `s` that satisfy `p`, in increasing order. */
  function Where<T>(s: seq<T>, p: T -> bool): (idx: seq<int>)
    ensures Increasing(idx)
    ensures forall k :: 0 <= k < |idx| ==> 0 <= idx[k] < |s| && p(s[idx[k]])
    ensures forall i :: 0 <= i < |s| && p(s[i]) ==> i in idx
  {
    if s == [] then []
    else
      var n := |s|;
      var prev := Where(s[..n - 1], p);
      assert forall k :: 0 <= k < |prev| ==> s[prev[k]] == s[..n - 1][prev[k]];
      assert forall i :: 0 <= i < n - 1 ==> s[i] == s[..n - 1][i];
      if p(s[n - 1]) then prev + [n - 1] else prev
  }

  /** Reading a prefix is reading the whole sequence at the same indices, and the next element
      extends both the picked elements and their indices. */
  lemma PicksSnoc<T>(sub: seq<T>, s: seq<T>, idx: seq<int>)
    requires s != [] && Picks(sub, s[..|s| - 1], idx)
    ensures Picks(sub, s, idx)
    ensures Picks(sub + [s[|s| - 1]], s, idx + [|s| - 1])
  {
    assert forall k :: 0 <= k < |idx| ==> s[idx[k]] == s[..|s| - 1][idx[k]];
  }

  /** `Where` on a sequence one longer. */
  lemma WhereSnoc<T>(s: seq<T>, p: T -> bool)
    requires s != []
    ensures Where(s, p) == Where(s[..|s| - 1], p) + (if p(s[|s| - 1]) then [|s| - 1] else [])
  {
  }

  /** The element at `i` occurs in `s` for the first time. */
  predicate IsFirst<T(==)>(s: seq<T>, i: int)
    requires 0 <= i < |s|
  {
    forall j :: 0 <= j < i ==> s[j] != s[i]
  }

  /** The indices of the first occurrences in `s`, in increasing order. */
  function FirstIndices<T(==)>(s: seq<T>): (idx: seq<int>)
    ensures Increasing(idx)
    ensures forall k :: 0 <= k < |idx| ==> 0 <= idx[k] < |s| && IsFirst(s, idx[k])
    ensures forall i :: 0 <= i < |s| && IsFirst(s, i) ==> i in idx
  {
    if s == [] then []
    else
      var n := |s|;
      var prev := FirstIndices(s[..n - 1]);
      assert forall i :: 0 <= i < n - 1 ==> (IsFirst(s, i) <==> IsFirst(s[..n - 1], i));
      if s[n - 1] in s[..n - 1] then prev else prev + [n - 1]
  }

  /** `FirstIndices` on a sequence one longer. */
  lemma FirstIndicesSnoc<T>(s: seq<T>)
    requires s != []
    ensures FirstIndices(s) == FirstIndices(s[..|s| - 1]) + (if s[|s| - 1] in s[..|s| - 1] then [] else [|s| - 1])
  {
  }

  /**
   * `s` with every element after its first occurrence removed, order kept:
   * the row order of a de-duplicated table, or the key order of a dict that
   * is only ever updated.
   */
  function FirstOccurrences<T(==)>(s: seq<T>): (r: seq<T>)
    ensures Distinct(r)
    ensures forall i :: 0 <= i < |r| ==> r[i] in s
    ensures forall i :: 0 <= i < |s| ==> s[i] in r
    ensures |r| <= |s|
  {
    if s == [] then []
    else
      var prev := FirstOccurrences(s[..|s| - 1]);
      assert forall i :: 0 <= i < |s| - 1 ==> s[i] == s[..|s| - 1][i];
      if s[|s| - 1] in s[..|s| - 1] then prev else prev + [s[|s| - 1]]
  }

  /** De-duplication keeps exactly the first occurrences, in their order in `s`. */
  lemma {:induction false} FirstOccurrencesInOrder<T>(s: seq<T>)
    ensures Picks(FirstOccurrences(s), s, FirstIndices(s))
  {
    if s != [] {
      FirstOccurrencesInOrder(s[..|s| - 1]);
      PicksSnoc(FirstOccurrences(s[..|s| - 1]), s, FirstIndices(s[..|s| - 1]));
      FirstIndicesSnoc(s);
    }
  }

  /** De-duplication leaves a sequence without repeats unchanged. */
  lemma {:induction false} FirstOccurrencesOfDistinct<T>(s: seq<T>)
    requires Distinct(s)
    ensures FirstOccurrences(s) == s
  {
    if s != [] {
      var n := |s|;
      FirstOccurrencesOfDistinct(s[..n - 1]);
      assert s[..n - 1] + [s[n - 1]] == s;
    }
  }

  /** De-duplicating twice is de-duplicating once. */
  lemma FirstOccurrencesIdempotent<T>(s: seq<T>)
    ensures FirstOccurrences(FirstOccurrences(s)) == FirstOccurrences(s)
  {
    FirstOccurrencesOfDistinct(FirstOccurrences(s));
  }
}
