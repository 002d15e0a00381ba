/**
 * Order-preserving selection from a sequence: the shape of a Python list
 * comprehension with a condition and of a data-frame row filter.
 */
module Sequences {

  /** `a` is `b` with some elements deleted and the rest kept in their order. */
  predicate IsSubsequence<T(==)>(a: seq<T>, b: seq<T>)
    decreases |b|
  {
    if |a| == 0 then true
    else if |b| == 0 then false
    else if a[|a| - 1] == b[|b| - 1] then IsSubsequence(a[..|a| - 1], b[..|b| - 1])
    else IsSubsequence(a, b[..|b| - 1])
  }

  /** The positions of `s` whose element `keep` accepts. */
  function KeptPositions<T>(s: seq<T>, keep: T -> bool): set<int>
  {
    set k | 0 <= k < |s| && keep(s[k])
  }

  lemma KeptPositionsSnoc<T>(s: seq<T>, keep: T -> bool)
    requires |s| > 0
    ensures |KeptPositions(s, keep)|
      == |KeptPositions(s[..|s| - 1], keep)| + (if keep(s[|s| - 1]) then 1 else 0)
  {
    var n := |s| - 1;
    var before := KeptPositions(s[..n], keep);
    assert forall k :: 0 <= k < n ==> s[..n][k] == s[k];
    if keep(s[n]) {
      assert KeptPositions(s, keep) == before + {n};
      assert n !in before;
    } else {
      assert KeptPositions(s, keep) == before;
    }
  }

  /**
   * The elements of `s` for which `keep` holds, in their original order:
   * one element per accepted position, so duplicates are kept.
   */
  function Filter<T(==)>(s: seq<T>, keep: T -> bool): (r: seq<T>)
    ensures |r| <= |s|
    ensures |r| == |KeptPositions(s, keep)|
    ensures forall k :: 0 <= k < |r| ==> r[k] in s && keep(r[k])
    ensures forall k :: 0 <= k < |s| && keep(s[k]) ==> s[k] in r
    ensures (forall k :: 0 <= k < |s| ==> keep(s[k])) ==> r == s
    decreases |s|
  {
    if |s| == 0 then
      assert KeptPositions(s, keep) == {};
      []
    else
      var r0 := Filter(s[..|s| - 1], keep);
      FilterSnoc(s, keep, r0);
      KeptPositionsSnoc(s, keep);
      if keep(s[|s| - 1]) then r0 + [s[|s| - 1]] else r0
  }

  /** One step of `Filter`: extending the filtered prefix by the last element when it is kept. */
  lemma FilterSnoc<T>(s: seq<T>, keep: T -> bool, r0: seq<T>)
    requires |s| > 0
    requires |r0| <= |s| - 1
    requires forall k :: 0 <= k < |r0| ==> r0[k] in s[..|s| - 1] && keep(r0[k])
    requires forall k :: 0 <= k < |s| - 1 && keep(s[k]) ==> s[k] in r0
    requires (forall k :: 0 <= k < |s| - 1 ==> keep(s[k])) ==> r0 == s[..|s| - 1]
    ensures var r := if keep(s[|s| - 1]) then r0 + [s[|s| - 1]] else r0;
      && |r| <= |s|
      && (forall k :: 0 <= k < |r| ==> r[k] in s && keep(r[k]))
      && (forall k :: 0 <= k < |s| && keep(s[k]) ==> s[k] in r)
      && ((forall k :: 0 <= k < |s| ==> keep(s[k])) ==> r == s)
  {
    var init := s[..|s| - 1];
    var last := s[|s| - 1];
    var r := if keep(last) then r0 + [last] else r0;
    forall k | 0 <= k < |r|
      ensures r[k] in s && keep(r[k])
    {
      if k < |r0| {
        var j :| 0 <= j < |init| && init[j] == r0[k];
        assert s[j] == r[k];
      } else {
        assert r[k] == s[|s| - 1];
      }
    }
    forall k | 0 <= k < |s| && keep(s[k])
      ensures s[k] in r
    {
      if k < |s| - 1 {
        assert init[k] == s[k];
        var j :| 0 <= j < |r0| && r0[j] == s[k];
        assert r[j] == s[k];
      } else {
        assert r[|r| - 1] == s[k];
      }
    }
    if forall k :: 0 <= k < |s| ==> keep(s[k]) {
      assert forall k :: 0 <= k < |s| - 1 ==> keep(s[k]);
      assert s == init + [last];
    }
  }

  /** Filtering keeps the surviving elements in their original order. */
  lemma {:induction false} FilterIsSubsequence<T>(s: seq<T>, keep: T -> bool)
    ensures IsSubsequence(Filter(s, keep), s)
    decreases |s|
  {
    if |s| > 0 {
      FilterIsSubsequence(s[..|s| - 1], keep);
      SnocSubsequence(Filter(s[..|s| - 1], keep), s, keep);
    }
  }

  lemma SnocSubsequence<T>(r0: seq<T>, s: seq<T>, keep: T -> bool)
    requires |s| > 0
    requires forall k :: 0 <= k < |r0| ==> keep(r0[k])
    requires IsSubsequence(r0, s[..|s| - 1])
    ensures IsSubsequence(if keep(s[|s| - 1]) then r0 + [s[|s| - 1]] else r0, s)
  {
  }
}
