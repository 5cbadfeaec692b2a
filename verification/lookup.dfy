/** Searching and filtering sequences: the shapes of `FirstOrDefault`, of a
    loop where the last matching element wins, and of a `foreach` that emits
    at most one output per input. */
module Lookup {
  import opened Wrappers

  /** Position of the first element satisfying `p` (`FirstOrDefault`). */
  function FirstIndex<T>(s: seq<T>, p: T -> bool): (r: Option<nat>)
    ensures r.Some? ==> r.value < |s| && p(s[r.value])
    ensures r.Some? ==> forall j :: 0 <= j < r.value ==> !p(s[j])
    ensures r.None? <==> forall j :: 0 <= j < |s| ==> !p(s[j])
  {
    if |s| == 0 then None
    else if p(s[0]) then Some(0)
    else match FirstIndex(s[1..], p)
      case None => None
      case Some(i) => Some(i + 1)
  }

  /** Whether some element satisfies `p`. */
  predicate Exists<T>(s: seq<T>, p: T -> bool) {
    exists j :: 0 <= j < |s| && p(s[j])
  }

  /** Keeps the inputs `f` maps to a value, in order, as their values. */
  function FilterMap<A, B>(s: seq<A>, f: A -> Option<B>): (r: seq<B>)
    ensures |r| <= |s|
  {
    if |s| == 0 then []
    else FilterMap(s[..|s| - 1], f) + (match f(s[|s| - 1]) case Some(b) => [b] case None => [])
  }

  /** The positions of the inputs `FilterMap` keeps, in increasing order. */
  function Kept<A, B>(s: seq<A>, f: A -> Option<B>): seq<nat> {
    if |s| == 0 then []
    else Kept(s[..|s| - 1], f) + (if f(s[|s| - 1]).Some? then [|s| - 1] else [])
  }

  predicate StrictlyIncreasing(s: seq<int>) {
    forall i, j :: 0 <= i < j < |s| ==> s[i] < s[j]
  }

  /** The kept positions are in range and increase. */
  lemma {:induction false} KeptIncreasing<A, B>(s: seq<A>, f: A -> Option<B>)
    ensures forall k :: 0 <= k < |Kept(s, f)| ==> Kept(s, f)[k] < |s|
    ensures StrictlyIncreasing(Kept(s, f))
  {
    if |s| > 0 {
      KeptIncreasing(s[..|s| - 1], f);
    }
  }

  /** A position is kept exactly when `f` accepts the input there. */
  lemma {:induction false} KeptExactly<A, B>(s: seq<A>, f: A -> Option<B>)
    ensures forall i :: 0 <= i < |s| ==> (f(s[i]).Some? <==> i in Kept(s, f))
  {
    if |s| > 0 {
      var init := s[..|s| - 1];
      KeptExactly(init, f);
      KeptIncreasing(init, f);
      assert forall i :: 0 <= i < |init| ==> s[i] == init[i];
    }
  }

  /** FilterMap emits exactly one output per input `f` accepts, in input
      order, and nothing else: output `k` is the image of input `Kept[k]`,
      the kept positions increase, and a position is kept exactly when `f`
      accepts the input there. */
  lemma {:induction false} FilterMapKeeps<A, B>(s: seq<A>, f: A -> Option<B>)
    ensures |FilterMap(s, f)| == |Kept(s, f)|
    ensures StrictlyIncreasing(Kept(s, f))
    ensures forall k :: 0 <= k < |Kept(s, f)| ==> Kept(s, f)[k] < |s|
    ensures forall k :: 0 <= k < |Kept(s, f)| ==>
              f(s[Kept(s, f)[k]]) == Some(FilterMap(s, f)[k])
    ensures forall i :: 0 <= i < |s| ==> (f(s[i]).Some? <==> i in Kept(s, f))
  {
    KeptIncreasing(s, f);
    KeptExactly(s, f);
    if |s| > 0 {
      var init := s[..|s| - 1];
      FilterMapKeeps(init, f);
      var out, idx := FilterMap(s, f), Kept(s, f);
      var out', idx' := FilterMap(init, f), Kept(init, f);
      assert out[..|out'|] == out' && idx[..|idx'|] == idx';
      forall k | 0 <= k < |idx|
        ensures f(s[idx[k]]) == Some(out[k])
      {
        if k < |idx'| {
          assert idx[k] == idx'[k] && out[k] == out'[k];
          assert s[idx'[k]] == init[idx'[k]];
        }
      }
    }
  }

  /** Filtering a concatenation filters each part. */
  lemma {:induction false} FilterMapAppend<A, B>(s: seq<A>, t: seq<A>, f: A -> Option<B>)
    ensures FilterMap(s + t, f) == FilterMap(s, f) + FilterMap(t, f)
    decreases |t|
  {
    if |t| > 0 {
      var t' := t[..|t| - 1];
      FilterMapAppend(s, t', f);
      assert (s + t)[..|s + t| - 1] == s + t';
      assert (s + t)[|s + t| - 1] == t[|t| - 1];
    } else {
      assert s + t == s;
    }
  }

  /** The last element, absent for an empty sequence. */
  function Last<T>(s: seq<T>): Option<T> {
    if |s| == 0 then None else Some(s[|s| - 1])
  }
}
