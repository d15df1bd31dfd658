/** Order-preserving filter-map over sequences, the shape shared by URL-line
    filtering and pair-to-card selection. */
module Seqs {
  import opened Types

  /** Keeps `f(x).value` for every `x` of `xs` on which `f` yields `Some`, in order. */
  function FilterMap<A, B>(f: A -> Option<B>, xs: seq<A>): (r: seq<B>)
    ensures |r| <= |xs|
    ensures forall i :: 0 <= i < |xs| && f(xs[i]).Some? ==> f(xs[i]).value in r
    decreases |xs|
  {
    if xs == [] then []
    else
      var init := FilterMap(f, xs[..|xs| - 1]);
      assert forall i :: 0 <= i < |xs| - 1 ==> xs[..|xs| - 1][i] == xs[i];
      match f(xs[|xs| - 1])
      case None => init
      case Some(y) => init + [y]
  }

  /** Nothing is kept exactly when `f` yields `None` on every element. */
  lemma {:induction false} FilterMapEmpty<A, B>(f: A -> Option<B>, xs: seq<A>)
    ensures FilterMap(f, xs) == [] <==> forall i :: 0 <= i < |xs| ==> f(xs[i]).None?
    decreases |xs|
  {
    if xs != [] {
      var init := xs[..|xs| - 1];
      FilterMapEmpty(f, init);
      assert forall i :: 0 <= i < |init| ==> init[i] == xs[i];
    }
  }

  /** The positions in `xs` whose elements `FilterMap` keeps, in increasing order. */
  function KeptIndices<A, B>(f: A -> Option<B>, xs: seq<A>): seq<nat>
    decreases |xs|
  {
    if xs == [] then []
    else
      var init := KeptIndices(f, xs[..|xs| - 1]);
      if f(xs[|xs| - 1]).Some? then init + [|xs| - 1] else init
  }

  ghost predicate StrictlyIncreasing(idx: seq<nat>) {
    forall k, l :: 0 <= k < l < |idx| ==> idx[k] < idx[l]
  }

  /** `r` is exactly the subsequence of `xs` picked out by `idx`, mapped through `f`:
      every picked element yields `Some`, every unpicked one yields `None`, and the
      picks are in increasing position order. */
  ghost predicate IsOrderedSelection<A, B>(f: A -> Option<B>, xs: seq<A>, r: seq<B>, idx: seq<nat>) {
    && |idx| == |r|
    && StrictlyIncreasing(idx)
    && (forall k :: 0 <= k < |idx| ==> idx[k] < |xs| && f(xs[idx[k]]) == Some(r[k]))
    && (forall i :: 0 <= i < |xs| ==> (i in idx <==> f(xs[i]).Some?))
  }

  /** The kept positions are valid and strictly increasing. */
  lemma {:induction false} KeptIndicesIncreasing<A, B>(f: A -> Option<B>, xs: seq<A>)
    ensures forall k :: 0 <= k < |KeptIndices(f, xs)| ==> KeptIndices(f, xs)[k] < |xs|
    ensures StrictlyIncreasing(KeptIndices(f, xs))
    decreases |xs|
  {
    if xs != [] {
      KeptIndicesIncreasing(f, xs[..|xs| - 1]);
    }
  }

  /** A position is kept exactly when `f` succeeds on the element there. */
  lemma {:induction false} KeptIndicesExact<A, B>(f: A -> Option<B>, xs: seq<A>)
    ensures forall i :: 0 <= i < |xs| ==> (i in KeptIndices(f, xs) <==> f(xs[i]).Some?)
    decreases |xs|
  {
    if xs != [] {
      var init := xs[..|xs| - 1];
      KeptIndicesExact(f, init);
      KeptIndicesIncreasing(f, init);
      assert forall i :: 0 <= i < |init| ==> init[i] == xs[i];
      assert |init| !in KeptIndices(f, init);
    }
  }

  /** The k-th kept value is what `f` yields at the k-th kept position. */
  lemma {:induction false} KeptIndicesMatchValues<A, B>(f: A -> Option<B>, xs: seq<A>)
    ensures |KeptIndices(f, xs)| == |FilterMap(f, xs)|
    ensures forall k :: 0 <= k < |KeptIndices(f, xs)| ==>
      KeptIndices(f, xs)[k] < |xs| && f(xs[KeptIndices(f, xs)[k]]) == Some(FilterMap(f, xs)[k])
    decreases |xs|
  {
    if xs != [] {
      var init := xs[..|xs| - 1];
      KeptIndicesMatchValues(f, init);
      assert forall i :: 0 <= i < |init| ==> init[i] == xs[i];
    }
  }

  /** `FilterMap` keeps precisely the elements on which `f` succeeds, and keeps them in order. */
  lemma {:induction false} FilterMapIsOrderedSelection<A, B>(f: A -> Option<B>, xs: seq<A>)
    ensures IsOrderedSelection(f, xs, FilterMap(f, xs), KeptIndices(f, xs))
  {
    KeptIndicesIncreasing(f, xs);
    KeptIndicesExact(f, xs);
    KeptIndicesMatchValues(f, xs);
  }

  /** A sequence is its prefix, the element at `k`, and its suffix. */
  lemma SplitAt<T>(s: seq<T>, k: nat)
    requires k < |s|
    ensures s == (s[..k] + [s[k]]) + s[k + 1..]
  {
  }

  /** Dropping the last element of `a + b`, for non-empty `b`, drops it from `b`. */
  lemma LastSplit<T>(a: seq<T>, b: seq<T>)
    requires b != []
    ensures (a + b)[..|a + b| - 1] == a + b[..|b| - 1]
    ensures (a + b)[|a + b| - 1] == b[|b| - 1]
  {
  }

  /** Replacing the element at `k` leaves the elements before and after it alone. */
  lemma UpdateKeepsRest<T>(s: seq<T>, k: nat, v: T)
    requires k < |s|
    ensures s[k := v][..k] == s[..k]
    ensures s[k := v][k + 1..] == s[k + 1..]
  {
  }
}
