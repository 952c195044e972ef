/** Building a list by visiting a sequence in order and pushing the entries a
    per-element rule accepts: the shape of every `forEach ... push` loop in the blocks. */
module Collect {
  import opened Outcome

  /** The entries `f` yields for `xs`, in the order of `xs`. */
  function FilterMap<A, B>(f: A -> Option<B>, xs: seq<A>): (r: seq<B>)
    ensures |r| <= |xs|
  {
    if xs == [] then []
    else
      var init := FilterMap(f, xs[..|xs| - 1]);
      match f(xs[|xs| - 1])
      case Some(b) => init + [b]
      case None => init
  }

  /** The indices of `xs` that `f` accepts, in increasing order. */
  function Kept<A, B>(f: A -> Option<B>, xs: seq<A>): (r: seq<nat>)
  {
    if xs == [] then []
    else Kept(f, xs[..|xs| - 1]) + (if f(xs[|xs| - 1]).Some? then [|xs| - 1] else [])
  }

  /** Extending the visited prefix by one element pushes at most that element's entry. */
  lemma FilterMapSnoc<A, B>(f: A -> Option<B>, xs: seq<A>, i: nat)
    requires i < |xs|
    ensures FilterMap(f, xs[..i + 1]) == FilterMap(f, xs[..i]) + (match f(xs[i]) case Some(b) => [b] case None => [])
  {
    assert xs[..i + 1][..i] == xs[..i];
  }

  /** The entries are exactly the images of the accepted indices, in the order of
      the indices: nothing accepted is dropped, nothing rejected is kept, the order
      of `xs` is preserved and the count is the number of accepted elements. */
  lemma {:induction false} FilterMapKept<A, B>(f: A -> Option<B>, xs: seq<A>)
    ensures |FilterMap(f, xs)| == |Kept(f, xs)|
    ensures forall k :: 0 <= k < |Kept(f, xs)| ==> Kept(f, xs)[k] < |xs| && f(xs[Kept(f, xs)[k]]) == Some(FilterMap(f, xs)[k])
    ensures forall j, k :: 0 <= j < k < |Kept(f, xs)| ==> Kept(f, xs)[j] < Kept(f, xs)[k]
    ensures forall i :: 0 <= i < |xs| && f(xs[i]).Some? ==> i in Kept(f, xs)
  {
    if xs != [] {
      var n := |xs| - 1;
      var init := xs[..n];
      FilterMapKept(f, init);
      assert forall i :: 0 <= i < n ==> init[i] == xs[i];
    }
  }

  /** An index is kept only when `f` accepts the element there. */
  lemma {:induction false} KeptOnlyAccepted<A, B>(f: A -> Option<B>, xs: seq<A>, i: nat)
    requires i < |xs|
    ensures i in Kept(f, xs) <==> f(xs[i]).Some?
  {
    FilterMapKept(f, xs);
    if i in Kept(f, xs) {
      var k :| 0 <= k < |Kept(f, xs)| && Kept(f, xs)[k] == i;
    }
  }
}
