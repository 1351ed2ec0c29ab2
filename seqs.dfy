/** Sequence helpers: mapping every element to a sequence and
    concatenating the results, in order. */
module Seqs {
  /** `xs.iter().flat_map(f)`: the pieces of every element, in order. */
  function ConcatMap<A, B>(xs: seq<A>, f: A -> seq<B>): (r: seq<B>)
    ensures xs == [] ==> r == []
  {
    if xs == [] then [] else ConcatMap(xs[..|xs| - 1], f) + f(xs[|xs| - 1])
  }

  lemma ConcatMapSnoc<A, B>(xs: seq<A>, x: A, f: A -> seq<B>)
    ensures ConcatMap(xs + [x], f) == ConcatMap(xs, f) + f(x)
  {
    assert (xs + [x])[..|xs|] == xs;
  }

  /** The pieces of two sequences are the pieces of the first followed by
      those of the second. */
  lemma {:induction false} ConcatMapAppend<A, B>(a: seq<A>, b: seq<A>, f: A -> seq<B>)
    ensures ConcatMap(a + b, f) == ConcatMap(a, f) + ConcatMap(b, f)
    decreases |b|
  {
    if b == [] {
      assert a + b == a;
    } else {
      var c := b[..|b| - 1];
      var x := b[|b| - 1];
      assert a + b == (a + c) + [x];
      assert b == c + [x];
      ConcatMapSnoc(a + c, x, f);
      ConcatMapSnoc(c, x, f);
      ConcatMapAppend(a, c, f);
    }
  }

  /** Every piece comes from some element, and every piece of every
      element is there. */
  lemma {:induction false} ConcatMapMembers<A, B>(xs: seq<A>, f: A -> seq<B>)
    ensures forall y | y in ConcatMap(xs, f) :: exists k | 0 <= k < |xs| :: y in f(xs[k])
    ensures forall k, y | 0 <= k < |xs| && y in f(xs[k]) :: y in ConcatMap(xs, f)
  {
    if xs != [] {
      var init := xs[..|xs| - 1];
      ConcatMapMembers(init, f);
      assert forall k | 0 <= k < |init| :: xs[k] == init[k];
    }
  }
}
