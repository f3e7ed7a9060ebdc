/**
  Keeping the present values of a sequence of optional values: the shape of
  an adapter loop that appends a row for some inputs and skips the others.
*/
module Seqs {
  import opened Wrappers

  /** `f` applied to every element of `xs`. */
  function MapSeq<A, B>(f: A -> B, xs: seq<A>): (ys: seq<B>)
    ensures |ys| == |xs|
    ensures forall k :: 0 <= k < |xs| ==> ys[k] == f(xs[k])
  {
    seq(|xs|, k requires 0 <= k < |xs| => f(xs[k]))
  }

  /** Mapping distributes over concatenation. */
  lemma MapAppend<A, B>(f: A -> B, a: seq<A>, b: seq<A>)
    ensures MapSeq(f, a + b) == MapSeq(f, a) + MapSeq(f, b)
  {
    assert forall k :: 0 <= k < |a + b| ==> MapSeq(f, a + b)[k] == (MapSeq(f, a) + MapSeq(f, b))[k];
  }

  /** Mapping a prefix one element longer appends that element's image. */
  lemma MapSnoc<A, B>(f: A -> B, xs: seq<A>, i: nat)
    requires i < |xs|
    ensures MapSeq(f, xs[..i + 1]) == MapSeq(f, xs[..i]) + [f(xs[i])]
  {
    assert xs[..i + 1] == xs[..i] + [xs[i]];
    MapAppend(f, xs[..i], [xs[i]]);
  }

  /** The present values of `xs`, in order. */
  function Somes<T>(xs: seq<Option<T>>): seq<T>
    decreases |xs|
  {
    if xs == [] then []
    else Somes(xs[..|xs| - 1]) + (if xs[|xs| - 1].Some? then [xs[|xs| - 1].value] else [])
  }

  /** A single value keeps itself when present and nothing when absent. */
  lemma SomesSingleton<T>(x: Option<T>)
    ensures Somes([x]) == (if x.Some? then [x.value] else [])
  {
    assert [x][..0] == [];
  }

  /** The positions of the present values of `xs`, in order. */
  function Present<T>(xs: seq<Option<T>>): seq<nat>
    decreases |xs|
  {
    if xs == [] then []
    else Present(xs[..|xs| - 1]) + (if xs[|xs| - 1].Some? then [|xs| - 1] else [])
  }

  /** One present position per kept value, and no more than there are positions. */
  lemma {:induction false} SomesLength<T>(xs: seq<Option<T>>)
    ensures |Somes(xs)| == |Present(xs)| <= |xs|
    decreases |xs|
  {
    if xs != [] {
      SomesLength(xs[..|xs| - 1]);
    }
  }

  /** The k-th kept value is the one at the k-th present position, and those positions increase. */
  lemma {:induction false} SomesAtPositions<T>(xs: seq<Option<T>>)
    ensures |Somes(xs)| == |Present(xs)|
    ensures forall k :: 0 <= k < |Present(xs)| ==> Present(xs)[k] < |xs| && xs[Present(xs)[k]] == Some(Somes(xs)[k])
    ensures forall k, m :: 0 <= k < m < |Present(xs)| ==> Present(xs)[k] < Present(xs)[m]
    decreases |xs|
  {
    SomesLength(xs);
    if xs != [] {
      var front := xs[..|xs| - 1];
      SomesAtPositions(front);
      var vs, ps := Somes(xs), Present(xs);
      var fv, fp := Somes(front), Present(front);
      assert forall k :: 0 <= k < |fp| ==> ps[k] == fp[k] && vs[k] == fv[k];
      assert forall k :: 0 <= k < |fp| ==> xs[fp[k]] == front[fp[k]];
    }
  }

  /** A position missing from the present positions holds no value. */
  lemma {:induction false} AbsentOutsidePositions<T>(xs: seq<Option<T>>, j: nat)
    requires j < |xs| && j !in Present(xs)
    ensures xs[j].None?
    decreases |xs|
  {
    var front := xs[..|xs| - 1];
    if j < |xs| - 1 {
      assert j !in Present(front);
      AbsentOutsidePositions(front, j);
    }
  }

  /**
    At most one value per position, in position order: the k-th kept value
    is the one at the k-th present position, those positions increase
    strictly, and every position not among them is absent.
  */
  lemma SomesFollowPositions<T>(xs: seq<Option<T>>)
    ensures var vs, ps := Somes(xs), Present(xs);
      && |vs| == |ps| <= |xs|
      && (forall k :: 0 <= k < |ps| ==> ps[k] < |xs| && xs[ps[k]] == Some(vs[k]))
      && (forall k, m :: 0 <= k < m < |ps| ==> ps[k] < ps[m])
      && (forall j :: 0 <= j < |xs| && j !in ps ==> xs[j].None?)
  {
    SomesLength(xs);
    SomesAtPositions(xs);
    forall j | 0 <= j < |xs| && j !in Present(xs) ensures xs[j].None? {
      AbsentOutsidePositions(xs, j);
    }
  }

  /** Keeping the values of two blocks one after the other keeps each block's values in turn. */
  lemma {:induction false} SomesAppend<T>(a: seq<Option<T>>, b: seq<Option<T>>)
    ensures Somes(a + b) == Somes(a) + Somes(b)
    decreases |b|
  {
    if b == [] {
      assert a + b == a;
    } else {
      var b' := b[..|b| - 1];
      assert (a + b)[..|a + b| - 1] == a + b';
      SomesAppend(a, b');
    }
  }

  /** The elements of the blocks of `xss`, block after block. */
  function Concat<T>(xss: seq<seq<T>>): seq<T>
    decreases |xss|
  {
    if xss == [] then [] else Concat(xss[..|xss| - 1]) + xss[|xss| - 1]
  }

  /** The total number of elements of the blocks. */
  function TotalLength<T>(xss: seq<seq<T>>): nat
    decreases |xss|
  {
    if xss == [] then 0 else TotalLength(xss[..|xss| - 1]) + |xss[|xss| - 1]|
  }

  /** The concatenation is as long as all the blocks together. */
  lemma {:induction false} ConcatLength<T>(xss: seq<seq<T>>)
    ensures |Concat(xss)| == TotalLength(xss)
    decreases |xss|
  {
    if xss != [] {
      ConcatLength(xss[..|xss| - 1]);
    }
  }

  /**
    Block `k` sits unchanged in the concatenation, starting where the blocks
    before it end.
  */
  lemma {:induction false} ConcatBlock<T>(xss: seq<seq<T>>, k: nat)
    requires k < |xss|
    ensures var start := TotalLength(xss[..k]);
      start + |xss[k]| <= |Concat(xss)| && Concat(xss)[start..start + |xss[k]|] == xss[k]
    decreases |xss|
  {
    var front := xss[..|xss| - 1];
    ConcatLength(xss);
    ConcatLength(front);
    if k < |xss| - 1 {
      ConcatBlock(front, k);
      assert front[..k] == xss[..k];
    } else {
      assert xss[..k] == front;
    }
  }

  /** The blocks hold no elements at all exactly when every block is empty. */
  lemma {:induction false} TotalLengthZero<T>(xss: seq<seq<T>>)
    ensures TotalLength(xss) == 0 <==> forall k :: 0 <= k < |xss| ==> xss[k] == []
    decreases |xss|
  {
    if xss != [] {
      var front := xss[..|xss| - 1];
      TotalLengthZero(front);
      assert forall k :: 0 <= k < |front| ==> front[k] == xss[k];
    }
  }
}
