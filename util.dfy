/** The conventional optional value. */
module Wrappers {
  datatype Option<+T> = None | Some(value: T)
}

/** Flattening a sequence through a function, the shape every expansion in the model has. */
module Seqs {

  lemma AppendAssoc<A>(xs: seq<A>, ys: seq<A>, zs: seq<A>)
    ensures xs + (ys + zs) == (xs + ys) + zs
  {
  }

  lemma EmptyAppend<A>(xs: seq<A>, ys: seq<A>)
    requires xs == []
    ensures xs + ys == ys
  {
  }

  lemma AppendEmpty<A>(xs: seq<A>, ys: seq<A>)
    requires ys == []
    ensures xs + ys == xs
  {
  }

  lemma HeadTail<A>(xs: seq<A>, ys: seq<A>)
    requires xs != []
    ensures (xs + ys)[0] == xs[0] && (xs + ys)[1..] == xs[1..] + ys
  {
  }

  lemma LastSplit<A>(xs: seq<A>)
    requires xs != []
    ensures xs == xs[..|xs| - 1] + [xs[|xs| - 1]]
  {
  }

  lemma SnocPair<A>(xs: seq<A>, x: A, y: A)
    ensures xs + [x] + [y] == xs + [x, y]
  {
  }

  lemma AppendPair<A>(pre: seq<A>, xs: seq<A>, x: A, y: A)
    ensures pre + xs + [x] + [y] == pre + (xs + [x, y])
  {
  }

  lemma Regroup<A>(xs: seq<A>, x: A, ys: seq<A>, zs: seq<A>)
    ensures xs + [x] + (ys + zs) == (xs + ([x] + ys)) + zs
  {
  }

  lemma RegroupPair<A>(pre: seq<A>, xs: seq<A>, x: A, y: A, zs: seq<A>)
    ensures pre + xs + [x] + ([y] + zs) == pre + ((xs + [x, y]) + zs)
  {
  }

  /** The concatenation of f(xs[0]), f(xs[1]), ..., in order. */
  function FlatMap<A, B>(xs: seq<A>, f: A -> seq<B>): seq<B>
  {
    if xs == [] then [] else FlatMap(xs[..|xs| - 1], f) + f(xs[|xs| - 1])
  }

  lemma {:induction false} FlatMapAppend<A, B>(xs: seq<A>, ys: seq<A>, f: A -> seq<B>)
    ensures FlatMap(xs + ys, f) == FlatMap(xs, f) + FlatMap(ys, f)
    decreases |ys|
  {
    if ys == [] {
      assert xs + ys == xs;
    } else {
      var ys' := ys[..|ys| - 1];
      assert (xs + ys)[..|xs + ys| - 1] == xs + ys';
      FlatMapAppend(xs, ys', f);
    }
  }

  lemma FlatMapSingle<A, B>(x: A, f: A -> seq<B>)
    ensures FlatMap([x], f) == f(x)
  {
    assert [x][..0] == [];
  }

  lemma FlatMapSplit<A, B>(xs: seq<A>, n: nat, f: A -> seq<B>)
    requires n <= |xs|
    ensures FlatMap(xs, f) == FlatMap(xs[..n], f) + FlatMap(xs[n..], f)
  {
    assert xs == xs[..n] + xs[n..];
    FlatMapAppend(xs[..n], xs[n..], f);
  }

  lemma {:induction false} FlatMapEmpty<A, B>(xs: seq<A>, f: A -> seq<B>)
    requires forall x <- xs :: f(x) == []
    ensures FlatMap(xs, f) == []
    decreases |xs|
  {
    if xs != [] {
      FlatMapEmpty(xs[..|xs| - 1], f);
    }
  }

  /** Flattening a prefix of xs gives a prefix of the flattening of xs. */
  lemma FlatMapPrefix<A, B>(xs: seq<A>, n: nat, f: A -> seq<B>)
    requires n <= |xs|
    ensures FlatMap(xs[..n], f) <= FlatMap(xs, f)
  {
    FlatMapSplit(xs, n, f);
  }

  /** An element of the flattening comes from the image of some element, and every such image is included. */
  lemma {:induction false} FlatMapMember<A, B>(xs: seq<A>, f: A -> seq<B>, y: B)
    ensures y in FlatMap(xs, f) <==> exists x :: x in xs && y in f(x)
    decreases |xs|
  {
    if xs != [] {
      var init, last := xs[..|xs| - 1], xs[|xs| - 1];
      FlatMapMember(init, f, y);
      assert xs == init + [last];
      forall x | x in xs ensures x in init || x == last { }
    }
  }
}
