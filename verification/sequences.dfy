/** Folds, sums and flattening of sequences. */
module Sequences {
  import opened Wrappers

  function Map<A, B>(f: A -> B, xs: seq<A>): seq<B> {
    seq(|xs|, i requires 0 <= i < |xs| => f(xs[i]))
  }

  lemma MapConcat<A, B>(f: A -> B, xs: seq<A>, ys: seq<A>)
    ensures Map(f, xs + ys) == Map(f, xs) + Map(f, ys)
  {}

  lemma MapOne<A, B>(f: A -> B, x: A)
    ensures Map(f, [x]) == [f(x)]
  {}

  lemma MapInverse<A, B(!new)>(f: A -> B, g: B -> A, xs: seq<B>)
    requires forall x :: f(g(x)) == x
    ensures Map(f, Map(g, xs)) == xs
  {}

  function Fold<A, B>(f: (A, B) -> A, acc: A, xs: seq<B>): A {
    if xs == [] then acc else Fold(f, f(acc, xs[0]), xs[1..])
  }

  lemma FoldNone<A, B>(f: (A, B) -> A, acc: A)
    ensures Fold(f, acc, []) == acc
  {}

  lemma {:induction false} FoldConcat<A, B>(f: (A, B) -> A, acc: A, xs: seq<B>, ys: seq<B>)
    ensures Fold(f, acc, xs + ys) == Fold(f, Fold(f, acc, xs), ys)
  {
    if xs == [] {
      assert xs + ys == ys;
    } else {
      assert (xs + ys)[1..] == xs[1..] + ys;
      FoldConcat(f, f(acc, xs[0]), xs[1..], ys);
    }
  }

  lemma FoldSnoc<A, B>(f: (A, B) -> A, acc: A, xs: seq<B>, x: B)
    ensures Fold(f, acc, xs + [x]) == f(Fold(f, acc, xs), x)
  {
    FoldConcat(f, acc, xs, [x]);
  }

  /** No item or one. */
  function Maybe<A>(o: Option<A>): seq<A> {
    if o.Some? then [o.value] else []
  }

  lemma FoldMaybe<A, B>(f: (A, B) -> A, acc: A, xs: seq<B>, o: Option<B>)
    ensures Fold(f, acc, xs + Maybe(o)) == if o.Some? then f(Fold(f, acc, xs), o.value) else Fold(f, acc, xs)
  {
    if o.Some? {
      FoldSnoc(f, acc, xs, o.value);
    } else {
      assert xs + [] == xs;
    }
  }

  /** What `pick` picks last. */
  function LastOf<A, T>(pick: A -> Option<T>, xs: seq<A>): Option<T> {
    if xs == [] then None
    else
      var n := |xs| - 1;
      if pick(xs[n]).Some? then pick(xs[n]) else LastOf(pick, xs[..n])
  }

  lemma LastSnoc<A, T>(pick: A -> Option<T>, xs: seq<A>, x: A)
    ensures LastOf(pick, xs + [x]) == if pick(x).Some? then pick(x) else LastOf(pick, xs)
  {
    assert (xs + [x])[..|xs|] == xs;
  }

  lemma LastMaybe<A, T>(pick: A -> Option<T>, xs: seq<A>, o: Option<A>)
    ensures LastOf(pick, xs + Maybe(o))
            == if o.Some? && pick(o.value).Some? then pick(o.value) else LastOf(pick, xs)
  {
    if o.Some? {
      LastSnoc(pick, xs, o.value);
    } else {
      assert xs + [] == xs;
    }
  }

  lemma LastOfThree<A, T>(pick: A -> Option<T>, x: A, y: A, z: A, more: Option<A>)
    ensures LastOf(pick, [x, y, z] + Maybe(more))
            == if more.Some? && pick(more.value).Some? then pick(more.value)
               else if pick(z).Some? then pick(z)
               else if pick(y).Some? then pick(y)
               else pick(x)
  {
    LastMaybe(pick, [x, y, z], more);
    assert [] + [x] == [x] && [x] + [y] == [x, y] && [x, y] + [z] == [x, y, z];
    LastSnoc(pick, [x, y], z);
    LastSnoc(pick, [x], y);
    LastSnoc(pick, [], x);
  }

  /** A fold in which every item that is picked decides a property, and no other item changes it, leaves what the last
      one says. */
  lemma {:induction false} FoldIsLast<S(!new), A(!new), T, R>(f: (S, A) -> S, get: S -> R, pick: A -> Option<T>,
                                                            show: T -> R, acc: S, xs: seq<A>)
    requires forall s, a :: get(f(s, a)) == if pick(a).Some? then show(pick(a).value) else get(s)
    ensures get(Fold(f, acc, xs)) == if LastOf(pick, xs).Some? then show(LastOf(pick, xs).value) else get(acc)
    decreases |xs|
  {
    if xs != [] {
      var n := |xs| - 1;
      FoldIsLast(f, get, pick, show, acc, xs[..n]);
      assert xs == xs[..n] + [xs[n]];
      FoldSnoc(f, acc, xs[..n], xs[n]);
    }
  }

  function Flatten<A>(xss: seq<seq<A>>): seq<A> {
    if xss == [] then [] else xss[0] + Flatten(xss[1..])
  }

  lemma {:induction false} FlattenConcat<A>(xss: seq<seq<A>>, yss: seq<seq<A>>)
    ensures Flatten(xss + yss) == Flatten(xss) + Flatten(yss)
  {
    if xss == [] {
      assert xss + yss == yss;
    } else {
      assert (xss + yss)[1..] == xss[1..] + yss;
      FlattenConcat(xss[1..], yss);
    }
  }

  lemma FlattenOne<A>(xs: seq<A>)
    ensures Flatten([xs]) == xs
  {
    assert Flatten([xs]) == xs + Flatten<A>([]);
  }

  lemma FlattenSnoc<A>(xss: seq<seq<A>>, xs: seq<A>)
    ensures Flatten(xss + [xs]) == Flatten(xss) + xs
  {
    FlattenConcat(xss, [xs]);
    assert Flatten([xs]) == xs;
  }

  function Total<A>(size: A -> nat, xs: seq<A>): nat {
    if xs == [] then 0 else size(xs[0]) + Total(size, xs[1..])
  }

  lemma TotalNone<A>(size: A -> nat)
    ensures Total(size, []) == 0
  {}

  lemma {:induction false} TotalConcat<A>(size: A -> nat, xs: seq<A>, ys: seq<A>)
    ensures Total(size, xs + ys) == Total(size, xs) + Total(size, ys)
  {
    if xs == [] {
      assert xs + ys == ys;
    } else {
      assert (xs + ys)[1..] == xs[1..] + ys;
      TotalConcat(size, xs[1..], ys);
    }
  }

  lemma TotalSnoc<A>(size: A -> nat, xs: seq<A>, x: A)
    ensures Total(size, xs + [x]) == Total(size, xs) + size(x)
  {
    TotalConcat(size, xs, [x]);
    assert [x][1..] == [];
  }

  lemma TotalMaybe<A>(size: A -> nat, xs: seq<A>, o: Option<A>)
    ensures Total(size, xs + Maybe(o)) == Total(size, xs) + if o.Some? then size(o.value) else 0
  {
    if o.Some? {
      TotalSnoc(size, xs, o.value);
    } else {
      assert xs + [] == xs;
    }
  }

  lemma TotalPrefix<A>(size: A -> nat, xs: seq<A>, n: nat)
    requires n <= |xs|
    ensures Total(size, xs) == Total(size, xs[..n]) + Total(size, xs[n..])
  {
    TotalConcat(size, xs[..n], xs[n..]);
    assert xs[..n] + xs[n..] == xs;
  }
}
