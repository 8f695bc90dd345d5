/** Repeated elements and concatenation. */
module Sequences {

  function Repeat<T>(x: T, n: nat): (r: seq<T>)
    ensures |r| == n
  {
    seq(n, _ => x)
  }

  lemma RepeatMore<T>(x: T, m: nat, n: nat)
    ensures Repeat(x, m) + Repeat(x, n) == Repeat(x, m + n)
  {
  }

  /** The concatenation of a sequence of sequences. */
  function Flatten<T>(xs: seq<seq<T>>): (r: seq<T>) {
    if xs == [] then [] else Flatten(xs[..|xs| - 1]) + xs[|xs| - 1]
  }

  lemma FlattenMore<T>(xs: seq<seq<T>>, x: seq<T>)
    ensures Flatten(xs + [x]) == Flatten(xs) + x
  {
    assert (xs + [x])[..|xs|] == xs;
  }

  lemma {:induction false} FlattenFirst<T>(x: seq<T>, xs: seq<seq<T>>)
    ensures Flatten([x] + xs) == x + Flatten(xs)
  {
    if xs == [] {
      assert [x] + xs == [] + [x];
      FlattenMore([], x);
      assert Flatten<T>([]) + x == x + Flatten<T>([]);
    } else {
      var xs', y := xs[..|xs| - 1], xs[|xs| - 1];
      FlattenFirst(x, xs');
      assert [x] + xs == ([x] + xs') + [y];
      FlattenMore([x] + xs', y);
      assert x + Flatten(xs') + y == x + (Flatten(xs') + y);
    }
  }

  /** Which bytes occur. */
  ghost function InUse(bytes: seq<int>): (r: seq<bool>)
    ensures |r| == 256 && forall c | 0 <= c < 256 :: r[c] <==> c in bytes
  {
    seq(256, c => c in bytes)
  }
}
