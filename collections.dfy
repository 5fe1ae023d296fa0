/** The two array operations the components build their lists with: `filter` by id and `slice(0, n)`. */
module Collections {
  /** `xs.filter(x => idOf(x) !== id)`. */
  function Without<T>(xs: seq<T>, idOf: T -> string, id: string): (r: seq<T>)
    ensures |r| <= |xs|
    ensures forall k :: 0 <= k < |r| ==> idOf(r[k]) != id
  {
    if xs == [] then []
    else if idOf(xs[0]) == id then Without(xs[1..], idOf, id)
    else [xs[0]] + Without(xs[1..], idOf, id)
  }

  /** Filtering a concatenation filters each part and keeps their order. */
  lemma {:induction false} WithoutConcat<T>(xs: seq<T>, ys: seq<T>, idOf: T -> string, id: string)
    ensures Without(xs + ys, idOf, id) == Without(xs, idOf, id) + Without(ys, idOf, id)
    decreases |xs|
  {
    if xs != [] {
      assert (xs + ys)[0] == xs[0];
      assert (xs + ys)[1..] == xs[1..] + ys;
      WithoutConcat(xs[1..], ys, idOf, id);
      assert Without(xs + ys, idOf, id)
          == if idOf(xs[0]) == id then Without(xs[1..] + ys, idOf, id) else [xs[0]] + Without(xs[1..] + ys, idOf, id);
      if idOf(xs[0]) != id {
        assert [xs[0]] + (Without(xs[1..], idOf, id) + Without(ys, idOf, id))
            == ([xs[0]] + Without(xs[1..], idOf, id)) + Without(ys, idOf, id);
      }
    } else {
      assert xs + ys == ys;
    }
  }

  /** A single entry survives exactly when its id differs. */
  lemma WithoutSingle<T>(x: T, idOf: T -> string, id: string)
    ensures Without([x], idOf, id) == if idOf(x) == id then [] else [x]
  {
    assert [x][1..] == [];
  }

  /** The entries kept are exactly those whose id differs. */
  lemma {:induction false} WithoutMembers<T>(xs: seq<T>, idOf: T -> string, id: string, x: T)
    ensures x in Without(xs, idOf, id) <==> x in xs && idOf(x) != id
    decreases |xs|
  {
    if xs != [] {
      WithoutMembers(xs[1..], idOf, id, x);
      assert xs == [xs[0]] + xs[1..];
    }
  }

  /** Removing an id nobody has changes nothing. */
  lemma {:induction false} WithoutAbsent<T>(xs: seq<T>, idOf: T -> string, id: string)
    requires forall k :: 0 <= k < |xs| ==> idOf(xs[k]) != id
    ensures Without(xs, idOf, id) == xs
    decreases |xs|
  {
    if xs != [] {
      WithoutAbsent(xs[1..], idOf, id);
      assert xs == [xs[0]] + xs[1..];
    }
  }

  /** Removing the id of an item just appended, which no earlier item has, gives back the list before. */
  lemma WithoutAppended<T>(xs: seq<T>, x: T, idOf: T -> string)
    requires forall k :: 0 <= k < |xs| ==> idOf(xs[k]) != idOf(x)
    ensures Without(xs + [x], idOf, idOf(x)) == xs
  {
    WithoutConcat(xs, [x], idOf, idOf(x));
    WithoutSingle(x, idOf, idOf(x));
    WithoutAbsent(xs, idOf, idOf(x));
    assert xs + [] == xs;
  }

  /** No two items share an id. */
  predicate DistinctBy<T>(xs: seq<T>, idOf: T -> string) {
    forall a, b :: 0 <= a < b < |xs| ==> idOf(xs[a]) != idOf(xs[b])
  }

  /** With distinct ids, the items before and after `i` keep their places when `i`'s id goes. */
  lemma WithoutOthersAbsent<T>(xs: seq<T>, idOf: T -> string, i: nat)
    requires i < |xs|
    requires DistinctBy(xs, idOf)
    ensures Without(xs[..i], idOf, idOf(xs[i])) == xs[..i]
    ensures Without(xs[i + 1..], idOf, idOf(xs[i])) == xs[i + 1..]
  {
    var id, before, after := idOf(xs[i]), xs[..i], xs[i + 1..];
    forall k | 0 <= k < |before| ensures idOf(before[k]) != id {
      assert before[k] == xs[k];
    }
    WithoutAbsent(before, idOf, id);
    forall k | 0 <= k < |after| ensures idOf(after[k]) != id {
      assert after[k] == xs[i + 1 + k];
    }
    WithoutAbsent(after, idOf, id);
  }

  /** With distinct ids, removing the id of the item at `i` removes exactly that item. */
  lemma WithoutUnique<T>(xs: seq<T>, idOf: T -> string, i: nat)
    requires i < |xs|
    requires DistinctBy(xs, idOf)
    ensures Without(xs, idOf, idOf(xs[i])) == xs[..i] + xs[i + 1..]
  {
    var id, before, after := idOf(xs[i]), xs[..i], xs[i + 1..];
    assert xs == before + [xs[i]] + after;
    WithoutConcat(before + [xs[i]], after, idOf, id);
    WithoutConcat(before, [xs[i]], idOf, id);
    WithoutSingle(xs[i], idOf, id);
    WithoutOthersAbsent(xs, idOf, i);
    assert before + [] == before;
  }

  /** `xs.map(x => x.id)`: the ids, in order. */
  function IdsOf<T>(xs: seq<T>, idOf: T -> string): (ids: seq<string>)
    ensures |ids| == |xs|
  {
    if xs == [] then [] else IdsOf(xs[..|xs| - 1], idOf) + [idOf(xs[|xs| - 1])]
  }

  /** The `k`-th id is the `k`-th item's. */
  lemma {:induction false} IdsOfAt<T>(xs: seq<T>, idOf: T -> string, k: nat)
    requires k < |xs|
    ensures IdsOf(xs, idOf)[k] == idOf(xs[k])
    decreases |xs|
  {
    if k < |xs| - 1 {
      IdsOfAt(xs[..|xs| - 1], idOf, k);
    }
  }

  /** `xs.slice(0, n)`: the first `n` items, or all of them when there are fewer. */
  function Take<T>(xs: seq<T>, n: nat): (r: seq<T>)
    ensures |r| == if n <= |xs| then n else |xs|
    ensures forall k :: 0 <= k < |r| ==> r[k] == xs[k]
  {
    if n <= |xs| then xs[..n] else xs
  }
}
