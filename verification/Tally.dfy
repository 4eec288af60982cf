/** Counting the entries of a list that belong to one key. */
module Tally {
  function One(b: bool): nat { if b then 1 else 0 }

  /** Something a thread or a log holds on behalf of a key. */
  datatype Entry<K, C> = Entry(key: K, item: C)

  function Count<K(==), C>(xs: seq<Entry<K, C>>, k: K): nat {
    if xs == [] then 0 else (if xs[0].key == k then 1 else 0) + Count(xs[1..], k)
  }

  lemma {:induction false} CountAppend<K, C>(xs: seq<Entry<K, C>>, ys: seq<Entry<K, C>>, k: K)
    ensures Count(xs + ys, k) == Count(xs, k) + Count(ys, k)
  {
    if xs == [] {
      assert xs + ys == ys;
    } else {
      assert (xs + ys)[1..] == xs[1..] + ys;
      CountAppend(xs[1..], ys, k);
    }
  }

  lemma CountSnoc<K, C>(xs: seq<Entry<K, C>>, x: Entry<K, C>, k: K)
    ensures Count(xs + [x], k) == Count(xs, k) + if x.key == k then 1 else 0
  {
    CountAppend(xs, [x], k);
    assert [x][1..] == [];
  }

  function Without<K, C>(xs: seq<Entry<K, C>>, i: nat): seq<Entry<K, C>>
    requires i < |xs|
  {
    xs[..i] + xs[i + 1..]
  }

  lemma CountWithout<K, C>(xs: seq<Entry<K, C>>, i: nat, k: K)
    requires i < |xs|
    ensures Count(Without(xs, i), k) + (if xs[i].key == k then 1 else 0) == Count(xs, k)
  {
    assert xs == xs[..i] + xs[i..];
    assert xs[i..][1..] == xs[i + 1..];
    CountAppend(xs[..i], xs[i..], k);
    CountAppend(xs[..i], xs[i + 1..], k);
  }

  lemma {:induction false} CountPositive<K, C>(xs: seq<Entry<K, C>>, i: nat)
    requires i < |xs|
    ensures Count(xs, xs[i].key) >= 1
  {
    if i > 0 {
      assert xs[i] == xs[1..][i - 1];
      CountPositive(xs[1..], i - 1);
    }
  }

  /** With at most one entry per key, two different positions hold different keys. */
  lemma DistinctKeys<K, C>(xs: seq<Entry<K, C>>, i: nat, j: nat)
    requires i < j < |xs| && Count(xs, xs[i].key) <= 1
    ensures xs[i].key != xs[j].key
  {
    if xs[i].key == xs[j].key {
      CountWithout(xs, i, xs[i].key);
      assert Without(xs, i)[j - 1] == xs[j];
      CountPositive(Without(xs, i), j - 1);
    }
  }
}
