/** Lists of numbers: their order, inserting and removing at an index, and the circle they are read as. */
module Lists {
  ghost predicate Distinct(xs: seq<nat>) {
    forall j, k :: 0 <= j < k < |xs| ==> xs[j] != xs[k]
  }

  ghost predicate Ascending(xs: seq<nat>) {
    forall j, k :: 0 <= j < k < |xs| ==> xs[j] < xs[k]
  }

  // The element behind xs[k], the list read as a circle.
  function Succ(xs: seq<nat>, k: nat): nat
    requires k < |xs|
  {
    if k + 1 < |xs| then xs[k + 1] else xs[0]
  }

  function InsertAt(xs: seq<nat>, i: nat, x: nat): (r: seq<nat>)
    requires i <= |xs|
    ensures |r| == |xs| + 1
  {
    xs[..i] + [x] + xs[i..]
  }

  function RemoveAt(xs: seq<nat>, i: nat): (r: seq<nat>)
    requires i < |xs|
    ensures |r| == |xs| - 1
  {
    xs[..i] + xs[i + 1..]
  }

  lemma InsertNth(xs: seq<nat>, i: nat, x: nat, j: nat)
    requires i <= |xs| && j <= |xs|
    ensures InsertAt(xs, i, x)[j] == if j < i then xs[j] else if j == i then x else xs[j - 1]
  {
  }

  lemma RemoveNth(xs: seq<nat>, i: nat, j: nat)
    requires i < |xs| && j < |xs| - 1
    ensures RemoveAt(xs, i)[j] == if j < i then xs[j] else xs[j + 1]
  {
  }

  lemma InsertHas(xs: seq<nat>, i: nat, x: nat, y: nat)
    requires i <= |xs|
    ensures y in InsertAt(xs, i, x) <==> y == x || y in xs
  {
    assert xs == xs[..i] + xs[i..];
    assert InsertAt(xs, i, x)[i] == x;
  }

  lemma RemoveHas(xs: seq<nat>, i: nat, y: nat)
    requires i < |xs| && Distinct(xs)
    ensures y in RemoveAt(xs, i) <==> y != xs[i] && y in xs
  {
    assert xs == xs[..i] + ([xs[i]] + xs[i + 1..]);
    assert xs[i] !in xs[..i] && xs[i] !in xs[i + 1..];
  }
}
