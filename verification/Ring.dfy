/** A circular doubly linked list in two arrays of links, and the sequence of its nodes. */
module Ring {
  import opened Lists

  ghost predicate EdgeAt(next: seq<nat>, prev: seq<nat>, xs: seq<nat>, k: nat) {
    && k < |xs| && xs[k] < |next| && Succ(xs, k) < |prev|
    && next[xs[k]] == Succ(xs, k) && prev[Succ(xs, k)] == xs[k]
  }

  ghost predicate IsRing(next: seq<nat>, prev: seq<nat>, xs: seq<nat>) {
    && |next| == |prev| && xs != [] && Distinct(xs)
    && forall k: nat :: k < |xs| ==> EdgeAt(next, prev, xs, k)
  }

  // `b->next->prev = b->prev; b->prev->next = b->next`.
  lemma Unlink(next: seq<nat>, prev: seq<nat>, xs: seq<nat>, i: nat)
    requires IsRing(next, prev, xs) && 0 < i < |xs|
    ensures var b := xs[i];
      && b < |next| && next[b] < |prev| && prev[b] < |next|
      && IsRing(next[prev[b] := next[b]], prev[next[b] := prev[b]], RemoveAt(xs, i))
  {
    var b, ys := xs[i], RemoveAt(xs, i);
    assert EdgeAt(next, prev, xs, i) && EdgeAt(next, prev, xs, i - 1);
    var next', prev' := next[prev[b] := next[b]], prev[next[b] := prev[b]];
    forall k: nat | k < |ys| ensures EdgeAt(next', prev', ys, k) {
      RemovedEdge(next, prev, xs, i, k);
    }
    RemovedDistinct(xs, i);
  }

  lemma RemovedDistinct(xs: seq<nat>, i: nat)
    requires Distinct(xs) && i < |xs|
    ensures Distinct(RemoveAt(xs, i))
  {
    forall j, k | 0 <= j < k < |xs| - 1 ensures RemoveAt(xs, i)[j] != RemoveAt(xs, i)[k] {
      RemoveNth(xs, i, j);
      RemoveNth(xs, i, k);
    }
  }

  lemma RemovedEdge(next: seq<nat>, prev: seq<nat>, xs: seq<nat>, i: nat, k: nat)
    requires IsRing(next, prev, xs) && 0 < i < |xs| && k < |xs| - 1
    requires xs[i] < |next| && next[xs[i]] == Succ(xs, i) < |prev| && prev[xs[i]] == xs[i - 1] < |next|
    ensures EdgeAt(next[xs[i - 1] := Succ(xs, i)], prev[Succ(xs, i) := xs[i - 1]], RemoveAt(xs, i), k)
  {
    hide RemoveAt;
    RemoveNth(xs, i, k);
    RemoveNth(xs, i, 0);
    if k + 1 < |xs| - 1 { RemoveNth(xs, i, k + 1); }
    assert EdgeAt(next, prev, xs, if k < i then k else k + 1);
    assert EdgeAt(next, prev, xs, i);
  }

  // `b->next = head.next; b->prev = &head; head.next->prev = b; head.next = b`, head being xs[0].
  lemma LinkFront(next: seq<nat>, prev: seq<nat>, xs: seq<nat>, b: nat)
    requires IsRing(next, prev, xs) && b !in xs && b < |next|
    ensures xs[0] < |next| && next[xs[0]] < |prev|
    ensures IsRing(next[b := next[xs[0]]][xs[0] := b], prev[b := xs[0]][next[xs[0]] := b], InsertAt(xs, 1, b))
  {
    hide InsertAt;
    var f, ys := Succ(xs, 0), InsertAt(xs, 1, b);
    assert EdgeAt(next, prev, xs, 0);
    var next', prev' := next[b := f][xs[0] := b], prev[b := xs[0]][f := b];
    forall k: nat | k < |ys| ensures EdgeAt(next', prev', ys, k) {
      InsertNth(xs, 1, b, k);
      InsertNth(xs, 1, b, 0);
      if k < |xs| { InsertNth(xs, 1, b, k + 1); }
      if k > 1 { assert EdgeAt(next, prev, xs, k - 1); }
    }
    forall j, k | 0 <= j < k < |ys| ensures ys[j] != ys[k] {
      InsertNth(xs, 1, b, j);
      InsertNth(xs, 1, b, k);
    }
  }
}
