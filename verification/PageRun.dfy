/** The search of balloc_page for eight consecutive free blocks, as a function of the free bit map: it
    allocates free blocks one by one, lowest first, and keeps the last eight once they are consecutive. */
module PageRun {
  import opened Lists

  // The length of alloc_b.
  const NUM := 100000

  // A free bit map: m[c] says that block c is in use.
  type Map = seq<bool>

  ghost predicate FreeRun(m: Map, b: nat) {
    b + 8 <= |m| && forall c :: b <= c < b + 8 ==> !m[c]
  }

  // How many of the first e blocks are free.
  function FreeBelow(m: Map, e: nat): nat
    requires e <= |m|
  {
    if e == 0 then 0 else FreeBelow(m, e - 1) + (if m[e - 1] then 0 else 1)
  }

  lemma {:induction false} FreeBelowMonotone(m: Map, a: nat, e: nat)
    requires a <= e <= |m|
    ensures FreeBelow(m, a) <= FreeBelow(m, e)
    ensures (forall c :: a <= c < e ==> m[c]) ==> FreeBelow(m, a) == FreeBelow(m, e)
    decreases e
  {
    if a < e { FreeBelowMonotone(m, a, e - 1); }
  }

  // The end of what a search with the allocations xs has gone through.
  function End(xs: seq<nat>): nat {
    if xs == [] then 0 else xs[|xs| - 1] + 1
  }

  // The lowest free block.
  ghost predicate Lowest(m: Map, b: nat) {
    b < |m| && !m[b] && forall c :: 0 <= c < b ==> m[c]
  }

  // m is m0 after the free blocks xs, in this order, were allocated by balloc and nothing was freed.
  ghost predicate Searched(m0: Map, m: Map, xs: seq<nat>) {
    && |m| == |m0| && End(xs) <= |m| && FreeBelow(m0, End(xs)) == |xs| && Ascending(xs)
    && (forall k :: 0 <= k < |xs| ==> xs[k] < |m| && !m0[xs[k]])
    && (forall c :: 0 <= c < |m| ==> (m[c] <==> m0[c] || c in xs))
    && (forall c :: 0 <= c < End(xs) ==> m[c])
  }

  // The last t allocations are consecutive, and no run of eight free blocks starts before them.
  ghost predicate Tail(m0: Map, xs: seq<nat>, t: nat) {
    && t <= |xs| && (xs != [] ==> 0 < t)
    && (forall k :: |xs| - t <= k < |xs| ==> xs[k] == End(xs) - (|xs| - k))
    && (forall b :: 0 <= b && FreeRun(m0, b) ==> End(xs) - t <= b)
  }

  lemma InAscending(xs: seq<nat>, c: nat)
    requires Ascending(xs) && c in xs
    ensures c < End(xs)
  {
    var k :| 0 <= k < |xs| && xs[k] == c;
    assert k < |xs| - 1 ==> xs[k] < xs[|xs| - 1];
  }

  // Between the last allocation and the next one every block was in use from the start.
  lemma SkippedUsed(m0: Map, m: Map, xs: seq<nat>, b: nat)
    requires Searched(m0, m, xs) && End(xs) <= b <= |m| && forall c :: 0 <= c < b ==> m[c]
    ensures forall c :: End(xs) <= c < b ==> m0[c]
    ensures FreeBelow(m0, b) == |xs|
  {
    forall c | End(xs) <= c < b ensures m0[c] {
      if c in xs { InAscending(xs, c); }
    }
    FreeBelowMonotone(m0, End(xs), b);
  }

  // One more allocation.
  lemma SearchNext(m0: Map, m: Map, xs: seq<nat>, b: nat)
    requires Searched(m0, m, xs) && Lowest(m, b)
    ensures End(xs) <= b && !m0[b] && Searched(m0, m[b := true], xs + [b])
  {
    assert End(xs) <= b;
    SkippedUsed(m0, m, xs, b);
    forall j | 0 <= j < |xs| ensures xs[j] < b { InAscending(xs, xs[j]); }
  }

  // What the length of the run becomes: the loop of balloc_page restarts its count at a gap.
  function NextTail(xs: seq<nat>, t: nat, b: nat): nat {
    if t > 0 && b == End(xs) then t + 1 else 1
  }

  lemma TailNext(m0: Map, m: Map, xs: seq<nat>, t: nat, b: nat)
    requires Searched(m0, m, xs) && Tail(m0, xs, t) && t < 8 && Lowest(m, b) && End(xs) <= b
    ensures Tail(m0, xs + [b], NextTail(xs, t, b))
    // every run ends behind the block just allocated, or at it
    ensures forall r :: 0 <= r && FreeRun(m0, r) ==> b < r + 8
  {
    SkippedUsed(m0, m, xs, b);
    forall r: nat | FreeRun(m0, r) ensures b < r + 8 && End(xs + [b]) - NextTail(xs, t, b) <= r {
      RunReaches(m0, xs, t, b, r);
    }
  }

  // A run starts inside the current consecutive blocks and reaches the next free block.
  lemma RunReaches(m0: Map, xs: seq<nat>, t: nat, b: nat, r: nat)
    requires Tail(m0, xs, t) && t < 8 && End(xs) <= b < |m0| && FreeRun(m0, r)
    requires forall c :: End(xs) <= c < b ==> m0[c]
    ensures b < r + 8 && (b > End(xs) || t == 0 ==> b <= r)
  {
    assert End(xs) - t <= r;
    assert !m0[r + 7];
    if r < End(xs) { assert !m0[End(xs)]; }
    if r < b { assert !m0[r]; }
  }

  // When every block is in use and fewer than eight in a row were found, there was no run of eight.
  lemma NoRun(m0: Map, m: Map, xs: seq<nat>, t: nat)
    requires Searched(m0, m, xs) && Tail(m0, xs, t) && t < 8 && forall c :: 0 <= c < |m| ==> m[c]
    ensures forall r :: 0 <= r ==> !FreeRun(m0, r)
    ensures FreeBelow(m0, |m0|) == |xs|
  {
    SkippedUsed(m0, m, xs, |m|);
    forall r: nat ensures !FreeRun(m0, r) {
      assert r + 7 < |m0| && !m0[r + 7] ==> r + 7 < End(xs);
    }
  }

  // The eight blocks found: a run of free blocks, the first one there is.
  lemma RunFound(m0: Map, m: Map, xs: seq<nat>)
    requires Searched(m0, m, xs) && Tail(m0, xs, 8)
    ensures var b := xs[|xs| - 8];
      && FreeRun(m0, b) && (forall r :: 0 <= r < b ==> !FreeRun(m0, r))
      && FreeBelow(m0, b + 8) == |xs|
      && xs[|xs| - 8..] == [b, b + 1, b + 2, b + 3, b + 4, b + 5, b + 6, b + 7]
  {
    var b, n := xs[|xs| - 8], |xs|;
    forall c | b <= c < b + 8 ensures !m0[c] {
      assert xs[n - 8 + (c - b)] == c;
    }
  }

  // m is m0 with only the allocations from the j-th on still in use.
  ghost predicate Returned(m0: Map, m: Map, xs: seq<nat>, j: nat) {
    && |m| == |m0| && j <= |xs| && Ascending(xs)
    && (forall k :: 0 <= k < |xs| ==> xs[k] < |m| && !m0[xs[k]])
    && (forall c :: 0 <= c < |m| ==> (m[c] <==> m0[c] || c in xs[j..]))
  }

  lemma ReturnedNone(m0: Map, m: Map, xs: seq<nat>)
    requires Searched(m0, m, xs)
    ensures Returned(m0, m, xs, 0)
  {
    assert xs[0..] == xs;
  }

  lemma ReturnedNext(m0: Map, m: Map, xs: seq<nat>, j: nat)
    requires Returned(m0, m, xs, j) && j < |xs|
    ensures xs[j] < |m| && m[xs[j]] && Returned(m0, m[xs[j] := false], xs, j + 1)
  {
    assert xs[j..] == [xs[j]] + xs[j + 1..];
    var rest := xs[j + 1..];
    assert forall k :: 0 <= k < |rest| ==> xs[j] < rest[k];
  }

  // In the end the map differs from the first one in the eight blocks of the run, and in no other.
  lemma ReturnedAll(m0: Map, m: Map, xs: seq<nat>, b: nat)
    requires 8 <= |xs| && Returned(m0, m, xs, |xs| - 8)
    requires xs[|xs| - 8..] == [b, b + 1, b + 2, b + 3, b + 4, b + 5, b + 6, b + 7]
    ensures forall c :: 0 <= c < |m| ==> (m[c] <==> m0[c] || b <= c < b + 8)
  {
  }
}
