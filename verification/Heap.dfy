/** The heap of the user-level allocator (umalloc.c) as a value: one header cell per unit address, the
    free list, and which block each unit belongs to. */
module Heap {
  import opened Lists

  // `ptr` and `size` are the header fields at every unit address; `brk` is the end of the memory that
  // sbrk has given. `xs` is the free list from `base` on, `live` the headers of the blocks handed out,
  // and `owner` takes every unit obtained from sbrk to the header of its block.
  datatype Heap = Heap(ptr: seq<nat>, size: seq<nat>, base: nat, brk: nat, freep: nat,
                       xs: seq<nat>, live: set<nat>, owner: map<nat, nat>)

  function Ptr(h: Heap, a: nat): nat { if a < |h.ptr| then h.ptr[a] else 0 }

  function Size(h: Heap, a: nat): nat { if a < |h.size| then h.size[a] else 0 }

  lemma Less(xs: seq<nat>, j: nat, k: nat)
    requires Ascending(xs) && j < k < |xs|
    ensures xs[j] < xs[k]
  {
  }

  ghost predicate LinkAt(h: Heap, k: nat) {
    k < |h.xs| && Ptr(h, h.xs[k]) == Succ(h.xs, k)
  }

  ghost predicate Chained(h: Heap) {
    forall k :: 0 <= k < |h.xs| ==> LinkAt(h, k)
  }

  ghost predicate Below(xs: seq<nat>, brk: nat) {
    forall k :: 0 <= k < |xs| ==> xs[k] < brk
  }

  // One circle in address order through base, every block below brk.
  ghost predicate Circle(h: Heap) {
    && 0 < h.base < h.brk <= |h.ptr| == |h.size|
    && h.xs != [] && h.xs[0] == h.base && Size(h, h.base) == 0
    && Ascending(h.xs) && Below(h.xs, h.brk) && Chained(h)
  }

  // Each free block ends before the next one starts, with a gap between them except at the loose places.
  ghost predicate GapAt(h: Heap, k: nat, loose: set<nat>) {
    k + 1 < |h.xs| && h.xs[k] + Size(h, h.xs[k]) <= h.xs[k + 1] &&
      (k in loose || h.xs[k] + Size(h, h.xs[k]) != h.xs[k + 1])
  }

  ghost predicate Gaps(h: Heap, loose: set<nat>) {
    forall k :: 0 <= k < |h.xs| - 1 ==> GapAt(h, k, loose)
  }

  ghost predicate IsBlock(h: Heap, s: nat) {
    s in h.live || (s in h.xs && s != h.base)
  }

  // A block of the memory that sbrk gave, all of whose units belong to it.
  ghost predicate BlockOk(h: Heap, s: nat) {
    && h.base < s && 0 < Size(h, s) && s + Size(h, s) <= h.brk
    && forall u :: s <= u < s + Size(h, s) ==> u in h.owner && h.owner[u] == s
  }

  ghost predicate UnitOk(h: Heap, u: nat)
    requires u in h.owner
  {
    IsBlock(h, h.owner[u]) && h.owner[u] <= u < h.owner[u] + Size(h, h.owner[u])
  }

  // The free and the live blocks tile the units that came from sbrk: each unit is in exactly one block.
  ghost predicate Tiled(h: Heap) {
    && (forall s :: s in h.live ==> s !in h.xs)
    && (forall s: nat :: IsBlock(h, s) ==> BlockOk(h, s))
    && (forall u :: u in h.owner ==> UnitOk(h, u))
  }

  ghost predicate Inv(h: Heap) {
    Circle(h) && Gaps(h, {}) && Tiled(h) && h.freep in h.xs
  }

  // No unit is in two blocks.
  lemma BlocksDisjoint(h: Heap, s: nat, t: nat)
    requires Tiled(h) && IsBlock(h, s) && IsBlock(h, t) && s < t
    ensures s + Size(h, s) <= t
  {
    assert BlockOk(h, s) && BlockOk(h, t);
    assert h.owner[t] == t;
  }

  lemma AscendingDistinct(xs: seq<nat>)
    requires Ascending(xs)
    ensures Distinct(xs)
  {
  }

  lemma InsertAscending(xs: seq<nat>, k: nat, x: nat)
    requires Ascending(xs) && Place(xs, k, x)
    ensures Ascending(InsertAt(xs, k + 1, x))
  {
    hide InsertAt;
    var ys := InsertAt(xs, k + 1, x);
    forall i, j | 0 <= i < j < |ys| ensures ys[i] < ys[j] {
      InsertNth(xs, k + 1, x, i);
      InsertNth(xs, k + 1, x, j);
      if i == k + 1 {
        if k + 1 < j - 1 { Less(xs, k + 1, j - 1); }
      } else if j == k + 1 {
        if i < k { Less(xs, i, k); }
      } else {
        Less(xs, if i < k + 1 then i else i - 1, if j < k + 1 then j else j - 1);
      }
    }
  }

  lemma RemoveAscending(xs: seq<nat>, i: nat)
    requires Ascending(xs) && i < |xs|
    ensures Ascending(RemoveAt(xs, i))
  {
    hide RemoveAt;
    var ys := RemoveAt(xs, i);
    forall j, k | 0 <= j < k < |ys| ensures ys[j] < ys[k] {
      RemoveNth(xs, i, j);
      RemoveNth(xs, i, k);
      Less(xs, if j < i then j else j + 1, if k < i then k else k + 1);
    }
  }

  // k is the place of x: the list elements up to xs[k] lie below it and the others above.
  ghost predicate Place(xs: seq<nat>, k: nat, x: nat) {
    k < |xs| && xs[k] < x && (k + 1 < |xs| ==> x < xs[k + 1])
  }

  // ---------------------------------------------------------------- free

  // The live block bp put on the free list behind xs[k].
  function Link(h: Heap, k: nat, bp: nat): Heap
    requires k < |h.xs| && bp < |h.ptr| && h.xs[k] < |h.ptr|
  {
    h.(ptr := h.ptr[bp := Succ(h.xs, k)][h.xs[k] := bp],
       freep := h.xs[k],
       xs := InsertAt(h.xs, k + 1, bp),
       live := h.live - {bp})
  }

  function Relabel(owner: map<nat, nat>, from: nat, to: nat): map<nat, nat> {
    map u | u in owner :: if owner[u] == from then to else owner[u]
  }

  // xs[k] joined with the block behind it.
  function Join(h: Heap, k: nat): Heap
    requires k + 1 < |h.xs| && h.xs[k] < |h.ptr| == |h.size|
  {
    var p, q := h.xs[k], h.xs[k + 1];
    h.(ptr := h.ptr[p := Ptr(h, q)],
       size := h.size[p := Size(h, p) + Size(h, q)],
       xs := RemoveAt(h.xs, k + 1),
       owner := Relabel(h.owner, q, p))
  }

  ghost predicate Touch(h: Heap, k: nat) {
    k + 1 < |h.xs| && h.xs[k] + Size(h, h.xs[k]) == h.xs[k + 1]
  }

  lemma LinkCircle(h: Heap, k: nat, bp: nat)
    requires Circle(h) && Place(h.xs, k, bp) && bp < h.brk
    ensures Circle(Link(h, k, bp))
  {
    hide InsertAt;
    InsertAscending(h.xs, k, bp);
    LinkChained(h, k, bp);
    var g := Link(h, k, bp);
    forall j | 0 <= j < |g.xs| ensures g.xs[j] < g.brk { InsertNth(h.xs, k + 1, bp, j); }
    InsertNth(h.xs, k + 1, bp, 0);
  }

  lemma LinkChained(h: Heap, k: nat, bp: nat)
    requires Circle(h) && Place(h.xs, k, bp) && bp < h.brk
    ensures Chained(Link(h, k, bp))
  {
    hide InsertAt, Ascending, LinkAt;
    var g := Link(h, k, bp);
    forall j | 0 <= j < |g.xs| ensures LinkAt(g, j) { LinkChainedAt(h, k, bp, j); }
  }

  lemma LinkChainedAt(h: Heap, k: nat, bp: nat, j: nat)
    requires Circle(h) && Place(h.xs, k, bp) && bp < h.brk && j <= |h.xs|
    ensures LinkAt(Link(h, k, bp), j)
  {
    hide InsertAt, Ascending;
    InsertNth(h.xs, k + 1, bp, 0);
    InsertNth(h.xs, k + 1, bp, j);
    if j < |h.xs| { InsertNth(h.xs, k + 1, bp, j + 1); }
    if j > k + 1 {
      assert LinkAt(h, j - 1);
      Less(h.xs, k, j - 1);
      if k + 1 < j - 1 { Less(h.xs, k + 1, j - 1); }
    } else if j < k {
      assert LinkAt(h, j);
      Less(h.xs, j, k);
    }
  }

  lemma LinkGaps(h: Heap, k: nat, bp: nat)
    requires Circle(h) && Gaps(h, {}) && Tiled(h) && bp in h.live && Place(h.xs, k, bp)
    ensures bp < h.brk && Gaps(Link(h, k, bp), {k, k + 1})
  {
    LiveInside(h, k, bp);
    hide InsertAt, Ascending, Tiled, Circle;
    var g, loose := Link(h, k, bp), {k, k + 1};
    forall j | 0 <= j < |g.xs| - 1 ensures GapAt(g, j, loose) {
      InsertNth(h.xs, k + 1, bp, j);
      InsertNth(h.xs, k + 1, bp, j + 1);
      if j > k + 1 { assert GapAt(h, j - 1, {}); }
      if j < k { assert GapAt(h, j, {}); }
    }
  }

  // The neighbours of a live block on the list do not reach into it, nor it into them.
  lemma LiveInside(h: Heap, k: nat, bp: nat)
    requires Circle(h) && Tiled(h) && bp in h.live && Place(h.xs, k, bp)
    ensures h.base < bp && 0 < Size(h, bp) && bp + Size(h, bp) <= h.brk && h.xs[k] + Size(h, h.xs[k]) <= bp
    ensures k + 1 < |h.xs| ==> bp + Size(h, bp) <= h.xs[k + 1]
  {
    assert IsBlock(h, bp) && BlockOk(h, bp);
    if k > 0 { Less(h.xs, 0, k); BlocksDisjoint(h, h.xs[k], bp); }
    if k + 1 < |h.xs| { Less(h.xs, 0, k + 1); BlocksDisjoint(h, bp, h.xs[k + 1]); }
  }

  // Blocks with the same headers, sizes and units are tiled alike.
  lemma TiledSame(h: Heap, g: Heap)
    requires Tiled(h) && g.base == h.base && g.brk == h.brk && g.owner == h.owner
    requires forall s :: s in g.live ==> s !in g.xs
    requires forall s: nat :: IsBlock(g, s) == IsBlock(h, s)
    requires forall s: nat :: Size(g, s) == Size(h, s)
    ensures Tiled(g)
  {
    forall s: nat | IsBlock(g, s) ensures BlockOk(g, s) { assert BlockOk(h, s); }
    forall u | u in g.owner ensures UnitOk(g, u) { assert UnitOk(h, u); }
  }

  lemma LinkTiled(h: Heap, k: nat, bp: nat)
    requires Circle(h) && Tiled(h) && bp in h.live && Place(h.xs, k, bp)
    ensures bp < h.brk && Tiled(Link(h, k, bp))
  {
    LiveInside(h, k, bp);
    hide InsertAt, Ascending, Chained;
    var g := Link(h, k, bp);
    forall s: nat ensures s in g.xs <==> s == bp || s in h.xs { InsertHas(h.xs, k + 1, bp, s); }
    TiledSame(h, g);
  }

  lemma JoinCircle(h: Heap, k: nat)
    requires Circle(h) && Touch(h, k) && 0 < k
    ensures Circle(Join(h, k))
  {
    hide RemoveAt;
    RemoveAscending(h.xs, k + 1);
    Less(h.xs, 0, k);
    JoinChained(h, k);
    var g := Join(h, k);
    forall j | 0 <= j < |g.xs| ensures g.xs[j] < g.brk { RemoveNth(h.xs, k + 1, j); }
    RemoveNth(h.xs, k + 1, 0);
  }

  lemma JoinChained(h: Heap, k: nat)
    requires Circle(h) && Touch(h, k)
    ensures Chained(Join(h, k))
  {
    var g := Join(h, k);
    hide RemoveAt, Ascending;
    RemoveNth(h.xs, k + 1, 0);
    forall j | 0 <= j < |g.xs| ensures LinkAt(g, j) {
      RemoveNth(h.xs, k + 1, j);
      if j + 1 < |g.xs| { RemoveNth(h.xs, k + 1, j + 1); }
      if j > k {
        assert LinkAt(h, j + 1);
        Less(h.xs, k, j + 1);
      } else if j < k {
        assert LinkAt(h, j);
        Less(h.xs, j, k);
      } else {
        assert LinkAt(h, k + 1);
      }
    }
  }

  lemma JoinGaps(h: Heap, k: nat, loose: set<nat>)
    requires Circle(h) && Gaps(h, loose + {k}) && Touch(h, k) && forall l :: l in loose ==> l < k
    ensures Gaps(Join(h, k), loose)
  {
    var g := Join(h, k);
    hide RemoveAt, Ascending;
    forall j | 0 <= j < |g.xs| - 1 ensures GapAt(g, j, loose) {
      RemoveNth(h.xs, k + 1, j);
      RemoveNth(h.xs, k + 1, j + 1);
      if j >= k {
        assert GapAt(h, j + 1, loose + {k});
        Less(h.xs, k, j + 1);
      } else {
        assert GapAt(h, j, loose + {k});
        Less(h.xs, j, k);
      }
    }
  }

  lemma JoinTiled(h: Heap, k: nat)
    requires Circle(h) && Tiled(h) && Touch(h, k) && 0 < k
    ensures Tiled(Join(h, k))
  {
    var g, p, q := Join(h, k), h.xs[k], h.xs[k + 1];
    Less(h.xs, 0, k);
    Less(h.xs, k, k + 1);
    forall s: nat ensures s in g.xs <==> s != q && s in h.xs { AscendingDistinct(h.xs); RemoveHas(h.xs, k + 1, s); }
    hide RemoveAt, Ascending, Chained, Below, BlockOk, UnitOk;
    assert IsBlock(h, p) && IsBlock(h, q) && q !in h.live;
    forall s: nat ensures IsBlock(g, s) <==> IsBlock(h, s) && s != q { }
    forall s: nat | IsBlock(g, s) ensures BlockOk(g, s) { JoinBlock(h, g, p, q, s); }
    forall u | u in g.owner ensures UnitOk(g, u) { JoinUnit(h, g, p, q, u); }
  }

  lemma JoinBlock(h: Heap, g: Heap, p: nat, q: nat, s: nat)
    requires p + Size(h, p) == q && p < q && g.base == h.base && g.brk == h.brk && g.owner == Relabel(h.owner, q, p)
    requires Size(g, s) == if s == p then Size(h, p) + Size(h, q) else Size(h, s)
    requires BlockOk(h, s) && BlockOk(h, q) && s != q
    ensures BlockOk(g, s)
  {
    forall u | s <= u < s + Size(g, s) ensures u in g.owner && g.owner[u] == s {
      if s == p && q <= u { assert h.owner[u] == q; } else { assert h.owner[u] == s; }
    }
  }

  lemma JoinUnit(h: Heap, g: Heap, p: nat, q: nat, u: nat)
    requires p + Size(h, p) == q && p < q && g.owner == Relabel(h.owner, q, p) && u in h.owner && UnitOk(h, u)
    requires Size(g, p) == Size(h, p) + Size(h, q)
    requires forall s: nat :: s != p ==> Size(g, s) == Size(h, s)
    requires forall s: nat :: IsBlock(g, s) <==> IsBlock(h, s) && s != q
    requires IsBlock(h, p)
    ensures u in g.owner && UnitOk(g, u)
  {
  }

  ghost predicate Good(h: Heap, loose: set<nat>) {
    Circle(h) && Gaps(h, loose) && Tiled(h)
  }

  lemma LinkGood(h: Heap, k: nat, bp: nat)
    requires Good(h, {}) && bp in h.live && Place(h.xs, k, bp)
    ensures bp < h.brk <= |h.ptr| == |h.size| && h.xs[k] < h.brk
    ensures var g := Link(h, k, bp); Good(g, {k, k + 1}) && k + 1 < |g.xs| && g.xs[k] == h.xs[k] && g.xs[k + 1] == bp
  {
    LiveInside(h, k, bp);
    LinkCircle(h, k, bp);
    LinkGaps(h, k, bp);
    LinkTiled(h, k, bp);
    InsertNth(h.xs, k + 1, bp, k);
    InsertNth(h.xs, k + 1, bp, k + 1);
  }

  lemma JoinGood(h: Heap, k: nat, loose: set<nat>)
    requires Good(h, loose + {k}) && Touch(h, k) && forall l :: l in loose ==> l < k
    ensures h.xs[k] < |h.ptr| == |h.size| && 0 < k
    ensures var g := Join(h, k); Good(g, loose) && k < |g.xs| && forall j :: 0 <= j <= k ==> g.xs[j] == h.xs[j]
  {
    Less(h.xs, 0, 1);
    JoinCircle(h, k);
    JoinGaps(h, k, loose);
    JoinTiled(h, k);
    forall j | 0 <= j <= k ensures Join(h, k).xs[j] == h.xs[j] { RemoveNth(h.xs, k + 1, j); }
  }

  lemma TightGood(h: Heap, k: nat, loose: set<nat>)
    requires Good(h, loose + {k}) && !Touch(h, k)
    ensures Good(h, loose)
  {
    forall j | 0 <= j < |h.xs| - 1 ensures GapAt(h, j, loose) { assert GapAt(h, j, loose + {k}); }
  }

  // What free does: the block is put on the list, joined with the free block behind it if they touch,
  // and then with the one in front of it.
  ghost function Freed(h: Heap, k: nat, bp: nat): Heap
    requires Good(h, {}) && bp in h.live && Place(h.xs, k, bp)
  {
    LinkGood(h, k, bp);
    JoinFront(JoinBehind(Link(h, k, bp), k), k)
  }

  ghost function JoinBehind(g: Heap, k: nat): (r: Heap)
    requires Good(g, {k, k + 1}) && k + 1 < |g.xs|
    ensures Good(r, {k}) && k < |r.xs| && r.xs[k] == g.xs[k]
    ensures r.live == g.live && r.owner.Keys == g.owner.Keys && r.freep == g.freep && r.base == g.base && r.brk == g.brk
  {
    assert {k, k + 1} == {k} + {k + 1};
    if Touch(g, k + 1) then JoinGood(g, k + 1, {k}); Join(g, k + 1) else TightGood(g, k + 1, {k}); g
  }

  ghost function JoinFront(g: Heap, k: nat): (r: Heap)
    requires Good(g, {k}) && k < |g.xs|
    ensures Good(r, {}) && k < |r.xs| && r.xs[k] == g.xs[k]
    ensures r.live == g.live && r.owner.Keys == g.owner.Keys && r.freep == g.freep && r.base == g.base && r.brk == g.brk
  {
    assert {k} == {} + {k};
    if Touch(g, k) then JoinGood(g, k, {}); Join(g, k) else TightGood(g, k, {}); g
  }

  // Freeing a live block keeps the free list one address-ordered circle in which no two blocks touch,
  // and keeps every unit in exactly one block.
  lemma FreedInv(h: Heap, k: nat, bp: nat)
    requires Inv(h) && bp in h.live && Place(h.xs, k, bp)
    ensures var g := Freed(h, k, bp);
      Inv(g) && g.live == h.live - {bp} && g.owner.Keys == h.owner.Keys && g.base == h.base && g.brk == h.brk
  {
    LinkGood(h, k, bp);
    var g := Freed(h, k, bp);
    assert g.freep == g.xs[k];
  }

  // ---------------------------------------------------------------- malloc

  // The free block xs[k] handed out whole.
  function Take(h: Heap, k: nat): Heap
    requires 0 < k < |h.xs| && h.xs[k - 1] < |h.ptr|
  {
    h.(ptr := h.ptr[h.xs[k - 1] := Ptr(h, h.xs[k])],
       freep := h.xs[k - 1],
       xs := RemoveAt(h.xs, k),
       live := h.live + {h.xs[k]})
  }

  // The last n units of the free block xs[k] handed out.
  function Split(h: Heap, k: nat, n: nat): Heap
    requires 0 < k < |h.xs| && h.xs[k] < |h.size| && n < Size(h, h.xs[k])
    requires h.xs[k] + Size(h, h.xs[k]) - n < |h.size|
  {
    var p, rest := h.xs[k], Size(h, h.xs[k]) - n;
    h.(size := h.size[p := rest][p + rest := n],
       freep := h.xs[k - 1],
       live := h.live + {p + rest},
       owner := map u | u in h.owner :: if p + rest <= u < p + rest + n then p + rest else h.owner[u])
  }

  lemma TakeInv(h: Heap, k: nat)
    requires Inv(h) && 0 < k < |h.xs|
    ensures h.xs[k - 1] < |h.ptr|
    ensures var g := Take(h, k); Inv(g) && h.xs[k] !in h.live && g.owner == h.owner
  {
    var g := Take(h, k);
    TakeCircle(h, k);
    TakeGaps(h, k);
    Less(h.xs, 0, k);
    forall s: nat ensures s in g.xs <==> s != h.xs[k] && s in h.xs { AscendingDistinct(h.xs); RemoveHas(h.xs, k, s); }
    TiledSame(h, g);
    RemoveNth(h.xs, k, k - 1);
  }

  lemma TakeCircle(h: Heap, k: nat)
    requires Circle(h) && 0 < k < |h.xs|
    ensures Circle(Take(h, k))
  {
    hide RemoveAt;
    var g := Take(h, k);
    RemoveAscending(h.xs, k);
    RemoveNth(h.xs, k, 0);
    forall j | 0 <= j < |g.xs| ensures g.xs[j] < g.brk && LinkAt(g, j) {
      RemoveNth(h.xs, k, j);
      if j + 1 < |g.xs| { RemoveNth(h.xs, k, j + 1); }
      assert LinkAt(h, if j < k then j else j + 1);
      if j == k - 1 {
        assert LinkAt(h, k);
      } else if j < k - 1 {
        Less(h.xs, j, k - 1);
      } else {
        Less(h.xs, k - 1, j + 1);
      }
    }
  }

  lemma TakeGaps(h: Heap, k: nat)
    requires Circle(h) && Gaps(h, {}) && 0 < k < |h.xs|
    ensures Gaps(Take(h, k), {})
  {
    hide RemoveAt, Ascending;
    var g := Take(h, k);
    forall j | 0 <= j < |g.xs| - 1 ensures GapAt(g, j, {}) {
      RemoveNth(h.xs, k, j);
      RemoveNth(h.xs, k, j + 1);
      assert GapAt(h, if j < k then j else j + 1, {});
      if j == k - 1 { assert GapAt(h, k, {}); }
    }
  }

  lemma FreeBlock(h: Heap, k: nat)
    requires Inv(h) && 0 < k < |h.xs|
    ensures h.xs[k] != h.base && h.xs[k] !in h.live && IsBlock(h, h.xs[k])
    ensures h.xs[k] + Size(h, h.xs[k]) <= h.brk <= |h.size| == |h.ptr|
    ensures forall u :: h.xs[k] <= u < h.xs[k] + Size(h, h.xs[k]) ==> u in h.owner && u < h.brk
  {
    Less(h.xs, 0, k);
    assert BlockOk(h, h.xs[k]);
  }

  lemma SplitInv(h: Heap, k: nat, n: nat)
    requires Inv(h) && 0 < k < |h.xs| && 0 < n < Size(h, h.xs[k])
    ensures h.xs[k] < |h.size| && h.xs[k] + Size(h, h.xs[k]) - n < |h.size|
    ensures var g, q := Split(h, k, n), h.xs[k] + Size(h, h.xs[k]) - n;
      && Inv(g) && g.live == h.live + {q} && q !in h.live && Size(g, q) == n && g.owner.Keys == h.owner.Keys
      && (forall a :: a in h.live ==> Size(g, a) == Size(h, a))
  {
    hide Tiled, BlockOk, Circle, Gaps;
    var p, q := h.xs[k], h.xs[k] + Size(h, h.xs[k]) - n;
    FreeBlock(h, k);
    NotABlock(h, p, q);
    var g := Split(h, k, n);
    forall s: nat ensures Size(g, s) == if s == p then q - p else if s == q then n else Size(h, s) { }
    SameList(h, g);
    SplitTiled(h, g, p, q, n);
  }

  // The list is in order after a change that only makes free blocks smaller or touches no free block.
  lemma SameList(h: Heap, g: Heap)
    requires Circle(h) && Gaps(h, {})
    requires g.ptr == h.ptr && |g.size| == |h.size| && g.base == h.base && h.brk <= g.brk <= |g.ptr| && g.xs == h.xs
    requires forall s :: s in h.xs ==> Size(g, s) <= Size(h, s)
    ensures Circle(g) && Gaps(g, {})
  {
    forall j | 0 <= j < |g.xs| ensures LinkAt(g, j) { assert LinkAt(h, j); }
    forall j | 0 <= j < |g.xs| - 1 ensures GapAt(g, j, {}) { assert GapAt(h, j, {}); }
  }

  // A unit inside a block is not the header of another.
  lemma NotABlock(h: Heap, p: nat, q: nat)
    requires Circle(h) && Tiled(h) && IsBlock(h, p) && p < q < p + Size(h, p)
    ensures !IsBlock(h, q) && q !in h.xs && q !in h.live
  {
    assert BlockOk(h, p);
    if IsBlock(h, q) { BlocksDisjoint(h, p, q); }
  }

  lemma SplitTiled(h: Heap, g: Heap, p: nat, q: nat, n: nat)
    requires Tiled(h) && IsBlock(h, p) && !IsBlock(h, q) && q !in h.xs && p < q && q + n == p + Size(h, p) && 0 < n
    requires g.base == h.base && g.brk == h.brk && g.xs == h.xs && g.live == h.live + {q}
    requires forall s: nat :: Size(g, s) == if s == p then q - p else if s == q then n else Size(h, s)
    requires g.owner == map u | u in h.owner :: if q <= u < q + n then q else h.owner[u]
    ensures Tiled(g)
  {
    hide BlockOk, UnitOk;
    forall s: nat | IsBlock(g, s) ensures BlockOk(g, s) { SplitBlock(h, g, p, q, n, s); }
    forall u | u in g.owner ensures UnitOk(g, u) { SplitUnit(h, g, p, q, n, u); }
  }

  lemma SplitBlock(h: Heap, g: Heap, p: nat, q: nat, n: nat, s: nat)
    requires Tiled(h) && IsBlock(h, p) && p < q && q + n == p + Size(h, p) && 0 < n
    requires g.base == h.base && g.brk == h.brk && (IsBlock(h, s) || s == q)
    requires forall s: nat :: Size(g, s) == if s == p then q - p else if s == q then n else Size(h, s)
    requires g.owner == map u | u in h.owner :: if q <= u < q + n then q else h.owner[u]
    requires !IsBlock(h, q)
    ensures BlockOk(g, s)
  {
    assert BlockOk(h, p);
    if s != q { assert BlockOk(h, s); }
    forall u | s <= u < s + Size(g, s) ensures u in g.owner && g.owner[u] == s {
      assert p <= u < p + Size(h, p) ==> h.owner[u] == p;
      if s != q { assert s <= u < s + Size(h, s) ==> h.owner[u] == s; }
    }
  }

  lemma SplitUnit(h: Heap, g: Heap, p: nat, q: nat, n: nat, u: nat)
    requires Tiled(h) && IsBlock(h, p) && p < q && q + n == p + Size(h, p) && u in h.owner
    requires g.xs == h.xs && g.live == h.live + {q} && g.base == h.base
    requires forall s: nat :: Size(g, s) == if s == p then q - p else if s == q then n else Size(h, s)
    requires g.owner == map u | u in h.owner :: if q <= u < q + n then q else h.owner[u]
    requires !IsBlock(h, q)
    ensures u in g.owner && UnitOk(g, u)
  {
    assert UnitOk(h, u) && BlockOk(h, p);
    if q <= u < q + n { assert h.owner[u] == p; }
  }

  // ---------------------------------------------------------------- sbrk

  // The units [a, a + n) obtained from sbrk, as one block that free is about to take.
  function Grown(h: Heap, a: nat, n: nat): Heap
    requires a < |h.size|
  {
    h.(size := h.size[a := n], brk := a + n, live := h.live + {a},
       owner := map u | u in h.owner.Keys + Units(a, n) :: if u in h.owner then h.owner[u] else a)
  }

  function Units(a: nat, n: nat): (r: set<nat>)
    ensures forall u :: u in r <==> a <= u < a + n
  {
    if n == 0 then {} else Units(a, n - 1) + {a + n - 1}
  }

  lemma GrownInv(h: Heap, a: nat, n: nat)
    requires Inv(h) && h.brk <= a && 0 < n && a + n <= |h.size|
    ensures var g := Grown(h, a, n);
      && Inv(g) && a !in h.live && (forall b :: b in h.live ==> Size(g, b) == Size(h, b))
      && g.owner.Keys == h.owner.Keys + Units(a, n)
  {
    var g := Grown(h, a, n);
    assert forall j :: 0 <= j < |h.xs| ==> h.xs[j] < h.brk;
    assert forall s :: s in h.xs ==> Size(g, s) == Size(h, s);
    assert a !in h.live by { assert IsBlock(h, a) ==> BlockOk(h, a); }
    forall b | b in h.live ensures Size(g, b) == Size(h, b) { assert b != a; }
    SameList(h, g);
    hide Gaps, Chained, Ascending, BlockOk, UnitOk;
    GrownTiled(h, g, a, n);
  }

  lemma GrownTiled(h: Heap, g: Heap, a: nat, n: nat)
    requires Tiled(h) && h.base < h.brk <= a && 0 < n && a !in h.xs && a !in h.live
    requires g.base == h.base && g.brk == a + n && g.xs == h.xs && g.live == h.live + {a}
    requires Size(g, a) == n && forall s :: s in h.xs || s in h.live ==> Size(g, s) == Size(h, s)
    requires g.owner == map u | u in h.owner.Keys + Units(a, n) :: if u in h.owner then h.owner[u] else a
    ensures Tiled(g)
  {
    hide BlockOk, UnitOk;
    forall u | u in h.owner ensures u < h.brk { UnitBelow(h, u); }
    forall s: nat | IsBlock(g, s) ensures BlockOk(g, s) { GrownBlock(h, g, a, n, s); }
    forall u | u in g.owner ensures UnitOk(g, u) { GrownUnit(h, g, a, n, u); }
  }

  lemma UnitBelow(h: Heap, u: nat)
    requires Tiled(h) && u in h.owner
    ensures u < h.brk
  {
    assert UnitOk(h, u) && BlockOk(h, h.owner[u]);
  }

  lemma GrownBlock(h: Heap, g: Heap, a: nat, n: nat, s: nat)
    requires h.base < h.brk <= a && g.base == h.base && g.brk == a + n
    requires g.owner == map u | u in h.owner.Keys + Units(a, n) :: if u in h.owner then h.owner[u] else a
    requires forall u :: u in h.owner ==> u < h.brk
    requires 0 < n && if s == a then Size(g, s) == n else Size(g, s) == Size(h, s) && BlockOk(h, s)
    ensures BlockOk(g, s)
  {
  }

  lemma GrownUnit(h: Heap, g: Heap, a: nat, n: nat, u: nat)
    requires u in g.owner && g.base == h.base && g.xs == h.xs && g.live == h.live + {a}
    requires g.owner == map w | w in h.owner.Keys + Units(a, n) :: if w in h.owner then h.owner[w] else a
    requires u in h.owner ==> UnitOk(h, u)
    requires Size(g, a) == n && forall s :: s in h.xs || s in h.live ==> Size(g, s) == Size(h, s)
    ensures UnitOk(g, u)
  {
  }

  // ---------------------------------------------------------------- what the loops rely on

  // The place of x on the list: the last element below it.
  ghost function PlaceOf(xs: seq<nat>, x: nat): (k: nat)
    requires xs != [] && xs[0] < x
    ensures k < |xs| && xs[k] < x
  {
    if xs[|xs| - 1] < x then |xs| - 1 else PlaceOf(xs[..|xs| - 1], x)
  }

  lemma {:induction false} PlaceIs(xs: seq<nat>, x: nat)
    requires Ascending(xs) && xs != [] && xs[0] < x && x !in xs
    ensures Place(xs, PlaceOf(xs, x), x)
  {
    if xs[|xs| - 1] > x {
      assert xs == xs[..|xs| - 1] + [xs[|xs| - 1]];
      PlaceIs(xs[..|xs| - 1], x);
    } else {
      assert xs[|xs| - 1] in xs;
    }
  }

  // The two exit tests of the loop of free hold at the place of bp and nowhere else.
  lemma AtPlace(h: Heap, i: nat, k: nat, bp: nat)
    requires Circle(h) && Place(h.xs, k, bp) && i < |h.xs| && bp !in h.xs
    ensures var p, nx := h.xs[i], Succ(h.xs, i);
      i == k <==> (p < bp < nx) || (p >= nx && (bp > p || bp < nx))
  {
    if i < k { Less(h.xs, i, k); if i + 1 < k { Less(h.xs, i + 1, k); } }
    if k < i { Less(h.xs, k, i); if k + 1 < i { Less(h.xs, k + 1, i); } }
    if 0 < k { Less(h.xs, 0, k); }
    if 0 < i { Less(h.xs, 0, i); }
    if i + 1 < |h.xs| { Less(h.xs, i, i + 1); }
  }

  // The header fields that free leaves behind, when it puts bp between p and the header p points to.
  function StitchedPtr(ptr: seq<nat>, size: seq<nat>, p: nat, bp: nat): seq<nat>
    requires |ptr| == |size| && p < |ptr| && bp < |ptr| && ptr[p] < |ptr|
  {
    var back := if bp + size[bp] == ptr[p] then ptr[ptr[p]] else ptr[p];
    ptr[bp := back][p := if p + size[p] == bp then back else bp]
  }

  function StitchedSize(ptr: seq<nat>, size: seq<nat>, p: nat, bp: nat): seq<nat>
    requires |ptr| == |size| && p < |ptr| && bp < |ptr| && ptr[p] < |ptr|
  {
    var joined := if bp + size[bp] == ptr[p] then size[bp] + size[ptr[p]] else size[bp];
    if p + size[p] == bp then size[bp := joined][p := size[p] + joined] else size[bp := joined]
  }

  // The header fields after the block bp was linked in and joined with the block behind it.
  lemma BehindFields(h: Heap, k: nat, bp: nat)
    requires Good(h, {}) && bp in h.live && Place(h.xs, k, bp)
    ensures k < |h.xs| && h.xs[k] < |h.ptr| == |h.size| && bp < |h.ptr| && h.ptr[h.xs[k]] < |h.ptr|
    ensures h.xs[k] != bp && bp != h.ptr[h.xs[k]] && Good(Link(h, k, bp), {k, k + 1}) && k + 1 < |Link(h, k, bp).xs|
    ensures var g, p, nx := JoinBehind(Link(h, k, bp), k), h.xs[k], h.ptr[h.xs[k]];
      var up := bp + h.size[bp] == nx;
      && k + 1 < |g.xs| && g.xs[k] == p && g.xs[k + 1] == bp && g.freep == p
      && g.ptr == h.ptr[bp := if up then h.ptr[nx] else nx][p := bp]
      && g.size == h.size[bp := if up then h.size[bp] + h.size[nx] else h.size[bp]]
  {
    hide Good, Place, InsertAt, RemoveAt, LinkAt;
    LinkGood(h, k, bp);
    BehindTouch(h, k, bp);
    JoinBehindKeeps(Link(h, k, bp), k);
  }

  lemma BehindTouch(h: Heap, k: nat, bp: nat)
    requires Good(h, {}) && bp in h.live && Place(h.xs, k, bp) && bp < h.brk <= |h.ptr| == |h.size| && h.xs[k] < h.brk
    ensures k < |h.xs| && h.ptr[h.xs[k]] == Succ(h.xs, k) < |h.ptr| && h.xs[k] < bp && bp != h.ptr[h.xs[k]]
    ensures var g := Link(h, k, bp);
      && (Touch(g, k + 1) <==> bp + h.size[bp] == h.ptr[h.xs[k]])
      && (Touch(g, k + 1) ==> g.xs[k + 1] == bp && g.xs[k + 2] == h.ptr[h.xs[k]])
  {
    hide InsertAt, Ascending, Tiled, Gaps;
    assert LinkAt(h, k);
    LiveInside(h, k, bp);
    if k + 1 < |h.xs| { Less(h.xs, k, k + 1); } else if 0 < k { Less(h.xs, 0, k); }
    InsertNth(h.xs, k + 1, bp, k + 1);
    if k + 1 < |h.xs| { InsertNth(h.xs, k + 1, bp, k + 2); }
  }

  lemma FreedFields(h: Heap, k: nat, bp: nat)
    requires Good(h, {}) && bp in h.live && Place(h.xs, k, bp)
    ensures h.xs[k] < |h.ptr| == |h.size| && bp < |h.ptr| && h.ptr[h.xs[k]] < |h.ptr|
    ensures h.xs[k] != bp && bp != h.ptr[h.xs[k]]
    ensures Freed(h, k, bp).ptr == StitchedPtr(h.ptr, h.size, h.xs[k], bp)
    ensures Freed(h, k, bp).size == StitchedSize(h.ptr, h.size, h.xs[k], bp)
    ensures Freed(h, k, bp).freep == h.xs[k]
  {
    hide Good, Place, Link, JoinBehind;
    BehindFields(h, k, bp);
    FrontFields(JoinBehind(Link(h, k, bp), k), k);
  }

  lemma FrontFields(g: Heap, k: nat)
    requires Good(g, {k}) && k + 1 < |g.xs|
    ensures g.xs[k] < |g.ptr| == |g.size| && g.xs[k + 1] < |g.ptr|
    ensures var r, p, q := JoinFront(g, k), g.xs[k], g.xs[k + 1];
      && r.ptr == (if p + g.size[p] == q then g.ptr[p := g.ptr[q]] else g.ptr)
      && r.size == (if p + g.size[p] == q then g.size[p := g.size[p] + g.size[q]] else g.size)
      && r.freep == g.freep
  {
    assert g.xs[k] < g.brk && g.xs[k + 1] < g.brk;
    hide Good, RemoveAt;
  }

  lemma FreeNotLive(h: Heap, s: nat)
    requires Good(h, {}) && s in h.xs
    ensures s !in h.live
  {
    hide Circle, Gaps;
  }

  // free leaves a block at least as large as the freed one on the list, and no live block changes size.
  lemma FreedSizes(h: Heap, k: nat, bp: nat)
    requires Good(h, {}) && bp in h.live && Place(h.xs, k, bp)
    ensures var g := Freed(h, k, bp); exists j :: 0 <= j < |g.xs| && Size(g, g.xs[j]) >= Size(h, bp)
    ensures forall b :: b in h.live && b != bp ==> Size(Freed(h, k, bp), b) == Size(h, b)
  {
    hide Good, Place, Link, JoinBehind;
    FreedFields(h, k, bp);
    BehindFields(h, k, bp);
    FreeNotLive(h, h.xs[k]);
    var g1 := JoinBehind(Link(h, k, bp), k);
    FrontFields(g1, k);
    var g := Freed(h, k, bp);
    if Touch(g1, k) {
      assert Size(g, g.xs[k]) >= Size(h, bp);
    } else {
      assert Size(g, g.xs[k + 1]) >= Size(h, bp);
    }
  }

  lemma JoinBehindKeeps(g: Heap, k: nat)
    requires Good(g, {k, k + 1}) && k + 1 < |g.xs|
    ensures var r := JoinBehind(g, k); k + 1 < |r.xs| && r.xs[k] == g.xs[k] && r.xs[k + 1] == g.xs[k + 1]
  {
    if Touch(g, k + 1) {
      assert {k, k + 1} == {k} + {k + 1};
      JoinGood(g, k + 1, {k});
    }
  }

  // The place in front of k on the circle.
  function Before(xs: seq<nat>, k: nat): nat
    requires k < |xs|
  {
    if k == 0 then |xs| - 1 else k - 1
  }

  function Behind(xs: seq<nat>, k: nat): nat
    requires k < |xs|
  {
    if k + 1 < |xs| then k + 1 else 0
  }

  // Place j has been looked at by a search that started behind f and stands at i.
  predicate Seen(f: nat, i: nat, j: nat) {
    if i > f then f < j < i else j > f || j < i
  }

  // Every block the search has seen is smaller than n units.
  ghost predicate SeenSmall(h: Heap, f: nat, i: nat, n: nat) {
    forall j :: 0 <= j < |h.xs| && Seen(f, i, j) ==> Size(h, h.xs[j]) < n
  }

  ghost predicate HasFit(h: Heap, n: nat) {
    exists j :: 0 <= j < |h.xs| && Size(h, h.xs[j]) >= n
  }

  lemma SeenStart(h: Heap, f: nat, n: nat)
    requires f < |h.xs|
    ensures SeenSmall(h, f, Behind(h.xs, f), n)
  {
  }

  lemma SeenNext(h: Heap, f: nat, i: nat, n: nat)
    requires f < |h.xs| && i < |h.xs| && i != f && SeenSmall(h, f, i, n) && Size(h, h.xs[i]) < n
    ensures SeenSmall(h, f, Behind(h.xs, i), n)
  {
  }

  lemma SeenAll(h: Heap, f: nat, n: nat)
    requires f < |h.xs| && SeenSmall(h, f, f, n) && Size(h, h.xs[f]) < n
    ensures !HasFit(h, n)
  {
    forall j | 0 <= j < |h.xs| ensures Size(h, h.xs[j]) < n { assert j == f || Seen(f, f, j); }
  }

  // ---------------------------------------------------------------- the owner of a live block

  // h with other contents in the cell u: what a program may do to the inside of its block.
  function Scribbled(h: Heap, u: nat, ptr: nat, size: nat): Heap
    requires u < |h.ptr| == |h.size|
  {
    h.(ptr := h.ptr[u := ptr], size := h.size[u := size])
  }

  // The list and the blocks do not depend on what is stored behind the header of a live block.
  lemma ScribbledInv(h: Heap, u: nat, ptr: nat, size: nat)
    requires Inv(h) && u in h.owner && h.owner[u] in h.live && u != h.owner[u]
    ensures u < |h.ptr| == |h.size| && Inv(Scribbled(h, u, ptr, size))
    ensures forall s :: s in h.live ==> Size(Scribbled(h, u, ptr, size), s) == Size(h, s)
  {
    assert UnitOk(h, u) && BlockOk(h, h.owner[u]);
    NotABlock(h, h.owner[u], u);
    var g := Scribbled(h, u, ptr, size);
    forall j | 0 <= j < |g.xs| ensures LinkAt(g, j) { assert LinkAt(h, j); }
    forall j | 0 <= j < |g.xs| - 1 ensures GapAt(g, j, {}) { assert GapAt(h, j, {}); }
    ScribbledTiled(h, g, u);
  }

  lemma ScribbledTiled(h: Heap, g: Heap, u: nat)
    requires Tiled(h) && g.base == h.base && g.brk == h.brk && g.owner == h.owner && g.xs == h.xs && g.live == h.live
    requires !IsBlock(h, u) && forall s: nat :: s != u ==> Size(g, s) == Size(h, s)
    ensures Tiled(g)
  {
    forall s: nat | IsBlock(g, s) ensures BlockOk(g, s) { assert BlockOk(h, s); }
    forall v | v in g.owner ensures UnitOk(g, v) { assert UnitOk(h, v); }
  }
}
