/** The user-level memory allocator (umalloc.c): free, morecore and malloc over header cells. Addresses
    count units of one header (8 bytes); 0 is the null pointer. */
module Umalloc {
  import opened Blocks
  import opened Heap
  import opened Lists
  import opened Wrappers

  // `(nbytes + sizeof(Header) - 1)/sizeof(Header) + 1` on 32-bit unsigned numbers.
  function NUnits(nbytes: nat): nat {
    (nbytes + 7) % UINT / 8 + 1
  }

  // The units behind the header hold the bytes asked for exactly when the sum did not wrap around.
  lemma NUnitsSuffice(nbytes: nat)
    requires nbytes < UINT
    ensures (NUnits(nbytes) - 1) * 8 >= nbytes <==> nbytes + 7 < UINT
    ensures nbytes + 7 < UINT ==> (NUnits(nbytes) - 1) * 8 < nbytes + 8
  {
  }

  // How many units morecore asks sbrk for.
  function MoreUnits(n: nat): nat {
    if n < 4096 then 4096 else n
  }

  // `sbrk(nu * sizeof(Header))`: the product is unsigned, the parameter of sbrk an int.
  function SbrkArgument(nu: nat): int {
    var bytes := nu * 8 % UINT;
    if bytes < UINT / 2 then bytes else bytes - UINT
  }

  // morecore asks for the bytes of its block exactly for requests up to 2^31 - 16 bytes, and for those
  // whose rounding has wrapped around already.
  lemma SbrkSuffices(nbytes: nat)
    requires nbytes < UINT
    ensures var nu := MoreUnits(NUnits(nbytes));
      SbrkArgument(nu) == nu * 8 <==> nbytes <= UINT / 2 - 16 || nbytes + 7 >= UINT
  {
    var nu := NUnits(nbytes);
    if nbytes + 7 < UINT {
      assert nu < 0x1000_0000 <==> nbytes <= UINT / 2 - 16;
    }
  }

  class Allocator {
    const base: nat               // the address of the header `base`
    const ptr: array<nat>         // s.ptr of the header at each address
    const size: array<nat>        // s.size of the header at each address
    var freep: nat
    var brk: nat                  // the end of the memory obtained from sbrk
    ghost var xs: seq<nat>
    ghost var live: set<nat>
    ghost var owner: map<nat, nat>

    ghost function H(): Heap
      reads this, ptr, size
    {
      Heap(ptr[..], size[..], base, brk, freep, xs, live, owner)
    }

    // Before the first malloc there is no list yet.
    ghost predicate Valid()
      reads this, ptr, size
    {
      && ptr != size && ptr.Length == size.Length && 0 < base < brk <= ptr.Length
      && (freep == 0 ==> xs == [] && live == {} && owner == map[])
      && (freep != 0 ==> Inv(H()))
    }

    constructor (base: nat, brk: nat, space: nat)
      requires 0 < base < brk <= space
      ensures Valid() && freep == 0 && live == {} && owner == map[] && this.brk == brk && ptr.Length == space
      ensures fresh(ptr) && fresh(size)
    {
      this.base, this.brk := base, brk;
      ptr, size := new nat[space], new nat[space];
      freep, xs, live, owner := 0, [], {}, map[];
    }

    method Free(ap: nat)
      requires Valid() && freep != 0 && 0 < ap && ap - 1 in live
      modifies this`freep, this`xs, this`live, this`owner, ptr, size
      ensures Valid() && freep != 0
      ensures live == old(live) - {ap - 1} && owner.Keys == old(owner).Keys
      ensures FreeSpec(old(H()), H(), ap - 1)
    {
      var bp := ap - 1;
      ghost var h := H();
      ghost var k: nat := LivePlace(h, bp);
      ghost var i: nat := FreepIndex(h);
      var p := freep;
      hide Inv, Circle, Place, Good, Freed, Succ;
      NextOf(h, i);
      while !(bp > p && bp < ptr[p])
        invariant i < |h.xs| && p == h.xs[i] && H() == h && p < ptr.Length && ptr[p] == Succ(h.xs, i)
        decreases if i <= k then k - i else k - i + |h.xs|
      {
        InCircle(h, i, k, bp);
        if p >= ptr[p] && (bp > p || bp < ptr[p]) {
          break;
        }
        p := ptr[p];
        i := if i + 1 < |h.xs| then i + 1 else 0;
        NextOf(h, i);
      }
      InCircle(h, i, k, bp);
      FreeAt(bp, p, k);
    }

    // The second half of free, once the place k of bp behind p is known.
    method FreeAt(bp: nat, p: nat, ghost k: nat)
      requires ptr != size && Inv(H()) && bp in live && Place(xs, k, bp) && p == xs[k]
      modifies this`freep, this`xs, this`live, this`owner, ptr, size
      ensures Inv(H()) && live == old(live) - {bp} && owner.Keys == old(owner).Keys
      ensures H() == Freed(old(H()), k, bp)
    {
      ghost var h := H();
      FreedInv(h, k, bp);
      FreedFields(h, k, bp);
      hide Inv, Circle, Place, Good, Freed, Succ, StitchedPtr, StitchedSize;
      Stitch(bp, p);
      freep := p;
      xs, live, owner := Freed(h, k, bp).xs, Freed(h, k, bp).live, Freed(h, k, bp).owner;
    }

    // A program storing into a block it holds, anywhere behind the header.
    method UserStore(u: nat, p: nat, s: nat)
      requires Valid() && u in owner && owner[u] in live && u != owner[u]
      modifies ptr, size
      ensures u < ptr.Length == size.Length && Valid() && H() == Scribbled(old(H()), u, p, s)
    {
      hide Inv;
      ScribbledInv(H(), u, p, s);
      ptr[u] := p;
      size[u] := s;
    }

    // The empty list, on the first call of malloc.
    method InitList()
      requires Valid() && freep == 0
      modifies this`freep, this`xs, ptr, size
      ensures Valid() && freep != 0 && Inv(H()) && xs == [base]
    {
      ptr[base] := base;
      freep := base;
      size[base] := 0;
      xs := [base];
      assert LinkAt(H(), 0);
    }

    // More memory for a block of nu units; `grant` is the answer of sbrk, None for its failure. The
    // result is freep, or 0.
    method Morecore(nu: nat, grant: Option<nat>) returns (r: nat)
      requires Valid() && freep != 0
      requires grant.Some? ==> brk <= grant.value && grant.value + MoreUnits(nu) <= ptr.Length
      modifies this`freep, this`xs, this`live, this`owner, this`brk, ptr, size
      ensures Valid() && freep != 0 && (r == 0 <==> grant.None?)
      ensures r == 0 ==> H() == old(H())
      ensures r != 0 ==> r == freep && HasFit(H(), nu) && Granted(old(H()), H(), grant.value, MoreUnits(nu))
    {
      var n := if nu < 4096 then 4096 else nu;
      if grant.None? {
        return 0;
      }
      hide Inv, HasFit;
      var hp := grant.value;
      ghost var h := H();
      GrownInv(h, hp, n);
      InvBase(h);
      size[hp] := n;
      brk := hp + n;
      live := live + {hp};
      owner := Grown(h, hp, n).owner;
      ghost var g := H();
      assert g == Grown(h, hp, n);
      Free(hp + 1);
      GrantedFit(h, g, H(), hp, n, nu);
      InvBase(H());
      return freep;
    }

    // Hands out the free block p, behind prevp on the list, or its tail, as a block of n units.
    method Carve(p: nat, prevp: nat, n: nat, ghost k: nat) returns (a: nat)
      requires Valid() && freep != 0 && 0 < n
      requires k < |xs| && p == xs[k] && prevp == xs[Before(xs, k)] && n <= Size(H(), p)
      modifies this`freep, this`xs, this`live, this`owner, ptr, size
      ensures Valid() && freep != 0 && Handed(old(H()), H(), a, n)
    {
      ghost var h := H();
      hide Inv;
      BaseIsEmpty(h);
      assert 0 < k;
      if size[p] == n {
        HandedWhole(h, k, n);
        ptr[prevp] := ptr[p];
        a := p;
        xs, live := RemoveAt(xs, k), live + {p};
        freep := prevp;
        assert H() == Take(h, k);
      } else {
        HandedPart(h, k, n);
        size[p] := size[p] - n;
        a := p + size[p];
        size[a] := n;
        live := live + {a};
        owner := Split(h, k, n).owner;
        freep := prevp;
        assert H() == Split(h, k, n);
      }
      InvBase(H());
    }

    // The result is the address behind the header of a new block, or 0. `grant` is what sbrk answers if
    // it is asked for MoreUnits(n) units.
    method Malloc(nbytes: nat, grant: Option<nat>) returns (r: nat)
      requires Valid() && nbytes < UINT
      requires grant.Some? ==> brk <= grant.value && grant.value + MoreUnits(NUnits(nbytes)) <= ptr.Length
      modifies this`freep, this`xs, this`live, this`owner, this`brk, ptr, size
      ensures Valid() && freep != 0
      ensures MallocSpec(old(H()), H(), NUnits(nbytes), grant, r)
      // a failure means that every free block was too small; a block handed out holds the bytes behind its header
      ensures r == 0 ==> grant.None? && forall k :: 0 <= k < |old(xs)| ==> Size(old(H()), old(xs)[k]) < NUnits(nbytes)
      ensures r != 0 && nbytes + 7 < UINT ==> nbytes <= (Size(H(), r - 1) - 1) * 8 < nbytes + 8
    {
      hide Inv, MallocSpec, HasFit;
      ghost var h := H();
      NUnitsSuffice(nbytes);
      if freep == 0 {
        InitList();
        ghost var h0 := H();
        r := MallocListed((nbytes + 7) % UINT / 8 + 1, grant);
        FirstCall(h, h0, H(), NUnits(nbytes), grant, r);
      } else {
        r := MallocListed((nbytes + 7) % UINT / 8 + 1, grant);
      }
      MallocFacts(h, H(), NUnits(nbytes), grant, r);
    }

    // The loop of malloc, once there is a list.
    method MallocListed(nunits: nat, grant: Option<nat>) returns (r: nat)
      requires Valid() && freep != 0 && 0 < nunits
      requires grant.Some? ==> brk <= grant.value && grant.value + MoreUnits(nunits) <= ptr.Length
      modifies this`freep, this`xs, this`live, this`owner, this`brk, ptr, size
      ensures Valid() && freep != 0 && MallocSpec(old(H()), H(), nunits, grant, r)
    {
      ghost var h0, grown := H(), false;
      hide Inv, HasFit, SeenSmall, Succ, Granted, Handed, MallocSpec;
      ghost var f: nat := FreepIndex(h0);
      NextOf(h0, f);
      SeenStart(h0, f, nunits);
      var prevp, p := freep, ptr[freep];
      ghost var i: nat := Behind(xs, f);
      while true
        invariant Valid() && freep != 0 && f < |xs| && i < |xs| && xs[f] == freep
        invariant p == xs[i] && prevp == xs[Before(xs, i)] && SeenSmall(H(), f, i, nunits)
        invariant Progress(h0, H(), nunits, grant, grown)
        invariant !grown ==> H() == h0
        decreases if grown then 0 else 1, if i <= f then f - i else f - i + |xs|
      {
        PtrOk(H(), i);
        if size[p] >= nunits {
          FitHere(H(), i, nunits);
          ghost var h := H();
          var a := Carve(p, prevp, nunits, i);
          MallocDone(h0, h, H(), nunits, grant, grown, a);
          return a + 1;
        }
        if p == freep {
          SamePlace(H(), f, i);
          SeenAll(H(), f, nunits);
          OnlyOnce(h0, H(), nunits, grant, grown);
          p := Morecore(nunits, grant);
          if p == 0 {
            MallocFails(h0, nunits, grant);
            return 0;
          }
          grown := true;
          f := FreepIndex(H());
          i := f;
          SeenStart(H(), f, nunits);
        } else {
          SeenNext(H(), f, i, nunits);
        }
        NextOf(H(), i);
        prevp := p;
        p := ptr[p];
        i := Behind(xs, i);
      }
    }

    // The header edits of free.
    method Stitch(bp: nat, p: nat)
      requires ptr != size && ptr.Length == size.Length && p < ptr.Length && bp < ptr.Length && ptr[p] < ptr.Length
      requires p != bp && bp != ptr[p]
      modifies ptr, size
      ensures ptr[..] == StitchedPtr(old(ptr[..]), old(size[..]), p, bp)
      ensures size[..] == StitchedSize(old(ptr[..]), old(size[..]), p, bp)
    {
      if bp + size[bp] == ptr[p] {
        size[bp] := size[bp] + size[ptr[p]];
        ptr[bp] := ptr[ptr[p]];
      } else {
        ptr[bp] := ptr[p];
      }
      if p + size[p] == bp {
        size[p] := size[p] + size[bp];
        ptr[p] := ptr[bp];
      } else {
        ptr[p] := bp;
      }
    }
  }

  // g is h after free(bp): bp, at its place on the list, linked in and joined with what it touches.
  ghost predicate FreeSpec(h: Heap, g: Heap, bp: nat) {
    && h.xs != [] && h.xs[0] < bp && Good(h, {}) && bp in h.live && Place(h.xs, PlaceOf(h.xs, bp), bp)
    && g == Freed(h, PlaceOf(h.xs, bp), bp)
  }

  // What malloc(nbytes) makes of the heap h, when it needs n units and sbrk answers `grant`.
  ghost predicate MallocSpec(h: Heap, g: Heap, n: nat, grant: Option<nat>, r: nat) {
    // 0 is returned exactly when no free block fits and sbrk fails
    && (r == 0 <==> grant.None? && !HasFit(h, n))
    && (r == 0 ==> g.live == h.live && g.owner == h.owner && g.brk == h.brk)
    // otherwise the block is new and of exactly the size needed, and the live blocks keep their sizes
    && (r != 0 ==> r - 1 !in h.live && g.live == h.live + {r - 1} && Size(g, r - 1) == n)
    && (forall b :: b in h.live ==> Size(g, b) == Size(h, b))
    // sbrk is asked only when no free block fits, and once
    && (HasFit(h, n) ==> g.brk == h.brk && g.owner.Keys == h.owner.Keys)
    && (r != 0 && !HasFit(h, n) ==>
          g.brk == grant.value + MoreUnits(n) && g.owner.Keys == h.owner.Keys + Units(grant.value, MoreUnits(n)))
  }

  lemma MallocFacts(h: Heap, g: Heap, n: nat, grant: Option<nat>, r: nat)
    requires MallocSpec(h, g, n, grant, r)
    ensures r == 0 ==> grant.None? && forall k :: 0 <= k < |h.xs| ==> Size(h, h.xs[k]) < n
    ensures r != 0 ==> Size(g, r - 1) == n
  {
  }

  // A block that was freed is found again: malloc of as many bytes needs no memory from sbrk and succeeds.
  lemma FreedIsReused(h: Heap, g: Heap, bp: nat, n: nat, grant: Option<nat>, g': Heap, r: nat)
    requires Inv(h) && FreeSpec(h, g, bp) && n <= Size(h, bp) && MallocSpec(g, g', n, grant, r)
    ensures r != 0 && g'.brk == g.brk
  {
    FreedSizes(h, PlaceOf(h.xs, bp), bp);
  }

  // The heap during the search of malloc, before or after memory was obtained from sbrk.
  ghost predicate Progress(h0: Heap, h: Heap, n: nat, grant: Option<nat>, grown: bool) {
    if grown then HasFit(h, n) && !HasFit(h0, n) && grant.Some? &&
      Granted(h0, h, grant.value, MoreUnits(n)) else h == h0
  }

  lemma MallocDone(h0: Heap, h: Heap, g: Heap, n: nat, grant: Option<nat>, grown: bool, a: nat)
    requires Progress(h0, h, n, grant, grown) && HasFit(h, n) && Handed(h, g, a, n)
    ensures MallocSpec(h0, g, n, grant, a + 1)
  {
    hide HasFit;
  }

  lemma OnlyOnce(h0: Heap, h: Heap, n: nat, grant: Option<nat>, grown: bool)
    requires Progress(h0, h, n, grant, grown) && !HasFit(h, n)
    ensures !grown && h == h0
  {
  }

  lemma MallocFails(h: Heap, n: nat, grant: Option<nat>)
    requires !HasFit(h, n) && grant.None?
    ensures MallocSpec(h, h, n, grant, 0)
  {
    hide HasFit;
  }

  lemma FirstCall(h: Heap, h0: Heap, g: Heap, n: nat, grant: Option<nat>, r: nat)
    requires h.xs == [] && h.live == {} && h.owner == map[] && 0 < n
    requires Inv(h0) && h0.xs == [h0.base] && h0.live == h.live && h0.owner == h.owner && h0.brk == h.brk
    requires MallocSpec(h0, g, n, grant, r)
    ensures MallocSpec(h, g, n, grant, r)
  {
  }

  // g is h with a block of n units, of a free block before, handed out at a.
  ghost predicate Handed(h: Heap, g: Heap, a: nat, n: nat) {
    && a !in h.live && g.live == h.live + {a} && Size(g, a) == n
    && g.owner.Keys == h.owner.Keys && g.brk == h.brk
    && forall b :: b in h.live ==> Size(g, b) == Size(h, b)
  }

  lemma HandedWhole(h: Heap, k: nat, n: nat)
    requires Inv(h) && 0 < k < |h.xs| && Size(h, h.xs[k]) == n
    ensures h.xs[k - 1] < |h.ptr| && Inv(Take(h, k)) && Handed(h, Take(h, k), h.xs[k], n)
  {
    TakeInv(h, k);
  }

  lemma HandedPart(h: Heap, k: nat, n: nat)
    requires Inv(h) && 0 < k < |h.xs| && 0 < n < Size(h, h.xs[k])
    ensures h.xs[k] < |h.size| && h.xs[k] + Size(h, h.xs[k]) - n < |h.size|
    ensures Inv(Split(h, k, n)) && Handed(h, Split(h, k, n), h.xs[k] + Size(h, h.xs[k]) - n, n)
  {
    SplitInv(h, k, n);
  }

  lemma PtrOk(h: Heap, i: nat)
    requires Inv(h) && i < |h.xs|
    ensures h.xs[i] < |h.ptr| == |h.size|
  {
  }

  lemma FitHere(h: Heap, i: nat, n: nat)
    requires i < |h.xs| && Size(h, h.xs[i]) >= n
    ensures HasFit(h, n)
  {
  }

  lemma SamePlace(h: Heap, i: nat, j: nat)
    requires Inv(h) && i < |h.xs| && j < |h.xs| && h.xs[i] == h.xs[j]
    ensures i == j
  {
    if i < j { Less(h.xs, i, j); }
    if j < i { Less(h.xs, j, i); }
  }

  lemma BaseIsEmpty(h: Heap)
    requires Inv(h)
    ensures Size(h, h.xs[0]) == 0
  {
  }

  // g is h with the units [a, a + n) added to the memory; the live blocks are as before.
  ghost predicate Granted(h: Heap, g: Heap, a: nat, n: nat) {
    && g.live == h.live && g.brk == a + n && g.owner.Keys == h.owner.Keys + Units(a, n)
    && forall b :: b in h.live ==> Size(g, b) == Size(h, b)
  }

  lemma GrantedFit(h: Heap, g: Heap, r: Heap, a: nat, n: nat, nu: nat)
    requires Inv(h) && h.brk <= a && 0 < n && a + n <= |h.size| && g == Grown(h, a, n) && nu <= n
    requires FreeSpec(g, r, a) && r.live == g.live - {a} && r.owner.Keys == g.owner.Keys && r.brk == g.brk
    ensures HasFit(r, nu) && Granted(h, r, a, n)
  {
    GrownInv(h, a, n);
    FreedSizes(g, PlaceOf(g.xs, a), a);
  }

  lemma InvBase(h: Heap)
    requires Inv(h)
    ensures 0 < h.base < h.brk <= |h.ptr| == |h.size| && 0 < h.freep
  {
    var i :| 0 <= i < |h.xs| && h.xs[i] == h.freep;
    if 0 < i { Less(h.xs, 0, i); }
  }

  lemma LivePlace(h: Heap, bp: nat) returns (k: nat)
    requires Inv(h) && bp in h.live
    ensures h.xs != [] && h.xs[0] < bp && k == PlaceOf(h.xs, bp) && Place(h.xs, k, bp) && Good(h, {})
  {
    assert IsBlock(h, bp) && BlockOk(h, bp);
    k := PlaceOf(h.xs, bp);
    PlaceIs(h.xs, bp);
  }

  lemma FreepIndex(h: Heap) returns (i: nat)
    requires Inv(h)
    ensures i < |h.xs| && h.xs[i] == h.freep
  {
    i :| 0 <= i < |h.xs| && h.xs[i] == h.freep;
  }

  lemma NextOf(h: Heap, i: nat)
    requires Inv(h) && i < |h.xs|
    ensures h.xs[i] < |h.ptr| && h.ptr[h.xs[i]] == Succ(h.xs, i) == h.xs[if i + 1 < |h.xs| then i + 1 else 0]
  {
    assert LinkAt(h, i);
  }

  lemma InCircle(h: Heap, i: nat, k: nat, bp: nat)
    requires Inv(h) && Place(h.xs, k, bp) && i < |h.xs| && bp in h.live
    ensures k < |h.xs|
    ensures var p, nx := h.xs[i], Succ(h.xs, i);
      i == k <==> (p < bp < nx) || (p >= nx && (bp > p || bp < nx))
  {
    AtPlace(h, i, k, bp);
  }
}
