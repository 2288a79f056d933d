/** What the operations of vm.c do to address spaces: ranges mapped and unmapped, pages taken from kalloc and
    given back, a kernel half set up, a space copied. */
module Spaces {
  import opened Blocks
  import opened Wrappers
  import opened Memory

  const KERNBASE: nat := 0x8000_0000

  function RoundUp(a: nat): nat {   // PGROUNDUP(a) / PGSIZE
    (a + PGSIZE - 1) / PGSIZE
  }

  lemma RoundUpIs(a: nat)
    ensures a <= RoundUp(a) * 4096 < a + 4096
  {
  }

  // ---------------------------------------------------------------- mappages

  // The address space after the first k pages of a mappages call were mapped: virtual page first + j to
  // physical page f + j. User pages now belong to the space, and tables were taken where they were missing.
  ghost predicate Mapping(m: Mem, n: Mem, d: nat, first: nat, k: nat, f: nat, perm: nat) {
    && n.spaces == m.spaces && SameData(m, n) && SameMapBut(m, n, d, first, first + k)
    && AllMapped(n, d, first, k, f, perm) && OwnersMapped(m, n, d, first, k, f)
  }

  ghost predicate AllMapped(n: Mem, d: nat, first: nat, k: nat, f: nat, perm: nat) {
    forall w: nat :: first <= w < first + k ==> MapsTo(n, d, w, first, f, perm)
  }

  ghost predicate MapsTo(n: Mem, d: nat, w: nat, first: nat, f: nat, perm: nat) {
    0 <= f + w - first < FRAMES && perm < PGSIZE && MapAt(n, d, w) == Some(Entry(f + w - first, perm))
  }

  ghost predicate OwnersMapped(m: Mem, n: Mem, d: nat, first: nat, k: nat, f: nat) {
    && (forall g :: g in m.owner ==> Owns(n, g, m.owner[g]))
    && (forall g :: g in n.owner && g !in m.owner ==> TableOrUser(m, n.owner[g], g, d, first, k, f))
    && (forall g :: g in n.free <==> g in m.free && g !in n.owner)
  }

  ghost predicate TableOrUser(m: Mem, o: Owner, g: nat, d: nat, first: nat, k: nat, f: nat) {
    (o.Tab? && o.d == d && g in m.free) || (f <= g < f + k && o == User(d, first + g - f) && first + g - f < USERPAGES)
  }

  // Physical page f + (w - first) is there for virtual page w to own, if w is a user page.
  predicate HeldFor(m: Mem, w: nat, first: nat, f: nat) {
    first <= w && (w < USERPAGES ==> Held(m, f + w - first))
  }

  lemma MappingNone(m: Mem, d: nat, first: nat, f: nat, perm: nat)
    requires Inv(m)
    ensures Mapping(m, m, d, first, 0, f, perm)
  {
  }

  lemma DataMapped(m: Mem, n: Mem, d: nat, first: nat, k: nat, f: nat, r: Mem)
    requires SameData(m, n) && OwnersMapped(m, n, d, first, k, f) && SameData(n, r)
    ensures SameData(m, r)
  {
    forall g: nat | g < |m.page| && Data(m, g) && g !in r.free ensures r.page[g] == m.page[g] { assert Data(n, g); }
  }

  lemma MapsMapped(n: Mem, r: Mem, d: nat, first: nat, k: nat, f: nat, perm: nat)
    requires AllMapped(n, d, first, k, f, perm) && forall w: nat :: first <= w < first + k ==>
      MapAt(r, d, w) == MapAt(n, d, w)
    ensures AllMapped(r, d, first, k, f, perm)
  {
    forall w: nat | first <= w < first + k
      ensures MapsTo(r, d, w, first, f, perm) { assert MapsTo(n, d, w, first, f, perm); }
  }

  lemma AddTableParts(n: Mem, d: nat, i: nat, t: nat)
    ensures var r := AddTable(n, d, i, t);
      r.owner == n.owner[t := Tab(d, i)] && r.free == n.free - {t} && r.spaces == n.spaces
  {
  }

  lemma TableOwners(m: Mem, n: Mem, r: Mem, d: nat, first: nat, k: nat, f: nat, i: nat, t: nat)
    requires Inv(n) && OwnersMapped(m, n, d, first, k, f) && t in n.free && r.owner == n.owner[t := Tab(d, i)]
    requires r.free == n.free - {t}
    ensures OwnersMapped(m, r, d, first, k, f)
  {
    assert FreeOk(n);
    hide Inv;
  }

  lemma TableMaps(m: Mem, n: Mem, r: Mem, d: nat, first: nat, k: nat)
    requires SameMapBut(m, n, d, first, first + k) && SameMapBut(n, r, d, 0, 0) && n.spaces == m.spaces && d in n.spaces
    ensures SameMapBut(m, r, d, first, first + k)
    ensures forall w: nat :: MapAt(r, d, w) == MapAt(n, d, w)
  {
    hide MapAt;
  }

  lemma MappingTable(m: Mem, n: Mem, d: nat, first: nat, k: nat, f: nat, perm: nat, i: nat, t: nat)
    requires Inv(m) && Inv(n) && Mapping(m, n, d, first, k, f, perm)
    requires d in n.spaces && i < ENTRIES && t in n.free && !Present(Pde(n, d, i))
    ensures Mapping(m, AddTable(n, d, i, t), d, first, k, f, perm)
  {
    hide Inv, MapAt, AddTable, Present, Pde, AllMapped, SameData, OwnersMapped, OwnersGrew, SameMapBut;
    var r := AddTable(n, d, i, t);
    AddTableTook(n, d, i, t);
    AddTableParts(n, d, i, t);
    TableOwners(m, n, r, d, first, k, f, i, t);
    DataMapped(m, n, d, first, k, f, r);
    TableMaps(m, n, r, d, first, k);
    MapsMapped(n, r, d, first, k, f, perm);
  }

  lemma MappingNext(m: Mem, n: Mem, d: nat, first: nat, k: nat, f: nat, perm: nat)
    requires Inv(n) && Mapping(m, n, d, first, k, f, perm) && d in n.spaces && f + k < FRAMES && perm < PGSIZE
    requires MapAt(n, d, first + k).None? && Present(Pde(n, d, Dirx(first + k)))
    requires first + k < USERPAGES ==> Held(n, f + k)
    ensures Inv(MapOne(n, d, first + k, Entry(f + k, perm)))
    ensures Mapping(m, MapOne(n, d, first + k, Entry(f + k, perm)), d, first, k + 1, f, perm)
  {
    hide Pde, Entry, Dirx, Frame, Present, Inv, MapAt, AllMapped, SameData, OwnersMapped, SameMapBut, MapOne;
    EntryParts(f + k, perm);
    MapOneInv(n, d, first + k, Entry(f + k, perm));
    var r := MapOne(n, d, first + k, Entry(f + k, perm));
    MapOneOwners(n, d, first + k, Entry(f + k, perm));
    RewiredMap(n, r, d, first + k, Entry(f + k, perm));
    DataMapped(m, n, d, first, k, f, r);
    NextOwners(m, n, r, d, first, k, f, Entry(f + k, perm));
    NextMaps(m, n, r, d, first, k, f, perm);
  }

  lemma RewiredMap(m: Mem, n: Mem, d: nat, vp: nat, e: Uint)
    requires Rewired(m, n, d, vp, e)
    ensures forall c: nat, w: nat :: c in m.spaces ==>
      MapAt(n, c, w) == if c == d && w == vp then (if Present(e) then Some(e) else None) else MapAt(m, c, w)
  {
    hide Pte, Pde, Present;
  }

  lemma NextOwners(m: Mem, n: Mem, r: Mem, d: nat, first: nat, k: nat, f: nat, e: Uint)
    requires OwnersMapped(m, n, d, first, k, f) && r.free == n.free && Frame(e) == f + k
    requires first + k < USERPAGES ==> Held(n, f + k)
    requires r.owner == if first + k < USERPAGES then n.owner[Frame(e) := User(d, first + k)] else n.owner
    ensures OwnersMapped(m, r, d, first, k + 1, f)
  {
    hide Frame;
  }

  lemma NextMaps(m: Mem, n: Mem, r: Mem, d: nat, first: nat, k: nat, f: nat, perm: nat)
    requires SameMapBut(m, n, d, first, first + k) && AllMapped(n, d, first, k, f, perm) && n.spaces == m.spaces
    requires d in m.spaces
    requires f + k < FRAMES && perm < PGSIZE
    requires forall c: nat, w: nat :: c in n.spaces ==>
      MapAt(r, c, w) == if c == d && w == first + k then Some(Entry(f + k, perm)) else MapAt(n, c, w)
    ensures SameMapBut(m, r, d, first, first + k + 1) && AllMapped(r, d, first, k + 1, f, perm)
  {
    hide MapAt, Entry;
    forall w: nat | first <= w < first + k + 1 ensures MapsTo(r, d, w, first, f, perm) {
      if w < first + k { assert MapsTo(n, d, w, first, f, perm); }
    }
  }

  lemma MapOneOwners(n: Mem, d: nat, vp: nat, e: Uint)
    ensures var r := MapOne(n, d, vp, e);
      && r.free == n.free && r.spaces == n.spaces
      && r.owner == if vp < USERPAGES then n.owner[Frame(e) := User(d, vp)] else n.owner
  {
  }

  lemma LastFrame(va: nat, size: nat, pa: nat, k: nat)
    requires 0 < size && va + size <= UINT && pa % PGSIZE == 0 && pa + size + va % PGSIZE <= UINT
    requires va / PGSIZE + k <= (va + size - 1) / PGSIZE
    ensures pa / PGSIZE + k < FRAMES
  {
  }

  lemma DirxBound(vp: nat)
    requires vp < FRAMES
    ensures Dirx(vp) < ENTRIES
  {
  }

  // The next page to map is absent or present as it was at the start, and still nobody's.
  lemma MappingAt(m: Mem, n: Mem, d: nat, first: nat, k: nat, f: nat, perm: nat)
    requires Inv(m) && Mapping(m, n, d, first, k, f, perm) && d in m.spaces
    ensures MapAt(n, d, first + k) == MapAt(m, d, first + k) && n.spaces == m.spaces
    ensures Held(m, f + k) ==> Held(n, f + k)
  {
    hide MapAt, AllMapped;
  }

  lemma MappingSpaces(m: Mem, n: Mem, d: nat, first: nat, k: nat, f: nat, perm: nat)
    requires Mapping(m, n, d, first, k, f, perm)
    ensures n.spaces == m.spaces && |n.page| == |m.page|
  {
  }

  lemma AbsentTable(n: Mem, d: nat, vp: nat)
    requires !Present(Pde(n, d, Dirx(vp)))
    ensures MapAt(n, d, vp).None?
  {
    AbsentZero();
  }

  lemma PteIs(n: Mem, d: nat, vp: nat)
    requires Present(Pde(n, d, Dirx(vp))) && Frame(Pde(n, d, Dirx(vp))) < |n.page|
    ensures Pte(n, d, vp) == n.page[Frame(Pde(n, d, Dirx(vp)))][Tabx(vp)]
    ensures MapAt(n, d, vp).Some? <==> Present(Pte(n, d, vp))
    ensures MapAt(n, d, vp).Some? ==> MapAt(n, d, vp).value == Pte(n, d, vp)
  {
  }

  lemma MapOneParts(n: Mem, d: nat, vp: nat, e: Uint)
    requires Present(Pde(n, d, Dirx(vp))) && Frame(Pde(n, d, Dirx(vp))) < |n.page|
    ensures var t := Frame(Pde(n, d, Dirx(vp)));
      MapOne(n, d, vp, e) == Mem(n.page[t := n.page[t][Tabx(vp) := e]], n.free,
                                 if vp < USERPAGES then n.owner[Frame(e) := User(d, vp)] else n.owner, n.spaces)
  {
  }

  // ---------------------------------------------------------------- taking pages

  lemma TookNone(m: Mem, d: nat)
    requires Inv(m)
    ensures Took(m, m, d, {})
  {
  }

  lemma TookKalloc(m: Mem, n: Mem, d: nat, f: nat)
    requires Inv(n) && Took(m, n, d, {}) && f in n.free
    ensures Took(m, n.(free := n.free - {f}), d, {f})
  {
    assert FreeOk(n);
    hide Inv;
  }

  lemma TookWrite(m: Mem, n: Mem, d: nat, f: nat, p: Page)
    requires Took(m, n, d, {f})
    ensures Took(m, PutPage(n, f, p), d, {f})
  {
  }

  lemma TookKfree(m: Mem, n: Mem, d: nat, f: nat)
    requires Took(m, n, d, {f})
    ensures Took(m, n.(free := n.free + {f}), d, {})
  {
  }

  // A page mapped at a user address is no longer just held.
  lemma TookMapped(m: Mem, n: Mem, r: Mem, d: nat, w: nat, k: nat, f: nat, perm: nat)
    requires Inv(n) && Inv(r) && Took(m, n, d, {f}) && Mapping(n, r, d, w, k, f, perm) && k <= 1 && w < USERPAGES
    requires d in n.spaces
    ensures Took(m, r, d, if k == 1 then {} else {f})
  {
    hide AllMapped, SameMapBut, MapAt, OwnersGrew, OwnersMapped, SameData, Inv, Owns;
    if k == 1 { MappedOwner(n, r, d, w, f, perm); }
    TookData(m, n, d, {f}, r);
    TookOwners(m, n, r, d, w, k, f);
  }

  lemma TookOwners(m: Mem, n: Mem, r: Mem, d: nat, w: nat, k: nat, f: nat)
    requires OwnersGrew(m, n, d, {f}) && OwnersMapped(n, r, d, w, k, f) && k <= 1
    requires k == 1 ==> Owns(r, f, User(d, w))
    ensures OwnersGrew(m, r, d, if k == 1 then {} else {f})
  {
  }

  lemma MappedOwner(n: Mem, r: Mem, d: nat, w: nat, f: nat, perm: nat)
    requires Inv(r) && Mapping(n, r, d, w, 1, f, perm) && w < USERPAGES && d in r.spaces
    ensures Owns(r, f, User(d, w)) && Present(Pte(r, d, w)) && Pte(r, d, w) == Entry(f, perm)
  {
    hide Pte, Present, Frame, Entry, Inv;
    assert MapsTo(r, d, w, w, f, perm);
    EntryParts(f, perm);
    MapAtPte(r, d, w);
    UserAt(r, d, w);
  }

  lemma MapAtPte(m: Mem, d: nat, w: nat)
    ensures MapAt(m, d, w) == if Present(Pte(m, d, w)) then Some(Pte(m, d, w)) else None
  {
  }

  lemma TookData(m: Mem, n: Mem, d: nat, held: set<nat>, r: Mem)
    requires Took(m, n, d, held) && SameData(n, r)
    ensures SameData(m, r)
  {
    forall g: nat | g < |m.page| && Data(m, g) && g !in r.free ensures r.page[g] == m.page[g] { assert Data(n, g); }
  }

  // Mapping kernel addresses takes tables only.
  lemma TookKernel(m: Mem, n: Mem, r: Mem, d: nat, first: nat, k: nat, f: nat, perm: nat)
    requires Took(m, n, d, {}) && Mapping(n, r, d, first, k, f, perm) && USERPAGES <= first
    ensures Took(m, r, d, {})
  {
    hide AllMapped, SameMapBut, MapAt;
    TookData(m, n, d, {}, r);
    hide SameData;
  }

  lemma FilledTook(m: Mem, n: Mem, d: nat, f: nat, p: Page)
    requires Inv(n) && Took(m, n, d, {}) && f in n.free
    ensures Took(m, Filled(n, f, p), d, {f})
  {
    TookKalloc(m, n, d, f);
    TookWrite(m, n.(free := n.free - {f}), d, f, p);
  }

  // ---------------------------------------------------------------- deallocuvm

  // n is m after the user pages in [lo, hi) of space d were unmapped and freed.
  ghost predicate Shrank(m: Mem, n: Mem, d: nat, lo: nat, hi: nat) {
    && n.spaces == m.spaces && SameData(m, n)
    && (forall c: nat, w: nat :: c in m.spaces ==>
         MapAt(n, c, w) == if c == d && lo <= w < hi then None else MapAt(m, c, w))
    && OwnersShrank(m, n, d, lo, hi)
  }

  predicate InRange(o: Owner, d: nat, lo: nat, hi: nat) {
    o.User? && o.d == d && lo <= o.vp < hi
  }

  ghost predicate OwnersShrank(m: Mem, n: Mem, d: nat, lo: nat, hi: nat) {
    && (forall g: nat, o: Owner :: Owns(n, g, o) <==> Owns(m, g, o) && !InRange(o, d, lo, hi))
    && (forall g :: g in n.free <==> g in m.free || (g in m.owner && g !in n.owner))
  }

  lemma ShrankNone(m: Mem, d: nat, lo: nat)
    requires Inv(m)
    ensures Shrank(m, m, d, lo, lo)
  {
  }

  // There is nothing mapped in [w, x).
  lemma ShrankSkip(m: Mem, n: Mem, d: nat, lo: nat, w: nat, x: nat)
    requires Inv(n) && Shrank(m, n, d, lo, w) && lo <= w <= x && d in n.spaces && forall v: nat :: w <= v < x ==>
      MapAt(n, d, v).None?
    ensures Shrank(m, n, d, lo, x)
  {
    forall g: nat, o: Owner | Owns(n, g, o) ensures !InRange(o, d, w, x) {
      if InRange(o, d, w, x) { NoUserPage(n, d, o.vp); }
    }
    hide Inv, SameData, MapAt;
    forall g: nat, o: Owner ensures Owns(n, g, o) <==> Owns(m, g, o) && !InRange(o, d, lo, x) {
      SkippedOwner(m, n, d, lo, w, x, g, o);
    }
  }

  lemma SkippedOwner(m: Mem, n: Mem, d: nat, lo: nat, w: nat, x: nat, g: nat, o: Owner)
    requires OwnersShrank(m, n, d, lo, w) && lo <= w <= x && (Owns(n, g, o) ==> !InRange(o, d, w, x))
    ensures Owns(n, g, o) <==> Owns(m, g, o) && !InRange(o, d, lo, x)
  {
    assert InRange(o, d, lo, x) <==> InRange(o, d, lo, w) || InRange(o, d, w, x);
  }

  // One page more.
  lemma ShrankNext(m: Mem, n: Mem, d: nat, lo: nat, w: nat)
    requires Inv(n) && Shrank(m, n, d, lo, w) && d in n.spaces && w < USERPAGES && Present(Pte(n, d, w)) && lo <= w
    ensures Inv(UnmapOne(n, d, w)) && Shrank(m, UnmapOne(n, d, w), d, lo, w + 1)
  {
    UnmapOneInv(n, d, w);
    OneUserPage(n, d, w);
    RewiredMap(n, UnmapOne(n, d, w), d, w, 0);
    AbsentZero();
    var r, f := UnmapOne(n, d, w), Frame(Pte(n, d, w));
    assert r.free == n.free + {f} && r.owner == n.owner - {f};
    hide Inv, UnmapOne, MapAt, Pte, Frame, Present;
    ShrankData(m, n, d, lo, w, r);
    ShrankOwners(m, n, r, d, lo, w, f);
  }

  lemma ShrankData(m: Mem, n: Mem, d: nat, lo: nat, w: nat, r: Mem)
    requires SameData(m, n) && OwnersShrank(m, n, d, lo, w) && SameData(n, r) && n.free <= r.free
    ensures SameData(m, r)
  {
    forall g: nat | g < |m.page| && Data(m, g) && g !in r.free ensures r.page[g] == m.page[g] {
      assert g in n.owner ==> Owns(n, g, n.owner[g]);
      assert Data(n, g);
    }
  }

  lemma ShrankOwners(m: Mem, n: Mem, r: Mem, d: nat, lo: nat, w: nat, f: nat)
    requires OwnersShrank(m, n, d, lo, w) && lo <= w && r.free == n.free + {f} && r.owner == n.owner - {f}
    requires Owns(n, f, User(d, w)) && forall g: nat :: Owns(n, g, User(d, w)) ==> g == f
    ensures OwnersShrank(m, r, d, lo, w + 1)
  {
    forall g: nat, o: Owner ensures Owns(r, g, o) <==> Owns(m, g, o) && !InRange(o, d, lo, w + 1) {
      assert InRange(o, d, lo, w + 1) <==> InRange(o, d, lo, w) || o == User(d, w);
      assert Owns(n, g, o) <==> Owns(m, g, o) && !InRange(o, d, lo, w);
      assert Owns(n, g, o) && o == User(d, w) ==> g == f;
    }
    assert Owns(m, f, User(d, w));
  }

  // Unmapping what was mapped into an empty range gives the map back, and keeps only page tables.
  lemma ShrankBack(m: Mem, n: Mem, r: Mem, d: nat, lo: nat, w: nat, hi: nat, held: set<nat>)
    requires Inv(m) && Inv(r) && d in m.spaces && n.spaces == m.spaces
    requires Took(m, n, d, held) && SameMapBut(m, n, d, lo, w) && Shrank(n, r, d, lo, hi) && w <= hi <= USERPAGES
    requires forall v: nat :: lo <= v < hi ==> MapAt(m, d, v).None?
    ensures Took(m, r, d, held) && SameMapBut(m, r, d, 0, 0)
  {
    hide MapAt, SpaceOk;
    forall g | g in m.owner ensures !InRange(m.owner[g], d, lo, hi) {
      assert Owns(m, g, m.owner[g]);
      if InRange(m.owner[g], d, lo, hi) { NoUserPage(m, d, m.owner[g].vp); }
    }
    forall g | g in r.owner ensures g !in r.free { assert OwnerOk(r, g); }
    BackData(m, n, r, d, lo, hi, held);
    hide Inv, SameData;
    forall g | g in n.owner && g !in r.owner
      ensures g in m.free && g !in m.owner { assert Owns(n, g, n.owner[g]) && !Owns(r, g, n.owner[g]); }
    forall g | g in r.owner ensures g in n.owner && n.owner[g] == r.owner[g] { assert Owns(r, g, r.owner[g]); }
    assert OwnersGrew(m, r, d, held);
  }

  lemma BackData(m: Mem, n: Mem, r: Mem, d: nat, lo: nat, hi: nat, held: set<nat>)
    requires SameData(m, n) && OwnersGrew(m, n, d, held) && SameData(n, r) && n.free <= r.free
    requires forall g :: g in m.owner ==> !InRange(m.owner[g], d, lo, hi)
    ensures SameData(m, r)
  {
    forall g: nat | g < |m.page| && Data(m, g) && g !in r.free ensures r.page[g] == m.page[g] {
      assert g in n.owner ==> Owns(n, g, n.owner[g]);
      assert Data(n, g);
    }
  }

  // ---------------------------------------------------------------- allocuvm

  // The pages in [lo, hi) of space d are zeroed, writable user pages.
  ghost predicate Zeroed(n: Mem, d: nat, lo: nat, hi: nat) {
    forall w: nat :: lo <= w < hi ==> ZeroAt(n, d, w)
  }

  ghost predicate ZeroAt(n: Mem, d: nat, w: nat) {
    var e := MapAt(n, d, w);
    e.Some? && Flags(e.value) == PTE_W + PTE_U + 1 && Frame(e.value) < |n.page| && n.page[Frame(e.value)] == ZeroPage()
  }

  // The page f, held and zeroed, is mapped at w.
  lemma AllocNext(n: Mem, r: Mem, d: nat, lo: nat, w: nat, f: nat)
    requires Inv(n) && Inv(r) && d in n.spaces && Zeroed(n, d, lo, w) && lo <= w < USERPAGES
    requires Held(n, f) && n.page[f] == ZeroPage() && Mapping(n, r, d, w, 1, f, PTE_W + PTE_U)
    ensures Zeroed(r, d, lo, w + 1)
  {
    hide Inv, MapAt, Frame, Flags, Entry, ZeroPage;
    MapsOne(n, r, d, w, f, PTE_W + PTE_U);
    assert Data(n, f) && f !in r.free;
    forall v: nat | lo <= v < w + 1 ensures ZeroAt(r, d, v) {
      if v < w { assert ZeroAt(n, d, v); KeepsPage(n, r, d, v); }
    }
  }

  lemma MapsOne(n: Mem, r: Mem, d: nat, w: nat, f: nat, perm: nat)
    requires Mapping(n, r, d, w, 1, f, perm) && perm < PGSIZE
    ensures f < FRAMES && MapAt(r, d, w) == Some(Entry(f, perm))
    ensures Frame(Entry(f, perm)) == f && Flags(Entry(f, perm)) == WithPresent(perm)
  {
    hide MapAt, Entry, Frame, Flags, SameData, SameMapBut, OwnersMapped;
    assert MapsTo(r, d, w, w, f, perm);
    EntryParts(f, perm);
  }

  // A page mapped before is mapped, and holds what it held.
  lemma KeepsPage(n: Mem, r: Mem, d: nat, v: nat)
    requires Inv(n) && Inv(r) && d in n.spaces && d in r.spaces && v < USERPAGES && SameData(n, r)
    requires MapAt(n, d, v).Some? && MapAt(r, d, v) == MapAt(n, d, v)
    ensures var f := Frame(MapAt(n, d, v).value); f < |n.page| == |r.page| && r.page[f] == n.page[f]
  {
    UserAt(n, d, v);
    UserAt(r, d, v);
  }

  // Whatever else is kept of a growth that was undone, it is page tables.
  lemma OnlyTablesKept(m: Mem, r: Mem, d: nat, g: nat)
    requires Inv(m) && Inv(r) && d in m.spaces && r.spaces == m.spaces && Took(m, r, d, {}) && SameMapBut(m, r, d, 0, 0)
    requires g in r.owner && g !in m.owner
    ensures r.owner[g].Tab? && r.owner[g].d == d
  {
    hide Frame, Present, Pde;
    assert OwnerOk(r, g);
    if r.owner[g].Dir? { SpaceAt(m, d); }
    if r.owner[g].User? {
      MapAtPte(r, d, r.owner[g].vp);
      MapAtPte(m, d, r.owner[g].vp);
      UserAt(m, d, r.owner[g].vp);
    }
  }

  // ---------------------------------------------------------------- a new space

  // The page d becomes the directory of a new, empty space.
  function NewSpace(m: Mem, d: nat): Mem {
    PutPage(m, d, ZeroPage()).(free := m.free - {d}, owner := m.owner[d := Dir(d)], spaces := m.spaces + {d})
  }

  lemma NewSpaceReads(m: Mem, d: nat)
    requires Inv(m) && d in m.free
    ensures d !in m.spaces && 0 < d < |m.page|
    ensures forall c: nat, k: nat :: c in m.spaces ==> Pde(NewSpace(m, d), c, k) == Pde(m, c, k)
    ensures forall c: nat, w: nat :: c in m.spaces ==> Pte(NewSpace(m, d), c, w) == Pte(m, c, w)
    ensures forall k: nat :: Pde(NewSpace(m, d), d, k) == 0
    ensures forall w: nat :: Pte(NewSpace(m, d), d, w) == 0
  {
    hide SpaceOk, OwnerOk;
    var n := NewSpace(m, d);
    AbsentZero();
    assert FreeOk(m);
    if d in m.spaces { SpaceAt(m, d); }
    forall c: nat, k: nat | c in m.spaces ensures Pde(n, c, k) == Pde(m, c, k) { SpaceAt(m, c); }
    forall c: nat, w: nat | c in m.spaces ensures Pte(n, c, w) == Pte(m, c, w) {
      if Present(Pde(m, c, Dirx(w))) { TabAt(m, c, Dirx(w)); }
    }
  }

  lemma NewSpaceParts(m: Mem, d: nat)
    requires d < |m.page|
    ensures NewSpace(m, d) == Mem(m.page[d := ZeroPage()], m.free - {d}, m.owner[d := Dir(d)], m.spaces + {d})
  {
  }

  lemma NewSpaceTook(m: Mem, d: nat)
    requires Inv(m) && d in m.free
    ensures Took(m, NewSpace(m, d), d, {}) && FreeOk(NewSpace(m, d))
  {
    assert FreeOk(m);
    NewSpaceParts(m, d);
    hide Inv, NewSpace;
  }

  lemma NewSpaceInv(m: Mem, d: nat)
    requires Inv(m) && d in m.free
    ensures Inv(NewSpace(m, d)) && d !in m.spaces && Took(m, NewSpace(m, d), d, {})
    ensures SameMapBut(m, NewSpace(m, d), d, 0, 0)
    ensures forall w: nat :: MapAt(NewSpace(m, d), d, w).None?
  {
    hide Pde, Pte, Present, Frame, NewSpace, FreeOk, Took;
    var n := NewSpace(m, d);
    AbsentZero();
    NewSpaceReads(m, d);
    NewSpaceTook(m, d);
    NewSpaceParts(m, d);
    forall g | g in n.owner ensures OwnerOk(n, g) { if g != d { assert OwnerOk(m, g); } }
    forall c | c in n.spaces ensures SpaceOk(n, c) { NewSpaceSpace(m, d, c); }
  }

  lemma NewSpaceSpace(m: Mem, d: nat, c: nat)
    requires Inv(m) && d in m.free && (c == d || c in m.spaces)
    ensures SpaceOk(NewSpace(m, d), c)
  {
    hide Pde, Pte, Present, Frame, NewSpace, FreeOk, Took, OwnerOk;
    var n := NewSpace(m, d);
    AbsentZero();
    NewSpaceReads(m, d);
    NewSpaceParts(m, d);
    NewSpaceFree(m, d);
    if c != d { assert SpaceOk(m, c); }
    forall k: nat | k < ENTRIES ensures TabOk(n, c, k) { if c != d { assert TabOk(m, c, k); } }
    forall w: nat | w < USERPAGES ensures UserOk(n, c, w) { if c != d { assert UserOk(m, c, w); } }
  }

  lemma NewSpaceFree(m: Mem, d: nat)
    requires Inv(m) && d in m.free
    ensures d !in m.owner
  {
    assert FreeOk(m);
  }

  // r is n with space d and all its pages given back.
  ghost predicate Gone(n: Mem, r: Mem, d: nat) {
    && r.spaces == n.spaces - {d} && SameData(n, r)
    && (forall c: nat, w: nat :: c in r.spaces ==> MapAt(r, c, w) == MapAt(n, c, w))
    && (forall g: nat, o: Owner :: Owns(r, g, o) <==> Owns(n, g, o) && o.d != d)
    && (forall g :: g in r.free <==> g in n.free || (g in n.owner && n.owner[g].d == d))
  }

  // r is m again, every page that was taken included.
  ghost predicate Restored(m: Mem, r: Mem) {
    && r.spaces == m.spaces && r.owner == m.owner && r.free == m.free && SameData(m, r)
    && (forall c: nat, w: nat :: c in m.spaces ==> MapAt(r, c, w) == MapAt(m, c, w))
  }

  lemma GoneRestores(m: Mem, n: Mem, r: Mem, d: nat)
    requires Inv(m) && Took(m, n, d, {}) && d !in m.spaces && d in n.spaces && SameMapBut(m, n, d, 0, 0)
    requires Gone(n, r, d)
    ensures Restored(m, r)
  {
    NotOwners(m, d);
    hide Inv, MapAt, SameData, SameMapBut;
    forall g ensures Owned(r, g) == Owned(m, g) { RestoredOwner(m, n, r, d, g); }
    assert r.owner.Keys == m.owner.Keys by {
      forall g: nat ensures g in r.owner <==> g in m.owner { assert Owned(r, g) == Owned(m, g); }
    }
    forall g | g in r.owner ensures r.owner[g] == m.owner[g] { assert Owned(r, g) == Owned(m, g); }
    RestoredFree(m, n, r, d);
    RestoredData(m, n, r, d);
    RestoredMap(m, n, r, d);
  }

  lemma NotOwners(m: Mem, d: nat)
    requires Inv(m) && d !in m.spaces
    ensures forall g :: g in m.owner ==> m.owner[g].d != d && g !in m.free
  {
    forall g | g in m.owner ensures m.owner[g].d != d && g !in m.free { assert OwnerOk(m, g); }
  }

  function Owned(m: Mem, g: nat): Option<Owner> {
    if g in m.owner then Some(m.owner[g]) else None
  }

  lemma RestoredOwner(m: Mem, n: Mem, r: Mem, d: nat, g: nat)
    requires OwnersGrew(m, n, d, {}) && (g in m.owner ==> m.owner[g].d != d)
    requires forall g: nat, o: Owner :: Owns(r, g, o) <==> Owns(n, g, o) && o.d != d
    ensures Owned(r, g) == Owned(m, g)
  {
    if g in r.owner { assert Owns(r, g, r.owner[g]); }
    if g in m.owner { assert Owns(n, g, m.owner[g]); }
  }

  lemma RestoredFree(m: Mem, n: Mem, r: Mem, d: nat)
    requires OwnersGrew(m, n, d, {}) && forall g :: g in m.owner ==> m.owner[g].d != d && g !in m.free
    requires forall g :: g in r.free <==> g in n.free || (g in n.owner && n.owner[g].d == d)
    ensures r.free == m.free && n.free <= r.free
  {
    forall g: nat | g in m.owner ensures n.owner[g] == m.owner[g] { assert Owns(n, g, m.owner[g]); }
  }

  lemma RestoredMap(m: Mem, n: Mem, r: Mem, d: nat)
    requires SameMapBut(m, n, d, 0, 0) && d !in m.spaces && r.spaces == m.spaces
    requires forall c: nat, w: nat :: c in r.spaces ==> MapAt(r, c, w) == MapAt(n, c, w)
    ensures forall c: nat, w: nat :: c in m.spaces ==> MapAt(r, c, w) == MapAt(m, c, w)
  {
    hide MapAt;
  }

  lemma RestoredData(m: Mem, n: Mem, r: Mem, d: nat)
    requires SameData(m, n) && OwnersGrew(m, n, d, {}) && SameData(n, r) && r.free == m.free && n.free <= r.free
    ensures SameData(m, r)
  {
    forall g: nat | g < |m.page| && Data(m, g) && g !in r.free ensures r.page[g] == m.page[g] { assert Data(n, g); }
  }

  // Page g is the k-th table of directory d, or d itself.
  predicate TabOf(n: Mem, d: nat, k: nat, g: nat) {
    Present(Pde(n, d, k)) && Frame(Pde(n, d, k)) == g
  }

  // freevm once the user pages are gone: the space is dropped, and its tables and directory are held.
  lemma DropSpace(n: Mem, d: nat)
    requires Inv(n) && d in n.spaces
    ensures Inv(Dropped(n, d))
    ensures forall c: nat, w: nat :: MapAt(Dropped(n, d), c, w) == MapAt(n, c, w)
  {
    hide Pde, Pte, Present, Frame, MapAt, FreeOk, SpaceOk;
    var r := Dropped(n, d);
    SamePagesAll(n, r);
    assert FreeOk(r) by { DroppedFree(n, d); }
    forall g | g in r.owner ensures OwnerOk(r, g) { assert OwnerOk(n, g); }
    forall c | c in r.spaces ensures SpaceOk(r, c) { DroppedSpace(n, d, c); }
  }

  lemma DroppedFree(n: Mem, d: nat)
    requires FreeOk(n)
    ensures FreeOk(Dropped(n, d))
  {
  }

  lemma DroppedSpace(n: Mem, d: nat, c: nat)
    requires Inv(n) && c in n.spaces && c != d
    ensures SpaceOk(Dropped(n, d), c)
  {
    hide Pde, Pte, Present, Frame, MapAt, FreeOk, OwnerOk;
    var r := Dropped(n, d);
    SamePagesAll(n, r);
    assert SpaceOk(n, c);
    forall k: nat | k < ENTRIES ensures TabOk(r, c, k) { assert TabOk(n, c, k); }
    forall w: nat | w < USERPAGES ensures UserOk(r, c, w) { assert UserOk(n, c, w); }
  }

  function Dropped(n: Mem, d: nat): Mem {
    n.(owner := map g | g in n.owner && n.owner[g].d != d :: n.owner[g], spaces := n.spaces - {d})
  }

  // The pages freevm frees are those the space still owns.
  ghost predicate FreedUpto(n: Mem, d: nat, i: nat, free: set<nat>) {
    forall g :: g in free <==> g in n.free || exists k: nat :: k < i && TabOf(n, d, k, g)
  }

  lemma FreedNext(n: Mem, d: nat, i: nat, free: set<nat>)
    requires Inv(n) && d in n.spaces && i < ENTRIES && FreedUpto(n, d, i, free)
    ensures Present(Pde(n, d, i)) ==> Frame(Pde(n, d, i)) !in free
    ensures FreedUpto(n, d, i + 1, if Present(Pde(n, d, i)) then free + {Frame(Pde(n, d, i))} else free)
  {
    hide Inv, Pde, Present, Frame;
    var next := if Present(Pde(n, d, i)) then free + {Frame(Pde(n, d, i))} else free;
    if Present(Pde(n, d, i)) {
      TabAt(n, d, i);
      forall k: nat | k < i && TabOf(n, d, k, Frame(Pde(n, d, i))) ensures false { TabAt(n, d, k); }
    }
    forall g ensures g in next <==> g in n.free || exists k: nat :: k < i + 1 && TabOf(n, d, k, g) {
      if g in next && g !in n.free {
        if g in free {
          var k: nat :| k < i && TabOf(n, d, k, g);
          assert k < i + 1;
        } else {
          assert TabOf(n, d, i, g);
        }
      }
    }
  }

  lemma FreedAll(n: Mem, d: nat, free: set<nat>)
    requires Inv(n) && d in n.spaces && FreedUpto(n, d, ENTRIES, free) && forall w: nat :: w < USERPAGES ==>
      MapAt(n, d, w).None?
    ensures d !in free
    ensures forall g :: g in free + {d} <==> g in n.free || (g in n.owner && n.owner[g].d == d)
  {
    SpaceAt(n, d);
    hide Pde, Present, Frame;
    forall g | g in free ensures g != d && (g in n.free || (g in n.owner && n.owner[g].d == d)) {
      if g !in n.free {
        var k: nat :| k < ENTRIES && TabOf(n, d, k, g);
        TabAt(n, d, k);
      }
    }
    forall g | g in n.owner && n.owner[g].d == d && g != d ensures g in free {
      assert OwnerOk(n, g);
      assert Owns(n, g, n.owner[g]);
      if n.owner[g].User? { NoUserPage(n, d, n.owner[g].vp); }
      assert TabOf(n, d, n.owner[g].i, g);
    }
  }

  lemma GoneFinally(m: Mem, n: Mem, d: nat, free: set<nat>)
    requires Inv(m) && Inv(n) && d in n.spaces && Shrank(m, n, d, 0, USERPAGES)
    requires forall g :: g in free <==> g in n.free || (g in n.owner && n.owner[g].d == d)
    ensures var r := Dropped(n, d).(free := free); Inv(r) && Gone(m, r, d)
  {
    hide Inv, Pde, Pte, MapAt, FreeOk, SameData, OwnersShrank;
    var r := Dropped(n, d).(free := free);
    DropSpace(n, d);
    SamePagesAll(Dropped(n, d), r);
    assert FreeOk(r) by { FinallyFree(n, d, free); }
    SameTables(Dropped(n, d), r);
    GoneOwners(m, n, r, d);
    GoneData(m, n, r, d);
  }

  lemma FinallyFree(n: Mem, d: nat, free: set<nat>)
    requires Inv(n) && forall g :: g in free <==> g in n.free || (g in n.owner && n.owner[g].d == d)
    ensures FreeOk(Dropped(n, d).(free := free))
  {
    hide Pde, Pte, Frame, Present, SpaceOk;
    forall g | g in n.owner ensures 0 < g < |n.page| { assert OwnerOk(n, g); }
  }

  lemma GoneOwners(m: Mem, n: Mem, r: Mem, d: nat)
    requires Shrank(m, n, d, 0, USERPAGES) && r.owner == Dropped(n, d).owner
    requires forall g :: g in r.free <==> g in n.free || (g in n.owner && n.owner[g].d == d)
    ensures forall g: nat, o: Owner :: Owns(r, g, o) <==> Owns(m, g, o) && o.d != d
    ensures forall g :: g in r.free <==> g in m.free || (g in m.owner && m.owner[g].d == d)
  {
    hide MapAt, SameData;
    forall g: nat, o: Owner ensures Owns(r, g, o) <==> Owns(m, g, o) && o.d != d {
      assert Owns(n, g, o) <==> Owns(m, g, o) && !InRange(o, d, 0, USERPAGES);
    }
    forall g: nat ensures g in r.free <==> g in m.free || (g in m.owner && m.owner[g].d == d) {
      if g in m.owner { assert Owns(m, g, m.owner[g]); assert Owns(n, g, m.owner[g]) <==>
        !InRange(m.owner[g], d, 0, USERPAGES); }
      if g in n.owner { assert Owns(n, g, n.owner[g]); }
    }
  }

  lemma GoneData(m: Mem, n: Mem, r: Mem, d: nat)
    requires Shrank(m, n, d, 0, USERPAGES) && n.free <= r.free && r.page == n.page
    ensures SameData(m, r)
  {
    hide MapAt;
  }

  // ---------------------------------------------------------------- the kernel half

  // Where the kernel's data begins (a virtual page number), and how many physical pages there are.
  datatype Layout = Layout(data: nat, phys: nat)

  const IOPAGES: nat := 0x100       // EXTMEM / PGSIZE
  const DEVPAGE: nat := 0xF_E000    // DEVSPACE / PGSIZE

  predicate LayoutOk(l: Layout) {
    USERPAGES + IOPAGES < l.data < USERPAGES + l.phys <= DEVPAGE
  }

  // A record of kmap: count pages from virtual page virt on, mapped to physical pages from phys on.
  datatype Region = Region(virt: nat, count: nat, phys: nat, perm: nat)

  function Kmap(l: Layout, j: nat): Region
    requires LayoutOk(l)
  {
    if j == 0 then Region(USERPAGES, IOPAGES, 0, PTE_W)
    else if j == 1 then Region(USERPAGES + IOPAGES, l.data - USERPAGES - IOPAGES, IOPAGES, 0)
    else if j == 2 then Region(l.data, USERPAGES + l.phys - l.data, l.data - USERPAGES, PTE_W)
    else Region(DEVPAGE, FRAMES - DEVPAGE, DEVPAGE, PTE_W)
  }

  function InRegion(r: Region, w: nat): Option<Uint> {
    if r.virt <= w < r.virt + r.count then Some(Entry(r.phys + w - r.virt, r.perm)) else None
  }

  function KernUpto(l: Layout, j: nat, w: nat): Option<Uint>
    requires LayoutOk(l) && j <= 4
  {
    if j == 0 then None
    else if InRegion(Kmap(l, j - 1), w).Some? then InRegion(Kmap(l, j - 1), w) else KernUpto(l, j - 1, w)
  }

  // The kernel half of every address space, page by page.
  function KernAt(l: Layout, w: nat): Option<Uint>
    requires LayoutOk(l)
  {
    if USERPAGES <= w < USERPAGES + l.phys then
      Some(Entry(w - USERPAGES, if USERPAGES + IOPAGES <= w < l.data then 0 else PTE_W))
    else if DEVPAGE <= w < FRAMES then Some(Entry(w, PTE_W))
    else None
  }

  // The same in numbers: 1 MB of I/O space writable, text readable, data up to `phys` writable, all from
  // 2 GB on at their own place, and the devices from 0xFE000000 on.
  lemma KernNumbers(l: Layout, w: nat)
    requires LayoutOk(l)
    ensures KernAt(l, w) ==
      if 0x80000 <= w < 0x80100 || l.data <= w < 0x80000 + l.phys then Some((w - 0x80000) * 4096 + 3)
      else if 0x80100 <= w < l.data then Some((w - 0x80000) * 4096 + 1)
      else if 0xFE000 <= w < 0x10_0000 then Some(w * 4096 + 3)
      else None
  {
  }

  lemma KernIsKmap(l: Layout, w: nat)
    requires LayoutOk(l)
    ensures KernUpto(l, 4, w) == KernAt(l, w)
  {
    hide Entry;
    assert KernUpto(l, 1, w) == InRegion(Kmap(l, 0), w);
    assert KernUpto(l, 2, w) == if InRegion(Kmap(l, 1), w).Some? then InRegion(Kmap(l, 1), w) else KernUpto(l, 1, w);
    assert KernUpto(l, 3, w) == if InRegion(Kmap(l, 2), w).Some? then InRegion(Kmap(l, 2), w) else KernUpto(l, 2, w);
  }

  // The regions do not overlap.
  lemma KernFresh(l: Layout, j: nat, w: nat)
    requires LayoutOk(l) && j < 4 && InRegion(Kmap(l, j), w).Some?
    ensures KernUpto(l, j, w).None?
  {
    hide Entry;
    assert KernUpto(l, 1, w) == InRegion(Kmap(l, 0), w);
    assert KernUpto(l, 2, w) == if InRegion(Kmap(l, 1), w).Some? then InRegion(Kmap(l, 1), w) else KernUpto(l, 1, w);
    assert KernUpto(l, 3, w) == if InRegion(Kmap(l, 2), w).Some? then InRegion(Kmap(l, 2), w) else KernUpto(l, 2, w);
  }

  lemma RegionBounds(l: Layout, j: nat)
    requires LayoutOk(l) && j < 4
    ensures var r := Kmap(l, j);
      USERPAGES <= r.virt && 0 < r.count && r.virt + r.count <= FRAMES && r.phys + r.count <= FRAMES && r.perm < PGSIZE
  {
  }

  // n is m with the space d set up, whose map is the first j records of kmap.
  ghost predicate Born(m: Mem, n: Mem, d: nat, l: Layout, j: nat)
    requires LayoutOk(l) && j <= 4
  {
    && d !in m.spaces && d in n.spaces && Took(m, n, d, {}) && SameMapBut(m, n, d, 0, 0)
    && forall w: nat :: MapAt(n, d, w) == KernUpto(l, j, w)
  }

  lemma BornNext(m: Mem, n: Mem, r: Mem, d: nat, l: Layout, j: nat)
    requires LayoutOk(l) && j < 4 && Born(m, n, d, l, j)
    requires var k := Kmap(l, j); Mapping(n, r, d, k.virt, k.count, k.phys, k.perm)
    ensures Born(m, r, d, l, j + 1)
  {
    hide MapAt, Entry, KernUpto, OwnersGrew, AllMapped, OwnersMapped, SameData;
    var k := Kmap(l, j);
    RegionBounds(l, j);
    TookKernel(m, n, r, d, k.virt, k.count, k.phys, k.perm);
    forall w: nat ensures MapAt(r, d, w) == KernUpto(l, j + 1, w) {
      KernNext(l, j, w);
      if k.virt <= w < k.virt + k.count { RegionMapped(r, d, k, w); }
    }
  }

  lemma RegionMapped(r: Mem, d: nat, k: Region, w: nat)
    requires AllMapped(r, d, k.virt, k.count, k.phys, k.perm) && k.virt <= w < k.virt + k.count
    ensures MapAt(r, d, w) == Some(Entry(k.phys + w - k.virt, k.perm))
  {
    assert MapsTo(r, d, w, k.virt, k.phys, k.perm);
  }

  lemma KernNext(l: Layout, j: nat, w: nat)
    requires LayoutOk(l) && j < 4
    ensures KernUpto(l, j + 1, w) == if InRegion(Kmap(l, j), w).Some? then InRegion(Kmap(l, j), w) else KernUpto(l,
      j, w)
  {
  }

  // ---------------------------------------------------------------- copyuvm

  // Page w of the child c has the bytes and the flags of page w of the parent d.
  ghost predicate CopiedAt(m: Mem, n: Mem, d: nat, c: nat, w: nat) {
    var e, f := MapAt(m, d, w), MapAt(n, c, w);
    && e.Some? && f.Some? && Flags(f.value) == Flags(e.value)
    && Frame(e.value) < |m.page| == |n.page| && Frame(f.value) < |n.page|
    && n.page[Frame(f.value)] == m.page[Frame(e.value)]
  }

  // n is m with a new space c: the kernel half, and copies of the first i pages of d.
  ghost predicate Copying(m: Mem, n: Mem, d: nat, c: nat, i: nat, l: Layout)
    requires LayoutOk(l)
  {
    && c !in m.spaces && c in n.spaces && Took(m, n, c, {}) && SameMapBut(m, n, c, 0, 0)
    && (forall w: nat :: w < i ==> CopiedAt(m, n, d, c, w))
    && (forall w: nat :: i <= w ==> MapAt(n, c, w) == KernAt(l, w))
  }

  lemma CopyStart(m: Mem, n: Mem, d: nat, c: nat, l: Layout)
    requires LayoutOk(l) && Born(m, n, c, l, 4)
    ensures Copying(m, n, d, c, 0, l)
  {
    hide MapAt, KernUpto, KernAt, Took;
    forall w: nat ensures MapAt(n, c, w) == KernAt(l, w) { KernIsKmap(l, w); }
  }

  lemma CopyNext(m: Mem, n: Mem, r: Mem, d: nat, c: nat, i: nat, l: Layout, f: nat, e: Uint)
    requires LayoutOk(l) && Inv(m) && Inv(n) && Inv(r) && Copying(m, n, d, c, i, l) && d in m.spaces && i < USERPAGES
    requires f in n.free && MapAt(m, d, i) == Some(e) && Frame(e) < |m.page|
    requires Mapping(Filled(n, f, m.page[Frame(e)]), r, c, i, 1, f, Flags(e))
    ensures Copying(m, r, d, c, i + 1, l)
  {
    hide Inv, MapAt, Frame, Flags, Entry, KernAt, OwnersGrew, Filled, SameMapBut;
    var p := m.page[Frame(e)];
    var n' := Filled(n, f, p);
    FilledInv(n, f, p);
    FilledTook(m, n, c, f, p);
    TookMapped(m, n', r, c, i, 1, f, Flags(e));
    MapsOne(n', r, c, i, f, Flags(e));
    assert WithPresent(Flags(e)) == Flags(e) by { MapAtPte(m, d, i); PresentFlags(e); }
    FilledKept(n', r, c, i, f, Flags(e));
    OthersKept(m, n, n', r, c, i);
    forall w: nat | w < i ensures CopiedAt(m, r, d, c, w) {
      assert CopiedAt(m, n, d, c, w);
      FilledPage(n, f, p, c, w);
      KeepsPage(n', r, c, w);
    }
  }

  lemma FilledKept(n': Mem, r: Mem, c: nat, i: nat, f: nat, perm: nat)
    requires Inv(r) && Held(n', f) && Mapping(n', r, c, i, 1, f, perm) && i < USERPAGES && c in r.spaces
    ensures |r.page| == |n'.page| && r.page[f] == n'.page[f]
  {
    hide MapAt, AllMapped, SameMapBut;
    MappedOwner(n', r, c, i, f, perm);
    assert OwnerOk(r, f);
  }

  lemma OthersKept(m: Mem, n: Mem, n': Mem, r: Mem, c: nat, i: nat)
    requires SameMapBut(m, n, c, 0, 0) && SameMapBut(n', r, c, i, i + 1) && n.spaces == n'.spaces
    requires c !in m.spaces && m.spaces <= n.spaces && c in n.spaces
    requires forall e: nat, w: nat :: e in n.spaces ==> MapAt(n', e, w) == MapAt(n, e, w)
    ensures SameMapBut(m, r, c, 0, 0)
    ensures forall w: nat :: w != i ==> MapAt(r, c, w) == MapAt(n, c, w)
  {
    hide MapAt;
  }

  lemma FilledPage(n: Mem, f: nat, p: Page, c: nat, w: nat)
    requires Inv(n) && f in n.free && c in n.spaces && w < USERPAGES && MapAt(n, c, w).Some?
    ensures var g := Frame(MapAt(n, c, w).value);
      g < |n.page| == |Filled(n, f, p).page| && Filled(n, f, p).page[g] == n.page[g]
  {
    UserAt(n, c, w);
  }

  // The bytes that copyuvm copies from are those the parent had.
  lemma ParentPage(m: Mem, n: Mem, d: nat, c: nat, i: nat, l: Layout)
    requires LayoutOk(l) && Inv(m) && Inv(n) && Copying(m, n, d, c, i, l) && d in m.spaces && i < USERPAGES
    ensures MapAt(n, d, i) == MapAt(m, d, i) && d in n.spaces && d != c
    ensures MapAt(m, d, i).Some? ==>
      var f := Frame(MapAt(m, d, i).value); f < |m.page| == |n.page| && n.page[f] == m.page[f]
  {
    hide CopiedAt, KernAt, MapAt;
    if MapAt(m, d, i).Some? { KeepsPage(m, n, d, i); }
  }
}
