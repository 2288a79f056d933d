/** The virtual memory system (vm.c): walking and filling two-level page tables, growing, shrinking and
    freeing address spaces, and copying one for fork. */
module Vm {
  import opened Blocks
  import opened Wrappers
  import opened Memory
  import opened Spaces

  datatype MapResult = Mapped | NoMemory | Remap

  class Machine {
    const page: array<Page>
    var free: set<nat>
    ghost var owner: map<nat, Owner>
    ghost var spaces: set<nat>
    ghost var denied: bool        // some call of kalloc has returned 0

    ghost function Value(): Mem
      reads this, page
    {
      Mem(page[..], free, owner, spaces)
    }

    ghost predicate Valid()
      reads this, page
    {
      Inv(Value())
    }

    // A machine with n physical pages and no address space; kalloc can hand out the pages in `pool`.
    constructor (n: nat, pool: set<nat>)
      requires n <= FRAMES && forall f :: f in pool ==> 0 < f < n
      ensures Valid() && spaces == {} && free == pool && page.Length == n && fresh(page) && !denied
    {
      page := new Page[n](_ => ZeroPage());
      free, owner, spaces, denied := pool, map[], {}, false;
    }

    // kalloc: any page that is free.
    method Kalloc() returns (f: Option<nat>)
      modifies this`free, this`denied
      ensures f.None? <==> old(free) == {}
      ensures f.None? ==> free == old(free)
      ensures f.Some? ==> f.value in old(free) && free == old(free) - {f.value}
      ensures denied == (old(denied) || f.None?)
    {
      if free == {} {
        denied := true;
        return None;
      }
      var g :| g in free;
      free := free - {g};
      f := Some(g);
    }

    // kfree; the page must not be free already.
    method Kfree(f: nat)
      requires f !in free
      modifies this`free
      ensures free == old(free) + {f}
    {
      free := free + {f};
    }

    // walkpgdir for virtual page vp: the page that holds the table, if there is one.
    method Walkpgdir(d: nat, vp: nat, alloc: bool) returns (t: Option<nat>)
      requires Valid() && d in spaces && Dirx(vp) < ENTRIES
      modifies page, this`free, this`denied, this`owner
      ensures Valid()
      ensures t.None? <==> !Present(Pde(old(Value()), d, Dirx(vp))) && (!alloc || old(free) == {})
      ensures denied == (old(denied) || (alloc && t.None?))
      ensures t.None? || Present(Pde(old(Value()), d, Dirx(vp))) ==> Value() == old(Value())
      ensures t.Some? ==>
        && Present(Pde(Value(), d, Dirx(vp)))
        && Frame(Pde(Value(), d, Dirx(vp))) == t.value < page.Length
      ensures t.Some? && !Present(Pde(old(Value()), d, Dirx(vp))) ==>
        && t.value in old(free)
        && Value() == AddTable(old(Value()), d, Dirx(vp), t.value)
    {
      SpaceAt(Value(), d);
      var pde := page[d][Dirx(vp)];
      if Present(pde) {
        TabAt(Value(), d, Dirx(vp));
        return Some(Frame(pde));
      }
      if !alloc {
        return None;
      }
      t := Kalloc();
      if t.Some? {
        var f := t.value;
        AddTableInv(old(Value()), d, Dirx(vp), f);
        AddTablePde(old(Value()), d, Dirx(vp), f, d, Dirx(vp));
        EntryParts(f, PTE_W + PTE_U);
        page[f] := ZeroPage();
        page[d] := page[d][Dirx(vp) := Entry(f, PTE_W + PTE_U)];
        owner := owner[f := Tab(d, Dirx(vp))];
        assert Value() == AddTable(old(Value()), d, Dirx(vp), f);
      }
    }

    // mappages; `k` is how many pages it mapped.
    method Mappages(d: nat, va: nat, size: nat, pa: nat, perm: nat) returns (r: MapResult, k: nat)
      requires Valid() && d in spaces && perm < PGSIZE
      requires 0 < size && va + size <= UINT && pa % PGSIZE == 0 && pa + size + va % PGSIZE <= UINT
      requires forall w: nat :: va / PGSIZE <= w <= (va + size - 1) / PGSIZE ==>
        HeldFor(Value(), w, va / PGSIZE, pa / PGSIZE)
      modifies page, this`free, this`denied, this`owner
      ensures Valid() && Mapping(old(Value()), Value(), d, va / PGSIZE, k, pa / PGSIZE, perm)
      ensures k <= (va + size - 1) / PGSIZE - va / PGSIZE + 1
      ensures r.Mapped? <==> k == (va + size - 1) / PGSIZE - va / PGSIZE + 1
      ensures forall w: nat :: va / PGSIZE <= w < va / PGSIZE + k ==> MapAt(old(Value()), d, w).None?
      ensures r.Remap? ==> MapAt(old(Value()), d, va / PGSIZE + k).Some?
      ensures r.NoMemory? ==> free == {}
      ensures denied == (old(denied) || r.NoMemory?)
    {
      hide Inv, Mapping, MapAt, Frame, Present, Pde, Pte, Dirx, Held;
      assert (va + size - 1) / PGSIZE < FRAMES;
      ghost var m := Value();
      var first, f := va / PGSIZE, pa / PGSIZE;
      var a, last := first, (va + size - 1) / PGSIZE;
      k := 0;
      MappingNone(m, d, first, f, perm);
      while true
        invariant Valid() && spaces == m.spaces && Mapping(m, Value(), d, first, k, f, perm)
        invariant a == first + k <= last < FRAMES && denied == old(denied)
        invariant forall w: nat :: first <= w < first + k ==> MapAt(m, d, w).None?
        decreases last - a
      {
        LastFrame(va, size, pa, k);
        assert HeldFor(m, a, first, f);
        r := MapPage(m, d, first, k, f, perm);
        if r != Mapped {
          return;
        }
        k := k + 1;
        if a == last {
          break;
        }
        a := a + 1;
      }
      r := Mapped;
    }

    // One turn of the loop of mappages.
    method MapPage(ghost m: Mem, d: nat, first: nat, k: nat, f: nat, perm: nat) returns (r: MapResult)
      requires Valid() && d in spaces && Inv(m) && Mapping(m, Value(), d, first, k, f, perm)
      requires f + k < FRAMES && perm < PGSIZE && first + k < FRAMES
      requires first + k < USERPAGES ==> Held(m, f + k)
      modifies page, this`free, this`denied, this`owner
      ensures Valid() && spaces == old(spaces)
      ensures Mapping(m, Value(), d, first, if r.Mapped? then k + 1 else k, f, perm)
      ensures r.Remap? <==> MapAt(m, d, first + k).Some?
      ensures r.NoMemory? ==> free == {}
      ensures denied == (old(denied) || r.NoMemory?)
    {
      hide Inv, Mapping, Frame, Entry, Pde, Present, MapAt, Pte, Dirx, Held;
      ghost var n := Value();
      DirxBound(first + k);
      MappingSpaces(m, n, d, first, k, f, perm);
      MappingAt(m, n, d, first, k, f, perm);
      var t := Walkpgdir(d, first + k, true);
      if t.None? {
        AbsentTable(n, d, first + k);
        return NoMemory;
      }
      if !Present(Pde(n, d, Dirx(first + k))) {
        MappingTable(m, n, d, first, k, f, perm, Dirx(first + k), t.value);
      }
      MappingAt(m, Value(), d, first, k, f, perm);
      PteIs(Value(), d, first + k);
      if Present(page[t.value][Tabx(first + k)]) {
        return Remap;
      }
      MappingNext(m, Value(), d, first, k, f, perm);
      ghost var after := MapOne(Value(), d, first + k, Entry(f + k, perm));
      MapOneParts(Value(), d, first + k, Entry(f + k, perm));
      EntryParts(f + k, perm);
      page[t.value] := page[t.value][Tabx(first + k) := Entry(f + k, perm)];
      owner := if first + k < USERPAGES then owner[f + k := User(d, first + k)] else owner;
      assert Value() == after;
      r := Mapped;
    }

    // A page from kalloc, filled with p.
    method KallocFilled(p: Page) returns (f: Option<nat>)
      requires Valid()
      modifies page, this`free, this`denied
      ensures f.None? <==> old(free) == {}
      ensures f.None? ==> Value() == old(Value())
      ensures denied == (old(denied) || f.None?)
      ensures f.Some? ==> f.value in old(free) && Value() == Filled(old(Value()), f.value, p)
    {
      f := Kalloc();
      if f.Some? {
        assert FreeOk(old(Value()));
        page[f.value] := p;
      }
    }

    // deallocuvm; a / PGSIZE is written w.
    method Deallocuvm(d: nat, oldsz: nat, newsz: nat) returns (sz: nat)
      requires Valid() && d in spaces && oldsz <= KERNBASE
      modifies page, this`free, this`denied, this`owner
      ensures Valid() && sz == (if newsz >= oldsz then oldsz else newsz) && denied == old(denied)
      ensures newsz >= oldsz ==> Value() == old(Value())
      ensures newsz < oldsz ==> Shrank(old(Value()), Value(), d, RoundUp(newsz), RoundUp(oldsz))
    {
      hide Inv, Shrank, MapAt, Frame, Present, Pde, Pte, Dirx, UnmapOne;
      if newsz >= oldsz {
        return oldsz;
      }
      ghost var m, lo, hi := Value(), RoundUp(newsz), RoundUp(oldsz);
      var w: nat := RoundUp(newsz);
      ghost var x: nat := w;
      ShrankNone(m, d, lo);
      while w * PGSIZE < oldsz
        invariant Valid() && Shrank(m, Value(), d, lo, x) && d in spaces
        invariant lo <= x <= hi && x == (if w < hi then w else hi) && denied == old(denied)
        decreases oldsz - w * PGSIZE
      {
        assert w < hi <= USERPAGES;
        DirxBound(w);
        var t := Walkpgdir(d, w, false);
        if t.None? {
          var next := (Dirx(w) + 1) * ENTRIES;
          x := SkipTable(m, d, lo, w, hi);
          NextTable(w);
          w := next;
        } else {
          PteIs(Value(), d, w);
          if Present(page[t.value][Tabx(w)]) {
            ShrankNext(m, Value(), d, lo, w);
            UserAt(Value(), d, w);
            UnmapOneParts(Value(), d, w);
            ghost var after := UnmapOne(Value(), d, w);
            Kfree(Frame(page[t.value][Tabx(w)]));
            owner := owner - {Frame(page[t.value][Tabx(w)])};
            page[t.value] := page[t.value][Tabx(w) := 0];
            assert Value() == after;
          } else {
            ShrankSkip(m, Value(), d, lo, w, w + 1);
          }
          w, x := w + 1, w + 1;
        }
      }
      sz := newsz;
    }

    // A page directory entry is absent, so nothing is mapped up to the next one.
    ghost method SkipTable(m: Mem, d: nat, lo: nat, w: nat, hi: nat) returns (x: nat)
      requires Valid() && Shrank(m, Value(), d, lo, w) && lo <= w < hi && d in spaces
      requires !Present(Pde(Value(), d, Dirx(w)))
      ensures x == if (Dirx(w) + 1) * ENTRIES < hi then (Dirx(w) + 1) * ENTRIES else hi
      ensures Shrank(m, Value(), d, lo, x)
    {
      x := if (Dirx(w) + 1) * ENTRIES < hi then (Dirx(w) + 1) * ENTRIES else hi;
      NextTable(w);
      forall v: nat | w <= v < x ensures MapAt(Value(), d, v).None? {
        SameTable(w, v);
        AbsentTable(Value(), d, v);
      }
      ShrankSkip(m, Value(), d, lo, w, x);
    }

    // allocuvm; a / PGSIZE is written w. The new size, or 0 on failure.
    method Allocuvm(d: nat, oldsz: nat, newsz: nat) returns (sz: nat)
      requires Valid() && d in spaces
      requires forall v: nat :: RoundUp(oldsz) <= v < RoundUp(newsz) ==> MapAt(Value(), d, v).None?
      modifies page, this`free, this`denied, this`owner
      ensures Valid() && spaces == old(spaces)
      ensures newsz < KERNBASE && newsz < oldsz ==> sz == oldsz && Value() == old(Value())
      ensures newsz < KERNBASE && newsz >= oldsz && sz == newsz ==>
        && Took(old(Value()), Value(), d, {})
        && SameMapBut(old(Value()), Value(), d, RoundUp(oldsz), RoundUp(newsz))
        && Zeroed(Value(), d, RoundUp(oldsz), RoundUp(newsz))
      ensures newsz >= KERNBASE || (newsz >= oldsz && sz != newsz) ==>
        && sz == 0 && Took(old(Value()), Value(), d, {}) && SameMapBut(old(Value()), Value(), d, 0, 0)
      // a growth that was not asked too much fails exactly when a kalloc in it does
      ensures denied == (old(denied) || (oldsz <= newsz < KERNBASE && sz != newsz))
    {
      hide Inv, MapAt, Took, SameMapBut, Zeroed, Mapping, Shrank, Held;
      ghost var m := Value();
      TookNone(m, d);
      SameMapNone(m, d);
      if newsz >= KERNBASE {
        return 0;
      }
      if newsz < oldsz {
        return oldsz;
      }
      ghost var lo, hi := RoundUp(oldsz), RoundUp(newsz);
      var w := RoundUp(oldsz);
      SameMapRange(m, m, d, lo, lo);
      ZeroedNone(m, d, lo);
      while w * PGSIZE < newsz
        invariant Valid() && spaces == m.spaces && lo <= w <= hi && denied == old(denied)
        invariant Took(m, Value(), d, {}) && SameMapBut(m, Value(), d, lo, w) && Zeroed(Value(), d, lo, w)
        decreases newsz - w * PGSIZE
      {
        assert w < hi <= USERPAGES;
        var ok := AllocPage(m, d, lo, w, hi, oldsz, newsz);
        if !ok {
          return 0;
        }
        w := w + 1;
      }
      sz := newsz;
    }

    // mappages as allocuvm and copyuvm call it: one page, held by the caller, where nothing is mapped yet.
    method MapFresh(d: nat, w: nat, f: nat, perm: nat) returns (ok: bool)
      requires Valid() && d in spaces && w < USERPAGES && Held(Value(), f) && perm < PGSIZE
      requires MapAt(Value(), d, w).None?
      modifies page, this`free, this`denied, this`owner
      ensures Valid() && spaces == old(spaces) && Mapping(old(Value()), Value(), d, w, if ok then 1 else 0, f, perm)
      ensures denied == (old(denied) || !ok)
    {
      hide Inv, Mapping, MapAt, Frame, Held;
      ghost var n := Value();
      HeldBounds(n, f);
      var r, k := Mappages(d, w * PGSIZE, PGSIZE, f * PGSIZE, perm);
      MappingSpaces(n, Value(), d, w, k, f, perm);
      ok := r.Mapped?;
    }

    // One turn of the loop of allocuvm: a page more, or everything back as it was.
    method AllocPage(ghost m: Mem, d: nat, ghost lo: nat, w: nat, ghost hi: nat, oldsz: nat, newsz: nat)
        returns (ok: bool)
      requires Valid() && Inv(m) && d in m.spaces && spaces == m.spaces && lo <= w < hi <= USERPAGES
      requires Took(m, Value(), d, {}) && SameMapBut(m, Value(), d, lo, w) && Zeroed(Value(), d, lo, w)
      requires forall v: nat :: lo <= v < hi ==> MapAt(m, d, v).None?
      requires oldsz < newsz < KERNBASE && lo == RoundUp(oldsz) && hi == RoundUp(newsz)
      modifies page, this`free, this`denied, this`owner
      ensures Valid() && spaces == m.spaces && Took(m, Value(), d, {}) && denied == (old(denied) || !ok)
      ensures
        if ok then SameMapBut(m, Value(), d, lo, w + 1) && Zeroed(Value(), d, lo, w + 1)
        else SameMapBut(m, Value(), d, 0, 0)
    {
      hide Inv, MapAt, Took, SameMapBut, Zeroed, Mapping, Shrank, Held, Frame, Filled;
      ghost var n := Value();
      var mem := KallocFilled(ZeroPage());
      if mem.None? {
        var sz := Deallocuvm(d, newsz, oldsz);
        ShrankSpaces(n, Value(), d, lo, hi);
        ShrankBack(m, n, Value(), d, lo, w, hi, {});
        return false;
      }
      var f := mem.value;
      ghost var n' := Value();
      FilledInv(n, f, ZeroPage());
      FilledTook(m, n, d, f, ZeroPage());
      FilledSame(m, n, n', d, lo, w);
      FilledZeroed(n, f, ZeroPage(), d, lo, w);
      MapsInRange(m, n', d, lo, w);
      var mapped := MapFresh(d, w, f, PTE_W + PTE_U);
      ghost var k := if mapped then 1 else 0;
      TookMapped(m, n', Value(), d, w, k, f, PTE_W + PTE_U);
      SameMapMapped(m, n', Value(), d, lo, w, k, f, PTE_W + PTE_U);
      if !mapped {
        ghost var q := Value();
        var sz := Deallocuvm(d, newsz, oldsz);
        ShrankSpaces(q, Value(), d, lo, hi);
        ShrankBack(m, q, Value(), d, lo, w, hi, {f});
        TookKfree(m, Value(), d, f);
        TookHeld(m, Value(), d, f);
        KfreeInv(Value(), f);
        ghost var before := Value();
        Kfree(f);
        FreedSame(m, before, Value(), d);
        return false;
      }
      AllocNext(n', Value(), d, lo, w, f);
      ok := true;
    }

    // freevm.
    method Freevm(d: nat)
      requires Valid() && d in spaces
      modifies page, this`free, this`denied, this`owner, this`spaces
      ensures Valid() && Gone(old(Value()), Value(), d) && denied == old(denied)
    {
      hide Inv, Shrank, Frame, Present, MapAt, Gone, Pte;
      ghost var m := Value();
      var sz := Deallocuvm(d, KERNBASE, 0);
      ghost var n := Value();
      ShrankSpaces(m, n, d, 0, USERPAGES);
      NoUserLeft(m, n, d);
      SpaceAt(n, d);
      var i := 0;
      while i < ENTRIES
        invariant i <= ENTRIES && FreedUpto(n, d, i, free)
        invariant page[..] == n.page && owner == n.owner && spaces == n.spaces && denied == old(denied)
      {
        FreedNext(n, d, i, free);
        if Present(page[d][i]) {
          Kfree(Frame(page[d][i]));
        }
        i := i + 1;
      }
      FreedAll(n, d, free);
      Kfree(d);
      GoneFinally(m, n, d, free);
      owner, spaces := Dropped(n, d).owner, Dropped(n, d).spaces;
      assert Value() == Dropped(n, d).(free := free);
    }

    // setupkvm: the new directory, if there was memory for it and its tables.
    method Setupkvm(l: Layout) returns (r: Option<nat>)
      requires Valid() && LayoutOk(l)
      modifies page, this`free, this`denied, this`owner, this`spaces
      ensures Valid()
      ensures r.Some? ==> Born(old(Value()), Value(), r.value, l, 4)
      ensures r.None? ==> Restored(old(Value()), Value())
      ensures denied == (old(denied) || r.None?)
    {
      hide Inv, Born, Restored, MapAt, Took, SameMapBut, Gone, Kmap, LayoutOk;
      ghost var m := Value();
      RestoredItself(m);
      r := Kalloc();
      if r.None? {
        return;
      }
      var d := r.value;
      NewSpaceInv(m, d);
      FreeInside(m, d);
      NewSpaceParts(m, d);
      page[d] := ZeroPage();
      owner, spaces := owner[d := Dir(d)], spaces + {d};
      assert Value() == NewSpace(m, d);
      BornStart(m, d, l);
      var j := 0;
      while j < 4
        invariant j <= 4 && Valid() && Born(m, Value(), d, l, j) && denied == old(denied)
      {
        var k := Kmap(l, j);
        RegionBounds(l, j);
        BornParts(m, Value(), d, l, j);
        RegionHeld(Value(), k);
        ghost var n := Value();
        var res, done := Mappages(d, k.virt * PGSIZE, k.count * PGSIZE, k.phys * PGSIZE, k.perm);
        BornFresh(m, n, d, l, j, done);
        if !res.Mapped? {
          BornFailed(m, n, Value(), d, l, j, done);
          ghost var q := Value();
          Freevm(d);
          GoneRestores(m, q, Value(), d);
          return None;
        }
        BornNext(m, n, Value(), d, l, j);
        j := j + 1;
      }
    }

    // copyuvm. A page of the parent that is not present is a panic.
    method Copyuvm(d: nat, sz: nat, l: Layout) returns (r: CopyResult)
      requires Valid() && LayoutOk(l) && d in spaces && sz <= KERNBASE
      modifies page, this`free, this`denied, this`owner, this`spaces
      ensures Valid()
      ensures r.Copied? ==> Copying(old(Value()), Value(), d, r.child, RoundUp(sz), l)
      ensures r.OutOfMemory? ==> Restored(old(Value()), Value())
      ensures denied == (old(denied) || r.OutOfMemory?)
      ensures r.Panics? ==> exists w: nat :: w < RoundUp(sz) && MapAt(old(Value()), d, w).None?
    {
      hide Inv, Born, Restored, MapAt, Copying, Frame, Present, Pte, Pde, Dirx, LayoutOk;
      ghost var m := Value();
      var child := Setupkvm(l);
      if child.None? {
        return OutOfMemory;
      }
      var c := child.value;
      CopyStart(m, Value(), d, c, l);
      var w := 0;
      while w * PGSIZE < sz
        invariant Valid() && w <= RoundUp(sz) && Copying(m, Value(), d, c, w, l) && denied == old(denied)
        decreases sz - w * PGSIZE
      {
        var ok := CopyPage(m, d, c, w, l);
        if !ok.Copied? {
          return ok;
        }
        w := w + 1;
      }
      r := Copied(c);
    }

    // The way out of copyuvm when a page was taken that could not be mapped.
    method GiveUp(ghost m: Mem, c: nat, f: nat)
      requires Valid() && Inv(m) && c !in m.spaces && c in spaces && Held(Value(), f)
      requires Took(m, Value(), c, {f}) && SameMapBut(m, Value(), c, 0, 0)
      modifies page, this`free, this`denied, this`owner, this`spaces
      ensures Valid() && Restored(m, Value()) && denied == old(denied)
    {
      hide Inv, Restored, MapAt, Took, SameMapBut, Gone;
      TookKfree(m, Value(), c, f);
      KfreeInv(Value(), f);
      ghost var before := Value();
      Kfree(f);
      FreedSame(m, before, Value(), c);
      ghost var q := Value();
      Freevm(c);
      GoneRestores(m, q, Value(), c);
    }

    // One turn of the loop of copyuvm.
    method CopyPage(ghost m: Mem, d: nat, c: nat, w: nat, ghost l: Layout) returns (r: CopyResult)
      requires Valid() && LayoutOk(l) && Inv(m) && d in m.spaces && w < USERPAGES && Copying(m, Value(), d, c, w, l)
      modifies page, this`free, this`denied, this`owner, this`spaces
      ensures Valid()
      ensures r.Copied? ==> r.child == c && Copying(m, Value(), d, c, w + 1, l)
      ensures r.OutOfMemory? ==> Restored(m, Value())
      ensures denied == (old(denied) || r.OutOfMemory?)
      ensures r.Panics? ==> MapAt(m, d, w).None?
    {
      hide Inv, Restored, MapAt, Copying, Frame, Flags, Present, Pte, Pde, Dirx, Took, SameMapBut, Gone, Filled,
        Held, Mapping, LayoutOk;
      ghost var n := Value();
      ParentPage(m, n, d, c, w, l);
      CopyParts(m, n, d, c, w, l);
      DirxBound(w);
      var t := Walkpgdir(d, w, false);
      if t.None? {
        AbsentTable(n, d, w);
        return Panics;
      }
      var pte := page[t.value][Tabx(w)];
      PteIs(n, d, w);
      if !Present(pte) {
        return Panics;
      }
      var mem := KallocFilled(page[Frame(pte)]);
      if mem.None? {
        Freevm(c);
        GoneRestores(m, n, Value(), c);
        return OutOfMemory;
      }
      var f := mem.value;
      ghost var n' := Value();
      FilledInv(n, f, n.page[Frame(pte)]);
      FilledTook(m, n, c, f, n.page[Frame(pte)]);
      var mapped := MapFresh(c, w, f, Flags(pte));
      if !mapped {
        TookMapped(m, n', Value(), c, w, 0, f, Flags(pte));
        FilledFailed(m, n, n', Value(), c, w, 0, f, Flags(pte));
        HeldStill(n', Value(), c, w, f, Flags(pte));
        GiveUp(m, c, f);
        return OutOfMemory;
      }
      CopyNext(m, n, Value(), d, c, w, l, f, pte);
      r := Copied(c);
    }
  }

  datatype CopyResult = Copied(child: nat) | OutOfMemory | Panics

  lemma NoUserLeft(m: Mem, n: Mem, d: nat)
    requires Shrank(m, n, d, 0, USERPAGES) && d in m.spaces
    ensures forall w: nat :: w < USERPAGES ==> MapAt(n, d, w).None?
  {
  }

  lemma RestoredItself(m: Mem)
    ensures Restored(m, m)
  {
  }

  lemma FreeInside(m: Mem, d: nat)
    requires Inv(m) && d in m.free
    ensures d < |m.page|
  {
    assert FreeOk(m);
  }

  lemma BornStart(m: Mem, d: nat, l: Layout)
    requires Inv(m) && d in m.free && LayoutOk(l)
    ensures Born(m, NewSpace(m, d), d, l, 0)
  {
    NewSpaceInv(m, d);
    assert d in NewSpace(m, d).spaces;
  }

  lemma BornParts(m: Mem, n: Mem, d: nat, l: Layout, j: nat)
    requires LayoutOk(l) && j <= 4 && Born(m, n, d, l, j)
    ensures d in n.spaces && d !in m.spaces && Took(m, n, d, {}) && SameMapBut(m, n, d, 0, 0)
  {
  }

  // Kernel addresses need no page of their own.
  lemma RegionHeld(n: Mem, k: Region)
    requires USERPAGES <= k.virt
    ensures forall w: nat :: k.virt <= w ==> HeldFor(n, w, k.virt, k.phys)
  {
  }

  // The next record of kmap is never mapped already.
  lemma BornFresh(m: Mem, n: Mem, d: nat, l: Layout, j: nat, k: nat)
    requires LayoutOk(l) && j < 4 && Born(m, n, d, l, j)
    ensures k < Kmap(l, j).count ==> MapAt(n, d, Kmap(l, j).virt + k).None?
  {
    hide MapAt, KernUpto, Took, SameMapBut, Kmap, LayoutOk;
    if k < Kmap(l, j).count { KernFresh(l, j, Kmap(l, j).virt + k); }
  }

  // A record mapped in part is no loss: the space is freed.
  lemma BornFailed(m: Mem, n: Mem, r: Mem, d: nat, l: Layout, j: nat, k: nat)
    requires LayoutOk(l) && j < 4 && Born(m, n, d, l, j)
    requires var z := Kmap(l, j); Mapping(n, r, d, z.virt, k, z.phys, z.perm)
    ensures d in r.spaces && d !in m.spaces && Took(m, r, d, {}) && SameMapBut(m, r, d, 0, 0)
  {
    RegionBounds(l, j);
    hide MapAt, KernUpto, Kmap, AllMapped;
    TookKernel(m, n, r, d, Kmap(l, j).virt, k, Kmap(l, j).phys, Kmap(l, j).perm);
  }

  lemma CopyParts(m: Mem, n: Mem, d: nat, c: nat, i: nat, l: Layout)
    requires LayoutOk(l) && Copying(m, n, d, c, i, l) && i < USERPAGES
    ensures c !in m.spaces && c in n.spaces && Took(m, n, c, {}) && SameMapBut(m, n, c, 0, 0) && MapAt(n, c, i).None?
    ensures |n.page| == |m.page|
  {
    hide MapAt, CopiedAt, SameMapBut;
  }

  lemma FilledFailed(m: Mem, n: Mem, n': Mem, r: Mem, c: nat, w: nat, k: nat, f: nat, perm: nat)
    requires SameMapBut(m, n, c, 0, 0) && c !in m.spaces && m.spaces <= n.spaces == n'.spaces
    requires forall e: nat, v: nat :: e in n.spaces ==> MapAt(n', e, v) == MapAt(n, e, v)
    requires Mapping(n', r, c, w, k, f, perm)
    ensures SameMapBut(m, r, c, 0, 0)
  {
    hide MapAt, AllMapped, OwnersMapped, SameData;
  }

  lemma HeldStill(n: Mem, r: Mem, d: nat, w: nat, f: nat, perm: nat)
    requires Held(n, f) && Mapping(n, r, d, w, 0, f, perm)
    ensures Held(r, f)
  {
    hide MapAt, AllMapped, SameMapBut;
  }

  lemma NextTable(w: nat)
    ensures w < (Dirx(w) + 1) * ENTRIES
  {
  }

  lemma SameTable(w: nat, v: nat)
    requires w <= v < (Dirx(w) + 1) * ENTRIES
    ensures Dirx(v) == Dirx(w)
  {
  }

  lemma UnmapOneParts(n: Mem, d: nat, vp: nat)
    requires Present(Pde(n, d, Dirx(vp))) && Frame(Pde(n, d, Dirx(vp))) < |n.page|
    ensures var t, f := Frame(Pde(n, d, Dirx(vp))), Frame(Pte(n, d, vp));
      UnmapOne(n, d, vp) == Mem(n.page[t := n.page[t][Tabx(vp) := 0]], n.free + {f}, n.owner - {f}, n.spaces)
  {
  }

  lemma SameMapNone(m: Mem, d: nat)
    ensures SameMapBut(m, m, d, 0, 0)
  {
  }

  lemma SameMapRange(m: Mem, n: Mem, d: nat, lo: nat, hi: nat)
    requires SameMapBut(m, n, d, 0, 0)
    ensures SameMapBut(m, n, d, lo, hi)
  {
  }

  lemma ZeroedNone(m: Mem, d: nat, lo: nat)
    ensures Zeroed(m, d, lo, lo)
  {
  }

  lemma ShrankSpaces(n: Mem, r: Mem, d: nat, lo: nat, hi: nat)
    requires Shrank(n, r, d, lo, hi)
    ensures r.spaces == n.spaces
  {
  }

  lemma FilledSame(m: Mem, n: Mem, n': Mem, d: nat, lo: nat, w: nat)
    requires SameMapBut(m, n, d, lo, w) && m.spaces <= n.spaces
    requires forall c: nat, v: nat :: c in n.spaces ==> MapAt(n', c, v) == MapAt(n, c, v)
    ensures SameMapBut(m, n', d, lo, w)
  {
    hide MapAt;
  }

  lemma FilledZeroed(n: Mem, f: nat, p: Page, d: nat, lo: nat, w: nat)
    requires Inv(n) && f in n.free && d in n.spaces && Zeroed(n, d, lo, w) && w <= USERPAGES
    ensures Zeroed(Filled(n, f, p), d, lo, w)
  {
    hide Inv, MapAt, Frame, Flags, Filled;
    FilledInv(n, f, p);
    forall v: nat | lo <= v < w ensures ZeroAt(Filled(n, f, p), d, v) {
      assert ZeroAt(n, d, v);
      FilledPage(n, f, p, d, v);
    }
  }

  lemma HeldBounds(n: Mem, f: nat)
    requires Inv(n) && Held(n, f)
    ensures 0 < f < FRAMES
  {
  }

  // Nothing was mapped yet where the next page goes.
  lemma MapsInRange(m: Mem, n: Mem, d: nat, lo: nat, w: nat)
    requires SameMapBut(m, n, d, lo, w) && d in m.spaces
    ensures MapAt(n, d, w) == MapAt(m, d, w)
  {
  }

  lemma SameMapMapped(m: Mem, n: Mem, r: Mem, d: nat, lo: nat, w: nat, k: nat, f: nat, perm: nat)
    requires SameMapBut(m, n, d, lo, w) && Mapping(n, r, d, w, k, f, perm) && m.spaces <= n.spaces && lo <= w
    ensures SameMapBut(m, r, d, lo, w + k)
  {
    hide MapAt, AllMapped, OwnersMapped, SameData;
  }

  lemma TookHeld(m: Mem, n: Mem, d: nat, f: nat)
    requires Inv(m) && Took(m, n, d, {f})
    ensures Held(n, f)
  {
    assert FreeOk(m);
  }

  lemma FreedSame(m: Mem, n: Mem, r: Mem, d: nat)
    requires SameMapBut(m, n, d, 0, 0) && forall c: nat, v: nat :: MapAt(r, c, v) == MapAt(n, c, v)
    ensures SameMapBut(m, r, d, 0, 0)
  {
    hide MapAt;
  }
}
