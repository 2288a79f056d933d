/** Demand paging (paging.c, with select_a_victim and getswappedblk of vm.c and the block copying of bio.c)
    over the virtual memory and the file system's disk. */
module Pager {
  import opened Blocks
  import opened Wrappers
  import opened Memory
  import opened Vm
  import Spaces
  import opened Swapping
  import Vol = Volume
  import Fs

  // What every step of swapping keeps: the bytes at every address of every space.
  ghost predicate Keeps(s: Sys, t: Sys) {
    && t.m.spaces == s.m.spaces
    && forall c: nat, w: nat :: c in s.m.spaces && w < USERPAGES ==> Holds(t, c, w) == Holds(s, c, w)
  }

  // The page with its i-th 512 bytes taken from a block.
  function Patch(p: Page, i: nat, b: Block): Page {
    seq(ENTRIES, j requires 0 <= j < ENTRIES => if j / WORDS == i then Word(b, j % WORDS) else p[j])
  }

  class Swapper {
    const vm: Machine
    const fs: Fs.FileSys
    ghost var run: map<nat, (nat, nat)>

    ghost function Value(): Sys
      reads this, vm, vm.page, fs
    {
      Sys(vm.Value(), fs.V(), run)
    }

    ghost predicate Valid()
      reads this, vm, vm.page, fs
    {
      Swapping.Inv(Value())
    }

    // A system in which nothing is swapped out yet.
    constructor (machine: Machine, files: Fs.FileSys)
      requires Memory.Inv(machine.Value()) && Vol.Inv(files.V()) && |files.disk| <= FRAMES
      requires forall d, w: nat :: d in machine.spaces && w < USERPAGES ==> !Swapped(Pte(machine.Value(), d, w))
      ensures Valid() && vm == machine && fs == files && run == map[]
    {
      vm, fs, run := machine, files, map[];
    }

    // write_page_to_disk, but for the side copy in a file.
    method WritePageToDisk(f: nat, blk: nat)
      requires Vol.Inv(fs.V()) && blk in fs.owner && fs.owner[blk] == Vol.Page(blk) && f < vm.page.Length
      modifies fs`disk
      ensures Vol.Inv(fs.V()) && PageWritten(old(fs.V()), fs.V(), blk, vm.page[f], 8)
      ensures forall j :: 0 <= j < |fs.inodes| ==> Vol.Content(fs.V(), j) == Vol.Content(old(fs.V()), j)
    {
      hide Vol.Inv, Vol.Content, PartOf, PageWritten;
      ghost var x := fs.V();
      PageFits(x, blk);
      WrittenNone(x, blk, vm.page[f]);
      var i := 0;
      while i < 8
        invariant i <= 8 && Vol.Inv(fs.V()) && PageWritten(x, fs.V(), blk, vm.page[f], i)
        invariant fs.owner == x.owner && fs.inodes == x.inodes && |fs.disk| == |x.disk|
        invariant forall j :: 0 <= j < |x.inodes| ==> Vol.Content(fs.V(), j) == Vol.Content(x, j)
      {
        PagePokeInv(fs.V(), blk + i, PartOf(vm.page[f], i));
        PageWrittenNext(x, fs.V(), blk, vm.page[f], i);
        fs.disk := fs.disk[blk + i := PartOf(vm.page[f], i)];
        i := i + 1;
      }
    }

    // read_page_from_disk.
    method ReadPageFromDisk(f: nat, blk: nat)
      requires blk + 8 <= |fs.disk| && f < vm.page.Length
      modifies vm.page
      ensures vm.page[..] == old(vm.page[..])[f := PageOf(fs.disk, blk)]
    {
      hide Word;
      ghost var d := fs.disk;
      var i := 0;
      while i < 8
        invariant i <= 8 && forall g :: 0 <= g < vm.page.Length && g != f ==> vm.page[g] == old(vm.page[g])
        invariant forall j :: 0 <= j < WORDS * i ==> vm.page[f][j] == PageOf(d, blk)[j]
      {
        PatchParts(vm.page[f], i, d, blk);
        vm.page[f] := Patch(vm.page[f], i, fs.disk[blk + i]);
        i := i + 1;
      }
      assert vm.page[f] == PageOf(d, blk);
    }

    // select_a_victim: the first page present above page 0. The test of the access bit, `*pte & ~PTE_A`,
    // holds for every present entry.
    method SelectVictim(d: nat) returns (vp: Option<nat>)
      requires Valid() && d in vm.spaces
      modifies vm.page, vm`free, vm`denied, vm`owner
      ensures vm.Value() == old(vm.Value())
      ensures vp.Some? ==>
        && 0 < vp.value < USERPAGES && Present(Pte(vm.Value(), d, vp.value))
        && forall w: nat :: 0 < w < vp.value ==> !Present(Pte(vm.Value(), d, w))
      ensures vp.None? ==> forall w: nat :: 0 < w < USERPAGES ==> !Present(Pte(vm.Value(), d, w))
    {
      hide Memory.Inv, Vol.Inv, EntryOk, RunOk, Frame, Present, Pte, Pde, Dirx;
      var i := 1;
      while i < USERPAGES
        invariant 1 <= i <= USERPAGES && vm.Value() == old(vm.Value())
        invariant forall w: nat :: 0 < w < i ==> !Present(Pte(vm.Value(), d, w))
      {
        Spaces.DirxBound(i);
        var t := vm.Walkpgdir(d, i, false);
        if t.Some? {
          Spaces.PteIs(vm.Value(), d, i);
          if Present(vm.page[t.value][Tabx(i)]) {
            PresentIsAccessible(vm.page[t.value][Tabx(i)]);
            return Some(i);
          }
        } else {
          Spaces.AbsentTable(vm.Value(), d, i);
          Spaces.MapAtPte(vm.Value(), d, i);
        }
        i := i + 1;
      }
      vp := None;
    }

    // swap_page_from_pte for the entry of vp.
    method SwapPageFromPte(d: nat, vp: nat) returns (r: Fs.PageResult)
      requires Valid() && d in vm.spaces && vp < USERPAGES && Present(Pte(vm.Value(), d, vp))
      modifies this, vm.page, vm`free, vm`denied, vm`owner, fs`disk, fs`logged, fs`owner, fs`numallocblocks
      ensures !r.Allocated? ==> Fs.Failed(r, Fs.Bits(fs.sb, old(fs.disk)))
      ensures r.Allocated? ==> Valid() && Keeps(old(Value()), Value())
      ensures r.Allocated? ==>
        && Pte(vm.Value(), d, vp) == SwapEntry(r.first)
        && vm.free == old(vm.free) + {Frame(Pte(old(vm.Value()), d, vp))} && vm.spaces == old(vm.spaces)
        && (forall c: nat, w: nat :: c in vm.spaces && !(c == d && w == vp) ==>
             Pte(vm.Value(), c, w) == Pte(old(vm.Value()), c, w))
        && (forall c: nat, k: nat :: c in vm.spaces ==> Pde(vm.Value(), c, k) == Pde(old(vm.Value()), c, k))
      ensures forall j :: 0 <= j < |fs.inodes| && r.Allocated? ==> Vol.Content(fs.V(), j) == Vol.Content(old(fs.V()), j)
    {
      hide Memory.Inv, Vol.Inv, Swapping.Inv, Frame, Present, Pte, Pde, Dirx, Evict, SwapEntry, Keeps, Vol.Content,
        Fs.PageTaken, Fs.Failed, PageWritten, Holds;
      ghost var s := Value();
      SysParts(s);
      EntryPlace(s.m, d, vp);
      var t := Frame(vm.page[d][Dirx(vp)]);
      var pa := Frame(vm.page[t][Tabx(vp)]);
      r := fs.BallocPage();
      if !r.Allocated? {
        return;
      }
      var diskPage := r.first;
      ghost var v := fs.V();
      TakenOwner(s.v, v, diskPage);
      WritePageToDisk(pa, diskPage);
      EvictParts(s.m, d, vp, SwapEntry(diskPage));
      vm.page[t] := vm.page[t][Tabx(vp) := SwapEntry(diskPage)];
      PaIsTaken(s.m, pa, d, vp);
      vm.Kfree(pa);
      vm.owner := vm.owner - {pa};
      run := run[diskPage := (d, vp)];
      assert vm.Value() == Evict(s.m, d, vp, SwapEntry(diskPage));
      SwapOutInv(s, v, Value(), d, vp, diskPage);
      KeepsSwapOut(s, v, Value(), d, vp, diskPage);
      NewRun(s, v, Value(), d, vp, diskPage);
      EvictInv(s.m, d, vp, SwapEntry(diskPage));
      EvictReads(s.m, d, vp, SwapEntry(diskPage));
    }

    // swap_page; false when there is no page to swap out, or no run of blocks to take it. (The second
    // attempt after clearing access bits finds no more than the first, and null is then dereferenced.)
    method SwapPage(d: nat) returns (ok: bool)
      requires Valid() && d in vm.spaces
      modifies this, vm.page, vm`free, vm`denied, vm`owner, fs`disk, fs`logged, fs`owner, fs`numallocblocks
      ensures ok ==> Valid() && Keeps(old(Value()), Value()) && vm.free != {}
      ensures ok ==> SameFaults(old(vm.Value()), vm.Value())
      ensures !ok ==> Stuck(old(Value()), d)
    {
      hide Swapping.Inv, Frame, Present, Pte, Pde, SwapEntry, Holds, Fs.Failed;
      ghost var s := Value();
      var pte := SelectVictim(d);
      if pte.None? {
        return false;
      }
      assert Value() == s;
      SysParts(s);
      var r := SwapPageFromPte(d, pte.value);
      if !r.Allocated? {
        return false;
      }
      assert Frame(Pte(s.m, d, pte.value)) in vm.free;
      ok := true;
    }

    // map_address for the page at vp, which is not present and has a page table; false when there is no
    // free physical page and none can be swapped out.
    method MapAddress(d: nat, vp: nat) returns (ok: bool)
      requires Valid() && Faults(Value(), d, vp)
      modifies this, vm.page, vm`free, vm`denied, vm`owner, fs`disk, fs`logged, fs`owner, fs`numallocblocks
      ensures ok ==> Valid() && Present(Pte(vm.Value(), d, vp)) && FaultServed(old(Value()), Value(), d, vp)
      ensures !ok ==> old(vm.free) == {} && Stuck(old(Value()), d)
      // the page reads as its eight blocks did, or as zeroes if it was never swapped out
      ensures ok ==> var e := Pte(old(vm.Value()), d, vp);
        if Swapped(e) then
          Frame(e) + 8 <= |old(fs.disk)| && Holds(Value(), d, vp) == Some(PageOf(old(fs.disk), Frame(e)))
        else Holds(Value(), d, vp) == Some(seq(1024, _ => 0))
    {
      hide Swapping.Inv, Frame, Present, Pte, Pde, Dirx, Holds, Stuck, SameFaults, FaultServed, Keeps;
      ghost var s := Value();
      SysParts(s);
      EntryTable(s.m, d, vp);
      var t := Frame(vm.page[d][Dirx(vp)]);
      KeepsItself(s);
      var mem := vm.Kalloc();
      if mem.None? {
        assert Value() == s;
        ok := SwapPage(d);
        if !ok {
          return;
        }
        FaultsStill(s, Value(), d, vp);
        s := Value();
        mem := vm.Kalloc();
      }
      MapIn(s, d, vp, t, mem.value);
      ServedAfter(old(Value()), s, Value(), d, vp);
      ServedWith(old(Value()), Value(), d, vp);
      ok := true;
    }

    // The rest of map_address: the new page mem is filled and mapped.
    method MapIn(ghost s: Sys, d: nat, vp: nat, t: nat, mem: nat)
      requires Swapping.Inv(s) && Faults(s, d, vp) && mem in s.m.free && t == Frame(Pde(s.m, d, Dirx(vp)))
      requires vm.Value() == s.m.(free := s.m.free - {mem}) && fs.V() == s.v && run == s.run
      modifies this, vm.page, vm`free, vm`denied, vm`owner, fs`disk, fs`logged, fs`owner, fs`numallocblocks
      ensures Valid() && Present(Pte(vm.Value(), d, vp)) && FaultServed(s, Value(), d, vp)
    {
      hide Swapping.Inv, Memory.Inv, Vol.Inv, Frame, Present, Pte, Pde, Dirx, Holds, Swapped, Entry, PageOf, MapOne,
        Filled, FaultServed, Fs.PageReturned, Vol.Content;
      SysParts(s);
      MapInPlace(s, d, vp, mem);
      ghost var p := FillOf(s, d, vp);
      ghost var blk := BlkOf(Pte(s.m, d, vp));
      var pte := vm.page[t][Tabx(vp)];
      if Swapped(pte) {
        SwappedRun(s, d, vp);
        var blockid := Frame(pte);
        ReadPageFromDisk(mem, blockid);
        vm.page[t] := vm.page[t][Tabx(vp) := Entry(mem, PTE_W + PTE_U)];
        var ok := fs.BfreePage(blockid);
        run := run - {blockid};
      } else {
        UnswappedFill(s, d, vp);
        vm.page[mem] := ZeroPage();
        vm.page[t] := vm.page[t][Tabx(vp) := Entry(mem, PTE_W + PTE_U)];
      }
      vm.owner := vm.owner[mem := User(d, vp)];
      MapInValue(s.m, d, vp, mem, p);
      assert vm.Value() == MapOne(Filled(s.m, mem, p), d, vp, Entry(mem, PTE_W + PTE_U));
      MapInInv(s, Value(), d, vp, mem, p);
      MapInMemory(s, d, vp, mem, p);
      ServedNow(s, Value(), d, vp, mem);
    }
  }

  // swap_page cannot help: no page above page 0 is present, or balloc_page finds no run.
  ghost predicate Stuck(s: Sys, d: nat) {
    || (forall w: nat :: 0 < w < USERPAGES ==> !Present(Pte(s.m, d, w)))
    || (Vol.Geometry(s.v.sb, s.v.disk) && exists r: Fs.PageResult :: Fs.Failed(r, Fs.Bits(s.v.sb, s.v.disk)))
  }

  // Swapping a page out changes no table and no entry that is not present.
  ghost predicate SameFaults(m: Mem, n: Mem) {
    && n.spaces == m.spaces
    && (forall c: nat, w: nat :: c in m.spaces && !Present(Pte(m, c, w)) ==> Pte(n, c, w) == Pte(m, c, w))
    && (forall c: nat, k: nat :: c in m.spaces ==> Pde(n, c, k) == Pde(m, c, k))
  }

  // The page that faulted holds what it held, or zeroes the first time; every other page holds what it did.
  ghost predicate FaultServed(s: Sys, t: Sys, d: nat, vp: nat) {
    && t.m.spaces == s.m.spaces
    && Holds(t, d, vp) == Some(FillOf(s, d, vp))
    && forall c: nat, w: nat :: c in s.m.spaces && w < USERPAGES && !(c == d && w == vp) ==>
         Holds(t, c, w) == Holds(s, c, w)
  }

  lemma ServedWith(s: Sys, t: Sys, d: nat, vp: nat)
    requires Swapping.Inv(s) && Faults(s, d, vp) && FaultServed(s, t, d, vp)
    ensures var e := Pte(s.m, d, vp);
      if Swapped(e) then
        Frame(e) + 8 <= |s.v.disk| && Holds(t, d, vp) == Some(PageOf(s.v.disk, Frame(e)))
      else Holds(t, d, vp) == Some(seq(1024, _ => 0))
  {
    hide Memory.Inv, Vol.Inv, PageOf;
    assert EntryOk(s, d, vp);
    if Swapped(Pte(s.m, d, vp)) { RunBounds(s, Frame(Pte(s.m, d, vp))); }
    assert ZeroPage() == seq(1024, _ => 0);
  }

  lemma KeepsItself(s: Sys)
    ensures Keeps(s, s) && SameFaults(s.m, s.m)
  {
  }

  lemma EntryTable(m: Mem, d: nat, vp: nat)
    requires Memory.Inv(m) && d in m.spaces && vp < USERPAGES && Present(Pde(m, d, Dirx(vp)))
    ensures d < |m.page| && Dirx(vp) < ENTRIES && Pde(m, d, Dirx(vp)) == m.page[d][Dirx(vp)]
    ensures var t := Frame(m.page[d][Dirx(vp)]); t < |m.page| && Pte(m, d, vp) == m.page[t][Tabx(vp)] && t !in m.free
  {
    SpaceAt(m, d);
    Spaces.DirxBound(vp);
    TabAt(m, d, Dirx(vp));
  }

  lemma FaultsStill(s: Sys, t: Sys, d: nat, vp: nat)
    requires Faults(s, d, vp) && SameFaults(s.m, t.m)
    ensures Faults(t, d, vp) && Pde(t.m, d, Dirx(vp)) == Pde(s.m, d, Dirx(vp))
  {
    hide Pte, Pde, Present;
  }

  lemma ServedAfter(s0: Sys, s: Sys, t: Sys, d: nat, vp: nat)
    requires Keeps(s0, s) && FaultServed(s, t, d, vp) && d in s0.m.spaces && vp < USERPAGES
    ensures FaultServed(s0, t, d, vp)
  {
    hide Holds;
  }

  // The new page and the page with the entry are two pages.
  lemma MapInPlace(s: Sys, d: nat, vp: nat, mem: nat)
    requires Swapping.Inv(s) && Faults(s, d, vp) && mem in s.m.free
    ensures var t := Frame(Pde(s.m, d, Dirx(vp)));
      && t < |s.m.page| && mem < |s.m.page| && mem < FRAMES && t != mem && Pte(s.m, d, vp) == s.m.page[t][Tabx(vp)]
  {
    hide Vol.Inv, EntryOk, RunOk;
    EntryTable(s.m, d, vp);
    FreeBelowFrames(s.m, mem);
  }

  lemma SwappedRun(s: Sys, d: nat, vp: nat)
    requires Swapping.Inv(s) && Faults(s, d, vp) && Swapped(Pte(s.m, d, vp))
    ensures var b := Frame(Pte(s.m, d, vp));
      && BlkOf(Pte(s.m, d, vp)) == Some(b) && b in s.run && b in s.v.owner && s.v.owner[b] == Vol.Page(b)
      && b + 8 <= |s.v.disk| && FillOf(s, d, vp) == PageOf(s.v.disk, b)
  {
    hide Vol.Inv, Memory.Inv, Pte, Pde, Present, Swapped, PageOf;
    assert EntryOk(s, d, vp);
    RunBounds(s, Frame(Pte(s.m, d, vp)));
    assert RunOk(s, Frame(Pte(s.m, d, vp)));
  }

  lemma UnswappedFill(s: Sys, d: nat, vp: nat)
    requires Faults(s, d, vp) && !Swapped(Pte(s.m, d, vp))
    ensures FillOf(s, d, vp) == ZeroPage() && BlkOf(Pte(s.m, d, vp)).None?
  {
  }

  lemma MapInValue(m: Mem, d: nat, vp: nat, mem: nat, p: Page)
    requires Memory.Inv(m) && d in m.spaces && mem in m.free && mem < |m.page| && vp < USERPAGES && mem < FRAMES
    requires var t := Frame(Pde(m, d, Dirx(vp))); t < |m.page| && t != mem
    ensures var t := Frame(Pde(m, d, Dirx(vp)));
      MapOne(Filled(m, mem, p), d, vp, Entry(mem, PTE_W + PTE_U)) ==
        Mem(m.page[mem := p][t := m.page[t][Tabx(vp) := Entry(mem, PTE_W + PTE_U)]], m.free - {mem},
          m.owner[mem := User(d, vp)], m.spaces)
  {
    FilledPtes(m, mem, p);
    EntryParts(mem, PTE_W + PTE_U);
  }

  lemma ServedNow(s: Sys, t: Sys, d: nat, vp: nat, f: nat)
    requires Swapping.Inv(s) && Faults(s, d, vp) && MappedIn(s, t, d, vp, f, FillOf(s, d, vp), BlkOf(Pte(s.m, d, vp)))
    ensures FaultServed(s, t, d, vp)
  {
    hide Swapping.Inv, MappedIn, Holds, FillOf, Pte, Pde, Present;
    MapInInv(s, t, d, vp, f, FillOf(s, d, vp));
    MapInHolds(s, t, d, vp, f, d, vp);
    forall c: nat, w: nat | c in s.m.spaces && w < USERPAGES && !(c == d && w == vp)
      ensures Holds(t, c, w) == Holds(s, c, w) {
      MapInHolds(s, t, d, vp, f, c, w);
    }
  }

  lemma PageFits(x: Vol.Vol, b: nat)
    requires Vol.Inv(x) && b in x.owner && x.owner[b] == Vol.Page(b)
    ensures b + 8 <= |x.disk| && forall c :: b <= c < b + 8 ==> c in x.owner && x.owner[c] == Vol.Page(b)
  {
    hide Vol.Slot, Vol.Used;
    assert Vol.OwnerOk(x, b);
    assert b + 7 in x.owner;
  }

  lemma WrittenNone(x: Vol.Vol, b: nat, p: Page)
    requires b + 8 <= |x.disk|
    ensures PageWritten(x, x, b, p, 0)
  {
  }

  lemma PatchParts(p: Page, i: nat, d: seq<Block>, blk: nat)
    requires i < 8 && blk + 8 <= |d| && forall j :: 0 <= j < WORDS * i ==> p[j] == PageOf(d, blk)[j]
    ensures forall j :: 0 <= j < WORDS * (i + 1) ==> Patch(p, i, d[blk + i])[j] == PageOf(d, blk)[j]
  {
    hide Word;
    forall j | 0 <= j < WORDS * (i + 1) ensures Patch(p, i, d[blk + i])[j] == PageOf(d, blk)[j] {
      if j / WORDS != i { assert j < WORDS * i; }
    }
  }

  // The access test of select_a_victim, on the bits of a present entry other than PTE_A (0x20).
  lemma PresentIsAccessible(e: Uint)
    requires Present(e)
    ensures e - (e / 0x20 % 2) * 0x20 != 0
  {
  }

  lemma SysParts(s: Sys)
    requires Swapping.Inv(s)
    ensures Memory.Inv(s.m) && Vol.Inv(s.v)
  {
  }

  // Where the entry of a present page is, and the page it names.
  lemma EntryPlace(m: Mem, d: nat, vp: nat)
    requires Memory.Inv(m) && d in m.spaces && vp < USERPAGES && Present(Pte(m, d, vp))
    ensures d < |m.page| && Dirx(vp) < ENTRIES && Pde(m, d, Dirx(vp)) == m.page[d][Dirx(vp)]
    ensures var t := Frame(m.page[d][Dirx(vp)]); t < |m.page| && Pte(m, d, vp) == m.page[t][Tabx(vp)]
    ensures Frame(Pte(m, d, vp)) < |m.page|
  {
    SpaceAt(m, d);
    Spaces.DirxBound(vp);
    AbsentZero();
    TabAt(m, d, Dirx(vp));
    UserAt(m, d, vp);
  }

  lemma TakenOwner(x: Vol.Vol, y: Vol.Vol, b: nat)
    requires Fs.PageTaken(x, y, b)
    ensures b in y.owner && y.owner[b] == Vol.Page(b)
  {
    hide Vol.Used;
  }

  lemma EvictParts(m: Mem, d: nat, vp: nat, e: Uint)
    requires Frame(Pde(m, d, Dirx(vp))) < |m.page|
    ensures var t, f := Frame(Pde(m, d, Dirx(vp))), Frame(Pte(m, d, vp));
      Evict(m, d, vp, e) == Mem(m.page[t := m.page[t][Tabx(vp) := e]], m.free + {f}, m.owner - {f}, m.spaces)
  {
  }

  lemma PaIsTaken(m: Mem, f: nat, d: nat, vp: nat)
    requires Memory.Inv(m) && d in m.spaces && vp < USERPAGES && Present(Pte(m, d, vp)) && f == Frame(Pte(m, d, vp))
    ensures f !in m.free
  {
    UserAt(m, d, vp);
  }

  lemma KeepsSwapOut(s: Sys, v: Vol.Vol, t: Sys, d: nat, vp: nat, b: nat)
    requires Swapping.Inv(s) && SwappedOut(s, v, t, d, vp, b) && d in s.m.spaces && vp < USERPAGES
    requires Present(Pte(s.m, d, vp))
    ensures Keeps(s, t)
  {
    hide Swapping.Inv, SwappedOut, Holds, Present, Pte;
    SwapOutInv(s, v, t, d, vp, b);
    forall c: nat, w: nat | c in s.m.spaces && w < USERPAGES ensures Holds(t, c, w) == Holds(s, c, w) {
      SwapOutHolds(s, v, t, d, vp, b, c, w);
    }
  }

  lemma EvictReads(m: Mem, d: nat, vp: nat, e: Uint)
    requires Rewired(m, Evict(m, d, vp, e), d, vp, e) && d in m.spaces
    ensures var n := Evict(m, d, vp, e);
      && Pte(n, d, vp) == e
      && (forall c: nat, w: nat :: c in m.spaces && !(c == d && w == vp) ==> Pte(n, c, w) == Pte(m, c, w))
      && (forall c: nat, k: nat :: c in m.spaces ==> Pde(n, c, k) == Pde(m, c, k))
  {
    hide Pte, Pde, Evict;
  }
}
