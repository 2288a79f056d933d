/** Swapping (paging.c, vm.c, bio.c): user pages move between physical pages and runs of eight disk blocks,
    and what a process reads at each address stays the same. */
module Swapping {
  import opened Blocks
  import opened Wrappers
  import opened Memory
  import Vol = Volume
  import Fs
  import PageRun

  // ---------------------------------------------------------------- swapped entries

  const PTE_SWAPPED: nat := 0x200

  predicate Swapped(e: Uint) {    // e & PTE_SWAPPED
    e / PTE_SWAPPED % 2 == 1
  }

  // `(blk << 12) | PTE_SWAPPED`, on 32 bits, with PTE_P cleared.
  function SwapEntry(blk: nat): Uint {
    (blk * PGSIZE + PTE_SWAPPED) % UINT
  }

  // What getswappedblk shifts out of the entry is the block that was shifted in exactly when its number
  // has at most 20 bits.
  lemma SwapEntryParts(blk: nat)
    ensures Swapped(SwapEntry(blk)) && !Present(SwapEntry(blk))
    ensures Frame(SwapEntry(blk)) == blk <==> blk < FRAMES
  {
    SwapEntryValue(blk);
    LowBits(blk % FRAMES);
  }

  lemma SwapEntryValue(blk: nat)
    ensures SwapEntry(blk) == blk % FRAMES * PGSIZE + PTE_SWAPPED
  {
    var q, r := blk / FRAMES, blk % FRAMES;
    assert blk == FRAMES * q + r;
    assert blk * PGSIZE + PTE_SWAPPED == UINT * q + (r * PGSIZE + PTE_SWAPPED);
    ModPlus(q, r * PGSIZE + PTE_SWAPPED);
  }

  lemma LowBits(r: nat)
    requires r < FRAMES
    ensures var e := r * PGSIZE + PTE_SWAPPED; e < UINT && Swapped(e) && !Present(e) && Frame(e) == r
  {
    var e := r * PGSIZE + PTE_SWAPPED;
    assert e == PTE_SWAPPED * (8 * r + 1) == 2 * (0x100 * (8 * r + 1));
    Multiple(8 * r + 1);
    Even(0x100 * (8 * r + 1));
    Quotient(r, PTE_SWAPPED);
    assert (8 * r + 1) % 2 == 1 by { Even(4 * r); }
  }

  lemma Multiple(k: nat)
    ensures PTE_SWAPPED * k / PTE_SWAPPED == k
  {
  }

  lemma Even(k: nat)
    ensures 2 * k % 2 == 0 && (2 * k + 1) % 2 == 1
  {
  }

  lemma Quotient(q: nat, x: nat)
    requires x < PGSIZE
    ensures (q * PGSIZE + x) / PGSIZE == q
  {
  }

  lemma ModPlus(q: nat, x: nat)
    requires x < UINT
    ensures (UINT * q + x) % UINT == x
  {
  }

  lemma PresentNotSwapped(f: nat)
    requires f < FRAMES
    ensures !Swapped(Entry(f, PTE_W + PTE_U))
  {
    assert Entry(f, PTE_W + PTE_U) == PTE_SWAPPED * (8 * f) + 7;
  }

  // ---------------------------------------------------------------- pages as disk blocks

  function WordByte(w: Uint, k: nat): Byte {
    if k == 0 then w % 0x100 else if k == 1 then w / 0x100 % 0x100
    else if k == 2 then w / 0x1_0000 % 0x100 else w / 0x100_0000 % 0x100
  }

  // The k-th 512 bytes of a page.
  function PartOf(p: Page, k: nat): Block
    requires k < 8
  {
    seq(BSIZE, j requires 0 <= j < BSIZE => WordByte(p[WORDS * k + j / 4], j % 4))
  }

  lemma PartByte(p: Page, k: nat, i: nat, q: nat)
    requires k < 8 && i < WORDS && q < 4
    ensures PartOf(p, k)[4 * i + q] == WordByte(p[WORDS * k + i], q)
  {
    assert (4 * i + q) / 4 == i && (4 * i + q) % 4 == q;
  }

  lemma BytesMakeWord(w: Uint)
    ensures w == WordByte(w, 0) + 0x100 * WordByte(w, 1) + 0x1_0000 * WordByte(w, 2) + 0x100_0000 * WordByte(w, 3)
  {
    WordDigits(w);
  }

  lemma PartWord(p: Page, k: nat, i: nat)
    requires k < 8 && i < WORDS
    ensures Word(PartOf(p, k), i) == p[WORDS * k + i]
  {
    hide PartOf, WordByte;
    PartByte(p, k, i, 0);
    PartByte(p, k, i, 1);
    PartByte(p, k, i, 2);
    PartByte(p, k, i, 3);
    BytesMakeWord(p[WORDS * k + i]);
  }

  // The page that eight blocks from b on hold.
  function PageOf(d: seq<Block>, b: nat): Page
    requires b + 8 <= |d|
  {
    seq(ENTRIES, i requires 0 <= i < ENTRIES => Word(d[b + i / WORDS], i % WORDS))
  }

  // Writing a page as eight blocks and reading them back gives the page.
  lemma PageRoundTrip(d: seq<Block>, b: nat, p: Page)
    requires b + 8 <= |d| && forall k: nat :: k < 8 ==> d[b + k] == PartOf(p, k)
    ensures PageOf(d, b) == p
  {
    hide Word, PartOf;
    forall i | 0 <= i < ENTRIES ensures PageOf(d, b)[i] == p[i] {
      PartWord(p, i / WORDS, i % WORDS);
      assert d[b + i / WORDS] == PartOf(p, i / WORDS);
    }
  }

  lemma SamePageOf(d: seq<Block>, e: seq<Block>, b: nat)
    requires b + 8 <= |d| == |e| && forall c :: b <= c < b + 8 ==> e[c] == d[c]
    ensures PageOf(e, b) == PageOf(d, b)
  {
    hide Word;
    forall i | 0 <= i < ENTRIES ensures PageOf(e, b)[i] == PageOf(d, b)[i] { }
  }

  // ---------------------------------------------------------------- the system

  // Physical memory, the file system's disk, and the virtual page that each run of blocks holds.
  datatype Sys = Sys(m: Mem, v: Vol.Vol, run: map<nat, (nat, nat)>)

  ghost predicate EntryOk(s: Sys, d: nat, vp: nat) {
    var e := Pte(s.m, d, vp);
    && (Present(e) ==> !Swapped(e))
    && (!Present(e) && Swapped(e) ==> Frame(e) in s.run && s.run[Frame(e)] == (d, vp))
  }

  // A run of blocks is a page of the volume, and the entry of its virtual page says so.
  ghost predicate RunOk(s: Sys, b: nat)
    requires b in s.run
  {
    var d, vp := s.run[b].0, s.run[b].1;
    && b in s.v.owner && s.v.owner[b] == Vol.Page(b)
    && d in s.m.spaces && vp < USERPAGES
    && !Present(Pte(s.m, d, vp)) && Swapped(Pte(s.m, d, vp)) && Frame(Pte(s.m, d, vp)) == b
  }

  ghost predicate Inv(s: Sys) {
    && Memory.Inv(s.m) && Vol.Inv(s.v) && |s.v.disk| <= FRAMES
    && (forall d, vp: nat :: d in s.m.spaces && vp < USERPAGES ==> EntryOk(s, d, vp))
    && (forall b :: b in s.run ==> RunOk(s, b))
  }

  // What virtual page vp of space d holds, wherever it is.
  ghost function Holds(s: Sys, d: nat, vp: nat): Option<Page> {
    var e := Pte(s.m, d, vp);
    if Present(e) then if Frame(e) < |s.m.page| then Some(s.m.page[Frame(e)]) else None
    else if Swapped(e) && Frame(e) + 8 <= |s.v.disk| then Some(PageOf(s.v.disk, Frame(e)))
    else None
  }

  lemma RunBounds(s: Sys, b: nat)
    requires Inv(s) && b in s.run
    ensures s.v.sb.datastart <= b && b + 8 <= |s.v.disk| == s.v.sb.size
    ensures forall c :: b <= c < b + 8 ==> c in s.v.owner && s.v.owner[c] == Vol.Page(b)
    ensures forall c :: b <= c < b + 8 ==> Vol.Used(s.v.sb, s.v.disk, c)
  {
    hide Vol.Slot, Vol.Used, Memory.Inv;
    assert RunOk(s, b) && Vol.OwnerOk(s.v, b);
    assert b + 7 in s.v.owner;
  }

  // Swapped pages own disjoint runs of blocks.
  lemma RunsDisjoint(s: Sys, a: nat, b: nat)
    requires Inv(s) && a in s.run && b in s.run && a != b
    ensures a + 8 <= b || b + 8 <= a
  {
    hide Vol.Inv, Memory.Inv;
    RunBounds(s, a);
    RunBounds(s, b);
  }

  // ---------------------------------------------------------------- writing into a run

  // Writing a block that a page owns touches neither the free map nor any file.
  lemma PagePokeInv(x: Vol.Vol, c: nat, data: Block)
    requires Vol.Inv(x) && c in x.owner && x.owner[c].Page?
    ensures c < |x.disk|
    ensures var y := x.(disk := x.disk[c := data]);
      Vol.Inv(y) && forall j :: 0 <= j < |x.inodes| ==> Vol.Content(y, j) == Vol.Content(x, j)
  {
    assert Vol.OwnerOk(x, c);
    var y := x.(disk := x.disk[c := data]);
    forall j: nat, l: nat ensures Vol.Slot(y, j, l) == Vol.Slot(x, j, l) { PagePokeSlot(x, y, c, data, j, l); }
    forall b: nat | b < x.sb.size ensures Vol.Used(y.sb, y.disk, b) == Vol.Used(x.sb, x.disk, b) { }
    PagePokeOwners(x, y, c, data);
    forall j | 0 <= j < |x.inodes| ensures Vol.Content(y, j) == Vol.Content(x, j) { PagePokeContent(x, y, c, data, j); }
  }

  lemma PagePokeSlot(x: Vol.Vol, y: Vol.Vol, c: nat, data: Block, j: nat, l: nat)
    requires Vol.Inv(x) && c in x.owner && x.owner[c].Page? && c < |x.disk| && y == x.(disk := x.disk[c := data])
    ensures Vol.Slot(y, j, l) == Vol.Slot(x, j, l)
  {
    hide Vol.Inv, Vol.Used, Word;
    if j < |x.inodes| && Vol.NDIRECT < l < Vol.SLOTS && Vol.Slot(x, j, Vol.NDIRECT) != 0 {
      Vol.SlotOwned(x, j, Vol.NDIRECT);
    }
  }

  lemma PagePokeOwners(x: Vol.Vol, y: Vol.Vol, c: nat, data: Block)
    requires Vol.Inv(x) && c < |x.disk| && y == x.(disk := x.disk[c := data]) && x.sb.datastart <= c
    requires forall j: nat, l: nat :: Vol.Slot(y, j, l) == Vol.Slot(x, j, l)
    requires forall b: nat :: b < x.sb.size ==> Vol.Used(y.sb, y.disk, b) == Vol.Used(x.sb, x.disk, b)
    ensures Vol.Inv(y)
  {
    hide Vol.Slot, Vol.Used;
    forall b | b in y.owner ensures y.sb.datastart <= b < y.sb.size && Vol.OwnerOk(y, b) { assert Vol.OwnerOk(x, b); }
    forall i, bn | 0 <= i < |y.inodes| && 0 <= bn && bn * BSIZE < y.inodes[i].size
      ensures Vol.Slot(y, i, Vol.DataSlot(bn)) != 0 {
      assert Vol.Slot(x, i, Vol.DataSlot(bn)) != 0;
    }
  }

  lemma PagePokeContent(x: Vol.Vol, y: Vol.Vol, c: nat, data: Block, j: nat)
    requires Vol.Inv(x) && c in x.owner && x.owner[c].Page? && c < |x.disk| && y == x.(disk := x.disk[c := data])
    requires j < |x.inodes|
    ensures Vol.Content(y, j) == Vol.Content(x, j)
  {
    hide Vol.Used, Vol.Slot;
    forall o: nat | o < x.inodes[j].size ensures Vol.ByteAt(y, j, o) == Vol.ByteAt(x, j, o) {
      Vol.InvHasBlock(x, j, o);
      Vol.SlotOwned(x, j, Vol.DataSlot(o / BSIZE));
      PagePokeSlot(x, y, c, data, j, Vol.DataSlot(o / BSIZE));
    }
    Vol.SameContent(x, y, j);
  }

  // The disk after the first k parts of page p were written to the run at b.
  ghost predicate PageWritten(x: Vol.Vol, y: Vol.Vol, b: nat, p: Page, k: nat) {
    && y.sb == x.sb && y.inodes == x.inodes && y.owner == x.owner && |y.disk| == |x.disk| && k <= 8 && b + 8 <= |x.disk|
    && (forall i: nat :: i < k ==> y.disk[b + i] == PartOf(p, i))
    && (forall c :: 0 <= c < |x.disk| && !(b <= c < b + k) ==> y.disk[c] == x.disk[c])
  }

  lemma PageWrittenNext(x: Vol.Vol, y: Vol.Vol, b: nat, p: Page, k: nat)
    requires PageWritten(x, y, b, p, k) && k < 8
    ensures PageWritten(x, y.(disk := y.disk[b + k := PartOf(p, k)]), b, p, k + 1)
  {
    hide PartOf;
  }

  // ---------------------------------------------------------------- swap_page_from_pte

  // t is s after virtual page vp of space d was written to the new run at b and its physical page freed;
  // v is the disk when balloc_page returned.
  ghost predicate SwappedOut(s: Sys, v: Vol.Vol, t: Sys, d: nat, vp: nat, b: nat) {
    && t.m == Evict(s.m, d, vp, SwapEntry(b)) && t.run == s.run[b := (d, vp)]
    && Fs.PageTaken(s.v, v, b) && Vol.Inv(t.v)
    && Frame(Pte(s.m, d, vp)) < |s.m.page| && PageWritten(v, t.v, b, s.m.page[Frame(Pte(s.m, d, vp))], 8)
  }

  // A run that was there before the swap is not the new one, and its blocks are untouched.
  lemma OldRunKept(s: Sys, v: Vol.Vol, t: Sys, d: nat, vp: nat, b: nat, r: nat)
    requires Inv(s) && SwappedOut(s, v, t, d, vp, b) && r in s.run
    ensures r != b && r + 8 <= |t.v.disk| && r in t.v.owner && t.v.owner[r] == Vol.Page(r)
    ensures r + 8 <= |s.v.disk| && PageOf(t.v.disk, r) == PageOf(s.v.disk, r)
  {
    hide Memory.Inv, Vol.Inv, Vol.Used, Evict, SwapEntry, PageOf, PartOf;
    RunBounds(s, r);
    forall c: nat | r <= c < r + 8 ensures !(b <= c < b + 8) && t.v.disk[c] == s.v.disk[c] {
      if b <= c < b + 8 { PageIsFree(s, b, c); }
    }
    assert t.v.disk[r] == s.v.disk[r] && t.v.disk[r + 7] == s.v.disk[r + 7];
    SamePageOf(s.v.disk, t.v.disk, r);
  }

  lemma PageIsFree(s: Sys, b: nat, c: nat)
    requires Inv(s) && PageRun.FreeRun(Fs.Bits(s.v.sb, s.v.disk), b) && s.v.sb.datastart <= b <= c < b + 8
    ensures c < s.v.sb.size && !Vol.Used(s.v.sb, s.v.disk, c)
  {
    hide Memory.Inv;
    Fs.PageTakenFree(s.v, b, c);
  }

  lemma NewRun(s: Sys, v: Vol.Vol, t: Sys, d: nat, vp: nat, b: nat)
    requires Inv(s) && SwappedOut(s, v, t, d, vp, b)
    ensures b + 8 <= |t.v.disk| == |s.v.disk| && b in t.v.owner && t.v.owner[b] == Vol.Page(b)
    ensures Frame(SwapEntry(b)) == b && Swapped(SwapEntry(b)) && !Present(SwapEntry(b))
    ensures PageOf(t.v.disk, b) == s.m.page[Frame(Pte(s.m, d, vp))]
  {
    hide Memory.Inv, Vol.Inv, Vol.Used, Evict, SwapEntry, PageOf, PartOf, Frame, Swapped, Present, Pte;
    SwapEntryParts(b);
    PageRoundTrip(t.v.disk, b, s.m.page[Frame(Pte(s.m, d, vp))]);
  }

  lemma SwapOutHolds(s: Sys, v: Vol.Vol, t: Sys, d: nat, vp: nat, b: nat, c: nat, w: nat)
    requires Inv(s) && SwappedOut(s, v, t, d, vp, b) && d in s.m.spaces && vp < USERPAGES && Present(Pte(s.m, d, vp))
    requires c in s.m.spaces && w < USERPAGES
    ensures Holds(t, c, w) == Holds(s, c, w)
  {
    hide Memory.Inv, Vol.Inv, Vol.Used, Evict, SwapEntry, PageOf, PartOf, Frame, Swapped, Present, Pte, Fs.PageTaken,
      PageWritten;
    NewRun(s, v, t, d, vp, b);
    EvictInv(s.m, d, vp, SwapEntry(b));
    assert EntryOk(s, c, w);
    if !(c == d && w == vp) {
      assert Pte(t.m, c, w) == Pte(s.m, c, w);
      if Present(Pte(s.m, c, w)) {
        EvictedPage(s.m, d, vp, SwapEntry(b), c, w);
      } else if Swapped(Pte(s.m, c, w)) {
        OldRunKept(s, v, t, d, vp, b, Frame(Pte(s.m, c, w)));
      }
    }
  }

  // Evicting a page leaves the bytes of every other page alone.
  lemma EvictedPage(m: Mem, d: nat, vp: nat, e: Uint, c: nat, w: nat)
    requires Memory.Inv(m) && d in m.spaces && vp < USERPAGES && Present(Pte(m, d, vp)) && !Present(e)
    requires c in m.spaces && w < USERPAGES && Present(Pte(m, c, w)) && !(c == d && w == vp)
    ensures var f := Frame(Pte(m, c, w));
      f < |m.page| == |Evict(m, d, vp, e).page| && Evict(m, d, vp, e).page[f] == m.page[f]
  {
    EvictInv(m, d, vp, e);
    UserAt(m, c, w);
    UserAt(m, d, vp);
  }

  lemma SwapOutInv(s: Sys, v: Vol.Vol, t: Sys, d: nat, vp: nat, b: nat)
    requires Inv(s) && SwappedOut(s, v, t, d, vp, b) && d in s.m.spaces && vp < USERPAGES && Present(Pte(s.m, d, vp))
    ensures Inv(t) && t.m.spaces == s.m.spaces
  {
    hide Memory.Inv, Vol.Inv, Vol.Used, Evict, SwapEntry, PageOf, PartOf, Frame, Swapped, Present, Pte, Fs.PageTaken,
      PageWritten;
    NewRun(s, v, t, d, vp, b);
    EvictInv(s.m, d, vp, SwapEntry(b));
    forall c: nat, w: nat | c in s.m.spaces && w < USERPAGES ensures EntryOk(t, c, w) {
      assert EntryOk(s, c, w);
      if !(c == d && w == vp) && !Present(Pte(s.m, c, w)) && Swapped(Pte(s.m, c, w)) {
        OldRunKept(s, v, t, d, vp, b, Frame(Pte(s.m, c, w)));
      }
    }
    forall r | r in t.run ensures RunOk(t, r) {
      if r != b {
        assert RunOk(s, r);
        OldRunKept(s, v, t, d, vp, b, r);
      }
    }
  }

  // ---------------------------------------------------------------- map_address

  // t is s after virtual page vp of space d got the physical page f holding p, and the run that held it
  // until then, if there was one, was freed.
  ghost predicate MappedIn(s: Sys, t: Sys, d: nat, vp: nat, f: nat, p: Page, blk: Option<nat>) {
    && f in s.m.free && t.m == MapOne(Filled(s.m, f, p), d, vp, Entry(f, PTE_W + PTE_U)) && Vol.Inv(t.v)
    && match blk
       case None => t.v == s.v && t.run == s.run
       case Some(b) => Fs.PageReturned(s.v, t.v, b) && b in s.run && t.run == s.run - {b}
  }

  // The run that a virtual page is swapped to.
  function BlkOf(e: Uint): Option<nat> {
    if !Present(e) && Swapped(e) then Some(Frame(e)) else None
  }

  // What the page is filled with: what it held, or zeroes the first time.
  ghost function FillOf(s: Sys, d: nat, vp: nat): Page {
    if Holds(s, d, vp).Some? then Holds(s, d, vp).value else ZeroPage()
  }

  lemma MapInMemory(s: Sys, d: nat, vp: nat, f: nat, p: Page)
    requires Inv(s) && d in s.m.spaces && vp < USERPAGES && !Present(Pte(s.m, d, vp)) && f in s.m.free
    requires Present(Pde(s.m, d, Dirx(vp)))
    ensures var n, e := Filled(s.m, f, p), Entry(f, PTE_W + PTE_U); var r := MapOne(n, d, vp, e);
      && Memory.Inv(r) && r.spaces == s.m.spaces && Frame(e) == f < |r.page| && Present(e) && !Swapped(e) &&
           r.page[f] == p
      && (forall c: nat, w: nat :: c in s.m.spaces ==> Pte(r, c, w) == if c == d && w == vp then e else Pte(s.m, c, w))
      && (forall c: nat, w: nat :: c in s.m.spaces && w < USERPAGES && Present(Pte(s.m, c, w)) ==>
           SamePage(s.m, r, Frame(Pte(s.m, c, w))))
  {
    hide Memory.Inv, Vol.Inv, Entry, Frame, Present, Swapped, Pte, Pde, Filled, MapOne;
    var n, e := Filled(s.m, f, p), Entry(f, PTE_W + PTE_U);
    FilledInv(s.m, f, p);
    FilledPtes(s.m, f, p);
    FreeBelowFrames(s.m, f);
    EntryParts(f, PTE_W + PTE_U);
    PresentNotSwapped(f);
    AbsentMap(n, d, vp);
    MapOneInv(n, d, vp, e);
    var r := MapOne(n, d, vp, e);
    MappedIsOwned(n, d, vp, e, f);
    forall c: nat, w: nat | c in s.m.spaces && w < USERPAGES && Present(Pte(s.m, c, w))
      ensures SamePage(s.m, r, Frame(Pte(s.m, c, w))) {
      MapInKeeps(s.m, n, r, d, vp, f, p, c, w);
    }
  }

  predicate SamePage(m: Mem, r: Mem, g: nat) {
    g < |m.page| == |r.page| && r.page[g] == m.page[g]
  }

  lemma FreeBelowFrames(m: Mem, f: nat)
    requires Memory.Inv(m) && f in m.free
    ensures 0 < f < FRAMES && f < |m.page|
  {
    assert FreeOk(m);
  }

  lemma AbsentMap(m: Mem, d: nat, vp: nat)
    requires !Present(Pte(m, d, vp))
    ensures MapAt(m, d, vp).None?
  {
  }

  lemma FilledPtes(m: Mem, f: nat, p: Page)
    requires Memory.Inv(m) && f in m.free
    ensures forall c: nat, k: nat :: c in m.spaces ==> Pde(Filled(m, f, p), c, k) == Pde(m, c, k)
    ensures forall c: nat, w: nat :: c in m.spaces ==> Pte(Filled(m, f, p), c, w) == Pte(m, c, w)
  {
    var n := Filled(m, f, p);
    forall c: nat, k: nat | c in m.spaces ensures Pde(n, c, k) == Pde(m, c, k) { SpaceAt(m, c); }
    forall c: nat, w: nat | c in m.spaces ensures Pte(n, c, w) == Pte(m, c, w) {
      if Present(Pde(m, c, Dirx(w))) { TabAt(m, c, Dirx(w)); }
    }
  }

  lemma MappedIsOwned(n: Mem, d: nat, vp: nat, e: Uint, f: nat)
    requires Memory.Inv(n) && d in n.spaces && vp < USERPAGES && Held(n, f) && Frame(e) == f && Present(e)
    requires Rewired(n, MapOne(n, d, vp, e), d, vp, e) && SameData(n, MapOne(n, d, vp, e))
    requires Memory.Inv(MapOne(n, d, vp, e))
    ensures f < |n.page| == |MapOne(n, d, vp, e).page| && MapOne(n, d, vp, e).page[f] == n.page[f]
  {
    hide Pte, Pde, MapOne;
    UserAt(MapOne(n, d, vp, e), d, vp);
    assert Data(n, f);
  }

  lemma MapInKeeps(m: Mem, n: Mem, r: Mem, d: nat, vp: nat, f: nat, p: Page, c: nat, w: nat)
    requires Memory.Inv(m) && Memory.Inv(r) && f in m.free && n == Filled(m, f, p) && n.spaces == m.spaces
    requires SameData(n, r)
    requires c in m.spaces && c in r.spaces && w < USERPAGES && Present(Pte(m, c, w)) && Pte(r, c, w) == Pte(m, c, w)
    ensures SamePage(m, r, Frame(Pte(m, c, w)))
  {
    UserAt(m, c, w);
    UserAt(r, c, w);
    assert Data(n, Frame(Pte(m, c, w)));
  }

  // Another run is not the freed one, and its blocks are untouched.
  lemma OtherRunKept(s: Sys, t: Sys, b: nat, r: nat)
    requires Inv(s) && Fs.PageReturned(s.v, t.v, b) && b in s.run && r in s.run && r != b
    ensures r + 8 <= |t.v.disk| == |s.v.disk| && r in t.v.owner && t.v.owner[r] == Vol.Page(r)
    ensures PageOf(t.v.disk, r) == PageOf(s.v.disk, r)
  {
    hide Memory.Inv, Vol.Inv, Vol.Used, PageOf;
    RunBounds(s, r);
    RunsDisjoint(s, b, r);
    SamePageOf(s.v.disk, t.v.disk, r);
  }

  ghost predicate Faults(s: Sys, d: nat, vp: nat) {
    d in s.m.spaces && vp < USERPAGES && !Present(Pte(s.m, d, vp)) && Present(Pde(s.m, d, Dirx(vp)))
  }

  lemma MapInHolds(s: Sys, t: Sys, d: nat, vp: nat, f: nat, c: nat, w: nat)
    requires Inv(s) && Faults(s, d, vp) && MappedIn(s, t, d, vp, f, FillOf(s, d, vp), BlkOf(Pte(s.m, d, vp)))
    requires c in s.m.spaces && w < USERPAGES
    ensures Holds(t, c, w) == if c == d && w == vp then Some(FillOf(s, d, vp)) else Holds(s, c, w)
  {
    hide Memory.Inv, Vol.Inv, Vol.Used, PageOf, Frame, Swapped, Present, Pte, Pde, Fs.PageReturned, Filled, MapOne,
      Entry, FillOf;
    MapInMemory(s, d, vp, f, FillOf(s, d, vp));
    assert EntryOk(s, c, w) && EntryOk(s, d, vp);
    if !(c == d && w == vp) {
      if Present(Pte(s.m, c, w)) {
        assert SamePage(s.m, t.m, Frame(Pte(s.m, c, w)));
      } else if Swapped(Pte(s.m, c, w)) && BlkOf(Pte(s.m, d, vp)).Some? {
        OtherRunKept(s, t, Frame(Pte(s.m, d, vp)), Frame(Pte(s.m, c, w)));
      }
    }
  }

  lemma MapInInv(s: Sys, t: Sys, d: nat, vp: nat, f: nat, p: Page)
    requires Inv(s) && Faults(s, d, vp) && MappedIn(s, t, d, vp, f, p, BlkOf(Pte(s.m, d, vp)))
    ensures Inv(t) && t.m.spaces == s.m.spaces
  {
    hide Memory.Inv, Vol.Inv, Vol.Used, PageOf, Frame, Swapped, Present, Pte, Pde, Filled, MapOne, Entry;
    MapInMemory(s, d, vp, f, p);
    assert EntryOk(s, d, vp);
    forall c: nat, w: nat | c in s.m.spaces && w < USERPAGES ensures EntryOk(t, c, w) { assert EntryOk(s, c, w); }
    forall r | r in t.run ensures RunOk(t, r) {
      assert RunOk(s, r);
      if BlkOf(Pte(s.m, d, vp)).Some? { OtherRunKept(s, t, Frame(Pte(s.m, d, vp)), r); }
    }
  }

  // ---------------------------------------------------------------- runs

  ghost predicate PagesOut(s: Sys, t: Sys, v: Vol.Vol, d: nat, vp: nat, b: nat) {
    d in s.m.spaces && vp < USERPAGES && Present(Pte(s.m, d, vp)) && SwappedOut(s, v, t, d, vp, b)
  }

  ghost predicate PagesIn(s: Sys, t: Sys, d: nat, vp: nat, f: nat) {
    Faults(s, d, vp) && MappedIn(s, t, d, vp, f, FillOf(s, d, vp), BlkOf(Pte(s.m, d, vp)))
  }

  ghost predicate Step(s: Sys, t: Sys) {
    || (exists v: Vol.Vol, d: nat, vp: nat, b: nat :: PagesOut(s, t, v, d, vp, b))
    || (exists d: nat, vp: nat, f: nat :: PagesIn(s, t, d, vp, f))
  }

  lemma StepKeeps(s: Sys, t: Sys, c: nat, w: nat)
    requires Inv(s) && Step(s, t)
    ensures Inv(t) && t.m.spaces == s.m.spaces
    ensures c in s.m.spaces && w < USERPAGES && Holds(s, c, w).Some? ==> Holds(t, c, w) == Holds(s, c, w)
  {
    hide Inv, SwappedOut, MappedIn, Present, Pte, Faults;
    if v: Vol.Vol, d: nat, vp: nat, b: nat :| PagesOut(s, t, v, d, vp, b) {
      SwapOutInv(s, v, t, d, vp, b);
      if c in s.m.spaces && w < USERPAGES { SwapOutHolds(s, v, t, d, vp, b, c, w); }
    } else {
      var d: nat, vp: nat, f: nat :| PagesIn(s, t, d, vp, f);
      MapInInv(s, t, d, vp, f, FillOf(s, d, vp));
      if c in s.m.spaces && w < USERPAGES { MapInHolds(s, t, d, vp, f, c, w); }
    }
  }

  // Swapping preserves memory: whatever pages go out to the disk and come back in, in whatever order, a
  // page that holds something holds it ever after.
  lemma {:induction false} RunKeeps(run: seq<Sys>, i: nat, c: nat, w: nat)
    requires 0 < |run| && Inv(run[0]) && (forall k :: 0 <= k < |run| - 1 ==> Step(run[k], run[k + 1]))
    requires i < |run| && c in run[0].m.spaces && w < USERPAGES
    ensures Inv(run[i]) && run[i].m.spaces == run[0].m.spaces
    ensures Holds(run[0], c, w).Some? ==> Holds(run[i], c, w) == Holds(run[0], c, w)
  {
    hide Inv, Step, Holds;
    if i > 0 {
      RunKeeps(run, i - 1, c, w);
      assert Step(run[i - 1], run[i - 1 + 1]);
      StepKeeps(run[i - 1], run[i], c, w);
    }
  }
}
