/** Physical memory and the page tables in it (vm.c): two-level tables read as a partial map from virtual
    pages to entries, and the ownership of physical pages. Pages are numbered; page n starts at n * 4096. */
module Memory {
  import opened Blocks
  import opened Wrappers

  const PGSIZE: nat := 4096
  const ENTRIES: nat := 1024         // NPDENTRIES and NPTENTRIES
  const FRAMES: nat := 0x10_0000     // page numbers, physical or virtual, are below 2^20
  const USERPAGES: nat := 0x8_0000   // virtual pages below KERNBASE

  type Page = p: seq<Uint> | |p| == ENTRIES witness ZeroPage()

  function ZeroPage(): (p: seq<Uint>)
    ensures |p| == ENTRIES
  {
    seq(ENTRIES, _ => 0)
  }

  // ---------------------------------------------------------------- entries

  const PTE_W: nat := 2
  const PTE_U: nat := 4

  function Frame(e: Uint): (f: nat)      // PTE_ADDR(e) / PGSIZE
    ensures f < FRAMES
  {
    e / PGSIZE
  }

  function Flags(e: Uint): (perm: nat)   // PTE_FLAGS(e)
    ensures perm < PGSIZE
  {
    e % PGSIZE
  }

  predicate Present(e: Uint) {           // e & PTE_P
    e % 2 == 1
  }

  // `pa | perm | PTE_P`, for the page pa of number f.
  function Entry(f: nat, perm: nat): Uint {
    if f < FRAMES && perm < PGSIZE then f * PGSIZE + WithPresent(perm) else 0
  }

  function WithPresent(perm: nat): nat {
    perm + 1 - perm % 2
  }

  lemma EntryParts(f: nat, perm: nat)
    requires f < FRAMES && perm < PGSIZE
    ensures Frame(Entry(f, perm)) == f && Flags(Entry(f, perm)) == WithPresent(perm) && Present(Entry(f, perm))
  {
  }

  lemma PresentFlags(e: Uint)
    requires Present(e)
    ensures WithPresent(Flags(e)) == Flags(e)
  {
  }

  lemma AbsentZero()
    ensures !Present(0)
  {
  }

  // ---------------------------------------------------------------- memory

  // What a page is used for: a page directory, the i-th table of a directory, or a user page.
  datatype Owner = Dir(d: nat) | Tab(d: nat, i: nat) | User(d: nat, vp: nat)

  // The pages, and the pages kalloc can hand out. Kept for the proof only: the owner of each page that
  // belongs to an address space, and the directories of the address spaces there are.
  datatype Mem = Mem(page: seq<Page>, free: set<nat>, owner: map<nat, Owner>, spaces: set<nat>)

  function Pde(m: Mem, d: nat, i: nat): Uint {
    if d < |m.page| && i < ENTRIES then m.page[d][i] else 0
  }

  function Dirx(vp: nat): nat { vp / ENTRIES }

  function Tabx(vp: nat): (j: nat)
    ensures j < ENTRIES
  {
    vp % ENTRIES
  }

  lemma IndexTwice(v: nat, w: nat)
    requires Dirx(v) == Dirx(w) && Tabx(v) == Tabx(w)
    ensures v == w
  {
  }

  // The entry of virtual page vp: 0 when there is no table for it.
  function Pte(m: Mem, d: nat, vp: nat): Uint {
    var pde := Pde(m, d, Dirx(vp));
    if Present(pde) && Frame(pde) < |m.page| then m.page[Frame(pde)][Tabx(vp)] else 0
  }

  ghost predicate OwnerOk(m: Mem, f: nat)
    requires f in m.owner
  {
    && 0 < f < |m.page| && f !in m.free && m.owner[f].d in m.spaces
    && match m.owner[f]
       case Dir(d) => f == d
       case Tab(d, i) => i < ENTRIES && Present(Pde(m, d, i)) && Frame(Pde(m, d, i)) == f
       case User(d, vp) => vp < USERPAGES && Present(Pte(m, d, vp)) && Frame(Pte(m, d, vp)) == f
  }

  predicate Owns(m: Mem, f: nat, o: Owner) {
    f in m.owner && m.owner[f] == o
  }

  ghost predicate TabOk(m: Mem, d: nat, i: nat) {
    Present(Pde(m, d, i)) ==> Owns(m, Frame(Pde(m, d, i)), Tab(d, i))
  }

  ghost predicate UserOk(m: Mem, d: nat, vp: nat) {
    Present(Pte(m, d, vp)) ==> Owns(m, Frame(Pte(m, d, vp)), User(d, vp))
  }

  ghost predicate SpaceOk(m: Mem, d: nat) {
    && Owns(m, d, Dir(d))
    && (forall i: nat :: i < ENTRIES ==> TabOk(m, d, i))
    && (forall vp: nat :: vp < USERPAGES ==> UserOk(m, d, vp))
  }

  ghost predicate FreeOk(m: Mem) {
    |m.page| <= FRAMES && forall f :: f in m.free ==> 0 < f < |m.page| && f !in m.owner
  }

  // Every page of an address space has one use, and every user page present has a page of its own.
  ghost predicate Inv(m: Mem) {
    && FreeOk(m)
    && (forall f :: f in m.owner ==> OwnerOk(m, f))
    && (forall d :: d in m.spaces ==> SpaceOk(m, d))
  }

  lemma SpaceAt(m: Mem, d: nat)
    requires Inv(m) && d in m.spaces
    ensures Owns(m, d, Dir(d)) && 0 < d < |m.page| <= FRAMES && d !in m.free
  {
    assert SpaceOk(m, d) && OwnerOk(m, d);
  }

  lemma TabAt(m: Mem, d: nat, i: nat)
    requires Inv(m) && d in m.spaces && Present(Pde(m, d, i))
    ensures var t := Frame(Pde(m, d, i)); i < ENTRIES && Owns(m, t, Tab(d, i)) && 0 < t < |m.page| && t !in m.free
  {
    AbsentZero();
    assert SpaceOk(m, d) && TabOk(m, d, i);
    assert OwnerOk(m, Frame(Pde(m, d, i)));
  }

  lemma UserAt(m: Mem, d: nat, vp: nat)
    requires Inv(m) && d in m.spaces && vp < USERPAGES && Present(Pte(m, d, vp))
    ensures var f := Frame(Pte(m, d, vp)); Owns(m, f, User(d, vp)) && 0 < f < |m.page| && f !in m.free
  {
    assert SpaceOk(m, d) && UserOk(m, d, vp);
    assert OwnerOk(m, Frame(Pte(m, d, vp)));
  }

  // ---------------------------------------------------------------- a new page table

  function PutPage(m: Mem, f: nat, p: Page): (n: Mem)
    ensures |n.page| == |m.page|
  {
    if f < |m.page| then m.(page := m.page[f := p]) else m
  }

  function StoreWord(m: Mem, f: nat, j: nat, e: Uint): (n: Mem)
    ensures |n.page| == |m.page|
  {
    if f < |m.page| && j < ENTRIES then PutPage(m, f, m.page[f][j := e]) else m
  }

  // walkpgdir's allocation of the page f for the i-th table of d.
  function AddTable(m: Mem, d: nat, i: nat, f: nat): Mem {
    StoreWord(PutPage(m, f, ZeroPage()), d, i, Entry(f, PTE_W + PTE_U)).
      (free := m.free - {f}, owner := m.owner[f := Tab(d, i)])
  }

  lemma AddTablePde(m: Mem, d: nat, i: nat, f: nat, e: nat, k: nat)
    requires Inv(m) && d in m.spaces && i < ENTRIES && f in m.free && e in m.spaces && !Present(Pde(m, d, i))
    ensures Pde(AddTable(m, d, i, f), e, k) == if e == d && k == i then Entry(f, PTE_W + PTE_U) else Pde(m, e, k)
  {
    hide Entry;
    SpaceAt(m, d);
    SpaceAt(m, e);
  }

  lemma AddTablePte(m: Mem, d: nat, i: nat, f: nat, e: nat, vp: nat)
    requires Inv(m) && d in m.spaces && i < ENTRIES && f in m.free && e in m.spaces && !Present(Pde(m, d, i))
    ensures Pte(AddTable(m, d, i, f), e, vp) == Pte(m, e, vp)
  {
    hide Entry, Dirx, Tabx, Frame, Present;
    AddTablePde(m, d, i, f, e, Dirx(vp));
    SpaceAt(m, d);
    if Present(Pde(m, e, Dirx(vp))) { TabAt(m, e, Dirx(vp)); }
    EntryParts(f, PTE_W + PTE_U);
  }

  lemma AddTableInv(m: Mem, d: nat, i: nat, f: nat)
    requires Inv(m) && d in m.spaces && i < ENTRIES && f in m.free && !Present(Pde(m, d, i))
    ensures Inv(AddTable(m, d, i, f))
  {
    hide Pde, Pte, Frame, Present, Entry;
    SpaceAt(m, d);
    var n := AddTable(m, d, i, f);
    assert n.owner == m.owner[f := Tab(d, i)] && n.free == m.free - {f} && n.spaces == m.spaces && |n.page| == |m.page|;
    EntryParts(f, PTE_W + PTE_U);
    forall e: nat, k: nat | e in m.spaces
      ensures Pde(n, e, k) == if e == d && k == i then Entry(f, PTE_W + PTE_U) else Pde(m, e, k) {
      AddTablePde(m, d, i, f, e, k);
    }
    forall e: nat, vp: nat | e in m.spaces ensures Pte(n, e, vp) == Pte(m, e, vp) { AddTablePte(m, d, i, f, e, vp); }
    hide AddTable;
    forall g | g in n.owner ensures OwnerOk(n, g) { if g != f { assert OwnerOk(m, g); } }
    forall e | e in n.spaces ensures SpaceOk(n, e) {
      assert SpaceOk(m, e);
      forall k: nat | k < ENTRIES ensures TabOk(n, e, k) { assert TabOk(m, e, k); }
      forall vp: nat | vp < USERPAGES ensures UserOk(n, e, vp) { assert UserOk(m, e, vp); }
    }
  }

  // ---------------------------------------------------------------- one entry

  // The entry of vp overwritten; there is a table for it.
  function SetPte(m: Mem, d: nat, vp: nat, e: Uint): (n: Mem)
    ensures |n.page| == |m.page|
  {
    StoreWord(m, Frame(Pde(m, d, Dirx(vp))), Tabx(vp), e)
  }

  lemma SetPteReads(m: Mem, d: nat, vp: nat, e: Uint, c: nat, w: nat)
    requires Inv(m) && d in m.spaces && c in m.spaces && Present(Pde(m, d, Dirx(vp)))
    ensures Pde(SetPte(m, d, vp, e), c, w) == Pde(m, c, w)
    ensures Pte(SetPte(m, d, vp, e), c, w) == if c == d && w == vp then e else Pte(m, c, w)
  {
    hide Frame, Present, Dirx, Tabx;
    TabAt(m, d, Dirx(vp));
    SpaceAt(m, c);
    var n := SetPte(m, d, vp, e);
    assert Pde(n, c, w) == Pde(m, c, w) && Pde(n, c, Dirx(w)) == Pde(m, c, Dirx(w));
    if Present(Pde(m, c, Dirx(w))) { TabAt(m, c, Dirx(w)); }
    if Dirx(w) == Dirx(vp) && Tabx(w) == Tabx(vp) { IndexTwice(v := w, w := vp); }
  }

  // The pages of a memory that no table or directory uses keep their contents in these steps.
  lemma SetPteKeeps(m: Mem, d: nat, vp: nat, e: Uint, f: nat)
    requires Inv(m) && d in m.spaces && Present(Pde(m, d, Dirx(vp))) && f < |m.page|
    requires !(f in m.owner && m.owner[f].Tab?)
    ensures SetPte(m, d, vp, e).page[f] == m.page[f]
  {
    TabAt(m, d, Dirx(vp));
  }

  lemma SamePages(m: Mem, n: Mem, c: nat, w: nat)
    requires m.page == n.page
    ensures Pde(m, c, w) == Pde(n, c, w) && Pte(m, c, w) == Pte(n, c, w)
  {
  }

  // The tables of n are those of m but for the entry of vp, which is e.
  ghost predicate Rewired(m: Mem, n: Mem, d: nat, vp: nat, e: Uint) {
    && n.spaces == m.spaces && |n.page| == |m.page|
    && (forall c: nat, i: nat :: c in m.spaces ==> Pde(n, c, i) == Pde(m, c, i))
    && (forall c: nat, w: nat :: c in m.spaces ==> Pte(n, c, w) == if c == d && w == vp then e else Pte(m, c, w))
  }

  lemma SetPteRewires(m: Mem, d: nat, vp: nat, e: Uint, n: Mem)
    requires Inv(m) && d in m.spaces && Present(Pde(m, d, Dirx(vp)))
    requires n.page == SetPte(m, d, vp, e).page && n.spaces == m.spaces
    ensures Rewired(m, n, d, vp, e)
  {
    hide Pde, Pte, Frame, Present, Dirx, SetPte;
    forall c: nat, w: nat | c in m.spaces
      ensures Pde(n, c, w) == Pde(m, c, w) && Pte(n, c, w) == if c == d && w == vp then e else Pte(m, c, w)
    {
      SetPteReads(m, d, vp, e, c, w);
      SamePages(n, SetPte(m, d, vp, e), c, w);
    }
  }

  // The owners of n are those of m but for the user page of vp: there is one exactly if vp is a user page
  // that e maps, and it is the page that e names.
  ghost predicate Reowned(m: Mem, n: Mem, d: nat, vp: nat, e: Uint) {
    && (forall f: nat, o: Owner :: o != User(d, vp) ==> Owns(n, f, o) == Owns(m, f, o))
    && (forall f: nat :: Owns(n, f, User(d, vp)) ==> vp < USERPAGES && Present(e) && f == Frame(e) && 0 < f < |m.page|)
    && (vp < USERPAGES && Present(e) ==> Owns(n, Frame(e), User(d, vp)))
    && (forall f :: f in n.owner ==> f !in n.free)
  }

  lemma RewiredOwner(m: Mem, n: Mem, d: nat, vp: nat, e: Uint, f: nat)
    requires Inv(m) && d in m.spaces && Rewired(m, n, d, vp, e) && Reowned(m, n, d, vp, e) && f in n.owner
    ensures OwnerOk(n, f)
  {
    hide Pde, Pte, Frame, Present, FreeOk, SpaceOk;
    assert Owns(n, f, n.owner[f]);
    if n.owner[f] != User(d, vp) { assert Owns(m, f, n.owner[f]) && OwnerOk(m, f); }
  }

  lemma RewiredSpace(m: Mem, n: Mem, d: nat, vp: nat, e: Uint, c: nat)
    requires Inv(m) && Rewired(m, n, d, vp, e) && Reowned(m, n, d, vp, e) && c in m.spaces
    ensures SpaceOk(n, c)
  {
    hide Pde, Pte, Frame, Present, FreeOk, OwnerOk, Owns;
    assert SpaceOk(m, c);
    forall k: nat | k < ENTRIES ensures TabOk(n, c, k) { assert TabOk(m, c, k); }
    forall w: nat | w < USERPAGES ensures UserOk(n, c, w) { assert UserOk(m, c, w); }
  }

  lemma RewiredInv(m: Mem, n: Mem, d: nat, vp: nat, e: Uint)
    requires Inv(m) && d in m.spaces && Rewired(m, n, d, vp, e) && Reowned(m, n, d, vp, e) && FreeOk(n)
    ensures Inv(n)
  {
    hide OwnerOk, SpaceOk, Reowned, FreeOk;
    forall f | f in n.owner ensures OwnerOk(n, f) { RewiredOwner(m, n, d, vp, e, f); }
    forall c | c in n.spaces ensures SpaceOk(n, c) { RewiredSpace(m, n, d, vp, e, c); }
  }

  // ---------------------------------------------------------------- the map

  // An address space as a partial map from virtual pages to entries, which give the page and the flags.
  function MapAt(m: Mem, d: nat, vp: nat): Option<Uint> {
    if Present(Pte(m, d, vp)) then Some(Pte(m, d, vp)) else None
  }

  // The map is the one the processor walks: the ten bits of the address above bit 22 choose an entry of the
  // directory and the ten above bit 12 one of its table; an entry counts if bit 0 is set, and the 20 bits
  // above bit 12 are the number of its page.
  lemma ProcessorWalk(m: Mem, d: nat, va: nat)
    requires Inv(m) && d in m.spaces && va < 0x1_0000_0000
    ensures d < |m.page| && va / 0x40_0000 < 1024
    ensures var pde: int := m.page[d][va / 0x40_0000];
      if pde % 2 == 0 then MapAt(m, d, va / 4096) == None
      else
        && pde / 4096 < |m.page|
        && var pte: int := m.page[pde / 4096][va / 4096 % 1024];
           MapAt(m, d, va / 4096) == if pte % 2 == 0 then None else Some(pte)
  {
    SpaceAt(m, d);
    assert va / 4096 / 1024 == va / 0x40_0000;
    var i := va / 0x40_0000;
    assert TabOk(m, d, i);
    if Present(Pde(m, d, i)) { assert OwnerOk(m, Frame(Pde(m, d, i))); }
    hide Inv;
  }

  // The entry of page f: its number from bit 12 on, the flags below, and bit 0.
  lemma EntryBits(f: nat, perm: nat)
    requires f < 0x10_0000 && perm < 4096
    ensures var e: int := Entry(f, perm);
      e / 4096 == f && e % 2 == 1 && e % 4096 == if perm % 2 == 1 then perm else perm + 1
  {
  }

  // Page g is data: not free, and neither a directory nor a table.
  predicate Data(m: Mem, g: nat) {
    g !in m.free && (g in m.owner ==> m.owner[g].User?)
  }

  // What was data and is not free now is as it was.
  ghost predicate SameData(m: Mem, n: Mem) {
    |n.page| == |m.page| && forall g: nat :: g < |m.page| && Data(m, g) && g !in n.free ==> n.page[g] == m.page[g]
  }

  ghost predicate SameMapBut(m: Mem, n: Mem, d: nat, lo: nat, hi: nat) {
    forall c: nat, w: nat :: c in m.spaces && !(c == d && lo <= w < hi) ==> MapAt(n, c, w) == MapAt(m, c, w)
  }

  // The owners of n are those of m, and pages that were free in m and now belong to d; `held` are pages
  // handed out by kalloc that nothing owns yet.
  ghost predicate OwnersGrew(m: Mem, n: Mem, d: nat, held: set<nat>) {
    && (forall g :: g in m.owner ==> Owns(n, g, m.owner[g]))
    && (forall g :: g in n.owner && g !in m.owner ==> n.owner[g].d == d && g in m.free)
    && (forall g :: g in n.free <==> g in m.free && g !in n.owner && g !in held)
    && (forall g :: g in held ==> g in m.free && g !in n.owner)
  }

  // n is m after pages were taken for space d, which may be new.
  ghost predicate Took(m: Mem, n: Mem, d: nat, held: set<nat>) {
    m.spaces <= n.spaces <= m.spaces + {d} && SameData(m, n) && OwnersGrew(m, n, d, held)
  }

  // ---------------------------------------------------------------- steps of the map

  lemma AddTableTook(m: Mem, d: nat, i: nat, f: nat)
    requires Inv(m) && d in m.spaces && i < ENTRIES && f in m.free && !Present(Pde(m, d, i))
    ensures Took(m, AddTable(m, d, i, f), d, {}) && SameMapBut(m, AddTable(m, d, i, f), d, 0, 0)
  {
    SpaceAt(m, d);
    assert f !in m.owner;
    hide Inv, Pte, Pde, Present, Entry;
    forall c: nat, w: nat | c in m.spaces ensures MapAt(AddTable(m, d, i, f), c, w) == MapAt(m, c, w) {
      AddTablePte(m, d, i, f, c, w);
    }
  }

  // One entry of mappages: vp gets e, and if it is a user page the page e names belongs to it.
  function MapOne(m: Mem, d: nat, vp: nat, e: Uint): Mem {
    var n := SetPte(m, d, vp, e);
    if vp < USERPAGES then n.(owner := m.owner[Frame(e) := User(d, vp)]) else n
  }

  predicate Held(m: Mem, g: nat) {
    0 < g < |m.page| && g !in m.free && g !in m.owner
  }

  lemma MapOneInv(m: Mem, d: nat, vp: nat, e: Uint)
    requires Inv(m) && d in m.spaces && Present(Pde(m, d, Dirx(vp))) && MapAt(m, d, vp).None? && Present(e)
    requires vp < USERPAGES ==> Held(m, Frame(e))
    ensures Inv(MapOne(m, d, vp, e))
    ensures Rewired(m, MapOne(m, d, vp, e), d, vp, e)
    ensures SameData(m, MapOne(m, d, vp, e))
  {
    TabAt(m, d, Dirx(vp));
    var n := MapOne(m, d, vp, e);
    SetPteRewires(m, d, vp, e, n);
    NoUserPage(m, d, vp);
    assert FreeOk(n) by { assert FreeOk(m); }
    assert Reowned(m, n, d, vp, e) by { hide Rewired, SetPte; }
    RewiredInv(m, n, d, vp, e);
    forall g: nat | g < |m.page| && Data(m, g) ensures n.page[g] == m.page[g] { SetPteKeeps(m, d, vp, e, g); }
  }

  lemma NoUserPage(m: Mem, d: nat, vp: nat)
    requires Inv(m) && MapAt(m, d, vp).None?
    ensures forall f: nat :: !Owns(m, f, User(d, vp))
  {
    forall f: nat ensures !Owns(m, f, User(d, vp)) { if f in m.owner { assert OwnerOk(m, f); } }
  }

  // The page of vp goes back to kalloc, and its entry is set to e, which is not present.
  function Evict(m: Mem, d: nat, vp: nat, e: Uint): Mem {
    var f := Frame(Pte(m, d, vp));
    SetPte(m, d, vp, e).(free := m.free + {f}, owner := m.owner - {f})
  }

  // One page of deallocuvm.
  function UnmapOne(m: Mem, d: nat, vp: nat): Mem {
    Evict(m, d, vp, 0)
  }

  lemma EvictInv(m: Mem, d: nat, vp: nat, e: Uint)
    requires Inv(m) && d in m.spaces && vp < USERPAGES && Present(Pte(m, d, vp)) && !Present(e)
    ensures Inv(Evict(m, d, vp, e)) && Present(Pde(m, d, Dirx(vp)))
    ensures Rewired(m, Evict(m, d, vp, e), d, vp, e)
    ensures Owns(m, Frame(Pte(m, d, vp)), User(d, vp)) && SameData(m, Evict(m, d, vp, e))
  {
    AbsentZero();
    assert Present(Pde(m, d, Dirx(vp)));
    TabAt(m, d, Dirx(vp));
    UserAt(m, d, vp);
    var n := Evict(m, d, vp, e);
    SetPteRewires(m, d, vp, e, n);
    assert FreeOk(n) by { assert FreeOk(m); }
    OneUserPage(m, d, vp);
    assert Reowned(m, n, d, vp, e) by { hide Rewired, SetPte; }
    RewiredInv(m, n, d, vp, e);
    forall g: nat | g < |m.page| && Data(m, g) ensures n.page[g] == m.page[g] { SetPteKeeps(m, d, vp, e, g); }
  }

  lemma UnmapOneInv(m: Mem, d: nat, vp: nat)
    requires Inv(m) && d in m.spaces && vp < USERPAGES && Present(Pte(m, d, vp))
    ensures Inv(UnmapOne(m, d, vp)) && Present(Pde(m, d, Dirx(vp)))
    ensures Rewired(m, UnmapOne(m, d, vp), d, vp, 0)
    ensures Owns(m, Frame(Pte(m, d, vp)), User(d, vp)) && SameData(m, UnmapOne(m, d, vp))
  {
    AbsentZero();
    EvictInv(m, d, vp, 0);
  }

  lemma OneUserPage(m: Mem, d: nat, vp: nat)
    requires Inv(m)
    ensures forall f: nat :: Owns(m, f, User(d, vp)) ==> f == Frame(Pte(m, d, vp))
  {
    forall f: nat | Owns(m, f, User(d, vp)) ensures f == Frame(Pte(m, d, vp)) { assert OwnerOk(m, f); }
  }

  // Different user pages, of one address space or of two, are different physical pages.
  lemma UserPagesDisjoint(m: Mem, c: nat, v: nat, d: nat, w: nat)
    requires Inv(m) && c in m.spaces && d in m.spaces && v < USERPAGES && w < USERPAGES && (c != d || v != w)
    requires MapAt(m, c, v).Some? && MapAt(m, d, w).Some?
    ensures Frame(MapAt(m, c, v).value) != Frame(MapAt(m, d, w).value)
  {
    UserAt(m, c, v);
    UserAt(m, d, w);
  }

  lemma SamePagesAll(m: Mem, n: Mem)
    requires m.page == n.page
    ensures forall c: nat, k: nat :: Pde(m, c, k) == Pde(n, c, k)
    ensures forall c: nat, w: nat :: Pte(m, c, w) == Pte(n, c, w) && MapAt(m, c, w) == MapAt(n, c, w)
  {
    forall c: nat, k: nat ensures Pde(m, c, k) == Pde(n, c, k) && Pte(m, c, k) == Pte(n, c, k) &&
      MapAt(m, c, k) == MapAt(n, c, k) {
      SamePages(m, n, c, k);
    }
  }

  // A page that nothing owns yet is handed out, written, or given back.
  lemma HeldWrite(m: Mem, f: nat, p: Page)
    requires Inv(m) && Held(m, f)
    ensures Inv(PutPage(m, f, p)) && forall c: nat, w: nat :: c in m.spaces ==>
      MapAt(PutPage(m, f, p), c, w) == MapAt(m, c, w)
  {
    var n := PutPage(m, f, p);
    forall c: nat, k: nat | c in m.spaces ensures Pde(n, c, k) == Pde(m, c, k) { SpaceAt(m, c); }
    forall c: nat, w: nat | c in m.spaces ensures Pte(n, c, w) == Pte(m, c, w) {
      if Present(Pde(m, c, Dirx(w))) { TabAt(m, c, Dirx(w)); }
    }
    hide Pde, Pte, Present, PutPage;
    SameTables(m, n);
  }

  // Memories whose tables read the same.
  lemma SameTables(m: Mem, n: Mem)
    requires Inv(m) && n.spaces == m.spaces && n.owner == m.owner && FreeOk(n) && |n.page| == |m.page|
    requires forall c: nat, k: nat :: c in m.spaces ==> Pde(n, c, k) == Pde(m, c, k)
    requires forall c: nat, w: nat :: c in m.spaces ==> Pte(n, c, w) == Pte(m, c, w)
    ensures Inv(n)
  {
    hide Pde, Pte, Present, Frame;
    forall g | g in n.owner ensures OwnerOk(n, g) { assert OwnerOk(m, g); }
    forall c | c in n.spaces ensures SpaceOk(n, c) {
      assert SpaceOk(m, c);
      forall k: nat | k < ENTRIES ensures TabOk(n, c, k) { assert TabOk(m, c, k); }
      forall w: nat | w < USERPAGES ensures UserOk(n, c, w) { assert UserOk(m, c, w); }
    }
  }

  lemma KallocInv(m: Mem, f: nat)
    requires Inv(m) && f in m.free
    ensures var n := m.(free := m.free - {f});
      Inv(n) && Held(n, f) && forall c: nat, w: nat :: MapAt(n, c, w) == MapAt(m, c, w)
  {
    var n := m.(free := m.free - {f});
    hide Pde, Pte, MapAt, Present;
    SamePagesAll(m, n);
    assert FreeOk(m);
    SameTables(m, n);
  }

  lemma KfreeInv(m: Mem, f: nat)
    requires Inv(m) && Held(m, f)
    ensures var n := m.(free := m.free + {f});
      Inv(n) && forall c: nat, w: nat :: MapAt(n, c, w) == MapAt(m, c, w)
  {
    var n := m.(free := m.free + {f});
    hide Pde, Pte, MapAt, Present;
    SamePagesAll(m, n);
    assert FreeOk(m);
    SameTables(m, n);
  }

  // A free page taken and filled.
  function Filled(n: Mem, f: nat, p: Page): Mem {
    PutPage(n.(free := n.free - {f}), f, p)
  }

  lemma FilledInv(n: Mem, f: nat, p: Page)
    requires Inv(n) && f in n.free
    ensures var r := Filled(n, f, p);
      && Inv(r) && Held(r, f) && r.page[f] == p && r.spaces == n.spaces && |r.page| == |n.page|
      && forall c: nat, w: nat :: c in n.spaces ==> MapAt(r, c, w) == MapAt(n, c, w)
  {
    KallocInv(n, f);
    HeldWrite(n.(free := n.free - {f}), f, p);
  }
}
