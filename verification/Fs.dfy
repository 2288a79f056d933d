/** The block allocator, the block map and file reads and writes of fs.c. */
module Fs {
  import opened Blocks
  import opened Volume
  import opened Wrappers
  import opened PageRun
  import Log

  // A page's first block; no free block when one was needed; or a write behind the end of alloc_b.
  datatype PageResult = Allocated(first: nat) | NoBlocks | Overrun

  datatype WriteResult = Wrote(n: nat) | Refused | OutOfBlocks

  // The block of the inode table that holds inode i.
  function IBlock(sb: Super, i: nat): nat {
    i / IPB + sb.inodestart
  }

  // Block b + bi lies in the same map block as b, at bit bi.
  lemma MapBit(sb: Super, d: seq<Block>, b: nat, bi: nat)
    requires b % BPB == 0 && bi < BPB && BBlock(sb, b) < |d|
    ensures BBlock(sb, b + bi) == BBlock(sb, b) && (b + bi) % BPB == bi
    ensures Used(sb, d, b + bi) == Bit(d[BBlock(sb, b)][bi / 8], bi % 8)
  {
  }

  // The indirect block and its map block, for a file block that is listed there.
  function Roots(v: Vol, i: nat, bn: nat): set<nat> {
    if bn < NDIRECT then {} else {Slot(v, i, NDIRECT) as nat, BBlock(v.sb, Slot(v, i, NDIRECT))}
  }

  // How many distinct blocks a write of n > 0 bytes at off can log: the data blocks it touches, a map
  // block for each of them but the first if that existed, the indirect block and its map block, and
  // the block of the inode.
  function Budget(off: nat, n: nat): nat
    requires n > 0
  {
    2 * Touched(off, n) + 3 - (if off % BSIZE != 0 then 1 else 0)
  }

  lemma Joined(c: seq<Byte>, x: seq<Byte>, y: seq<Byte>, a: nat, b: nat, e: nat)
    requires a <= b <= e <= |c| && x == c[a..b] && y == c[b..e]
    ensures x + y == c[a..e]
  {
  }

  // A chunk of filewrite, at most 1536 bytes at any offset, fits in the log space one operation reserves.
  lemma ChunkFitsOperation(off: nat, n: nat)
    requires 0 < n <= 1536
    ensures Budget(off, n) <= Log.MAXOPBLOCKS
  {
    var r := off % BSIZE;
    assert off == BSIZE * (off / BSIZE) + r;
    assert (off + n - 1) / BSIZE <= off / BSIZE + 3;
    if r == 0 {
      assert (off + n - 1) / BSIZE <= off / BSIZE + 2;
    }
  }

  // The next block of a write is one block more, when it starts at a block boundary or at the start.
  lemma TouchedNext(off: nat, tot: nat, m: nat)
    requires m > 0 && (tot == 0 || (off + tot) % BSIZE == 0) && (off + tot) % BSIZE + m <= BSIZE
    ensures Touched(off, tot + m) == Touched(off, tot) + 1
  {
    var p := off + tot;
    assert p == BSIZE * (p / BSIZE) + p % BSIZE;
    assert (p + m - 1) / BSIZE == p / BSIZE by { Quotients(p, p + m - 1, m); }
    if tot > 0 {
      assert p == BSIZE * (p / BSIZE);
      assert (p - 1) / BSIZE == p / BSIZE - 1;
    }
  }

  lemma SumOfThree(a: set<nat>, b: set<nat>, x: set<nat>, y: set<nat>, z: set<nat>)
    requires a <= b + x + y + z
    ensures |a - b| <= |x| + |y| + |z|
  {
    var u := x + y + z;
    assert a - b <= u;
    Subset(a - b, u);
    assert u == x + (y + z);
  }

  lemma {:induction false} Subset(a: set<nat>, b: set<nat>)
    requires a <= b
    ensures |a| <= |b|
  {
    assert b == a + (b - a);
  }

  // What a write in progress may have logged: data blocks, map blocks and the two for the indirect block.
  ghost predicate Accounted(v: Vol, i: nat, before: set<nat>, now: set<nat>, datas: set<nat>, maps: set<nat>,
    roots: set<nat>) {
    && now <= before + datas + maps + roots
    && (roots == {} || (Slot(v, i, NDIRECT) != 0 && roots == Roots(v, i, NDIRECT)))
  }

  // What one block write may log, from y, when its block has been found or allocated in z.
  ghost predicate Logs(y: Vol, z: Vol, i: nat, o: nat, sofar: set<nat>, now: set<nat>) {
    var a: nat := Slot(z, i, DataSlot(o / BSIZE));
    && now <= sofar + {a, BBlock(z.sb, a)} + Roots(z, i, o / BSIZE)
    && (HasBlock(y, i, o) ==> now <= sofar + {a})
    && (o / BSIZE >= NDIRECT ==> Slot(z, i, NDIRECT) != 0)
  }

  lemma Account(y: Vol, z: Vol, w: Vol, i: nat, o: nat, before: set<nat>, sofar: set<nat>, now: set<nat>,
                datas: set<nat>, maps: set<nat>, roots: set<nat>)
    returns (datas': set<nat>, maps': set<nat>, roots': set<nat>)
    requires Accounted(y, i, before, sofar, datas, maps, roots) && Grown(y, z)
    requires w.sb == z.sb && Slot(w, i, NDIRECT) == Slot(z, i, NDIRECT)
    requires Logs(y, z, i, o, sofar, now)
    ensures Accounted(w, i, before, now, datas', maps', roots')
    ensures |datas'| <= |datas| + 1
    ensures |maps'| <= |maps| + (if HasBlock(y, i, o) then 0 else 1)
  {
    var a: nat := Slot(z, i, DataSlot(o / BSIZE));
    datas' := datas + {a};
    maps' := if HasBlock(y, i, o) then maps else maps + {BBlock(z.sb, a)};
    roots' := if o / BSIZE >= NDIRECT then Roots(z, i, NDIRECT) else roots;
  }

  // A write that starts inside a block of a file without holes starts in an existing block.
  lemma FirstExists(v: Vol, i: nat, off: nat)
    requires NoHoles(v) && i < |v.inodes| && off <= v.inodes[i].size && off % BSIZE != 0
    ensures HasBlock(v, i, off)
  {
    InvHasBlock(v, i, off - 1);
    Quotients(off - off % BSIZE, off, off % BSIZE + 1);
    Quotients(off - off % BSIZE, off - 1, off % BSIZE);
  }

  lemma RootsAtMostTwo(v: Vol, i: nat, before: set<nat>, now: set<nat>, datas: set<nat>, maps: set<nat>,
    roots: set<nat>)
    requires Accounted(v, i, before, now, datas, maps, roots)
    ensures |now - before| <= |datas| + |maps| + 2
  {
    SumOfThree(now, before, datas, maps, roots);
  }

  function Touched(off: nat, n: nat): (t: nat)
    ensures n > 0 ==> t > 0
  {
    if n == 0 then 0 else (off + n - 1) / BSIZE - off / BSIZE + 1
  }

  // A piece of a transfer that stays inside one block.
  predicate IsChunk(o: nat, m: nat) {
    o % BSIZE + m <= BSIZE
  }

  // `min(n - tot, BSIZE - off%BSIZE)`.
  function Chunk(o: nat, left: nat): (m: nat)
    requires left > 0
    ensures 0 < m <= left && IsChunk(o, m) && (m == left || (o + m) % BSIZE == 0)
  {
    Min(left, BSIZE - o % BSIZE)
  }

  // What a write of the first n bytes at off has logged, and why.
  datatype Tally = Tally(before: set<nat>, datas: set<nat>, maps: set<nat>, roots: set<nat>) {
    ghost predicate Holds(v: Vol, now: set<nat>, i: nat, off: nat, n: nat) {
      && (n == 0 ==> now == before)
      && Accounted(v, i, before, now, datas, maps, roots)
      && |datas| <= Touched(off, n)
      && |maps| <= Touched(off, n) - (if n > 0 && off % BSIZE != 0 then 1 else 0)
    }

    lemma Next(y: Vol, z: Vol, w: Vol, sofar: set<nat>, now: set<nat>, i: nat, off: nat, n: nat, m: nat)
        returns (t: Tally)
      requires Holds(y, sofar, i, off, n) && Grown(y, z)
      requires m > 0 && IsChunk(off + n, m) && (n == 0 || (off + n) % BSIZE == 0)
      requires n == 0 && off % BSIZE != 0 ==> HasBlock(y, i, off)
      requires w.sb == z.sb && Slot(w, i, NDIRECT) == Slot(z, i, NDIRECT)
      requires Logs(y, z, i, off + n, sofar, now)
      ensures t.before == before && t.Holds(w, now, i, off, n + m)
    {
      TouchedNext(off, n, m);
      var d, p, r := Account(y, z, w, i, off + n, before, sofar, now, datas, maps, roots);
      t := Tally(before, d, p, r);
    }

    lemma Bound(v: Vol, now: set<nat>, i: nat, off: nat, n: nat)
      requires Holds(v, now, i, off, n) && n > 0
      ensures |now - before| <= Budget(off, n) - 1
    {
      RootsAtMostTwo(v, i, before, now, datas, maps, roots);
    }
  }

  // What the turn of a write loop needs to know about the block it wrote.
  lemma SlotPoke(z: Vol, i: nat, o: nat, data: seq<Byte>)
    requires Inv(z) && Pokeable(z, i, o, data)
    ensures NotPage(z, i, o)
    ensures var w := Poke(z, i, o, data);
      w.sb == z.sb && |w.inodes| == |z.inodes| && Slot(w, i, NDIRECT) == Slot(z, i, NDIRECT)
  {
    NotAPage(z, i, o);
    PokeSlot(z, i, o, data, i, NDIRECT);
  }

  lemma WriteStart(x: Vol, i: nat, off: nat, logged: set<nat>)
    requires Inv(x) && i < |x.inodes| && off <= x.inodes[i].size
    ensures Written(x, x, i, off, []) && Tally(logged, {}, {}, {}).Holds(x, logged, i, off, 0)
    ensures off % BSIZE != 0 ==> HasBlock(x, i, off)
  {
    GrownReflexive(x);
    WrittenGrown(x, x, i, off);
    if off % BSIZE != 0 { FirstExists(x, i, off); }
  }

  ghost predicate PagesKept(x: Vol, y: Vol) {
    forall c :: c in x.owner && x.owner[c].Page? ==>
      c in y.owner && y.owner[c] == x.owner[c] && BlockAt(y, c) == BlockAt(x, c)
  }

  lemma WriteEnd(x: Vol, y: Vol, i: nat, off: nat, data: seq<Byte>)
    requires Inv(x) && Inv(y) && Written(x, y, i, off, data) && off <= x.inodes[i].size
    requires off + |data| <= MAXFILE * BSIZE && |data| < UINT
    ensures var z := if |data| > 0 && off + |data| > y.inodes[i].size then Resize(y, i, off + |data|) else y;
      && Inv(z) && |z.inodes| == |x.inodes|
      && Content(z, i) == Splice(Content(x, i), off, data)
      && (forall j :: 0 <= j < |x.inodes| && j != i ==> Content(z, j) == Content(x, j))
      && PagesKept(x, z)
  {
    var n := if off + |data| > x.inodes[i].size then off + |data| else x.inodes[i].size;
    WrittenContent(x, y, i, off, data, n);
    WrittenResize(x, y, i, off, data, n);
    WrittenPages(x, y, i, off, data, n);
    assert y.inodes[i].(size := y.inodes[i].size) == y.inodes[i];
    assert n == y.inodes[i].size ==> Resize(y, i, n) == y;
    hide Content, Splice, PagesKept;
  }

  lemma WrittenPages(x: Vol, y: Vol, i: nat, off: nat, data: seq<Byte>, n: Uint)
    requires Written(x, y, i, off, data)
    ensures PagesKept(x, Resize(y, i, n))
  {
    hide HasBlock, ByteAt;
  }

  lemma AddOne(a: set<nat>, b: set<nat>, x: nat)
    ensures |a + {x} - b| <= |a - b| + 1
  {
    Subset(a + {x} - b, (a - b) + {x});
  }

  lemma TruncatedFacts(v: Vol, y: Vol, i: nat)
    requires Inv(v) && Truncated(v, y, i) && Geometry(y.sb, y.disk)
    ensures y.inodes[i].size == 0 && forall k :: 0 <= k <= 12 ==> y.inodes[i].addrs[k] == 0
    ensures forall c :: c in v.owner && v.owner[c].InodeSlot? && v.owner[c].inum == i ==>
      c !in y.owner && (c < y.sb.size ==> BBlock(y.sb, c) < |y.disk| && !Used(y.sb, y.disk, c))
  {
    hide Used, Slot;
  }

  lemma TruncatedAll(v: Vol, y: Vol, i: nat)
    requires Inv(v) && Truncated(v, y, i)
    ensures Inv(y) && |y.inodes| == |v.inodes| && i < |v.inodes| && Content(y, i) == []
    ensures forall j :: 0 <= j < |y.inodes| && j != i ==> Content(y, j) == Content(v, j)
  {
    TruncatedInv(v, y, i);
    forall j | 0 <= j < |y.inodes| ensures Content(y, j) == if j == i then [] else Content(v, j) {
      TruncatedContent(v, y, i, j);
    }
  }

  // ---------------------------------------------------------------- pages of eight blocks

  // The free bit map of a disk.
  ghost function Bits(sb: Super, d: seq<Block>): Map
    requires Geometry(sb, d)
  {
    seq(sb.size, c requires 0 <= c < sb.size => Used(sb, d, c))
  }

  lemma BitsZeroed(sb: Super, d: seq<Block>, b: nat)
    requires Geometry(sb, d) && sb.datastart <= b < sb.size
    ensures Bits(sb, Zeroed(sb, d, b)) == Bits(sb, d)[b := true]
  {
    var m, n := Bits(sb, Zeroed(sb, d, b)), Bits(sb, d)[b := true];
    forall c | 0 <= c < sb.size ensures m[c] == n[c] { ZeroedUsed(sb, d, b, c); }
  }

  lemma BitsMark(sb: Super, d: seq<Block>, b: nat, on: bool)
    requires Geometry(sb, d) && b < sb.size
    ensures Bits(sb, Mark(sb, d, b, on)) == Bits(sb, d)[b := on]
  {
    var m, n := Bits(sb, Mark(sb, d, b, on)), Bits(sb, d)[b := on];
    forall c | 0 <= c < sb.size ensures m[c] == n[c] { UsedMark(sb, d, b, on, c); }
  }

  ghost function PageOwner(b: nat): map<nat, Owner> {
    map[b := Page(b), b + 1 := Page(b), b + 2 := Page(b), b + 3 := Page(b),
        b + 4 := Page(b), b + 5 := Page(b), b + 6 := Page(b), b + 7 := Page(b)]
  }

  lemma PageOwnerIs(b: nat, c: nat)
    ensures c in PageOwner(b) <==> b <= c < b + 8
    ensures c in PageOwner(b) ==> PageOwner(b)[c] == Page(b)
  {
  }

  // y is x with the free blocks b..b+7 held by a page and nothing else allocated or freed; data blocks
  // that were in use keep their contents.
  ghost predicate PageTaken(x: Vol, y: Vol, b: nat) {
    && Geometry(x.sb, x.disk) && y.sb == x.sb && |y.disk| == |x.disk| && y.inodes == x.inodes
    && FreeRun(Bits(x.sb, x.disk), b) && x.sb.datastart <= b
    && (forall c :: c in y.owner <==> (b <= c < b + 8 || c in x.owner))
    && (forall c :: c in y.owner ==> y.owner[c] == if b <= c < b + 8 then Page(b) else x.owner[c])
    && (forall c :: 0 <= c < x.sb.size ==> (Used(y.sb, y.disk, c) <==> Used(x.sb, x.disk, c) || b <= c < b + 8))
    && (forall c :: x.sb.datastart <= c < x.sb.size && Used(x.sb, x.disk, c) ==> y.disk[c] == x.disk[c])
  }

  lemma PageTakenSlot(x: Vol, y: Vol, b: nat, j: nat, l: nat)
    requires Inv(x) && PageTaken(x, y, b)
    ensures Slot(y, j, l) == Slot(x, j, l)
  {
    hide Inv, Used, Word;
    if j < |x.inodes| && NDIRECT < l < SLOTS && Slot(x, j, NDIRECT) != 0 {
      SlotOwned(x, j, NDIRECT);
    }
  }

  lemma PageTakenFree(x: Vol, b: nat, c: nat)
    requires Inv(x) && FreeRun(Bits(x.sb, x.disk), b) && x.sb.datastart <= b <= c < b + 8
    ensures c < x.sb.size && !Used(x.sb, x.disk, c) && c !in x.owner
  {
    assert !Bits(x.sb, x.disk)[c];
  }

  lemma PageTakenInv(x: Vol, y: Vol, b: nat)
    requires Inv(x) && PageTaken(x, y, b)
    ensures Inv(y)
  {
    forall j: nat, l: nat ensures Slot(y, j, l) == Slot(x, j, l) { PageTakenSlot(x, y, b, j, l); }
    forall c: nat | b <= c < b + 8
      ensures c < x.sb.size && !Used(x.sb, x.disk, c) && c !in x.owner { PageTakenFree(x, b, c); }
    NoHolesSame(x, y);
    PageTakenOwners(x, y, b);
  }

  lemma PageTakenOwners(x: Vol, y: Vol, b: nat)
    requires Inv(x) && PageTaken(x, y, b) && NoHoles(y)
    requires forall j, l :: 0 <= j && 0 <= l ==> Slot(y, j, l) == Slot(x, j, l)
    requires forall c :: b <= c < b + 8 ==> c < x.sb.size && !Used(x.sb, x.disk, c) && c !in x.owner
    ensures Inv(y)
  {
    hide Slot, Used, NoHoles, OwnerOk;
    forall c | c in y.owner ensures y.sb.datastart <= c < y.sb.size && OwnerOk(y, c) {
      PageTakenOwner(x, y, b, c);
    }
  }

  lemma PageTakenOwner(x: Vol, y: Vol, b: nat, c: nat)
    requires PageTaken(x, y, b) && c in y.owner && (c in x.owner ==> OwnerOk(x, c))
    requires forall j, l :: 0 <= j && 0 <= l ==> Slot(y, j, l) == Slot(x, j, l)
    requires forall q :: b <= q < b + 8 ==> q !in x.owner
    ensures OwnerOk(y, c)
  {
    hide Slot, Used, Bits, FreeRun;
    if c in x.owner && x.owner[c].Page? {
      var r := x.owner[c].first;
      forall q | r <= q < r + 8 ensures q in y.owner && y.owner[q] == Page(r) {
        assert q in x.owner && x.owner[q] == Page(r);
      }
    }
  }

  lemma PageTakenContent(x: Vol, y: Vol, b: nat)
    requires Inv(x) && PageTaken(x, y, b)
    ensures forall j :: 0 <= j < |x.inodes| ==> Content(y, j) == Content(x, j)
    ensures PagesKept(x, y)
  {
    forall j | 0 <= j < |x.inodes| ensures Content(y, j) == Content(x, j) {
      forall o | 0 <= o < x.inodes[j].size ensures ByteAt(y, j, o) == ByteAt(x, j, o) {
        InvHasBlock(x, j, o);
        SlotOwned(x, j, DataSlot(o / BSIZE));
        PageTakenSlot(x, y, b, j, DataSlot(o / BSIZE));
      }
      SameContent(x, y, j);
    }
    PageTakenPages(x, y, b);
  }

  lemma PageTakenPages(x: Vol, y: Vol, b: nat)
    requires Inv(x) && PageTaken(x, y, b)
    ensures PagesKept(x, y)
  {
    forall c | c in x.owner ensures c in y.owner && y.owner[c] == x.owner[c] {
      if b <= c < b + 8 { PageTakenFree(x, b, c); }
    }
  }

  // The data blocks while balloc_page holds the blocks xs: those are zeroed, the others are as before.
  ghost predicate Kept(sb: Super, d0: seq<Block>, d: seq<Block>, xs: seq<nat>) {
    && Geometry(sb, d0) && |d| == |d0|
    && (forall c :: sb.datastart <= c < sb.size && c !in xs ==> d[c] == d0[c])
    && (forall k :: 0 <= k < |xs| ==> sb.datastart <= xs[k] < sb.size && d[xs[k]] == ZeroBlock())
  }

  lemma KeptNext(sb: Super, d0: seq<Block>, d: seq<Block>, xs: seq<nat>, b: nat)
    requires Kept(sb, d0, d, xs) && sb.datastart <= b < sb.size
    ensures Geometry(sb, d) && Kept(sb, d0, Zeroed(sb, d, b), xs + [b])
  {
    var e, ys := Zeroed(sb, d, b), xs + [b];
    forall c | sb.datastart <= c < sb.size && c != b ensures e[c] == d[c] { ZeroedFrame(sb, d, b, c); }
    assert forall c :: c in ys <==> c in xs || c == b;
  }

  lemma KeptMark(sb: Super, d0: seq<Block>, d: seq<Block>, xs: seq<nat>, b: nat, on: bool)
    requires Kept(sb, d0, d, xs) && b < sb.size
    ensures Geometry(sb, d) && Kept(sb, d0, Mark(sb, d, b, on), xs)
  {
  }

  lemma MetaZeroed(sb: Super, d: seq<Block>, b: nat)
    requires Geometry(sb, d) && MetaUsed(sb, d) && sb.datastart <= b < sb.size
    ensures Geometry(sb, Zeroed(sb, d, b)) && MetaUsed(sb, Zeroed(sb, d, b))
  {
    forall c | 0 <= c < sb.datastart ensures Used(sb, Zeroed(sb, d, b), c) { ZeroedUsed(sb, d, b, c); }
  }

  lemma BitsAt(sb: Super, d: seq<Block>, c: nat)
    requires Geometry(sb, d) && c < sb.size
    ensures Bits(sb, d)[c] == Used(sb, d, c)
  {
  }

  lemma PageFoundMap(x: Vol, d: seq<Block>, xs: seq<nat>, b: nat)
    requires Geometry(x.sb, x.disk) && Geometry(x.sb, d) && 8 <= |xs|
    requires Returned(Bits(x.sb, x.disk), Bits(x.sb, d), xs, |xs| - 8)
    requires xs[|xs| - 8..] == [b, b + 1, b + 2, b + 3, b + 4, b + 5, b + 6, b + 7]
    ensures forall c :: 0 <= c < x.sb.size ==> (Used(x.sb, d, c) <==> Used(x.sb, x.disk, c) || b <= c < b + 8)
    ensures forall c :: 0 <= c < x.sb.size && Used(x.sb, x.disk, c) ==> c !in xs
  {
    hide Used;
    ReturnedAll(Bits(x.sb, x.disk), Bits(x.sb, d), xs, b);
    forall c | 0 <= c < x.sb.size ensures Used(x.sb, d, c) <==> Used(x.sb, x.disk, c) || b <= c < b + 8 {
      BitsAt(x.sb, d, c);
      BitsAt(x.sb, x.disk, c);
    }
    forall c | 0 <= c < x.sb.size && Used(x.sb, x.disk, c) ensures c !in xs {
      BitsAt(x.sb, x.disk, c);
    }
  }

  // The search is over: what is left of it is the page.
  lemma PageFound(x: Vol, d: seq<Block>, m: Map, xs: seq<nat>, y: Vol)
    requires Geometry(x.sb, x.disk) && Geometry(x.sb, d) && Kept(x.sb, x.disk, d, xs)
    requires Searched(Bits(x.sb, x.disk), m, xs) && Tail(Bits(x.sb, x.disk), xs, 8)
    requires Returned(Bits(x.sb, x.disk), Bits(x.sb, d), xs, |xs| - 8)
    requires y == Vol(x.sb, d, x.inodes, x.owner + PageOwner(xs[|xs| - 8]))
    ensures var b := xs[|xs| - 8];
      PageTaken(x, y, b) && forall c :: b <= c < b + 8 ==> y.disk[c] == ZeroBlock()
  {
    hide Used, Searched, Tail, Returned, Bits, PageOwner, Kept, FreeRun;
    TailLong(Bits(x.sb, x.disk), xs);
    var b := xs[|xs| - 8];
    RunFound(Bits(x.sb, x.disk), m, xs);
    PageFoundMap(x, d, xs, b);
    PageFoundData(x, d, xs, b);
    forall c: nat ensures c in y.owner <==> (b <= c < b + 8 || c in x.owner) { PageOwnerIs(b, c); }
    forall c | c in y.owner ensures y.owner[c] == if b <= c < b + 8 then Page(b) else x.owner[c] { PageOwnerIs(b, c); }
  }

  lemma PageFoundData(x: Vol, d: seq<Block>, xs: seq<nat>, b: nat)
    requires Kept(x.sb, x.disk, d, xs) && 8 <= |xs|
    requires xs[|xs| - 8..] == [b, b + 1, b + 2, b + 3, b + 4, b + 5, b + 6, b + 7]
    requires forall c :: 0 <= c < x.sb.size && Used(x.sb, x.disk, c) ==> c !in xs
    ensures x.sb.datastart <= b && b + 8 <= x.sb.size == |d|
    ensures forall c :: x.sb.datastart <= c < x.sb.size && Used(x.sb, x.disk, c) ==> d[c] == x.disk[c]
    ensures forall c :: b <= c < b + 8 ==> d[c] == ZeroBlock()
  {
    hide Used;
    assert xs[|xs| - 8..][0] == b == xs[|xs| - 8] && xs[|xs| - 8..][7] == b + 7 == xs[|xs| - 1];
    forall c: nat | b <= c < b + 8 ensures x.sb.datastart <= c < x.sb.size && d[c] == ZeroBlock() {
      assert xs[|xs| - 8..][c - b] == c;
    }
  }

  lemma SearchBegins(v: Vol)
    requires Inv(v)
    ensures Geometry(v.sb, v.disk) && MetaUsed(v.sb, v.disk) && Kept(v.sb, v.disk, v.disk, [])
    ensures Searched(Bits(v.sb, v.disk), Bits(v.sb, v.disk), []) && Tail(Bits(v.sb, v.disk), [], 0)
  {
  }

  // Why balloc_page stops without a page: no eight free blocks in a row, or, in front of the end of
  // every such run, more free blocks than the table of allocations has entries.
  ghost predicate Failed(r: PageResult, m: Map) {
    match r
    case Allocated(_) => false
    case NoBlocks => (forall q :: 0 <= q ==> !FreeRun(m, q)) && FreeBelow(m, |m|) <= NUM
    case Overrun => (forall q :: 0 <= q && FreeRun(m, q) ==> FreeBelow(m, q + 8) > NUM) && FreeBelow(m, |m|) > NUM
  }

  lemma NoneLeft(m0: Map, m: Map, xs: seq<nat>, t: nat)
    requires Searched(m0, m, xs) && Tail(m0, xs, t) && t < 8 && |xs| <= NUM && forall c :: 0 <= c < |m| ==> m[c]
    ensures Failed(NoBlocks, m0)
  {
    NoRun(m0, m, xs, t);
  }

  lemma TooMany(m0: Map, m: Map, xs: seq<nat>, t: nat, b: nat)
    requires Searched(m0, m, xs) && Lowest(m, b) && |xs| == NUM && Searched(m0, m[b := true], xs + [b])
    requires forall r :: 0 <= r && FreeRun(m0, r) ==> b < r + 8
    ensures Failed(Overrun, m0)
  {
    assert FreeBelow(m0, b + 1) == NUM + 1;
    forall r: nat | FreeRun(m0, r) ensures FreeBelow(m0, r + 8) > NUM {
      FreeBelowMonotone(m0, b + 1, r + 8);
    }
    FreeBelowMonotone(m0, b + 1, |m0|);
  }

  lemma TailLong(m0: Map, xs: seq<nat>)
    requires Tail(m0, xs, 8)
    ensures 8 <= |xs|
  {
  }

  lemma BitsLength(sb: Super, d: seq<Block>)
    requires Geometry(sb, d)
    ensures |Bits(sb, d)| == sb.size
  {
  }

  // d is the disk of x after the first i blocks of the page at b were freed.
  ghost predicate Returning(x: Vol, d: seq<Block>, b: nat, i: nat) {
    && Geometry(x.sb, x.disk) && |d| == |x.disk| && Geometry(x.sb, d)
    && (forall c :: x.sb.datastart <= c < x.sb.size ==> d[c] == x.disk[c])
    && (forall c :: 0 <= c < x.sb.size ==> (Used(x.sb, d, c) <==> Used(x.sb, x.disk, c) && !(b <= c < b + i)))
  }

  lemma ReturningNone(x: Vol, b: nat)
    requires Inv(x)
    ensures Returning(x, x.disk, b, 0)
  {
  }

  lemma PageInUse(x: Vol, b: nat, c: nat)
    requires Inv(x) && b in x.owner && x.owner[b] == Page(b) && b <= c < b + 8
    ensures x.sb.datastart <= c < x.sb.size && Used(x.sb, x.disk, c) && c in x.owner && x.owner[c] == Page(b)
  {
    hide Slot, Used, NoHoles, SlotsOwn, MetaUsed;
    assert OwnerOk(x, b);
    assert x.owner[c] == Page(b);
    assert x.sb.datastart <= c < x.sb.size;
  }

  lemma ReturningNext(x: Vol, d: seq<Block>, b: nat, i: nat)
    requires Inv(x) && b in x.owner && x.owner[b] == Page(b) && i < 8 && Returning(x, d, b, i)
    ensures Geometry(x.sb, d) && b + i < x.sb.size && Used(x.sb, d, b + i)
    ensures Returning(x, Mark(x.sb, d, b + i, false), b, i + 1)
  {
    hide Inv, Used;
    PageInUse(x, b, b + i);
    var e := Mark(x.sb, d, b + i, false);
    assert Geometry(x.sb, e) && forall c :: x.sb.datastart <= c < x.sb.size ==> e[c] == d[c];
    forall c | 0 <= c < x.sb.size
      ensures Used(x.sb, e, c) <==> Used(x.sb, x.disk, c) && !(b <= c < b + i + 1)
    {
      UsedMark(x.sb, d, b + i, false, c);
    }
  }

  // y is x with the page at b freed.
  ghost predicate PageReturned(x: Vol, y: Vol, b: nat) {
    && Geometry(x.sb, x.disk) && y.sb == x.sb && |y.disk| == |x.disk| && y.inodes == x.inodes
    && y.owner == (map c | c in x.owner && !(b <= c < b + 8) :: x.owner[c])
    && (forall c :: 0 <= c < x.sb.size ==> (Used(y.sb, y.disk, c) <==> Used(x.sb, x.disk, c) && !(b <= c < b + 8)))
    && (forall c :: x.sb.datastart <= c < x.sb.size ==> y.disk[c] == x.disk[c])
  }

  lemma ReturningAll(x: Vol, y: Vol, b: nat)
    requires Inv(x) && b in x.owner && x.owner[b] == Page(b)
    requires Returning(x, y.disk, b, 8) && y.sb == x.sb && y.inodes == x.inodes
    requires y.owner == map c | c in x.owner && !(b <= c < b + 8) :: x.owner[c]
    ensures PageReturned(x, y, b) && Inv(y)
  {
    hide Used;
    forall j: nat, l: nat ensures Slot(y, j, l) == Slot(x, j, l) { PageReturnedSlot(x, y, b, j, l); }
    NoHolesSame(x, y);
    PageReturnedInv(x, y, b);
  }

  lemma PageReturnedSlot(x: Vol, y: Vol, b: nat, j: nat, l: nat)
    requires Inv(x) && PageReturned(x, y, b)
    ensures Slot(y, j, l) == Slot(x, j, l)
  {
    hide Inv, Used, Word;
    if j < |x.inodes| && NDIRECT < l < SLOTS && Slot(x, j, NDIRECT) != 0 { SlotOwned(x, j, NDIRECT); }
  }

  lemma PageReturnedInv(x: Vol, y: Vol, b: nat)
    requires Inv(x) && b in x.owner && x.owner[b] == Page(b) && PageReturned(x, y, b) && NoHoles(y)
    requires forall j, l :: 0 <= j && 0 <= l ==> Slot(y, j, l) == Slot(x, j, l)
    ensures Inv(y)
  {
    hide Slot, Used, NoHoles;
    forall c: nat | b <= c < b + 8 ensures c in x.owner && x.owner[c] == Page(b) { PageInUse(x, b, c); }
    forall c | c in y.owner ensures OwnerOk(y, c) {
      PageReturnedOwner(x, y, b, c);
    }
  }

  lemma PageReturnedOwner(x: Vol, y: Vol, b: nat, c: nat)
    requires PageReturned(x, y, b) && c in y.owner && OwnerOk(x, c)
    requires forall j, l :: 0 <= j && 0 <= l ==> Slot(y, j, l) == Slot(x, j, l)
    requires forall q :: b <= q < b + 8 ==> q in x.owner && x.owner[q] == Page(b)
    ensures OwnerOk(y, c)
  {
    hide Slot, Used;
    if x.owner[c].Page? {
      var r := x.owner[c].first;
      assert r != b;
      forall q | r <= q < r + 8 ensures q in y.owner && y.owner[q] == Page(r) {
        assert q in x.owner && x.owner[q] == Page(r);
      }
    }
  }

  lemma PageReturnedContent(x: Vol, y: Vol, b: nat)
    requires Inv(x) && PageReturned(x, y, b)
    ensures forall j :: 0 <= j < |x.inodes| ==> Content(y, j) == Content(x, j)
  {
    forall j | 0 <= j < |x.inodes| ensures Content(y, j) == Content(x, j) {
      forall o | 0 <= o < x.inodes[j].size ensures ByteAt(y, j, o) == ByteAt(x, j, o) {
        InvHasBlock(x, j, o);
        SlotOwned(x, j, DataSlot(o / BSIZE));
        PageReturnedSlot(x, y, b, j, DataSlot(o / BSIZE));
      }
      SameContent(x, y, j);
    }
  }

  lemma PageUndoneMap(x: Vol, y: Vol, z: Vol, b: nat)
    requires Inv(x) && PageTaken(x, y, b) && PageReturned(y, z, b)
    ensures Bits(z.sb, z.disk) == Bits(x.sb, x.disk) && z.owner == x.owner
  {
    hide Used;
    forall c: nat | b <= c < b + 8
      ensures c !in x.owner && c < x.sb.size && !Used(x.sb, x.disk, c) { PageTakenFree(x, b, c); }
    var p, q := Bits(z.sb, z.disk), Bits(x.sb, x.disk);
    forall c | 0 <= c < x.sb.size ensures p[c] == q[c] { }
  }

  // Freeing a page undoes allocating it: the map, the owners and the inodes are back, every file reads as
  // it did, and so does every other page.
  lemma PageUndone(x: Vol, y: Vol, z: Vol, b: nat)
    requires Inv(x) && PageTaken(x, y, b) && PageReturned(y, z, b)
    ensures Bits(z.sb, z.disk) == Bits(x.sb, x.disk) && z.owner == x.owner && z.inodes == x.inodes
    ensures forall j :: 0 <= j < |x.inodes| ==> Content(z, j) == Content(x, j)
    ensures PagesKept(x, z)
  {
    PageUndoneMap(x, y, z, b);
    PageTakenInv(x, y, b);
    PageTakenContent(x, y, b);
    PageReturnedContent(y, z, b);
    hide Inv, Used, Content, Bits, FreeRun;
  }

  class FileSys {
    const sb: Super
    var disk: seq<Block>            // what bread shows of each block
    var inodes: seq<Inode>
    var numallocblocks: int
    ghost var owner: map<nat, Owner>
    ghost var logged: set<nat>      // block numbers passed to log_write

    ghost function V(): Vol
      reads this
    {
      Vol(sb, disk, inodes, owner)
    }

    // The first free block, marked in use and zeroed; None is the panic "balloc: out of blocks".
    method Balloc() returns (r: Option<nat>)
      requires Geometry(sb, disk) && MetaUsed(sb, disk)
      modifies this`disk, this`logged
      ensures r.None? ==> disk == old(disk) && logged == old(logged)
      ensures r.None? ==> Full(sb, disk)
      ensures r.Some? ==>
        && sb.datastart <= r.value < sb.size && !Used(sb, old(disk), r.value)
        && (forall c :: 0 <= c < r.value ==> Used(sb, old(disk), c))
        && disk == Zeroed(sb, old(disk), r.value)
        && logged == old(logged) + {BBlock(sb, r.value), r.value}
    {
      hide Used, Bit, PutByteBit;
      var b := 0;
      while b < sb.size
        invariant b % BPB == 0 && disk == old(disk) && logged == old(logged)
        invariant forall c :: 0 <= c < b && c < sb.size ==> Used(sb, disk, c)
      {
        var bp := disk[BBlock(sb, b)];
        var bi := 0;
        while bi < BPB && b + bi < sb.size
          invariant 0 <= bi <= BPB && disk == old(disk) && logged == old(logged)
          invariant forall c :: 0 <= c < b + bi && c < sb.size ==> Used(sb, disk, c)
        {
          MapBit(sb, disk, b, bi);
          if !Bit(bp[bi / 8], bi % 8) {
            assert !Used(sb, disk, b + bi);
            bp := bp[bi / 8 := PutByteBit(bp[bi / 8], bi % 8, true)];
            disk := disk[BBlock(sb, b) := bp];
            disk := disk[b + bi := ZeroBlock()];
            logged := logged + {BBlock(sb, b), b + bi};
            return Some(b + bi);
          }
          bi := bi + 1;
        }
        b := b + BPB;
      }
      return None;
    }

    // Clears the map bit; false is the panic "freeing free block".
    method Bfree(b: nat) returns (ok: bool)
      requires Geometry(sb, disk) && b < sb.size
      modifies this`disk
      ensures ok == Used(sb, old(disk), b)
      ensures disk == if ok then Mark(sb, old(disk), b, false) else old(disk)
    {
      var bp := disk[BBlock(sb, b)];
      var bi := b % BPB;
      if !Bit(bp[bi / 8], bi % 8) {
        return false;
      }
      bp := bp[bi / 8 := PutByteBit(bp[bi / 8], bi % 8, false)];
      disk := disk[BBlock(sb, b) := bp];
      return true;
    }

    // `slot = addr = balloc(dev)`, and the log_write of the indirect block when the slot lies in it.
    method BallocInto(i: nat, k: nat) returns (r: Option<nat>)
      requires Inv(V()) && i < |inodes| && k < SLOTS && Slot(V(), i, k) == 0
      requires k > NDIRECT ==> Slot(V(), i, NDIRECT) != 0
      modifies this`disk, this`inodes, this`owner, this`logged
      ensures r.None? ==> V() == old(V()) && logged == old(logged) && Full(sb, disk)
      ensures r.Some? ==>
        && Assignable(old(V()), i, k, r.value) && r.value !in old(owner)
        && old(V().inodes[i].addrs[NDIRECT]) < |old(disk)|
        && V() == Assign(old(V()), i, k, r.value)
        && logged == old(logged) + {BBlock(sb, r.value),
             r.value} + (if k > NDIRECT then {Slot(old(V()), i, NDIRECT) as nat} else {})
    {
      ghost var v := V();
      r := Balloc();
      if r.None? { return; }
      RootFits(v, i);
      owner := owner[r.value := InodeSlot(i, k)];
      if k <= NDIRECT {
        inodes := inodes[i := inodes[i].(addrs := inodes[i].addrs[k := r.value])];
      } else {
        var root := inodes[i].addrs[NDIRECT];
        disk := disk[root := PutWord(disk[root], k - 13, r.value)];
        logged := logged + {root};
      }
    }

    method FillSlot(i: nat, k: nat) returns (r: Option<nat>)
      requires Inv(V()) && i < |inodes| && k < SLOTS && Slot(V(), i, k) == 0
      requires k > NDIRECT ==> Slot(V(), i, NDIRECT) != 0
      modifies this`disk, this`inodes, this`owner, this`logged
      ensures Inv(V()) && Grown(old(V()), V())
      ensures r.None? ==> V() == old(V()) && Full(sb, disk)
      ensures forall j, l :: 0 <= j && 0 <= l && !(j == i && l == k) ==> Slot(V(), j, l) == Slot(old(V()), j, l)
      ensures r.Some? ==>
        && r.value == Slot(V(), i, k) != 0 && r.value !in old(owner) && BlockAt(V(), r.value) == ZeroBlock()
        && logged == old(logged) + {BBlock(sb, r.value),
             r.value} + (if k > NDIRECT then {Slot(old(V()), i, NDIRECT) as nat} else {})
    {
      ghost var v := V();
      GrownReflexive(v);
      r := BallocInto(i, k);
      if r.Some? {
        ghost var b := r.value;
        AssignInv(v, i, k, b);
        AssignGrown(v, i, k, b);
        AssignZero(v, i, k, b);
        forall j: nat, l: nat ensures Slot(V(), j, l) == if j == i && l == k then b else Slot(v, j, l) {
          AssignSlots(v, i, k, b, j, l);
        }
      }
    }

    // The block number of the bn-th block of file i, allocating it, and the indirect block, if there is
    // none; None is the panic of balloc, or the panic "bmap: out of range".
    method Bmap(i: nat, bn: nat) returns (r: Option<nat>)
      requires Inv(V()) && i < |inodes|
      modifies this`disk, this`inodes, this`owner, this`logged
      ensures Inv(V()) && Grown(old(V()), V())
      ensures r.Some? ==> r.value == Slot(V(), i, DataSlot(bn)) != 0
      // it is in addrs[bn], or is word bn - 12 of the block in addrs[12]
      ensures r.Some? && bn < 12 ==> r.value == inodes[i].addrs[bn]
      ensures r.Some? && bn >= 12 ==>
        && bn < 140 && 0 < inodes[i].addrs[12] < |disk| && r.value == Word(disk[inodes[i].addrs[12]], bn - 12)
      // an existing block is found and nothing changes
      ensures Slot(old(V()), i, DataSlot(bn)) != 0 ==> r.Some? && V() == old(V()) && logged == old(logged)
      // a new block had no owner and reads as zeroes
      ensures r.Some? && Slot(old(V()), i, DataSlot(bn)) == 0 ==>
        r.value !in old(owner) && BlockAt(V(), r.value) == ZeroBlock()
      // no other slot of any inode changes, save that of the indirect block
      ensures forall j, l :: 0 <= j && 0 <= l && !(j == i && (l == DataSlot(bn) || (l == NDIRECT && bn >= NDIRECT))) ==>
        Slot(V(), j, l) == Slot(old(V()), j, l)
      ensures bn >= MAXFILE ==> r.None? && V() == old(V()) && logged == old(logged)
      ensures r.None? && bn < MAXFILE ==> Full(sb, disk)
      // what was logged: the map block and the block, and for a listed block the indirect block and its map block
      ensures r.Some? ==> logged <= old(logged) + {r.value, BBlock(sb, r.value)} + Roots(V(), i, bn)
      ensures r.Some? && bn >= NDIRECT ==> Slot(V(), i, NDIRECT) != 0
    {
      hide Inv, Grown, Used;
      GrownReflexive(V());
      if bn < NDIRECT {
        var addr := inodes[i].addrs[bn];
        if addr == 0 {
          r := FillSlot(i, bn);
          return;
        }
        return Some(addr);
      }
      if bn >= MAXFILE {
        return None;
      }
      if inodes[i].addrs[NDIRECT] == 0 {
        r := FillSlot(i, NDIRECT);
        if r.None? { return; }
      }
      ghost var mid := V();
      r := BmapListed(i, bn - NDIRECT);
      GrownTransitive(old(V()), mid, V());
    }

    // The rest of bmap, once there is an indirect block: entry bn of it.
    method BmapListed(i: nat, bn: nat) returns (r: Option<nat>)
      requires Inv(V()) && i < |inodes| && bn < NINDIRECT && Slot(V(), i, NDIRECT) != 0
      modifies this`disk, this`inodes, this`owner, this`logged
      ensures Inv(V()) && Grown(old(V()), V())
      ensures r.Some? ==> r.value == Slot(V(), i, bn + 13) != 0
      ensures Slot(old(V()), i, bn + 13) != 0 ==> r.Some? && V() == old(V()) && logged == old(logged)
      ensures r.Some? && Slot(old(V()), i, bn + 13) == 0 ==>
        r.value !in old(owner) && BlockAt(V(), r.value) == ZeroBlock()
      ensures forall j, l :: 0 <= j && 0 <= l && !(j == i && l == bn + 13) ==> Slot(V(), j, l) == Slot(old(V()), j, l)
      ensures r.None? ==> Full(sb, disk)
      ensures r.Some? ==> logged <= old(logged) + {r.value, BBlock(sb, r.value)} + {Slot(V(), i, NDIRECT) as nat}
    {
      GrownReflexive(V());
      RootFits(V(), i);
      var a := disk[inodes[i].addrs[NDIRECT]];
      var addr := Word(a, bn);
      if addr == 0 {
        r := FillSlot(i, bn + 13);
      } else {
        r := Some(addr);
      }
    }

    // One turn of the loop of readi.
    method ReadBlock(i: nat, o: nat, m: nat, ghost c: seq<Byte>) returns (part: seq<Byte>)
      requires Inv(V()) && i < |inodes| && c == Content(V(), i) && 0 < m && o + m <= inodes[i].size
      requires o % BSIZE + m <= BSIZE
      modifies this`disk, this`inodes, this`owner, this`logged
      ensures V() == old(V()) && logged == old(logged)
      ensures part == c[o..o + m]
    {
      InvHasBlock(V(), i, o);
      var addr := Bmap(i, o / BSIZE);
      BlockSlice(V(), i, o, m);
      SlotIsSole(V(), i, DataSlot(o / BSIZE));
      var bp := disk[addr.value];
      part := bp[o % BSIZE..o % BSIZE + m];
    }

    // Reads clipped to the length of the file; None is the return value -1. Devices are not modelled.
    method Readi(i: nat, off: Uint, n: Uint) returns (r: Option<seq<Byte>>)
      requires Inv(V()) && i < |inodes|
      modifies this`disk, this`inodes, this`owner, this`logged
      ensures V() == old(V()) && logged == old(logged)
      ensures r.None? <==> off > inodes[i].size || (off + n) % UINT < off
      ensures r.Some? ==> off + n < UINT && r.value == Content(V(), i)[off..Min(off + n, inodes[i].size)]
    {
      if off > inodes[i].size || (off + n) % UINT < off {
        return None;
      }
      hide Inv, Content;
      var len: nat := n;
      if off + n > inodes[i].size {
        len := inodes[i].size - off;
      }
      ghost var c := Content(V(), i);
      var dst: seq<Byte> := [];
      var tot, o: nat := 0, off;
      while tot < len
        invariant V() == old(V()) && logged == old(logged)
        invariant 0 <= tot <= len && o == off + tot
        invariant c == Content(V(), i) && dst == c[off..o]
        decreases len - tot
      {
        var m := Min(len - tot, BSIZE - o % BSIZE);
        var part := ReadBlock(i, o, m, c);
        Joined(c, dst, part, off, o, o + m);
        dst := dst + part;
        tot, o := tot + m, o + m;
      }
      return Some(dst);
    }

    // One turn of the loop of writei; false is the panic of balloc.
    method WriteBlock(i: nat, o: nat, data: seq<Byte>) returns (ok: bool, ghost z: Vol)
      requires Inv(V()) && i < |inodes| && o / BSIZE < MAXFILE && o % BSIZE + |data| <= BSIZE
      modifies this`disk, this`inodes, this`owner, this`logged
      ensures Inv(V()) && Grown(old(V()), z) && Inv(z)
      ensures !ok ==> V() == z && Full(sb, disk)
      ensures ok ==> Pokeable(z, i, o, data) && V() == Poke(z, i, o, data)
      ensures ok ==> Logs(old(V()), z, i, o, old(logged), logged)
    {
      var addr := Bmap(i, o / BSIZE);
      z := V();
      if addr.None? { return false, z; }
      PokeInv(z, i, o, data);
      var bp := disk[addr.value];
      disk := disk[addr.value := Splice(bp, o % BSIZE, data)];
      logged := logged + {addr.value};
      return true, z;
    }

    // One turn of the loop of writei, with the account of what the write, begun in volume x, has done.
    method WriteStep(i: nat, data: seq<Byte>, o: nat, ghost x: Vol, ghost off: nat, ghost done: seq<Byte>,
      ghost t: Tally)
      returns (ok: bool, ghost t': Tally)
      requires Inv(V()) && i < |inodes| && o == off + |done| && o / BSIZE < MAXFILE && data != [] && IsChunk(o, |data|)
      requires Written(x, V(), i, off, done) && t.Holds(V(), logged, i, off, |done|)
      requires done == [] || o % BSIZE == 0
      requires done == [] && off % BSIZE != 0 ==> HasBlock(V(), i, off)
      modifies this`disk, this`inodes, this`owner, this`logged
      ensures Inv(V()) && |inodes| == old(|inodes|) && t'.before == t.before
      ensures !ok ==> Full(sb, disk)
      ensures ok ==> Written(x, V(), i, off, done + data) && t'.Holds(V(), logged, i, off, |done| + |data|)
    {
      hide Inv, Written, Grown, Tally.Holds, Logs, Pokeable, Poke;
      ghost var y, sofar := V(), logged;
      ghost var z;
      ok, z := WriteBlock(i, o, data);
      t' := t;
      if ok {
        SlotPoke(z, i, o, data);
        WrittenMore(x, y, z, i, off, done, data);
        t' := t.Next(y, z, V(), sofar, logged, i, off, |done|, |data|);
      }
    }

    // The loop of writei; false is the panic of balloc.
    method WriteLoop(i: nat, src: seq<Byte>, off: nat) returns (ok: bool)
      requires Inv(V()) && i < |inodes| && off <= inodes[i].size && off + |src| <= MAXFILE * BSIZE
      modifies this`disk, this`inodes, this`owner, this`logged
      ensures Inv(V()) && |inodes| == old(|inodes|)
      ensures ok ==> Written(old(V()), V(), i, off, src)
      ensures ok ==>
        if |src| > 0 then |logged - old(logged)| <= Budget(off, |src|) - 1
        else V() == old(V()) && logged == old(logged)
      ensures !ok ==> Full(sb, disk)
    {
      hide Inv, Written, Grown, Tally.Holds, Accounted, HasBlock;
      ghost var x, t := V(), Tally(logged, {}, {}, {});
      WriteStart(x, i, off, logged);
      var tot := 0;
      while tot < |src|
        invariant 0 <= tot <= |src| && |inodes| == old(|inodes|) && t.before == old(logged)
        invariant tot == 0 || tot == |src| || (off + tot) % BSIZE == 0
        invariant tot == 0 ==> V() == x && logged == old(logged)
        invariant Inv(V()) && Written(x, V(), i, off, src[..tot]) && t.Holds(V(), logged, i, off, tot)
      {
        var m := Chunk(off + tot, |src| - tot);
        ok, t := WriteStep(i, src[tot..tot + m], off + tot, x, off, src[..tot], t);
        if !ok { return; }
        Joined(src, src[..tot], src[tot..tot + m], 0, tot, tot + m);
        tot := tot + m;
      }
      assert src[..tot] == src;
      if tot > 0 { t.Bound(V(), logged, i, off, tot); }
      return true;
    }

    // Refused is the return value -1; OutOfBlocks is the panic of balloc. Devices are not modelled.
    method Writei(i: nat, src: seq<Byte>, off: Uint) returns (r: WriteResult)
      requires Inv(V()) && i < |inodes| && |src| < UINT
      modifies this`disk, this`inodes, this`owner, this`logged
      ensures Inv(V()) && |inodes| == old(|inodes|)
      ensures r.Refused? <==>
        off > old(inodes)[i].size || (off + |src|) % UINT < off || (off + |src|) % UINT > MAXFILE * BSIZE
      ensures r.Refused? ==> V() == old(V()) && logged == old(logged)
      ensures r.OutOfBlocks? ==> Full(sb, disk)
      // the file reads as its old bytes with src spliced in, and no other file reads differently
      ensures r.Wrote? ==>
        && r.n == |src| && off <= old(inodes)[i].size
        && Content(V(), i) == Splice(Content(old(V()), i), off, src)
        && (forall j :: 0 <= j < |inodes| && j != i ==> Content(V(), j) == Content(old(V()), j))
        && PagesKept(old(V()), V())
      ensures r.Wrote? && |src| > 0 ==> |logged - old(logged)| <= Budget(off, |src|)
      ensures r.Wrote? && |src| == 0 ==> logged == old(logged)
    {
      hide Inv, Written, HasBlock, Content, Splice;
      var n := |src|;
      if off > inodes[i].size || (off + n) % UINT < off {
        return Refused;
      }
      if (off + n) % UINT > MAXFILE * BSIZE {
        return Refused;
      }
      ghost var x := V();
      var ok := WriteLoop(i, src, off);
      if !ok { return OutOfBlocks; }
      WriteEnd(x, V(), i, off, src);
      if n > 0 && off + n > inodes[i].size {
        inodes := inodes[i := inodes[i].(size := off + n)];
        AddOne(logged, old(logged), IBlock(sb, i));
        logged := logged + {IBlock(sb, i)};
      }
      return Wrote(n);
    }

    // Frees every block of the file; false would be the panic "freeing free block".
    method Itrunc(i: nat) returns (ok: bool)
      requires Inv(V()) && i < |inodes|
      modifies this`disk, this`inodes, this`owner, this`logged
      ensures ok && Inv(V()) && Truncated(old(V()), V(), i)
      // the inode names no block any more, and those it named are free
      ensures inodes[i].size == 0 && forall k :: 0 <= k <= 12 ==> inodes[i].addrs[k] == 0
      ensures forall c :: c in old(owner) && old(owner)[c].InodeSlot? && old(owner)[c].inum == i ==>
        c !in owner && (c < sb.size ==> BBlock(sb, c) < |disk| && !Used(sb, disk, c))
      ensures Content(V(), i) == [] && forall j :: 0 <= j < |inodes| && j != i ==>
        Content(V(), j) == Content(old(V()), j)
    {
      ghost var v := V();
      var addrs := inodes[i].addrs;
      hide Inv, Freed, Truncated, Content, Word, Mark, Used, Geometry;
      ok := FreeDirect(v, i, addrs);
      if !ok { return; }
      if addrs[NDIRECT] != 0 {
        ok := FreeListed(v, i, addrs[NDIRECT]);
        if !ok { return; }
      } else {
        FreedNoList(v, disk, i, SLOTS);
      }
      inodes := inodes[i := Inode(0, seq(NDIRECT + 1, _ => 0))];
      owner := map c | c in owner && !OwnedBy(v, i, c) :: owner[c];
      logged := logged + {IBlock(sb, i)};
      FreedAll(v, disk, i, V());
      TruncatedAll(v, V(), i);
      TruncatedFacts(v, V(), i);
      return true;
    }

    // The direct blocks.
    method FreeDirect(ghost v: Vol, ghost i: nat, addrs: Addrs) returns (ok: bool)
      requires Inv(V()) && v == V() && i < |inodes| && addrs == inodes[i].addrs
      modifies this`disk
      ensures ok && Freed(v, disk, i, NDIRECT) && Geometry(sb, disk)
    {
      hide Inv, Freed, Word, Mark, Used, Geometry;
      FreedNone(v, i);
      var k := 0;
      while k < NDIRECT
        invariant 0 <= k <= NDIRECT && Freed(v, disk, i, k) && Geometry(sb, disk)
      {
        if addrs[k] != 0 {
          ok := FreeSlot(v, i, k, addrs[k]);
          if !ok { return; }
        } else {
          FreedSkip(v, disk, i, k);
        }
        k := k + 1;
      }
      ok := true;
    }

    // The indirect block and the blocks listed in it.
    method FreeListed(ghost v: Vol, ghost i: nat, root: nat) returns (ok: bool)
      requires Inv(v) && v.sb == sb && i < |v.inodes| && Freed(v, disk, i, NDIRECT) && Geometry(sb, disk)
      requires root == Slot(v, i, NDIRECT) != 0
      modifies this`disk
      ensures ok && Freed(v, disk, i, SLOTS)
    {
      hide Inv, Freed, Mark, Used, Geometry;
      SlotOwned(v, i, NDIRECT);
      FreedKeeps(v, disk, i, NDIRECT, root);
      var a := disk[root];
      var j := 0;
      while j < NINDIRECT
        invariant 0 <= j <= NINDIRECT && Freed(v, disk, i, NDIRECT + j) && Geometry(sb, disk)
      {
        assert Slot(v, i, VisitedSlot(NDIRECT + j)) == Word(a, j);
        if Word(a, j) != 0 {
          ok := FreeSlot(v, i, NDIRECT + j, Word(a, j));
          if !ok { return; }
        } else {
          FreedSkip(v, disk, i, NDIRECT + j);
        }
        j := j + 1;
      }
      ok := FreeSlot(v, i, SLOTS - 1, root);
    }

    // bfree of the block that itrunc reaches as its n-th.
    method FreeSlot(ghost v: Vol, ghost i: nat, ghost n: nat, b: nat) returns (ok: bool)
      requires Inv(v) && v.sb == sb && i < |v.inodes| && Freed(v, disk, i, n) && n < SLOTS
      requires b == Slot(v, i, VisitedSlot(n)) != 0 && Geometry(sb, disk)
      modifies this`disk
      ensures ok && Freed(v, disk, i, n + 1) && Geometry(sb, disk)
    {
      FreedNext(v, disk, i, n);
      ok := Bfree(b);
    }

    // Balloc as one step of the page search.
    method BallocSearch(ghost d0: seq<Block>, ghost xs: seq<nat>) returns (r: Option<nat>)
      requires Kept(sb, d0, disk, xs) && Geometry(sb, disk) && MetaUsed(sb, disk)
      modifies this`disk, this`logged
      ensures Geometry(sb, disk)
      ensures r.None? ==> forall c :: 0 <= c < sb.size ==> Bits(sb, disk)[c]
      ensures r.None? ==> disk == old(disk)
      ensures r.Some? ==>
        && Lowest(Bits(sb, old(disk)), r.value) && Bits(sb, disk) == Bits(sb, old(disk))[r.value := true]
        && Kept(sb, d0, disk, xs + [r.value]) && MetaUsed(sb, disk)
    {
      hide Kept, Used;
      r := Balloc();
      if r.Some? {
        BitsZeroed(sb, old(disk), r.value);
        KeptNext(sb, d0, old(disk), xs, r.value);
        MetaZeroed(sb, old(disk), r.value);
      }
    }

    // One turn of the first loop of balloc_page: the next allocation and the length t' of the run.
    method SearchStep(ghost d0: seq<Block>, ghost m0: Map, ghost xs: seq<nat>, ghost t: nat)
      returns (r: Option<nat>, ghost t': nat)
      requires Geometry(sb, disk) && MetaUsed(sb, disk) && Kept(sb, d0, disk, xs)
      requires Searched(m0, Bits(sb, disk), xs) && Tail(m0, xs, t) && t < 8 && |xs| <= NUM
      modifies this`disk, this`logged
      ensures r.None? ==> Failed(NoBlocks, m0)
      ensures r.Some? && |xs| == NUM ==> Failed(Overrun, m0)
      ensures r.Some? ==>
        && End(xs) <= r.value && t' == NextTail(xs, t, r.value)
        && Geometry(sb, disk) && MetaUsed(sb, disk) && Kept(sb, d0, disk, xs + [r.value])
        && Searched(m0, Bits(sb, disk), xs + [r.value]) && Tail(m0, xs + [r.value], t')
    {
      hide Kept, Used, MetaUsed, Searched, Tail, Bits, Failed;
      ghost var m := Bits(sb, disk);
      r := BallocSearch(d0, xs);
      t' := t;
      if r.None? {
        BitsLength(sb, disk);
        NoneLeft(m0, m, xs, t);
      } else {
        SearchNext(m0, m, xs, r.value);
        TailNext(m0, m, xs, t, r.value);
        t' := NextTail(xs, t, r.value);
        if |xs| == NUM { TooMany(m0, m, xs, t, r.value); }
      }
    }

    // The first loop of balloc_page: allocate until eight in a row.
    method SearchPage(alloc: array<nat>) returns (n: nat, r: PageResult, ghost xs: seq<nat>)
      requires Inv(V()) && alloc.Length == NUM
      modifies this`disk, this`logged, alloc
      ensures r.Allocated? ==>
        && Geometry(sb, disk) && n <= NUM && 8 <= n == |xs| && xs == alloc[..n] && r.first == xs[n - 8]
        && Kept(sb, old(disk), disk, xs)
        && Searched(Bits(sb, old(disk)), Bits(sb, disk), xs) && Tail(Bits(sb, old(disk)), xs, 8)
      ensures !r.Allocated? ==> Failed(r, Bits(sb, old(disk)))
    {
      hide Inv, Kept, Used, MetaUsed, Searched, Tail, Bits, Failed;
      SearchBegins(V());
      ghost var m0, d0 := Bits(sb, disk), disk;
      xs := [];
      n := 0;
      var i := 0;
      assert alloc[..0] == [];
      while i < 8
        invariant 0 <= i <= 8 && n <= NUM && n == |xs| && xs == alloc[..n] && (n == 0 <==> i == 0)
        invariant Geometry(sb, disk) && MetaUsed(sb, disk) && Kept(sb, d0, disk, xs)
        invariant Searched(m0, Bits(sb, disk), xs) && Tail(m0, xs, i)
        decreases NUM - n
      {
        var b;
        ghost var t;
        b, t := SearchStep(d0, m0, xs, i);
        if b.None? {
          return n, NoBlocks, xs;
        }
        if n == NUM {
          return n, Overrun, xs;
        }
        alloc[n] := b.value;
        n := n + 1;
        if i > 0 && alloc[n - 1] - alloc[n - 2] != 1 {
          i := 0;
        }
        i := i + 1;
        xs := xs + [b.value];
      }
      TailLong(m0, xs);
      return n, Allocated(alloc[n - 8]), xs;
    }

    // Allocates eight consecutive blocks. Whatever the fragmentation, the page is the first run of eight
    // free blocks there was, and the free bit map changes in those eight bits alone.
    method BallocPage() returns (r: PageResult)
      requires Inv(V())
      modifies this`disk, this`logged, this`owner, this`numallocblocks
      ensures !r.Allocated? ==> Failed(r, Bits(sb, old(disk)))
      ensures r.Allocated? ==> Inv(V()) && PageTaken(old(V()), V(), r.first)
      ensures r.Allocated? ==> var m := Bits(sb, old(disk));
        (forall q :: 0 <= q < r.first ==> !FreeRun(m, q)) && FreeBelow(m, r.first + 8) <= NUM
      ensures r.Allocated? ==> forall c :: r.first <= c < r.first + 8 ==> BlockAt(V(), c) == ZeroBlock()
      ensures r.Allocated? ==> forall j :: 0 <= j < |inodes| ==> Content(V(), j) == Content(old(V()), j)
      ensures r.Allocated? ==> numallocblocks == old(numallocblocks) + 1
    {
      hide Inv, Kept, Used, Searched, Tail, Bits, Failed, PageTaken, Content, PageOwner, Returned;
      ghost var x := V();
      SearchBegins(x);
      var alloc := new nat[NUM];
      var n;
      ghost var xs;
      n, r, xs := SearchPage(alloc);
      if !r.Allocated? { return; }
      ghost var m := Bits(sb, disk);
      RunFound(Bits(sb, x.disk), m, xs);
      ReturnSurplus(alloc, n, x.disk, m, xs);
      owner := owner + PageOwner(r.first);
      numallocblocks := numallocblocks + 1;
      PageFound(x, disk, m, xs, V());
      PageTakenInv(x, V(), r.first);
      PageTakenContent(x, V(), r.first);
    }

    // The second loop of balloc_page: free the surplus allocations.
    method ReturnSurplus(alloc: array<nat>, n: nat, ghost d0: seq<Block>, ghost m: Map, ghost xs: seq<nat>)
      requires 8 <= n <= alloc.Length && n == |xs| && xs == alloc[..n]
      requires Geometry(sb, d0) && Geometry(sb, disk) && Kept(sb, d0, disk, xs)
      requires m == Bits(sb, disk) && Searched(Bits(sb, d0), m, xs)
      modifies this`disk
      ensures Geometry(sb, disk) && Kept(sb, d0, disk, xs)
      ensures Returned(Bits(sb, d0), Bits(sb, disk), xs, n - 8)
    {
      hide Kept, Used, Searched, Bits, Returned;
      ghost var m0 := Bits(sb, d0);
      ReturnedNone(m0, m, xs);
      var i := 0;
      while i < n - 8
        invariant 0 <= i <= n - 8
        invariant Geometry(sb, disk) && Kept(sb, d0, disk, xs) && Returned(m0, Bits(sb, disk), xs, i)
      {
        ghost var d := disk;
        assert alloc[i] == xs[i];
        ReturnedNext(m0, Bits(sb, disk), xs, i);
        BitsLength(sb, disk);
        BitsAt(sb, disk, alloc[i]);
        BitsMark(sb, disk, alloc[i], false);
        KeptMark(sb, d0, disk, xs, alloc[i], false);
        var ok := Bfree(alloc[i]);
        i := i + 1;
      }
    }

    // Frees the eight blocks of a page; false would be the panic "freeing free block".
    method BfreePage(b: nat) returns (ok: bool)
      requires Inv(V()) && b in owner && owner[b] == Page(b)
      modifies this`disk, this`owner, this`numallocblocks
      ensures ok && Inv(V()) && PageReturned(old(V()), V(), b)
      ensures forall j :: 0 <= j < |inodes| ==> Content(V(), j) == Content(old(V()), j)
      ensures numallocblocks == old(numallocblocks) - 1
    {
      hide Inv, Used, Returning, PageReturned, Content;
      ghost var x := V();
      ReturningNone(x, b);
      var i := 0;
      while i < 8
        invariant 0 <= i <= 8 && Returning(x, disk, b, i)
        invariant owner == old(owner) && numallocblocks == old(numallocblocks)
      {
        ReturningNext(x, disk, b, i);
        ok := Bfree(b + i);
        if !ok { return; }
        i := i + 1;
      }
      owner := map c | c in owner && !(b <= c < b + 8) :: owner[c];
      numallocblocks := numallocblocks - 1;
      ReturningAll(x, V(), b);
      PageReturnedContent(x, V(), b);
      return true;
    }
  }
}
