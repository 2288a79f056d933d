/** A file system volume as a value (fs.h, fs.c): the disk with its free bit map, the inodes, and who
    owns each data block. */
module Volume {
  import opened Blocks

  const NDIRECT := 12
  const NINDIRECT := 128
  const MAXFILE := 140
  const BPB := 4096
  const IPB := 8
  const SLOTS := 141            // 12 direct blocks, the indirect block, 128 blocks listed in it

  // The super block. The data blocks are [datastart, size).
  datatype Super = Super(size: nat, inodestart: nat, bmapstart: nat, datastart: nat)
  type Addrs = s: seq<Uint> | |s| == NDIRECT + 1 witness seq(NDIRECT + 1, _ => 0)
  datatype Inode = Inode(size: Uint, addrs: Addrs)

  // A data block in use belongs to one slot of one inode, or to a swapped-out page.
  datatype Owner = InodeSlot(inum: nat, k: nat) | Page(first: nat)

  datatype Vol = Vol(sb: Super, disk: seq<Block>, inodes: seq<Inode>, owner: map<nat, Owner>)

  // ---------------------------------------------------------------- the free bit map

  function Pow2(n: nat): nat {
    if n == 0 then 1 else 2 * Pow2(n - 1)
  }

  // `x & (1 << k)`.
  predicate Bit(x: nat, k: nat) {
    if k == 0 then x % 2 == 1 else Bit(x / 2, k - 1)
  }

  function BitValue(x: nat, k: nat): nat { if Bit(x, k) then 1 else 0 }

  lemma BitHalf(x: nat, k: nat)
    requires k > 0
    ensures Bit(x, k) == Bit(x / 2, k - 1) && BitValue(x, k) == BitValue(x / 2, k - 1)
  {
  }

  // Which bits are meant: a number below 2^n is the sum of its bits, bit k counting 2^k.
  lemma {:induction false} SumOfBits(x: nat, n: nat)
    requires x < Pow2(n)
    ensures x == BitSum(x, n)
  {
    if n > 0 {
      assert x == 2 * (x / 2) + x % 2 && x / 2 < Pow2(n - 1);
      SumOfBits(x / 2, n - 1);
    }
  }

  function BitSum(x: nat, n: nat): nat {
    if n == 0 then 0 else BitValue(x, 0) + 2 * BitSum(x / 2, n - 1)
  }

  // Bits i to 7 of a byte, given what is left of it after i halvings.
  lemma {:induction false} BitSumFrom(x: nat, y: nat, i: nat, n: nat)
    requires forall k: nat :: Bit(x, i + k) == Bit(y, k)
    ensures BitSum(y, n) == if n == 0 then 0 else BitValue(x, i) + 2 * BitSum(y / 2, n - 1)
    ensures forall k: nat :: Bit(x, i + 1 + k) == Bit(y / 2, k)
  {
    assert Bit(x, i + 0) == Bit(y, 0);
    forall k: nat ensures Bit(x, i + 1 + k) == Bit(y / 2, k) { assert Bit(x, i + (k + 1)) == Bit(y, k + 1); }
  }

  lemma ByteBits(x: Byte)
    ensures x == BitValue(x, 0) + 2 * BitValue(x, 1) + 4 * BitValue(x, 2) + 8 * BitValue(x, 3)
               + 16 * BitValue(x, 4) + 32 * BitValue(x, 5) + 64 * BitValue(x, 6) + 128 * BitValue(x, 7)
  {
    assert Pow2(8) == 256;
    SumOfBits(x, 8);
    hide Bit, BitSum, BitValue;
    BitSumFrom(x, x, 0, 8);
    BitSumFrom(x, x / 2, 1, 7);
    BitSumFrom(x, x / 2 / 2, 2, 6);
    BitSumFrom(x, x / 2 / 2 / 2, 3, 5);
    BitSumFrom(x, x / 2 / 2 / 2 / 2, 4, 4);
    BitSumFrom(x, x / 2 / 2 / 2 / 2 / 2, 5, 3);
    BitSumFrom(x, x / 2 / 2 / 2 / 2 / 2 / 2, 6, 2);
    BitSumFrom(x, x / 2 / 2 / 2 / 2 / 2 / 2 / 2, 7, 1);
    BitSumFrom(x, x / 2 / 2 / 2 / 2 / 2 / 2 / 2 / 2, 8, 0);
  }

  // `x | (1 << k)` if on, `x & ~(1 << k)` otherwise.
  function PutBit(x: nat, k: nat, on: bool): nat {
    if k == 0 then x - x % 2 + (if on then 1 else 0) else 2 * PutBit(x / 2, k - 1, on) + x % 2
  }

  lemma {:induction false} BitAfter(x: nat, k: nat, on: bool, j: nat)
    ensures Bit(PutBit(x, k, on), j) == if j == k then on else Bit(x, j)
  {
    if k == 0 {
      if j > 0 { assert PutBit(x, k, on) / 2 == x / 2; }
    } else if j > 0 {
      assert PutBit(x, k, on) / 2 == PutBit(x / 2, k - 1, on);
      BitAfter(x / 2, k - 1, on, j - 1);
    }
  }

  lemma {:induction false} PutBitFits(x: nat, k: nat, on: bool, n: nat)
    requires x < Pow2(n) && k < n
    ensures PutBit(x, k, on) < Pow2(n)
  {
    if k > 0 {
      assert x == 2 * (x / 2) + x % 2 && x / 2 < Pow2(n - 1);
      PutBitFits(x / 2, k - 1, on, n - 1);
    }
  }

  function PutByteBit(x: Byte, k: nat, on: bool): Byte
    requires k < 8
  {
    assert Pow2(8) == 256;
    PutBitFits(x, k, on, 8);
    PutBit(x, k, on)
  }

  function BBlock(sb: Super, b: nat): nat {
    b / BPB + sb.bmapstart
  }

  // Every block is marked in use.
  ghost predicate Full(sb: Super, d: seq<Block>) {
    Geometry(sb, d) && forall c :: 0 <= c < sb.size ==> Used(sb, d, c)
  }

  predicate Used(sb: Super, d: seq<Block>, b: nat)
    requires BBlock(sb, b) < |d|
  {
    Bit(d[BBlock(sb, b)][b % BPB / 8], b % BPB % 8)
  }

  // The map on the disk: bit b % 8 of byte b / 8 of the map, counted from the start of the map blocks, as
  // mkfs writes it.
  lemma UsedOnDisk(sb: Super, d: seq<Block>, b: nat)
    requires b / 4096 + sb.bmapstart < |d|
    ensures Used(sb, d, b) <==> Bit(d[b / 4096 + sb.bmapstart][b / 8 % 512], b % 8)
  {
    hide Bit;
    var q, r := b / 4096, b % 4096;
    assert b == 8 * (512 * q + r / 8) + r % 8;
    assert b / 8 == 512 * q + r / 8 && b % 8 == r % 8;
  }

  function SetBit(x: Block, bi: nat, on: bool): Block
    requires bi < BPB
  {
    x[bi / 8 := PutByteBit(x[bi / 8], bi % 8, on)]
  }

  // The disk with the map bit of block b set or cleared.
  function Mark(sb: Super, d: seq<Block>, b: nat, on: bool): (r: seq<Block>)
    requires BBlock(sb, b) < |d|
    ensures |r| == |d|
  {
    d[BBlock(sb, b) := SetBit(d[BBlock(sb, b)], b % BPB, on)]
  }

  lemma UsedMark(sb: Super, d: seq<Block>, b: nat, on: bool, c: nat)
    requires BBlock(sb, b) < |d| && BBlock(sb, c) < |d|
    ensures Used(sb, Mark(sb, d, b, on), c) == if c == b then on else Used(sb, d, c)
  {
    var bi, ci := b % BPB, c % BPB;
    assert b == BPB * (b / BPB) + bi && c == BPB * (c / BPB) + ci;
    if BBlock(sb, b) == BBlock(sb, c) && bi / 8 == ci / 8 {
      assert bi == 8 * (bi / 8) + bi % 8 && ci == 8 * (ci / 8) + ci % 8;
      BitAfter(d[BBlock(sb, b)][bi / 8], bi % 8, on, ci % 8);
    }
  }

  // ---------------------------------------------------------------- slots

  ghost predicate Geometry(sb: Super, d: seq<Block>) {
    && sb.size == |d| < UINT
    && 0 < sb.datastart <= sb.size
    && (forall b :: 0 <= b < sb.size ==> BBlock(sb, b) < sb.datastart)
  }

  function BlockAt(v: Vol, b: nat): Block {
    if b < |v.disk| then v.disk[b] else ZeroBlock()
  }

  // The block number in slot k of inode i, 0 for none: slots below 12 are direct blocks, slot 12 is the
  // indirect block itself, and slot 13 + j is entry j of the indirect block.
  function Slot(v: Vol, i: nat, k: nat): Uint {
    if i >= |v.inodes| || k >= SLOTS then 0
    else
      var addrs := v.inodes[i].addrs;
      if k <= NDIRECT then addrs[k]
      else if addrs[NDIRECT] == 0 then 0
      else Word(BlockAt(v, addrs[NDIRECT]), k - 13)
  }

  // The slot that holds the block number of the bn-th block of a file.
  function DataSlot(bn: nat): nat {
    if bn < NDIRECT then bn else bn + 1
  }

  ghost predicate OwnerOk(v: Vol, b: nat)
    requires b in v.owner
  {
    match v.owner[b]
    case InodeSlot(i, k) => i < |v.inodes| && k < SLOTS && Slot(v, i, k) == b
    case Page(r) => r <= b < r + 8 && forall c :: r <= c < r + 8 ==> c in v.owner && v.owner[c] == Page(r)
  }

  // Every block of the map in use has one owner, every nonzero slot owns the block it names, and no
  // file has a hole. (Since `owner` is a function, no block is owned twice.)
  ghost predicate Inv(v: Vol) {
    && Geometry(v.sb, v.disk)
    && MetaUsed(v.sb, v.disk)
    && (forall b :: v.sb.datastart <= b < v.sb.size ==> (Used(v.sb, v.disk, b) <==> b in v.owner))
    && (forall b :: b in v.owner ==> v.sb.datastart <= b < v.sb.size && OwnerOk(v, b))
    && SlotsOwn(v)
    && NoHoles(v)
  }

  // The map marks every block in front of the data blocks.
  ghost predicate MetaUsed(sb: Super, d: seq<Block>)
    requires Geometry(sb, d)
  {
    forall b :: 0 <= b < sb.datastart ==> Used(sb, d, b)
  }

  ghost predicate SlotsOwn(v: Vol) {
    forall i, k :: 0 <= i < |v.inodes| && 0 <= k < SLOTS && Slot(v, i, k) != 0 ==>
      Slot(v, i, k) in v.owner && v.owner[Slot(v, i, k)] == InodeSlot(i, k)
  }

  ghost predicate NoHoles(v: Vol) {
    && (forall i :: 0 <= i < |v.inodes| ==> v.inodes[i].size <= MAXFILE * BSIZE)
    && (forall i, bn :: 0 <= i < |v.inodes| && 0 <= bn && bn * BSIZE < v.inodes[i].size ==>
         Slot(v, i, DataSlot(bn)) != 0)
  }

  // The volume of a new file system: nothing but the blocks in front of the data is in use.
  lemma NewVolumeInv(v: Vol)
    requires Geometry(v.sb, v.disk) && MetaUsed(v.sb, v.disk) && v.owner == map[]
    requires forall b :: v.sb.datastart <= b < v.sb.size ==> !Used(v.sb, v.disk, b)
    requires forall i :: 0 <= i < |v.inodes| ==> v.inodes[i].size == 0 && forall k :: 0 <= k <= NDIRECT ==>
      v.inodes[i].addrs[k] == 0
    ensures Inv(v)
  {
    hide Used;
    forall i: nat, k: nat ensures Slot(v, i, k) == 0 { }
  }

  // Slot k of inode i names a block that no other slot names.
  ghost predicate Sole(v: Vol, i: nat, k: nat) {
    && i < |v.inodes| && k < SLOTS && 0 < Slot(v, i, k) < |v.disk|
    && forall j, l :: 0 <= j && 0 <= l && Slot(v, j, l) == Slot(v, i, k) ==> j == i && l == k
  }

  // The exclusive ownership that the invariant states through `owner`.
  lemma SlotIsSole(v: Vol, i: nat, k: nat)
    requires Inv(v) && i < |v.inodes| && k < SLOTS && Slot(v, i, k) != 0
    ensures Sole(v, i, k)
  {
    forall j: nat, l: nat | Slot(v, j, l) == Slot(v, i, k) ensures j == i && l == k {
      assert v.owner[Slot(v, i, k)] == InodeSlot(i, k);
      assert v.owner[Slot(v, j, l)] == InodeSlot(j, l);
    }
  }

  // ---------------------------------------------------------------- file contents

  predicate HasBlock(v: Vol, i: nat, o: nat) {
    Slot(v, i, DataSlot(o / BSIZE)) != 0
  }

  function ByteAt(v: Vol, i: nat, o: nat): Byte {
    BlockAt(v, Slot(v, i, DataSlot(o / BSIZE)))[o % BSIZE]
  }

  function Content(v: Vol, i: nat): (c: seq<Byte>)
    requires i < |v.inodes|
    ensures |c| == v.inodes[i].size
  {
    seq(v.inodes[i].size, o requires 0 <= o < v.inodes[i].size => ByteAt(v, i, o))
  }

  // The same read off the disk: byte o of a file is byte o % 512 of the block in addrs[o / 512], or past the
  // twelve direct blocks of the block whose number is word o / 512 - 12 of the block in addrs[12].
  lemma ContentOnDisk(v: Vol, i: nat, o: nat)
    requires Inv(v) && i < |v.inodes| && o < v.inodes[i].size
    ensures var a, bn := v.inodes[i].addrs, o / 512;
      && bn < 140
      && (bn < 12 ==> 0 < a[bn] < |v.disk| && Content(v, i)[o] == v.disk[a[bn]][o % 512])
      && (bn >= 12 ==>
            && 0 < a[12] < |v.disk|
            && var w := Word(v.disk[a[12]], bn - 12);
               0 < w < |v.disk| && Content(v, i)[o] == v.disk[w][o % 512])
  {
    InvHasBlock(v, i, o);
    hide Used, Word, OwnerOk;
    var k := DataSlot(o / BSIZE);
    assert Slot(v, i, k) in v.owner;
    if o / BSIZE >= NDIRECT {
      assert Slot(v, i, NDIRECT) != 0;
      assert Slot(v, i, NDIRECT) in v.owner;
    }
  }

  // What a write of bytes at an offset no greater than the length does to a byte sequence.
  function Splice(c: seq<Byte>, off: nat, data: seq<Byte>): (r: seq<Byte>)
    requires off <= |c|
    ensures |r| == if off + |data| > |c| then off + |data| else |c|
  {
    c[..off] + data + (if off + |data| <= |c| then c[off + |data|..] else [])
  }

  lemma SpliceAt(c: seq<Byte>, off: nat, data: seq<Byte>, o: nat)
    requires off <= |c| && o < |Splice(c, off, data)|
    ensures Splice(c, off, data)[o] == if off <= o < off + |data| then data[o - off] else c[o]
  {
  }

  // Writing a and then b behind it is writing a + b.
  lemma SpliceSplice(c: seq<Byte>, off: nat, a: seq<Byte>, b: seq<Byte>)
    requires off <= |c|
    ensures Splice(Splice(c, off, a), off + |a|, b) == Splice(c, off, a + b)
  {
    var r, q := Splice(Splice(c, off, a), off + |a|, b), Splice(c, off, a + b);
    forall o | 0 <= o < |r| ensures r[o] == q[o] {
      SpliceAt(Splice(c, off, a), off + |a|, b, o);
      SpliceAt(c, off, a + b, o);
      if o < |Splice(c, off, a)| { SpliceAt(c, off, a, o); }
    }
  }

  // A file reads the same in two volumes that agree on its length and its bytes.
  lemma SameContent(x: Vol, y: Vol, j: nat)
    requires j < |x.inodes| == |y.inodes| && x.inodes[j].size == y.inodes[j].size
    requires forall o :: 0 <= o < x.inodes[j].size ==> ByteAt(y, j, o) == ByteAt(x, j, o)
    ensures Content(y, j) == Content(x, j)
  {
  }

  lemma InvHasBlock(v: Vol, j: nat, o: nat)
    requires NoHoles(v) && j < |v.inodes| && o < v.inodes[j].size
    ensures HasBlock(v, j, o)
  {
    var bn := o / BSIZE;
    assert bn * BSIZE <= o;
    assert Slot(v, j, DataSlot(bn)) != 0;
  }

  // ---------------------------------------------------------------- allocation

  ghost predicate FreeData(v: Vol, b: nat) {
    Geometry(v.sb, v.disk) && v.sb.datastart <= b < v.sb.size && !Used(v.sb, v.disk, b)
  }

  // The block b marked in use and zeroed, as balloc leaves it.
  function Zeroed(sb: Super, d: seq<Block>, b: nat): (r: seq<Block>)
    requires b < |d| && BBlock(sb, b) < |d|
    ensures |r| == |d|
  {
    Mark(sb, d, b, true)[b := ZeroBlock()]
  }

  lemma ZeroedUsed(sb: Super, d: seq<Block>, b: nat, c: nat)
    requires Geometry(sb, d) && sb.datastart <= b < sb.size && c < sb.size
    ensures Used(sb, Zeroed(sb, d, b), c) == (c == b || Used(sb, d, c))
  {
    UsedMark(sb, d, b, true, c);
  }

  lemma ZeroedFrame(sb: Super, d: seq<Block>, b: nat, c: nat)
    requires Geometry(sb, d) && sb.datastart <= b < sb.size && sb.datastart <= c < sb.size && c != b
    ensures Zeroed(sb, d, b)[c] == d[c]
  {
  }

  // v with block number b stored in slot k of inode i.
  function WithSlot(v: Vol, i: nat, k: nat, b: Uint): Vol
    requires i < |v.inodes| && k < SLOTS
    requires k > NDIRECT ==> v.inodes[i].addrs[NDIRECT] < |v.disk|
  {
    if k <= NDIRECT then
      v.(inodes := v.inodes[i := v.inodes[i].(addrs := v.inodes[i].addrs[k := b])])
    else
      var root := v.inodes[i].addrs[NDIRECT];
      v.(disk := v.disk[root := PutWord(v.disk[root], k - 13, b)])
  }

  // v with the free block b allocated to slot k of inode i.
  function Assign(v: Vol, i: nat, k: nat, b: Uint): Vol
    requires i < |v.inodes| && k < SLOTS && b < |v.disk| && BBlock(v.sb, b) < |v.disk|
    requires k > NDIRECT ==> v.inodes[i].addrs[NDIRECT] < |v.disk|
  {
    WithSlot(v.(disk := Zeroed(v.sb, v.disk, b), owner := v.owner[b := InodeSlot(i, k)]), i, k, b)
  }

  // A free block, an empty slot, and a place to store its number.
  ghost predicate Assignable(v: Vol, i: nat, k: nat, b: nat) {
    && Inv(v) && i < |v.inodes| && k < SLOTS && FreeData(v, b)
    && Slot(v, i, k) == 0 && (k > NDIRECT ==> Slot(v, i, NDIRECT) != 0)
  }

  // What the invariant says about one slot in use.
  lemma SlotOwned(v: Vol, i: nat, k: nat)
    requires Inv(v) && Slot(v, i, k) != 0
    ensures i < |v.inodes| && k < SLOTS && Slot(v, i, k) in v.owner && v.owner[Slot(v, i, k)] == InodeSlot(i, k)
    ensures v.sb.datastart <= Slot(v, i, k) < v.sb.size == |v.disk|
    ensures Used(v.sb, v.disk, Slot(v, i, k))
  {
    assert Slot(v, i, k) in v.owner;
  }

  lemma RootFits(v: Vol, i: nat)
    requires Inv(v) && i < |v.inodes|
    ensures v.inodes[i].addrs[NDIRECT] < |v.disk|
  {
    if Slot(v, i, NDIRECT) != 0 {
      assert Slot(v, i, NDIRECT) in v.owner;
    }
  }

  lemma AssignSlots(v: Vol, i: nat, k: nat, b: Uint, j: nat, l: nat)
    requires Assignable(v, i, k, b) && v.inodes[i].addrs[NDIRECT] < |v.disk|
    ensures Slot(Assign(v, i, k, b), j, l) == if j == i && l == k then b else Slot(v, j, l)
  {
    hide Inv, PutWord, Word, Used, Mark;
    if j < |v.inodes| && NDIRECT < l < SLOTS {
      var root := Slot(v, j, NDIRECT);
      if j == i && k == NDIRECT {
        ZeroWords(l - 13);
      } else if root != 0 {
        SlotOwned(v, j, NDIRECT);
        ZeroedFrame(v.sb, v.disk, b, root);
        if k > NDIRECT {
          SlotOwned(v, i, NDIRECT);
          if j == i { PutWordReads(v.disk[root], k - 13, b, l - 13); }
        }
      }
    }
  }

  lemma AssignUsed(v: Vol, i: nat, k: nat, b: Uint, c: nat)
    requires Assignable(v, i, k, b) && v.inodes[i].addrs[NDIRECT] < |v.disk| && c < v.sb.size
    ensures Used(v.sb, Assign(v, i, k, b).disk, c) == (c == b || Used(v.sb, v.disk, c))
  {
    hide Inv, Zeroed, PutWord, Word;
    ZeroedUsed(v.sb, v.disk, b, c);
    if k > NDIRECT { SlotOwned(v, i, NDIRECT); }
  }

  // Allocation keeps the invariant.
  lemma AssignInv(v: Vol, i: nat, k: nat, b: Uint)
    requires Assignable(v, i, k, b) && v.inodes[i].addrs[NDIRECT] < |v.disk|
    ensures Inv(Assign(v, i, k, b))
  {
    hide Inv, Zeroed, PutWord, Word, Used, Slot;
    var y := Assign(v, i, k, b);
    forall j: nat, l: nat ensures Slot(y, j, l) == if j == i && l == k then b else Slot(v, j, l) {
      AssignSlots(v, i, k, b, j, l);
    }
    forall c | 0 <= c < v.sb.size ensures Used(y.sb, y.disk, c) == (c == b || Used(v.sb, v.disk, c)) {
      AssignUsed(v, i, k, b, c);
    }
    InvTransfer(v, y, i, k, b);
  }

  lemma InvTransfer(v: Vol, y: Vol, i: nat, k: nat, b: Uint)
    requires Assignable(v, i, k, b)
    requires y.sb == v.sb && |y.disk| == |v.disk| && |y.inodes| == |v.inodes|
    requires y.owner == v.owner[b := InodeSlot(i, k)]
    requires forall j :: 0 <= j < |v.inodes| ==> y.inodes[j].size == v.inodes[j].size
    requires forall j, l :: 0 <= j && 0 <= l ==> Slot(y, j, l) == if j == i && l == k then b else Slot(v, j, l)
    requires forall c :: 0 <= c < v.sb.size ==> Used(y.sb, y.disk, c) == (c == b || Used(v.sb, v.disk, c))
    ensures Inv(y)
  {
    hide Slot, Used;
    forall c | c in y.owner ensures y.sb.datastart <= c < y.sb.size && OwnerOk(y, c) {
      if c != b { assert OwnerOk(v, c); }
    }
    forall j, bn | 0 <= j < |y.inodes| && 0 <= bn && bn * BSIZE < y.inodes[j].size
      ensures Slot(y, j, DataSlot(bn)) != 0 {
      assert Slot(v, j, DataSlot(bn)) != 0;
    }
  }

  lemma AssignZero(v: Vol, i: nat, k: nat, b: Uint)
    requires Assignable(v, i, k, b) && v.inodes[i].addrs[NDIRECT] < |v.disk|
    ensures BlockAt(Assign(v, i, k, b), b) == ZeroBlock() && b != 0 && b !in v.owner
  {
    if k > NDIRECT { assert Slot(v, i, NDIRECT) in v.owner; }
  }

  // y is x after any number of allocations: every block number already stored stays, and so do the
  // contents of every data block of a file and of every page block.
  ghost predicate Grown(x: Vol, y: Vol) {
    && y.sb == x.sb && |y.inodes| == |x.inodes| && |y.disk| == |x.disk|
    && (forall j :: 0 <= j < |x.inodes| ==> y.inodes[j].size == x.inodes[j].size)
    && (forall j, l :: 0 <= j && 0 <= l && Slot(x, j, l) != 0 ==>
          Slot(y, j, l) == Slot(x, j, l) && (l != NDIRECT ==> BlockAt(y, Slot(x, j, l)) == BlockAt(x, Slot(x, j, l))))
    && (forall c :: c in x.owner ==> c in y.owner && y.owner[c] == x.owner[c])
    && (forall c :: c in x.owner && x.owner[c].Page? ==> BlockAt(y, c) == BlockAt(x, c))
  }

  lemma AssignGrown(v: Vol, i: nat, k: nat, b: Uint)
    requires Assignable(v, i, k, b) && v.inodes[i].addrs[NDIRECT] < |v.disk|
    ensures Grown(v, Assign(v, i, k, b))
  {
    hide Inv, Word, PutWord, Used, Slot, Zeroed;
    var y := Assign(v, i, k, b);
    AssignZero(v, i, k, b);
    forall j: nat, l: nat | Slot(v, j, l) != 0
      ensures Slot(y, j, l) == Slot(v, j, l)
      ensures l != NDIRECT ==> BlockAt(y, Slot(v, j, l)) == BlockAt(v, Slot(v, j, l))
    {
      SlotOwned(v, j, l);
      AssignSlots(v, i, k, b, j, l);
      if l != NDIRECT { AssignBlock(v, i, k, b, Slot(v, j, l)); }
    }
    forall c | c in v.owner && v.owner[c].Page? ensures BlockAt(y, c) == BlockAt(v, c) {
      AssignBlock(v, i, k, b, c);
    }
  }

  // Allocation changes no block that has an owner, unless it is an indirect block.
  lemma AssignBlock(v: Vol, i: nat, k: nat, b: Uint, c: nat)
    requires Assignable(v, i, k, b) && v.inodes[i].addrs[NDIRECT] < |v.disk|
    requires c in v.owner && (v.owner[c].Page? || v.owner[c].k != NDIRECT)
    ensures BlockAt(Assign(v, i, k, b), c) == BlockAt(v, c)
  {
    if k > NDIRECT { SlotOwned(v, i, NDIRECT); }
    ZeroedFrame(v.sb, v.disk, b, c);
  }

  lemma GrownReflexive(x: Vol)
    ensures Grown(x, x)
  {
  }

  lemma GrownTransitive(x: Vol, y: Vol, z: Vol)
    requires Grown(x, y) && Grown(y, z)
    ensures Grown(x, z)
  {
  }

  // Allocation changes no byte of any file.
  lemma GrownByte(x: Vol, y: Vol, j: nat, o: nat)
    requires Grown(x, y) && HasBlock(x, j, o)
    ensures HasBlock(y, j, o) && ByteAt(y, j, o) == ByteAt(x, j, o)
  {
    var l := DataSlot(o / BSIZE);
    assert Slot(y, j, l) == Slot(x, j, l);
  }

  lemma GrownContent(x: Vol, y: Vol, j: nat)
    requires Grown(x, y) && NoHoles(x) && j < |x.inodes|
    ensures Content(y, j) == Content(x, j)
  {
    forall o | 0 <= o < x.inodes[j].size ensures ByteAt(y, j, o) == ByteAt(x, j, o) {
      InvHasBlock(x, j, o);
      GrownByte(x, y, j, o);
    }
    SameContent(x, y, j);
  }

  // ---------------------------------------------------------------- writing file bytes

  // The data fits in the one block that holds offset off of file i, and the file owns that block.
  ghost predicate Pokeable(v: Vol, i: nat, off: nat, data: seq<Byte>) {
    off % BSIZE + |data| <= BSIZE && Sole(v, i, DataSlot(off / BSIZE))
  }

  // v with bytes stored in the block of file i that holds offset off.
  ghost function Poke(v: Vol, i: nat, off: nat, data: seq<Byte>): Vol
    requires Pokeable(v, i, off, data)
  {
    var a := Slot(v, i, DataSlot(off / BSIZE));
    v.(disk := v.disk[a := Splice(v.disk[a], off % BSIZE, data)])
  }

  lemma PokeSlot(v: Vol, i: nat, off: nat, data: seq<Byte>, j: nat, l: nat)
    requires Pokeable(v, i, off, data)
    ensures Slot(Poke(v, i, off, data), j, l) == Slot(v, j, l)
  {
    if j < |v.inodes| && NDIRECT < l < SLOTS {
      assert Slot(v, j, NDIRECT) == v.inodes[j].addrs[NDIRECT];
      assert DataSlot(off / BSIZE) != NDIRECT;
    }
  }

  lemma PokeInv(v: Vol, i: nat, off: nat, data: seq<Byte>)
    requires Inv(v) && i < |v.inodes| && HasBlock(v, i, off) && off % BSIZE + |data| <= BSIZE
    ensures Pokeable(v, i, off, data) && Inv(Poke(v, i, off, data))
  {
    SlotIsSole(v, i, DataSlot(off / BSIZE));
    var y := Poke(v, i, off, data);
    assert Slot(v, i, DataSlot(off / BSIZE)) in v.owner;
    forall j: nat, l: nat ensures Slot(y, j, l) == Slot(v, j, l) {
      PokeSlot(v, i, off, data, j, l);
    }
    NoHolesSame(v, y);
    InvSame(v, y);
  }

  lemma NoHolesSame(v: Vol, y: Vol)
    requires NoHoles(v) && |y.inodes| == |v.inodes|
    requires forall j :: 0 <= j < |v.inodes| ==> y.inodes[j].size == v.inodes[j].size
    requires forall j, l :: 0 <= j && 0 <= l ==> Slot(y, j, l) == Slot(v, j, l)
    ensures NoHoles(y)
  {
    forall j, bn | 0 <= j < |y.inodes| && 0 <= bn && bn * BSIZE < y.inodes[j].size
      ensures Slot(y, j, DataSlot(bn)) != 0 {
      assert Slot(v, j, DataSlot(bn)) != 0;
    }
  }

  lemma InvSame(v: Vol, y: Vol)
    requires Inv(v) && NoHoles(y)
    requires y.sb == v.sb && |y.disk| == |v.disk| && |y.inodes| == |v.inodes| && y.owner == v.owner
    requires forall j, l :: 0 <= j && 0 <= l ==> Slot(y, j, l) == Slot(v, j, l)
    requires forall c :: 0 <= c < v.sb.size ==> Used(y.sb, y.disk, c) == Used(v.sb, v.disk, c)
    ensures Inv(y)
  {
    forall c | c in y.owner ensures OwnerOk(y, c) { assert OwnerOk(v, c); }
  }

  lemma Quotients(p: nat, o: nat, m: nat)
    requires p % BSIZE + m <= BSIZE
    ensures p / BSIZE == o / BSIZE ==> o - p == o % BSIZE - p % BSIZE
    ensures p <= o < p + m ==> p / BSIZE == o / BSIZE
  {
    assert p == BSIZE * (p / BSIZE) + p % BSIZE && o == BSIZE * (o / BSIZE) + o % BSIZE;
  }

  // A poke changes its own bytes and no other byte of any file.
  lemma PokeByte(v: Vol, i: nat, off: nat, data: seq<Byte>, j: nat, o: nat)
    requires Pokeable(v, i, off, data) && HasBlock(v, j, o)
    ensures var y := Poke(v, i, off, data);
      && HasBlock(y, j, o)
      && ByteAt(y, j, o) == if j == i && off <= o < off + |data| then data[o - off] else ByteAt(v, j, o)
  {
    var k, l := DataSlot(off / BSIZE), DataSlot(o / BSIZE);
    PokeSlot(v, i, off, data, j, l);
    Quotients(off, o, |data|);
    if Slot(v, j, l) == Slot(v, i, k) {
      SpliceAt(v.disk[Slot(v, i, k)], off % BSIZE, data, o % BSIZE);
    }
  }

  // The part of a file that lies in one block is a slice of that block.
  lemma BlockSlice(v: Vol, i: nat, o: nat, m: nat)
    requires i < |v.inodes| && o + m <= v.inodes[i].size && o % BSIZE + m <= BSIZE
    ensures BlockAt(v, Slot(v, i, DataSlot(o / BSIZE)))[o % BSIZE..o % BSIZE + m] == Content(v, i)[o..o + m]
  {
    var x, y := BlockAt(v, Slot(v, i, DataSlot(o / BSIZE)))[o % BSIZE..o % BSIZE + m], Content(v, i)[o..o + m];
    forall k | 0 <= k < m ensures x[k] == y[k] {
      Quotients(o, o + k, m);
    }
  }

  // ---------------------------------------------------------------- a write in progress

  // y is x with the bytes `data` stored in file i at off; the length of the file is not yet updated.
  ghost predicate Written(x: Vol, y: Vol, i: nat, off: nat, data: seq<Byte>) {
    && y.sb == x.sb && i < |x.inodes| == |y.inodes|
    && (forall j :: 0 <= j < |x.inodes| ==> y.inodes[j].size == x.inodes[j].size)
    && (forall j, o :: 0 <= j && 0 <= o && HasBlock(x, j, o) ==>
          HasBlock(y, j, o) && ((j == i && off <= o < off + |data|) || ByteAt(y, j, o) == ByteAt(x, j, o)))
    && (forall o :: off <= o < off + |data| ==> HasBlock(y, i, o) && ByteAt(y, i, o) == data[o - off])
    && (forall c :: c in x.owner ==> c in y.owner && y.owner[c] == x.owner[c])
    && (forall c :: c in x.owner && x.owner[c].Page? ==> BlockAt(y, c) == BlockAt(x, c))
  }

  lemma WrittenMore(x: Vol, y: Vol, z: Vol, i: nat, off: nat, done: seq<Byte>, more: seq<Byte>)
    requires Pokeable(z, i, off + |done|, more)
    requires Written(x, y, i, off, done) && Grown(y, z)
    requires NotPage(z, i, off + |done|)
    ensures Written(x, Poke(z, i, off + |done|, more), i, off, done + more)
  {
    var w := Poke(z, i, off + |done|, more);
    forall j: nat, o: nat | HasBlock(x, j, o)
      ensures HasBlock(w, j, o)
      ensures (j == i && off <= o < off + |done + more|) || ByteAt(w, j, o) == ByteAt(x, j, o)
    {
      WrittenOld(x, y, z, i, off, done, more, j, o);
    }
    forall o | off <= o < off + |done + more| ensures HasBlock(w, i, o) && ByteAt(w, i, o) == (done + more)[o - off] {
      WrittenNew(x, y, z, i, off, done, more, o);
    }
  }

  lemma WrittenOld(x: Vol, y: Vol, z: Vol, i: nat, off: nat, done: seq<Byte>, more: seq<Byte>, j: nat, o: nat)
    requires Pokeable(z, i, off + |done|, more)
    requires Written(x, y, i, off, done) && Grown(y, z) && HasBlock(x, j, o)
    ensures var w := Poke(z, i, off + |done|, more);
      && HasBlock(w, j, o)
      && ((j == i && off <= o < off + |done + more|) || ByteAt(w, j, o) == ByteAt(x, j, o))
  {
    hide Written, Grown, Pokeable, ByteAt, HasBlock, Poke;
    WrittenAt(x, y, i, off, done, j, o);
    GrownByte(y, z, j, o);
    PokeByte(z, i, off + |done|, more, j, o);
  }

  lemma WrittenAt(x: Vol, y: Vol, i: nat, off: nat, data: seq<Byte>, j: nat, o: nat)
    requires Written(x, y, i, off, data)
    ensures HasBlock(x, j, o) ==> HasBlock(y, j, o)
    ensures HasBlock(x, j, o) && !(j == i && off <= o < off + |data|) ==> ByteAt(y, j, o) == ByteAt(x, j, o)
    ensures j == i && off <= o < off + |data| ==> HasBlock(y, i, o) && ByteAt(y, i, o) == data[o - off]
  {
  }

  lemma WrittenNew(x: Vol, y: Vol, z: Vol, i: nat, off: nat, done: seq<Byte>, more: seq<Byte>, o: nat)
    requires Pokeable(z, i, off + |done|, more)
    requires Written(x, y, i, off, done) && Grown(y, z) && off <= o < off + |done + more|
    ensures var w := Poke(z, i, off + |done|, more);
      HasBlock(w, i, o) && ByteAt(w, i, o) == (done + more)[o - off]
  {
    hide Written, Grown, ByteAt, Poke;
    if o < off + |done| {
      WrittenAt(x, y, i, off, done, i, o);
      GrownByte(y, z, i, o);
    } else {
      Quotients(off + |done|, o, |more|);
    }
    PokeByte(z, i, off + |done|, more, i, o);
  }

  ghost predicate NotPage(z: Vol, i: nat, o: nat) {
    forall c :: c in z.owner && z.owner[c].Page? ==> c != Slot(z, i, DataSlot(o / BSIZE))
  }

  lemma NotAPage(z: Vol, i: nat, o: nat)
    requires Inv(z) && HasBlock(z, i, o)
    ensures NotPage(z, i, o)
  {
    SlotOwned(z, i, DataSlot(o / BSIZE));
  }

  // Nothing written is a write, and allocation alone does not undo one.
  lemma WrittenGrown(x: Vol, y: Vol, i: nat, off: nat)
    requires Grown(x, y) && i < |x.inodes|
    ensures Written(x, y, i, off, [])
  {
    forall j: nat, o: nat | HasBlock(x, j, o) ensures HasBlock(y, j, o) && ByteAt(y, j, o) == ByteAt(x, j, o) {
      GrownByte(x, y, j, o);
    }
  }

  function Resize(v: Vol, i: nat, n: Uint): Vol
    requires i < |v.inodes|
  {
    v.(inodes := v.inodes[i := v.inodes[i].(size := n)])
  }

  lemma ResizeSlot(v: Vol, i: nat, n: Uint, j: nat, l: nat)
    requires i < |v.inodes|
    ensures Slot(Resize(v, i, n), j, l) == Slot(v, j, l)
  {
  }

  // The end of a write: the file reads as the old bytes with the data spliced in, and no other file
  // reads differently.
  lemma WrittenContent(x: Vol, y: Vol, i: nat, off: nat, data: seq<Byte>, n: Uint)
    requires NoHoles(x) && Written(x, y, i, off, data) && off <= x.inodes[i].size
    requires n == if off + |data| > x.inodes[i].size then off + |data| else x.inodes[i].size
    ensures Content(Resize(y, i, n), i) == Splice(Content(x, i), off, data)
    ensures forall j :: 0 <= j < |x.inodes| && j != i ==> Content(Resize(y, i, n), j) == Content(x, j)
  {
    var z := Resize(y, i, n);
    forall j: nat, o: nat ensures ByteAt(z, j, o) == ByteAt(y, j, o) {
      ResizeSlot(y, i, n, j, DataSlot(o / BSIZE));
    }
    forall j | 0 <= j < |x.inodes| && j != i ensures Content(z, j) == Content(x, j) {
      forall o | 0 <= o < x.inodes[j].size ensures ByteAt(z, j, o) == ByteAt(x, j, o) {
        InvHasBlock(x, j, o);
      }
      SameContent(x, z, j);
    }
    var c, q := Content(z, i), Splice(Content(x, i), off, data);
    forall o | 0 <= o < |c| ensures c[o] == q[o] {
      SpliceAt(Content(x, i), off, data, o);
      if !(off <= o < off + |data|) { InvHasBlock(x, i, o); }
    }
  }

  lemma WrittenResize(x: Vol, y: Vol, i: nat, off: nat, data: seq<Byte>, n: Uint)
    requires NoHoles(x) && Inv(y) && Written(x, y, i, off, data) && off <= x.inodes[i].size
    requires off + |data| <= MAXFILE * BSIZE
    requires n == if off + |data| > x.inodes[i].size then off + |data| else x.inodes[i].size
    ensures Inv(Resize(y, i, n))
  {
    var z := Resize(y, i, n);
    forall j: nat, l: nat ensures Slot(z, j, l) == Slot(y, j, l) { ResizeSlot(y, i, n, j, l); }
    forall j, bn | 0 <= j < |z.inodes| && 0 <= bn && bn * BSIZE < z.inodes[j].size
      ensures Slot(z, j, DataSlot(bn)) != 0 {
      assert bn * BSIZE / BSIZE == bn;
      if j == i && bn * BSIZE >= off {
        assert HasBlock(y, i, bn * BSIZE);
      } else {
        InvHasBlock(x, j, bn * BSIZE);
        assert HasBlock(y, j, bn * BSIZE);
      }
    }
    InvSame(y, z);
  }

  // ---------------------------------------------------------------- freeing

  ghost predicate OwnedBy(v: Vol, i: nat, c: nat) {
    c in v.owner && v.owner[c].InodeSlot? && v.owner[c].inum == i
  }

  // y is v with the blocks of file i free, its block numbers zero and its length 0.
  ghost predicate Truncated(v: Vol, y: Vol, i: nat) {
    && Geometry(v.sb, v.disk) && i < |v.inodes| && y.sb == v.sb && |y.disk| == |v.disk|
    && y.inodes == v.inodes[i := Inode(0, seq(NDIRECT + 1, _ => 0))]
    && y.owner == (map c | c in v.owner && !OwnedBy(v, i, c) :: v.owner[c])
    && (forall c :: v.sb.datastart <= c < v.sb.size ==> y.disk[c] == v.disk[c])
    && (forall c :: 0 <= c < v.sb.size ==> (Used(y.sb, y.disk, c) <==> Used(v.sb, v.disk, c) && !OwnedBy(v, i, c)))
  }

  lemma TruncatedSlot(v: Vol, y: Vol, i: nat, j: nat, l: nat)
    requires Inv(v) && Truncated(v, y, i)
    ensures Slot(y, j, l) == if j == i then 0 else Slot(v, j, l)
  {
    if j != i && j < |v.inodes| && NDIRECT < l < SLOTS && Slot(v, j, NDIRECT) != 0 {
      assert Slot(v, j, NDIRECT) in v.owner;
    }
  }

  lemma TruncatedInv(v: Vol, y: Vol, i: nat)
    requires Inv(v) && Truncated(v, y, i)
    ensures Inv(y)
  {
    hide Slot, Used;
    forall j: nat, l: nat ensures Slot(y, j, l) == if j == i then 0 else Slot(v, j, l) {
      TruncatedSlot(v, y, i, j, l);
    }
    forall c | c in y.owner ensures y.sb.datastart <= c < y.sb.size && OwnerOk(y, c) {
      assert OwnerOk(v, c);
    }
    forall j, bn | 0 <= j < |y.inodes| && 0 <= bn && bn * BSIZE < y.inodes[j].size
      ensures Slot(y, j, DataSlot(bn)) != 0 {
      assert Slot(v, j, DataSlot(bn)) != 0;
    }
    forall j | 0 <= j < |y.inodes| ensures y.inodes[j].size <= MAXFILE * BSIZE {
      if j != i { assert v.inodes[j].size <= MAXFILE * BSIZE; }
    }
  }

  lemma TruncatedContent(v: Vol, y: Vol, i: nat, j: nat)
    requires Inv(v) && Truncated(v, y, i) && j < |v.inodes|
    ensures Content(y, j) == if j == i then [] else Content(v, j)
  {
    if j != i {
      forall o | 0 <= o < v.inodes[j].size ensures ByteAt(y, j, o) == ByteAt(v, j, o) {
        InvHasBlock(v, j, o);
        TruncatedSlot(v, y, i, j, DataSlot(o / BSIZE));
        assert Slot(v, j, DataSlot(o / BSIZE)) in v.owner;
      }
      SameContent(v, y, j);
    }
  }

  // c is a block of file i stored in one of its first slots, in the order itrunc visits them: the
  // direct blocks, the listed blocks, and last the indirect block.
  ghost predicate Visited(v: Vol, i: nat, n: nat, c: nat) {
    OwnedBy(v, i, c) && VisitOf(v.owner[c].k) < n
  }

  function VisitOf(k: nat): nat {
    if k == NDIRECT then SLOTS - 1 else if k < NDIRECT then k else k - 1
  }

  function VisitedSlot(n: nat): nat {
    if n == SLOTS - 1 then NDIRECT else if n < NDIRECT then n else n + 1
  }

  // d is the disk of v after itrunc has been through the first n slots of file i.
  ghost predicate Freed(v: Vol, d: seq<Block>, i: nat, n: nat) {
    && Geometry(v.sb, v.disk) && |d| == |v.disk|
    && (forall c :: v.sb.datastart <= c < v.sb.size ==> d[c] == v.disk[c])
    && (forall c :: 0 <= c < v.sb.size ==> (Used(v.sb, d, c) <==> Used(v.sb, v.disk, c) && !Visited(v, i, n, c)))
  }

  lemma FreedNone(v: Vol, i: nat)
    requires Inv(v)
    ensures Freed(v, v.disk, i, 0)
  {
  }

  // Data blocks, among them the indirect block, keep their contents while the map changes.
  lemma FreedKeeps(v: Vol, d: seq<Block>, i: nat, n: nat, c: nat)
    requires Freed(v, d, i, n) && v.sb.datastart <= c < v.sb.size
    ensures |d| == |v.disk| && c < |d| && d[c] == v.disk[c]
  {
  }

  // Without an indirect block there is nothing behind the direct blocks.
  lemma FreedNoList(v: Vol, d: seq<Block>, i: nat, n: nat)
    requires Inv(v) && Freed(v, d, i, NDIRECT) && NDIRECT <= n <= SLOTS && Slot(v, i, NDIRECT) == 0
    ensures Freed(v, d, i, n)
  {
    forall c | 0 <= c < v.sb.size ensures Visited(v, i, n, c) == Visited(v, i, NDIRECT, c) {
      if Visited(v, i, n, c) { assert OwnerOk(v, c); }
    }
  }

  lemma OwnedSlot(v: Vol, i: nat, c: nat)
    requires Inv(v) && OwnedBy(v, i, c)
    ensures v.owner[c].k < SLOTS && Slot(v, i, v.owner[c].k) == c
  {
    assert OwnerOk(v, c);
  }

  // An empty slot is skipped.
  lemma FreedSkip(v: Vol, d: seq<Block>, i: nat, n: nat)
    requires Inv(v) && Freed(v, d, i, n) && n < SLOTS && Slot(v, i, VisitedSlot(n)) == 0
    ensures Freed(v, d, i, n + 1)
  {
    hide Slot, Used, NoHoles, SlotsOwn, MetaUsed;
    forall c | 0 <= c < v.sb.size ensures Visited(v, i, n + 1, c) == Visited(v, i, n, c) {
      if Visited(v, i, n + 1, c) { assert OwnerOk(v, c); }
    }
  }

  // The block of a slot in use is still marked in use when its turn comes, and is freed.
  lemma FreedNext(v: Vol, d: seq<Block>, i: nat, n: nat)
    requires Inv(v) && i < |v.inodes| && Freed(v, d, i, n) && n < SLOTS && Slot(v, i, VisitedSlot(n)) != 0
    ensures var b := Slot(v, i, VisitedSlot(n));
      && v.sb.datastart <= b < v.sb.size && Used(v.sb, d, b)
      && Freed(v, Mark(v.sb, d, b, false), i, n + 1)
  {
    hide Inv, Used, Slot;
    var b := Slot(v, i, VisitedSlot(n));
    SlotOwned(v, i, VisitedSlot(n));
    var e := Mark(v.sb, d, b, false);
    forall c | 0 <= c < v.sb.size
      ensures Used(v.sb, e, c) <==> Used(v.sb, v.disk, c) && !Visited(v, i, n + 1, c)
    {
      UsedMark(v.sb, d, b, false, c);
      if OwnedBy(v, i, c) { OwnedSlot(v, i, c); }
    }
  }

  lemma FreedAll(v: Vol, d: seq<Block>, i: nat, y: Vol)
    requires Inv(v) && i < |v.inodes| && Freed(v, d, i, SLOTS)
    requires y == Vol(v.sb, d, v.inodes[i := Inode(0, seq(NDIRECT + 1, _ => 0))],
                      map c | c in v.owner && !OwnedBy(v, i, c) :: v.owner[c])
    ensures Truncated(v, y, i)
  {
    forall c | 0 <= c < v.sb.size ensures Visited(v, i, SLOTS, c) == OwnedBy(v, i, c) {
      if OwnedBy(v, i, c) { assert OwnerOk(v, c); }
    }
  }
}
