/** Open files (file.c): a write cut into chunks that each fit in one log operation. */
module File {
  import opened Blocks
  import opened Volume
  import opened Fs
  import Log

  // `((MAXOPBLOCKS-1-1-2) / 2) * 512`
  const CHUNK := 1536

  // Done is the return value n, Failed the return value -1, Panicked a panic of the block allocator.
  datatype Result = Done | Failed | Panicked

  // How much of a write of n bytes at off is done when its chunks are written one after another until
  // one would pass the largest file size.
  function Accepted(off: nat, n: nat): (k: nat)
    decreases n
  {
    var n1 := if n > CHUNK then CHUNK else n;
    if n == 0 || off + n1 > MAXFILE * BSIZE then 0
    else n1 + Accepted(off + n1, n - n1)
  }

  // The write succeeds as a whole exactly when all of it fits; otherwise a proper prefix, a whole
  // number of chunks, is in the file when it fails, and that prefix does fit.
  lemma {:induction false} AcceptedAll(off: nat, n: nat)
    requires off <= MAXFILE * BSIZE
    ensures Accepted(off, n) == n <==> off + n <= MAXFILE * BSIZE
    ensures Accepted(off, n) <= n && off + Accepted(off, n) <= MAXFILE * BSIZE
    ensures Accepted(off, n) < n ==> Accepted(off, n) % CHUNK == 0 && off + Accepted(off, n) + CHUNK > MAXFILE * BSIZE
    decreases n
  {
    var n1 := if n > CHUNK then CHUNK else n;
    if n != 0 && off + n1 <= MAXFILE * BSIZE {
      AcceptedAll(off + n1, n - n1);
    }
  }

  class OpenFile {
    const fs: FileSys
    const ip: nat
    const writable: bool
    var off: Uint

    constructor (fs: FileSys, ip: nat, writable: bool, off: Uint)
      ensures this.fs == fs && this.ip == ip && this.writable == writable && this.off == off
    {
      this.fs, this.ip, this.writable, this.off := fs, ip, writable, off;
    }

    // One chunk, between its begin_op, where nothing is logged yet, and its end_op: it logs no more blocks
    // than the operation reserved.
    method WriteChunk(data: seq<Byte>) returns (r: WriteResult)
      requires Inv(fs.V()) && ip < |fs.inodes| && 0 < |data| <= CHUNK
      modifies this`off, fs`disk, fs`inodes, fs`owner, fs`logged
      ensures Inv(fs.V()) && |fs.inodes| == old(|fs.inodes|)
      ensures r.Refused? <==> old(off) > old(fs.inodes)[ip].size || old(off) + |data| > MAXFILE * BSIZE
      ensures r.Refused? ==> fs.V() == old(fs.V()) && off == old(off)
      ensures r.OutOfBlocks? ==> Full(fs.sb, fs.disk)
      ensures r.Wrote? ==>
        && r.n == |data| && off == old(off) + |data| && old(off) <= old(fs.inodes)[ip].size
        && Content(fs.V(), ip) == Splice(Content(old(fs.V()), ip), old(off), data)
        && (forall j :: 0 <= j < |fs.inodes| && j != ip ==> Content(fs.V(), j) == Content(old(fs.V()), j))
      ensures !r.OutOfBlocks? ==> |fs.logged| <= Log.MAXOPBLOCKS
    {
      fs.logged := {};
      SizeBound(fs.V(), ip);
      hide Inv, Content, Splice, PagesKept;
      r := fs.Writei(ip, data, off);
      if r.Wrote? {
        ChunkFitsOperation(off, |data|);
        off := off + r.n;
      }
    }

    // The loop of filewrite.
    method WriteChunks(data: seq<Byte>) returns (r: Result)
      requires Inv(fs.V()) && ip < |fs.inodes| && |data| < UINT
      modifies this`off, fs`disk, fs`inodes, fs`owner, fs`logged
      ensures Inv(fs.V()) && |fs.inodes| == old(|fs.inodes|)
      ensures r.Panicked? ==> Full(fs.sb, fs.disk)
      ensures data != [] && !r.Panicked? ==> |fs.logged| <= Log.MAXOPBLOCKS
      ensures !r.Panicked? ==>
        var k := if old(off) > old(fs.inodes)[ip].size then 0 else Accepted(old(off), |data|);
        && (r.Done? <==> k == |data|) && k <= |data| && off == old(off) + k
        && Appended(old(fs.V()), fs.V(), ip, old(off), data[..k])
    {
      hide Inv, Content, Splice, Appended, Accepted, Full;
      ghost var x, off0 := fs.V(), off;
      var i := 0;
      assert data[..0] == [];
      AppendedNothing(x, ip, off0);
      while i < |data|
        invariant 0 <= i <= |data| && off == off0 + i
        invariant Inv(fs.V()) && |fs.inodes| == old(|fs.inodes|)
        invariant i > 0 ==> |fs.logged| <= Log.MAXOPBLOCKS
        invariant Appended(x, fs.V(), ip, off0, data[..i])
        invariant Accepted(off0, |data|) == i + Accepted(off0 + i, |data| - i)
      {
        var n1 := |data| - i;
        if n1 > CHUNK { n1 := CHUNK; }
        AcceptedStep(off, |data| - i);
        AppendedSize(x, fs.V(), ip, off0, data[..i]);
        ghost var v := fs.V();
        var w := WriteChunk(data[i..i + n1]);
        match w {
          case OutOfBlocks => return Panicked;
          case Refused => return Failed;
          case Wrote(n) =>
            AppendedMore(x, v, fs.V(), ip, off0, data[..i], data[i..i + n1]);
            assert data[..i] + data[i..i + n1] == data[..i + n1];
            i := i + n;
        }
      }
      AcceptedNone(off);
      AppendedSize(x, fs.V(), ip, off0, data[..i]);
      return Done;
    }

    // A write of any length is one splice into the file, as far as it fits, and leaves the other files
    // alone; it fails, with the chunks that fit already written, exactly when it starts behind the end of
    // the file or would pass the largest file size. A negative length fails at once.
    method FileWrite(addr: seq<Byte>, n: int) returns (r: Result)
      requires Inv(fs.V()) && ip < |fs.inodes| && n <= |addr| < UINT
      modifies this`off, fs`disk, fs`inodes, fs`owner, fs`logged
      ensures Inv(fs.V()) && |fs.inodes| == old(|fs.inodes|)
      ensures !writable || n < 0 ==> r.Failed? && fs.V() == old(fs.V()) && off == old(off)
      ensures r.Panicked? ==> Full(fs.sb, fs.disk)
      // each chunk is an operation of its own; the last one is still to be seen
      ensures writable && n > 0 && !r.Panicked? ==> |fs.logged| <= Log.MAXOPBLOCKS
      ensures writable && n >= 0 && !r.Panicked? ==>
        var k := if old(off) > old(fs.inodes)[ip].size then 0 else Accepted(old(off), n);
        && (r.Done? <==> k == n) && k <= n && off == old(off) + k
        && Appended(old(fs.V()), fs.V(), ip, old(off), addr[..k])
    {
      hide Inv, Appended, Accepted, Full;
      if !writable || n < 0 { return Failed; }
      r := WriteChunks(addr[..n]);
      assert forall k :: 0 <= k <= n ==> addr[..n][..k] == addr[..k];
    }
  }

  // y is x after the bytes `done`, if any, were written at off in file i; no other file reads differently.
  ghost predicate Appended(x: Vol, y: Vol, i: nat, off: nat, done: seq<Byte>) {
    && i < |x.inodes| == |y.inodes|
    && (done == [] ==> y == x)
    && (done != [] ==> off <= x.inodes[i].size && Content(y, i) == Splice(Content(x, i), off, done))
    && (forall j :: 0 <= j < |x.inodes| && j != i ==> Content(y, j) == Content(x, j))
  }

  lemma AppendedNothing(x: Vol, i: nat, off: nat)
    requires i < |x.inodes|
    ensures Appended(x, x, i, off, [])
  {
  }

  lemma AppendedMore(x: Vol, y: Vol, z: Vol, i: nat, off: nat, done: seq<Byte>, more: seq<Byte>)
    requires Appended(x, y, i, off, done) && |z.inodes| == |y.inodes| && more != []
    requires off + |done| <= y.inodes[i].size && Content(z, i) == Splice(Content(y, i), off + |done|, more)
    requires forall j :: 0 <= j < |y.inodes| && j != i ==> Content(z, j) == Content(y, j)
    ensures Appended(x, z, i, off, done + more)
  {
    hide Content, Splice;
    if done == [] {
      assert done + more == more;
    } else {
      SpliceSplice(Content(x, i), off, done, more);
    }
  }

  lemma AppendedSize(x: Vol, y: Vol, i: nat, off: nat, done: seq<Byte>)
    requires Appended(x, y, i, off, done)
    ensures done != [] ==> off <= x.inodes[i].size && off + |done| <= y.inodes[i].size
    ensures done == [] ==> y == x
  {
    assert |Content(y, i)| == y.inodes[i].size;
  }

  lemma AcceptedStep(off: nat, n: nat)
    requires n > 0
    ensures var n1 := if n > CHUNK then CHUNK else n;
      Accepted(off, n) == if off + n1 > MAXFILE * BSIZE then 0 else n1 + Accepted(off + n1, n - n1)
  {
  }

  lemma AcceptedNone(off: nat)
    ensures Accepted(off, 0) == 0
  {
  }

  lemma SizeBound(v: Vol, i: nat)
    requires Inv(v) && i < |v.inodes|
    ensures v.inodes[i].size <= MAXFILE * BSIZE
  {
  }
}
