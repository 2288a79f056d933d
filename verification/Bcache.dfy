/** The buffer cache (bio.c) over the in-memory disk (memide.c), as the steps its callers see: what each
    critical section does to the buffers, to their order on the list, and to the disk. */
module Bcache {
  import opened Blocks
  import opened Lists
  import opened Wrappers

  const NBUF: nat := 30
  const ROOTDEV: nat := 1

  // struct buf. `valid` and `dirty` are the flags B_VALID and B_DIRTY, `locked` is the sleep lock.
  datatype Buf = Buf(dev: nat, blockno: nat, valid: bool, dirty: bool, refcnt: nat, locked: bool, data: Block)

  // `order` is the list, most recently used first. Kept for the proof only: `contents`, what clients
  // last wrote to each block; `unsaved[b]`, the holder of b changed it and has not called bwrite or
  // log_write yet; `waiting[b]` and `leaving[b]`, how many callers hold a reference to b without its
  // lock, before and after; `stamp[b]`, when b was last released; `clock`, the next stamp.
  datatype Cache = Cache(bufs: seq<Buf>, order: seq<nat>, disk: seq<Block>, contents: seq<Block>,
                         unsaved: seq<bool>, waiting: seq<nat>, leaving: seq<nat>, stamp: seq<nat>, clock: nat)

  predicate Caches(c: Cache, b: nat, dev: nat, blockno: nat) {
    b < |c.bufs| && c.bufs[b].dev == dev && c.bufs[b].blockno == blockno
  }

  // Buffer b is for a block of the disk that iderw serves.
  predicate OnDisk(c: Cache, b: nat) {
    b < |c.bufs| && c.bufs[b].dev == ROOTDEV && c.bufs[b].blockno < |c.disk|
  }

  // Buffer b holds changes that are not on the disk.
  predicate Ahead(c: Cache, b: nat, n: nat) {
    Caches(c, b, ROOTDEV, n) && b < |c.unsaved| && (c.bufs[b].dirty || c.unsaved[b])
  }

  ghost predicate Shape(c: Cache) {
    && |c.bufs| == |c.order| == |c.unsaved| == |c.waiting| == |c.leaving| == |c.stamp| == NBUF
    && |c.disk| == |c.contents|
  }

  // The list is a permutation of the buffers.
  ghost predicate Permutation(order: seq<nat>) {
    && |order| == NBUF && Distinct(order)
    && (forall b: nat :: b in order <==> b < NBUF)
  }

  ghost predicate OlderAt(c: Cache, j: nat, k: nat) {
    j < k < |c.order| && c.order[j] < |c.stamp| && c.order[k] < |c.stamp| && c.stamp[c.order[k]] < c.stamp[c.order[j]]
  }

  // The list is sorted by the time of the last release, latest first.
  ghost predicate ByRelease(c: Cache) {
    && (forall j: nat, k: nat :: j < k < |c.order| ==> OlderAt(c, j, k))
    && (forall b :: 0 <= b < |c.stamp| ==> c.stamp[b] < c.clock)
  }

  ghost predicate BufOk(c: Cache, b: nat)
    requires Shape(c) && b < NBUF
  {
    var f := c.bufs[b];
    && f.refcnt == c.waiting[b] + c.leaving[b] + (if f.locked then 1 else 0)
    && (c.unsaved[b] ==> f.locked && OnDisk(c, b))
    && (f.dirty || f.valid ==> OnDisk(c, b))
    && (f.valid || f.dirty || c.unsaved[b] ==> f.data == c.contents[f.blockno])
  }

  // No two buffers are for the same block of a device other than 0.
  ghost predicate Unique(c: Cache) {
    forall b: nat, e: nat, dev: nat, n: nat :: 0 < dev && Caches(c, b, dev, n) && Caches(c, e, dev, n) ==> b == e
  }

  // A block whose disk copy is stale has a buffer with the newer contents.
  ghost predicate Synced(c: Cache, n: nat)
    requires Shape(c) && n < |c.disk|
  {
    c.disk[n] == c.contents[n] || exists b: nat :: Ahead(c, b, n)
  }

  ghost predicate Inv(c: Cache) {
    && Shape(c) && Permutation(c.order) && ByRelease(c) && Unique(c)
    && (forall b :: 0 <= b < NBUF ==> BufOk(c, b))
    && (forall n :: 0 <= n < |c.disk| ==> Synced(c, n))
  }

  // ---------------------------------------------------------------- steps

  // The first loop of bget, from place k of the list on.
  function Hit(c: Cache, k: nat, dev: nat, blockno: nat): (r: Option<nat>)
    requires k <= |c.order|
    ensures r.Some? ==> Caches(c, r.value, dev, blockno) && r.value in c.order[k..]
    ensures r.None? ==> forall b :: b in c.order[k..] ==> !Caches(c, b, dev, blockno)
    decreases |c.order| - k
  {
    if k == |c.order| then None
    else if Caches(c, c.order[k], dev, blockno) then Some(c.order[k])
    else
      assert c.order[k..] == [c.order[k]] + c.order[k + 1..];
      Hit(c, k + 1, dev, blockno)
  }

  predicate Free(c: Cache, b: nat) {
    b < |c.bufs| && c.bufs[b].refcnt == 0 && !c.bufs[b].dirty
  }

  // The second loop of bget, backwards from place k - 1.
  function Victim(c: Cache, k: nat): (r: Option<nat>)
    requires k <= |c.order|
    ensures r.Some? ==>
      && Free(c, r.value)
      && exists j :: 0 <= j < k && c.order[j] == r.value && forall l :: j < l < k ==> !Free(c, c.order[l])
    ensures r.None? ==> forall b :: b in c.order[..k] ==> !Free(c, b)
  {
    if k == 0 then None
    else if Free(c, c.order[k - 1]) then Some(c.order[k - 1])
    else
      assert c.order[..k] == c.order[..k - 1] + [c.order[k - 1]];
      Victim(c, k - 1)
  }

  // What a caller does next. Fill is the end of bread, after the lock was taken; Bwrite is bwrite;
  // Pin is the change log_write makes to its buffer; Release and Unref are the halves of brelse.
  datatype Step =
    | Get(dev: nat, blockno: nat) | Acquire(b: nat) | Fill(b: nat) | Store(b: nat, data: Block)
    | Bwrite(b: nat) | Pin(b: nat) | Release(b: nat) | Unref(b: nat)

  function Chosen(c: Cache, dev: nat, blockno: nat): Option<nat> {
    var hit := Hit(c, 0, dev, blockno);
    if hit.Some? then hit else Victim(c, |c.order|)
  }

  // The panic "bget: no buffers".
  predicate GetPanics(c: Cache, dev: nat, blockno: nat) {
    Chosen(c, dev, blockno).None?
  }

  // When a well-behaved caller may take the step: it holds what it uses, has read or filled a buffer
  // before writing it out, releases no buffer with unsaved changes, and asks for no block the disk lacks.
  ghost predicate Enabled(c: Cache, s: Step)
    requires Shape(c)
  {
    match s
    case Get(dev, blockno) => !GetPanics(c, dev, blockno)
    case Acquire(b) => b < NBUF && 0 < c.waiting[b] && !c.bufs[b].locked
    case Fill(b) => b < NBUF && c.bufs[b].locked && OnDisk(c, b) && !c.unsaved[b]
    case Store(b, _) => b < NBUF && c.bufs[b].locked && OnDisk(c, b)
    case Bwrite(b) => b < NBUF && c.bufs[b].locked && OnDisk(c, b) &&
      (c.bufs[b].valid || c.bufs[b].dirty || c.unsaved[b])
    case Pin(b) => b < NBUF && c.bufs[b].locked && OnDisk(c, b) && (c.bufs[b].valid || c.bufs[b].dirty || c.unsaved[b])
    case Release(b) => b < NBUF && c.bufs[b].locked && !c.unsaved[b]
    case Unref(b) => b < NBUF && 0 < c.leaving[b]
  }

  // iderw on a locked buffer of the disk, when it has something to do.
  function Iderw(c: Cache, b: nat): Cache
    requires b < |c.bufs| && c.bufs[b].blockno < |c.disk|
  {
    var f := c.bufs[b];
    if f.dirty then c.(bufs := c.bufs[b := f.(dirty := false, valid := true)], disk := c.disk[f.blockno := f.data])
    else c.(bufs := c.bufs[b := f.(valid := true, data := c.disk[f.blockno])])
  }

  function AfterGet(c: Cache, dev: nat, blockno: nat): Cache
    requires !GetPanics(c, dev, blockno) && |c.waiting| == |c.bufs|
  {
    var b := Chosen(c, dev, blockno).value;
    var f := c.bufs[b];
    c.(bufs := c.bufs[b := if Hit(c, 0, dev, blockno).Some? then f.(refcnt := f.refcnt + 1)
                           else f.(dev := dev, blockno := blockno, valid := false, dirty := false, refcnt := 1)],
       waiting := c.waiting[b := c.waiting[b] + 1])
  }

  ghost function PlaceOf(order: seq<nat>, b: nat): (k: nat)
    requires b in order
    ensures k < |order| && order[k] == b
  {
    var k :| 0 <= k < |order| && order[k] == b;
    k
  }

  // Buffer b taken out of the list and put at its front.
  ghost function ToFront(order: seq<nat>, b: nat): seq<nat>
    requires b in order
  {
    [b] + RemoveAt(order, PlaceOf(order, b))
  }

  ghost function AfterUnref(c: Cache, b: nat): Cache
    requires b < |c.bufs| == |c.leaving| == |c.stamp| && b in c.order && 0 < c.bufs[b].refcnt && 0 < c.leaving[b]
  {
    var f := c.bufs[b];
    var d := c.(bufs := c.bufs[b := f.(refcnt := f.refcnt - 1)], leaving := c.leaving[b := c.leaving[b] - 1]);
    if f.refcnt == 1 then d.(order := ToFront(c.order, b), stamp := c.stamp[b := c.clock], clock := c.clock + 1) else d
  }

  ghost function Do(c: Cache, s: Step): Cache
    requires Inv(c) && Enabled(c, s)
  {
    match s
    case Get(dev, blockno) => AfterGet(c, dev, blockno)
    case Acquire(b) =>
      c.(bufs := c.bufs[b := c.bufs[b].(locked := true)], waiting := c.waiting[b := c.waiting[b] - 1])
    case Fill(b) => if c.bufs[b].valid then c else Iderw(c, b)
    case Store(b, data) =>
      c.(bufs := c.bufs[b := c.bufs[b].(data := data)], unsaved := c.unsaved[b := true],
         contents := c.contents[c.bufs[b].blockno := data])
    case Bwrite(b) => Iderw(c.(bufs := c.bufs[b := c.bufs[b].(dirty := true)], unsaved := c.unsaved[b := false]), b)
    case Pin(b) => c.(bufs := c.bufs[b := c.bufs[b].(dirty := true)], unsaved := c.unsaved[b := false])
    case Release(b) =>
      c.(bufs := c.bufs[b := c.bufs[b].(locked := false)], leaving := c.leaving[b := c.leaving[b] + 1])
    case Unref(b) => assert BufOk(c, b); AfterUnref(c, b)
  }

  // ---------------------------------------------------------------- the list

  lemma ToFrontPermutes(order: seq<nat>, b: nat)
    requires Permutation(order) && b < NBUF
    ensures Permutation(ToFront(order, b))
  {
    var k := PlaceOf(order, b);
    var t := RemoveAt(order, k);
    var r := ToFront(order, b);
    forall e: nat ensures e in r <==> e < NBUF {
      RemoveHas(order, k, e);
      assert e in r <==> e == b || e in t;
    }
    forall i, j | 0 <= i < j < |r| ensures r[i] != r[j] {
      RemoveNth(order, k, j - 1);
      if i == 0 { assert r[j] == order[if j - 1 < k then j - 1 else j]; } else { RemoveNth(order, k, i - 1); }
    }
  }

  lemma ToFrontByRelease(c: Cache, d: Cache, b: nat)
    requires Shape(c) && Permutation(c.order) && ByRelease(c) && b < NBUF
    requires d.order == ToFront(c.order, b) && d.stamp == c.stamp[b := c.clock] && d.clock == c.clock + 1
    ensures ByRelease(d)
  {
    var k := PlaceOf(c.order, b);
    forall i: nat, j: nat | i < j < |d.order| ensures OlderAt(d, i, j) {
      RemoveNth(c.order, k, j - 1);
      var y := if j - 1 < k then j - 1 else j;
      assert c.order[y] in c.order;
      if i > 0 {
        RemoveNth(c.order, k, i - 1);
        var x := if i - 1 < k then i - 1 else i;
        assert c.order[x] in c.order;
        assert OlderAt(c, x, y);
      }
    }
  }

  // ---------------------------------------------------------------- every step keeps the invariant

  // A step that touches one buffer, and of the rest at most its place on the list.
  ghost predicate Touches(c: Cache, d: Cache, b: nat) {
    && Shape(c) && Shape(d) && b < NBUF
    && (forall e :: 0 <= e < NBUF && e != b ==>
          d.bufs[e] == c.bufs[e] && d.unsaved[e] == c.unsaved[e] && d.waiting[e] == c.waiting[e] &&
            d.leaving[e] == c.leaving[e])
  }

  // The buffer keeps its block: so does every other, and the blocks keep their buffers.
  lemma KeepsUnique(c: Cache, d: Cache, b: nat)
    requires Touches(c, d, b) && Unique(c) && d.bufs[b].dev == c.bufs[b].dev && d.bufs[b].blockno == c.bufs[b].blockno
    ensures Unique(d)
  {
    forall e: nat, dev: nat, n: nat ensures Caches(d, e, dev, n) == Caches(c, e, dev, n) { }
  }

  // Nothing of the disk or of the contents changes, and buffer b gets no cleaner.
  lemma KeepsSynced(c: Cache, d: Cache, b: nat, n: nat)
    requires Touches(c, d, b) && n < |c.disk| && Synced(c, n) && d.disk == c.disk && d.contents == c.contents
    requires Ahead(c, b, n) ==> Ahead(d, b, n)
    ensures Synced(d, n)
  {
    if c.disk[n] != c.contents[n] {
      var e: nat :| Ahead(c, e, n);
      assert Ahead(d, e, n);
    }
  }

  lemma KeepsBufOk(c: Cache, d: Cache, b: nat, e: nat)
    requires Touches(c, d, b) && e < NBUF && e != b && BufOk(c, e)
    requires |d.disk| == |c.disk|
    requires OnDisk(c, e) ==> d.contents[c.bufs[e].blockno] == c.contents[c.bufs[e].blockno]
    ensures BufOk(d, e)
  {
  }

  // The buffer of a block is not dirty when nobody refers to it and bget may recycle it.
  lemma GetInv(c: Cache, dev: nat, blockno: nat)
    requires Inv(c) && !GetPanics(c, dev, blockno)
    ensures Inv(AfterGet(c, dev, blockno))
  {
    hide Permutation, ByRelease, Hit, Victim;
    var d, b := AfterGet(c, dev, blockno), Chosen(c, dev, blockno).value;
    assert BufOk(c, b);
    forall e | 0 <= e < NBUF ensures BufOk(d, e) { if e != b { KeepsBufOk(c, d, b, e); } }
    forall n | 0 <= n < |d.disk| ensures Synced(d, n) { KeepsSynced(c, d, b, n); }
    if Hit(c, 0, dev, blockno).Some? { KeepsUnique(c, d, b); } else { MissUnique(c, dev, blockno, b); }
    SameOrder(c, d);
  }

  lemma SameOrder(c: Cache, d: Cache)
    requires ByRelease(c) && d.order == c.order && d.stamp == c.stamp && d.clock == c.clock
    ensures ByRelease(d)
  {
    forall j: nat, k: nat | j < k < |d.order| ensures OlderAt(d, j, k) { assert OlderAt(c, j, k); }
  }

  // On a miss no buffer is for the block, so the recycled one is the only one that is.
  lemma MissUnique(c: Cache, dev: nat, blockno: nat, b: nat)
    requires Inv(c) && Hit(c, 0, dev, blockno).None? && Victim(c, |c.order|) == Some(b)
    ensures Unique(AfterGet(c, dev, blockno))
  {
    hide ByRelease, Victim, Hit, BufOk, Synced;
    assert c.order[0..] == c.order;
    var d := AfterGet(c, dev, blockno);
    forall e: nat ensures !Caches(c, e, dev, blockno) { assert e < NBUF ==> e in c.order; }
    forall e: nat, v: nat, n: nat | e != b ensures Caches(d, e, v, n) == Caches(c, e, v, n) { }
  }

  lemma OneBufferInv(c: Cache, d: Cache, b: nat)
    requires Inv(c) && Touches(c, d, b) && BufOk(d, b) && d.order == c.order && d.stamp == c.stamp && d.clock == c.clock
    requires d.bufs[b].dev == c.bufs[b].dev && d.bufs[b].blockno == c.bufs[b].blockno
    requires |d.disk| == |c.disk|
    requires forall n :: 0 <= n < |c.disk| && !Caches(c, b, ROOTDEV, n) ==>
      d.disk[n] == c.disk[n] && d.contents[n] == c.contents[n]
    requires OnDisk(c, b) ==> Synced(d, c.bufs[b].blockno)
    ensures Inv(d)
  {
    hide Permutation, ByRelease, BufOk;
    KeepsUnique(c, d, b);
    SameOrder(c, d);
    forall e | 0 <= e < NBUF ensures BufOk(d, e) {
      if e != b {
        assert OnDisk(c, e) ==> Caches(c, e, ROOTDEV, c.bufs[e].blockno);
        KeepsBufOk(c, d, b, e);
      }
    }
    forall n | 0 <= n < |d.disk| ensures Synced(d, n) {
      assert Synced(c, n);
      if !Caches(c, b, ROOTDEV, n) && c.disk[n] != c.contents[n] {
        var e: nat :| Ahead(c, e, n);
        assert Ahead(d, e, n);
      }
    }
  }

  lemma UnrefInv(c: Cache, b: nat)
    requires Inv(c) && Enabled(c, Unref(b))
    ensures Inv(Do(c, Unref(b)))
  {
    hide Permutation, ByRelease;
    assert BufOk(c, b);
    var d := Do(c, Unref(b));
    forall e | 0 <= e < NBUF ensures BufOk(d, e) { if e != b { KeepsBufOk(c, d, b, e); } }
    forall n | 0 <= n < |d.disk| ensures Synced(d, n) { KeepsSynced(c, d, b, n); }
    KeepsUnique(c, d, b);
    if c.bufs[b].refcnt == 1 {
      ToFrontPermutes(c.order, b);
      ToFrontByRelease(c, d, b);
    } else {
      SameOrder(c, d);
    }
  }

  // Every step of every client, in any order, keeps the cache coherent.
  lemma StepInv(c: Cache, s: Step)
    requires Inv(c) && Enabled(c, s)
    ensures Inv(Do(c, s))
  {
    match s
    case Get(dev, blockno) => GetInv(c, dev, blockno);
    case Unref(b) => UnrefInv(c, b);
    case _ => OneBufferStep(c, s);
  }

  lemma OneBufferStep(c: Cache, s: Step)
    requires Inv(c) && Enabled(c, s) && !s.Get? && !s.Unref?
    ensures Inv(Do(c, s))
  {
    hide Permutation, ByRelease, Unique;
    var d := Do(c, s);
    assert BufOk(c, s.b);
    if OnDisk(c, s.b) {
      var n := c.bufs[s.b].blockno;
      assert Synced(c, n);
      StepSynced(c, s);
    }
    if s.Fill? { BreadReadsLast(c, s.b); }
    OneBufferInv(c, d, s.b);
  }

  // The block of the buffer that a step works on is still either on the disk or in that buffer.
  lemma StepSynced(c: Cache, s: Step)
    requires Inv(c) && Enabled(c, s) && !s.Get? && !s.Unref? && OnDisk(c, s.b)
    ensures Shape(Do(c, s)) && Synced(Do(c, s), c.bufs[s.b].blockno)
  {
    hide Permutation, ByRelease;
    var d, n := Do(c, s), c.bufs[s.b].blockno;
    assert BufOk(c, s.b) && Synced(c, n);
    if d.disk[n] != d.contents[n] {
      if c.disk[n] != c.contents[n] {
        var e: nat :| Ahead(c, e, n);
        assert Caches(c, s.b, ROOTDEV, n);
        assert e == s.b;
      }
      assert Ahead(d, s.b, n);
    }
  }

  // ---------------------------------------------------------------- what clients see

  // Transparency: when bread has taken the lock and finished, the buffer holds what was last written to
  // the block, whoever wrote it and whatever was recycled since.
  lemma BreadReadsLast(c: Cache, b: nat)
    requires Inv(c) && Enabled(c, Fill(b))
    ensures var d := Do(c, Fill(b));
      && d.bufs[b].valid && d.bufs[b].data == c.contents[c.bufs[b].blockno] && d.contents == c.contents
  {
    hide Permutation, ByRelease;
    var n := c.bufs[b].blockno;
    assert BufOk(c, b) && Synced(c, n) && Caches(c, b, ROOTDEV, n);
    assert forall e: nat :: Ahead(c, e, n) ==> e == b;
  }

  // The contents of a block change only when the holder of its one buffer stores into it.
  lemma OnlyStoresWrite(c: Cache, s: Step)
    requires Inv(c) && Enabled(c, s)
    ensures Do(c, s).contents == if s.Store? then c.contents[c.bufs[s.b].blockno := s.data] else c.contents
  {
  }

  // bget's choice on a miss: unreferenced and clean, and of all such buffers the one whose last release
  // is longest ago.
  lemma VictimIsOldest(c: Cache, b: nat)
    requires Inv(c) && Victim(c, NBUF) == Some(b)
    ensures Free(c, b) && b < NBUF
    ensures forall e :: 0 <= e < NBUF && Free(c, e) ==> c.stamp[b] <= c.stamp[e]
  {
    hide BufOk, Unique, Synced, Victim;
    var j :| 0 <= j < NBUF && c.order[j] == b && forall l :: j < l < NBUF ==> !Free(c, c.order[l]);
    assert c.order[j] in c.order;
    forall e: nat | e < NBUF && Free(c, e) ensures c.stamp[b] <= c.stamp[e] {
      var k := PlaceOf(c.order, e);
      if k < j { assert OlderAt(c, k, j); }
    }
  }

  // The panic in bget happens exactly when the block has no buffer and every buffer is referenced or pinned.
  lemma GetPanicsWhen(c: Cache, dev: nat, blockno: nat)
    requires Inv(c)
    ensures GetPanics(c, dev, blockno) <==>
      forall b: nat :: b < NBUF ==> !Caches(c, b, dev, blockno) && (c.bufs[b].refcnt > 0 || c.bufs[b].dirty)
  {
    hide BufOk, Unique, Synced, Victim, Hit, ByRelease;
    assert c.order[0..] == c.order && c.order[..NBUF] == c.order;
    forall b: nat ensures b < NBUF <==> b in c.order { }
    if !GetPanics(c, dev, blockno) {
      var b := Chosen(c, dev, blockno).value;
      assert b < NBUF && (Caches(c, b, dev, blockno) || Free(c, b));
    } else {
      forall b: nat | b < NBUF ensures !Caches(c, b, dev, blockno) && !Free(c, b) { assert b in c.order; }
    }
  }

  // ---------------------------------------------------------------- runs

  // The cache after binit: every buffer is for block 0 of device 0, and the last one is at the front.
  ghost predicate Initial(c: Cache) {
    && Shape(c) && c.contents == c.disk && c.clock == NBUF
    && (forall b :: 0 <= b < NBUF ==>
          var f := c.bufs[b];
          && f.dev == 0 && f.blockno == 0 && !f.valid && !f.dirty && f.refcnt == 0 && !f.locked
          && c.order[b] == NBUF - 1 - b && c.stamp[b] == b
          && !c.unsaved[b] && c.waiting[b] == 0 && c.leaving[b] == 0)
  }

  lemma InitialInv(c: Cache)
    requires Initial(c)
    ensures Inv(c)
  {
    forall b: nat ensures b in c.order <==> b < NBUF {
      if b < NBUF { assert c.order[NBUF - 1 - b] == b; }
    }
    forall j: nat, k: nat | j < k < |c.order| ensures OlderAt(c, j, k) {
      assert c.order[j] == NBUF - 1 - j && c.order[k] == NBUF - 1 - k;
    }
  }

  ghost predicate IsRun(run: seq<Cache>, steps: seq<Step>) {
    && |run| == |steps| + 1 && Initial(run[0])
    && (forall i {:trigger steps[i]} :: 0 <= i < |steps| && Inv(run[i]) ==>
          Enabled(run[i], steps[i]) && run[i + 1] == Do(run[i], steps[i]))
  }

  // What clients wrote last to block n in the first i steps of a run.
  ghost function LastWritten(run: seq<Cache>, steps: seq<Step>, i: nat, n: nat): Block
    requires |run| == |steps| + 1 && i <= |steps| && n < |run[0].disk|
  {
    if i == 0 then run[0].disk[n]
    else if steps[i - 1].Store? && Caches(run[i - 1], steps[i - 1].b, ROOTDEV, n) then steps[i - 1].data
    else LastWritten(run, steps, i - 1, n)
  }

  // The cache is invisible over whole runs: however clients interleave, each bread that finishes hands
  // out the last block stored for that number since the machine started, or the disk's own.
  lemma {:induction false} RunReadsLast(run: seq<Cache>, steps: seq<Step>, i: nat)
    requires IsRun(run, steps) && i <= |steps|
    ensures Inv(run[i]) && |run[i].disk| == |run[0].disk|
    ensures forall n :: 0 <= n < |run[0].disk| ==> run[i].contents[n] == LastWritten(run, steps, i, n)
    ensures i < |steps| && steps[i].Fill? ==>
      var b := steps[i].b;
      && OnDisk(run[i], b)
      && run[i + 1].bufs[b].data == LastWritten(run, steps, i, run[i].bufs[b].blockno)
  {
    hide Inv, Enabled, Do, Initial;
    if i == 0 {
      InitialInv(run[0]);
      InitialContents(run[0]);
    } else {
      RunReadsLast(run, steps, i - 1);
      assert run[i - 1 + 1] == Do(run[i - 1], steps[i - 1]);
      StepInv(run[i - 1], steps[i - 1]);
      ContentsNext(run[i - 1], steps[i - 1]);
    }
    if i < |steps| && steps[i].Fill? {
      FillOnDisk(run[i], steps[i].b);
      BreadReadsLast(run[i], steps[i].b);
    }
  }

  lemma InitialContents(c: Cache)
    requires Initial(c)
    ensures c.contents == c.disk
  {
  }

  lemma FillOnDisk(c: Cache, b: nat)
    requires Inv(c) && Enabled(c, Fill(b))
    ensures OnDisk(c, b) && |c.disk| == |c.contents|
  {
  }

  lemma ContentsNext(c: Cache, s: Step)
    requires Inv(c) && Enabled(c, s)
    ensures var d := Do(c, s);
      && |d.disk| == |c.disk| == |c.contents| == |d.contents|
      && forall n :: 0 <= n < |c.disk| ==>
           d.contents[n] == if s.Store? && Caches(c, s.b, ROOTDEV, n) then s.data else c.contents[n]
  {
    hide Permutation, ByRelease, Unique, BufOk, Synced;
  }

  // ---------------------------------------------------------------- least recently used

  // Who of two buffers came first: when the last reference to b was given up in the first i steps of a run.
  // Those never used come before, in the order binit leaves them, buffer 0 first.
  ghost function GivenUp(run: seq<Cache>, steps: seq<Step>, i: nat, b: nat): int
    requires |run| == |steps| + 1 && i <= |steps|
  {
    if i == 0 then b - NBUF
    else if steps[i - 1] == Unref(b) && b < |run[i - 1].bufs| && run[i - 1].bufs[b].refcnt == 1 then i - 1
    else GivenUp(run, steps, i - 1, b)
  }

  ghost predicate SameAge(c: Cache, run: seq<Cache>, steps: seq<Step>, i: nat)
    requires |run| == |steps| + 1 && i <= |steps|
  {
    && |c.stamp| == NBUF
    && (forall b :: 0 <= b < NBUF ==> c.stamp[b] < c.clock && GivenUp(run, steps, i, b) < i)
    && (forall b, e :: 0 <= b < NBUF && 0 <= e < NBUF ==>
          (c.stamp[b] < c.stamp[e] <==> GivenUp(run, steps, i, b) < GivenUp(run, steps, i, e)))
  }

  lemma StampNext(c: Cache, s: Step)
    requires Inv(c) && Enabled(c, s)
    ensures var d, last := Do(c, s), s.Unref? && c.bufs[s.b].refcnt == 1;
      && d.stamp == (if last then c.stamp[s.b := c.clock] else c.stamp)
      && d.clock == (if last then c.clock + 1 else c.clock)
      && |d.stamp| == NBUF && (s.Unref? ==> s.b < NBUF)
  {
    if s.Unref? { assert BufOk(c, s.b); }
  }

  lemma {:induction false} RunAges(run: seq<Cache>, steps: seq<Step>, i: nat)
    requires IsRun(run, steps) && i <= |steps|
    ensures Inv(run[i]) && SameAge(run[i], run, steps, i)
  {
    hide Inv, Enabled, Do, Initial;
    RunReadsLast(run, steps, i);
    if i == 0 {
      InitialStamps(run[0]);
    } else {
      RunAges(run, steps, i - 1);
      assert run[i - 1 + 1] == Do(run[i - 1], steps[i - 1]);
      StampNext(run[i - 1], steps[i - 1]);
      SizeOfPool(run[i - 1]);
    }
  }

  lemma InitialStamps(c: Cache)
    requires Initial(c)
    ensures |c.stamp| == NBUF && c.clock == NBUF && forall b :: 0 <= b < NBUF ==> c.stamp[b] == b
  {
  }

  lemma SizeOfPool(c: Cache)
    requires Inv(c)
    ensures |c.bufs| == NBUF
  {
  }

  ghost predicate Absent(c: Cache, dev: nat, n: nat) {
    forall e: nat :: !Caches(c, e, dev, n)
  }

  // Buffer b is unreferenced and clean, and no other such buffer was given up before it.
  ghost predicate LeastRecent(run: seq<Cache>, steps: seq<Step>, i: nat, b: nat)
    requires |run| == |steps| + 1 && i <= |steps| && |run[i].bufs| == NBUF && b < NBUF
  {
    var bufs := run[i].bufs;
    && bufs[b].refcnt == 0 && !bufs[b].dirty
    && (forall e :: 0 <= e < NBUF && bufs[e].refcnt == 0 && !bufs[e].dirty ==>
          GivenUp(run, steps, i, b) <= GivenUp(run, steps, i, e))
  }

  // bget in any run. If a buffer has the block, that buffer is returned with its data. If not, the buffer
  // returned is unreferenced and clean, and of all such buffers the one whose last reference was given up
  // longest ago; it is for the block from then on, with nothing read yet. No other buffer changes.
  lemma RecyclesLeastRecent(run: seq<Cache>, steps: seq<Step>, i: nat)
    requires IsRun(run, steps) && i < |steps| && steps[i].Get?
    ensures var c, d, dev, n := run[i], run[i + 1], steps[i].dev, steps[i].blockno;
      && |c.bufs| == |d.bufs| == NBUF
      && exists b: nat :: b < NBUF && Taken(c, d, b, dev, n) && (Absent(c, dev, n) ==> LeastRecent(run, steps, i, b))
  {
    RunAges(run, steps, i);
    var c, d := run[i], run[i + 1];
    var b := GetTakes(c, steps[i].dev, steps[i].blockno);
    assert Taken(c, d, b, steps[i].dev, steps[i].blockno);
    if Absent(c, steps[i].dev, steps[i].blockno) {
      hide Inv, Do;
      MissIsVictim(c, steps[i].dev, steps[i].blockno);
      VictimIsOldest(c, b);
    }
  }

  // d is c with one more reference to buffer b, which is for the block.
  ghost predicate Taken(c: Cache, d: Cache, b: nat, dev: nat, n: nat) {
    && b < |c.bufs| == |d.bufs|
    && (forall e :: 0 <= e < |c.bufs| && e != b ==> d.bufs[e] == c.bufs[e])
    && d.bufs[b].dev == dev && d.bufs[b].blockno == n && d.disk == c.disk
    && (Caches(c, b, dev, n) ==> d.bufs[b] == c.bufs[b].(refcnt := c.bufs[b].refcnt + 1))
    && (!Caches(c, b, dev, n) ==>
          (forall e: nat :: !Caches(c, e, dev, n)) && d.bufs[b].refcnt == 1 && !d.bufs[b].valid && !d.bufs[b].dirty)
  }

  lemma GetTakes(c: Cache, dev: nat, n: nat) returns (b: nat)
    requires Inv(c) && Enabled(c, Get(dev, n))
    ensures b < NBUF && Chosen(c, dev, n) == Some(b) && Taken(c, Do(c, Get(dev, n)), b, dev, n)
  {
    hide BufOk, Unique, Synced, ByRelease;
    b := Chosen(c, dev, n).value;
    assert c.order[0..] == c.order && c.order[..NBUF] == c.order;
    if Hit(c, 0, dev, n).None? {
      forall e: nat ensures !Caches(c, e, dev, n) { assert e < NBUF ==> e in c.order; }
    }
  }

  lemma MissIsVictim(c: Cache, dev: nat, n: nat)
    requires Inv(c) && forall e: nat :: !Caches(c, e, dev, n)
    ensures Chosen(c, dev, n) == Victim(c, NBUF)
  {
  }
}
