/** The log beside the buffer cache: whether a commit finds a buffer for the blocks of the log, with the
    buffers of the logged blocks pinned by log_write. LOGSIZE and NBUF are the same number. */
module LogCache {
  import opened Blocks
  import opened Lists
  import opened Log
  import Cache = Bcache
  import Runs = LogRuns

  predicate Pinned(c: Cache.Cache, b: nat, n: nat) {
    Cache.Caches(c, b, Cache.ROOTDEV, n) && c.bufs[b].dirty
  }

  // The buffers with B_DIRTY set are those of the logged blocks.
  ghost predicate Pins(c: Cache.Cache, lh: seq<nat>) {
    && (forall b: nat :: b < |c.bufs| && c.bufs[b].dirty ==> c.bufs[b].dev == Cache.ROOTDEV && c.bufs[b].blockno in lh)
    && (forall n :: n in lh ==> exists b: nat :: Pinned(c, b, n))
  }

  // The buffers of the first k logged blocks.
  ghost function PinnedBy(c: Cache.Cache, lh: seq<nat>, k: nat): set<nat>
    requires k <= |lh|
  {
    set b: nat | b < |c.bufs| && c.bufs[b].dirty && c.bufs[b].blockno in lh[..k]
  }

  // The buffers that are not pinned, but that somebody uses.
  ghost function Busy(c: Cache.Cache): set<nat> {
    set b: nat | b < |c.bufs| && !c.bufs[b].dirty && c.bufs[b].refcnt > 0
  }

  lemma {:induction false} PinnedCount(c: Cache.Cache, lh: seq<nat>, k: nat)
    requires Cache.Inv(c) && Pins(c, lh) && Distinct(lh) && k <= |lh|
    ensures |PinnedBy(c, lh, k)| == k
  {
    if k > 0 {
      PinnedCount(c, lh, k - 1);
      OneMorePinned(c, lh, k);
    } else {
      assert PinnedBy(c, lh, 0) == {};
    }
  }

  lemma OneMorePinned(c: Cache.Cache, lh: seq<nat>, k: nat)
    requires Cache.Inv(c) && Pins(c, lh) && Distinct(lh) && 0 < k <= |lh|
    ensures |PinnedBy(c, lh, k)| == |PinnedBy(c, lh, k - 1)| + 1
  {
    hide Cache.Permutation, Cache.ByRelease, Cache.BufOk, Cache.Synced;
    var n := lh[k - 1];
    assert n in lh;
    var b: nat :| Pinned(c, b, n);
    assert lh[..k] == lh[..k - 1] + [n];
    assert n !in lh[..k - 1];
    forall e: nat | e < |c.bufs| && c.bufs[e].dirty && c.bufs[e].blockno == n ensures e == b {
      assert Cache.Caches(c, e, Cache.ROOTDEV, n);
    }
    assert PinnedBy(c, lh, k) == PinnedBy(c, lh, k - 1) + {b};
  }

  ghost function Upto(n: nat): (r: set<nat>)
    ensures |r| == n && forall b: nat :: b in r <==> b < n
  {
    if n == 0 then {} else Upto(n - 1) + {n - 1}
  }

  lemma {:induction false} SubsetSize(a: set<nat>, b: set<nat>)
    requires a <= b
    ensures |a| <= |b| && (|a| == |b| <==> a == b)
  {
    if a != {} {
      var x :| x in a;
      SubsetSize(a - {x}, b - {x});
      if a - {x} == b - {x} { assert a == a - {x} + {x} == b - {x} + {x} == b; }
    }
  }

  lemma Cover(p: set<nat>, q: set<nat>, n: nat)
    requires p !! q && (forall b :: b in p ==> b < n) && (forall b :: b in q ==> b < n)
    ensures |p| + |q| == n <==> forall b: nat :: b < n ==> b in p || b in q
    ensures |p| + |q| <= n
  {
    hide Upto;
    assert |p + q| == |p| + |q|;
    SubsetSize(p + q, Upto(n));
  }

  // When bread panics for a block without a buffer: exactly when pinned and used buffers are all there are.
  lemma PanicsExactly(c: Cache.Cache, lh: seq<nat>, n: nat)
    requires Cache.Inv(c) && Pins(c, lh) && Distinct(lh) && forall b: nat :: !Cache.Caches(c, b, Cache.ROOTDEV, n)
    ensures Cache.GetPanics(c, Cache.ROOTDEV, n) <==> |lh| + |Busy(c)| == Cache.NBUF
  {
    Cache.GetPanicsWhen(c, Cache.ROOTDEV, n);
    PinnedCount(c, lh, |lh|);
    assert |c.bufs| == Cache.NBUF && lh[..|lh|] == lh;
    hide Cache.Inv, Cache.GetPanics, Cache.Caches;
    var pinned, busy := PinnedBy(c, lh, |lh|), Busy(c);
    Cover(pinned, busy, |c.bufs|);
    forall b: nat | b < |c.bufs| ensures b in pinned || b in busy <==> c.bufs[b].refcnt > 0 || c.bufs[b].dirty { }
  }

  // The commit of any reachable transaction, with nobody else using a buffer: bread finds one for a block of
  // the log exactly unless the transaction has LOGSIZE blocks. With the log that mkfs makes it always does.
  lemma CommitStarvesExactly(g: Geometry, s: Runs.Sys, c: Cache.Cache, n: nat)
    requires Runs.Inv(g, s) && !s.down && Cache.Inv(c) && Pins(c, s.lh) && Busy(c) == {} && InLog(g, n)
    ensures Cache.GetPanics(c, Cache.ROOTDEV, n) <==> |s.lh| == LOGSIZE
    ensures g.size <= LOGSIZE ==> !Cache.GetPanics(c, Cache.ROOTDEV, n)
  {
    LoggedFacts(g, s, n);
    hide Runs.Inv;
    if b: nat :| Cache.Caches(c, b, Cache.ROOTDEV, n) {
      HasBuffer(c, s.lh, b, n);
    } else {
      PanicsExactly(c, s.lh, n);
    }
  }

  lemma LoggedFacts(g: Geometry, s: Runs.Sys, n: nat)
    requires Runs.Inv(g, s) && !s.down && InLog(g, n)
    ensures n !in s.lh && Distinct(s.lh) && |s.lh| < g.size && |s.lh| <= LOGSIZE
  {
    hide Recoverable;
  }

  lemma HasBuffer(c: Cache.Cache, lh: seq<nat>, b: nat, n: nat)
    requires Cache.Inv(c) && Pins(c, lh) && Distinct(lh) && Cache.Caches(c, b, Cache.ROOTDEV, n) && n !in lh
    ensures !Cache.GetPanics(c, Cache.ROOTDEV, n) && |lh| < Cache.NBUF
  {
    Cache.GetPanicsWhen(c, Cache.ROOTDEV, n);
    PinnedCount(c, lh, |lh|);
    hide Cache.GetPanics, Cache.Permutation, Cache.ByRelease, Cache.BufOk, Cache.Synced, Cache.Unique;
    Cover(PinnedBy(c, lh, |lh|), {b}, |c.bufs|);
  }

  // With a larger log the panic is within reach: three calls fill the log, and the first bread of the
  // commit finds every buffer pinned, whatever the cache holds beside them.
  lemma LargeLogStarves(g: Geometry, s: Runs.Sys, first: nat)
      returns (run: seq<Runs.Sys>, acts: seq<Runs.Action>)
    requires Runs.Fillable(g, s, first) && g.size > LOGSIZE
    ensures Runs.IsRun(g, run, acts) && run[0] == s && |run[|acts|].lh| == LOGSIZE
    ensures forall c :: Cache.Inv(c) && Pins(c, run[|acts|].lh) ==> Cache.GetPanics(c, Cache.ROOTDEV, g.start + 1)
  {
    run, acts := Runs.FillLog(g, s, first, LOGSIZE);
    var t := run[|acts|];
    LoggedFacts(g, t, g.start + 1);
    hide Runs.Inv, Runs.IsRun, Runs.Filled, Runs.Fillable;
    forall c | Cache.Inv(c) && Pins(c, t.lh) ensures Cache.GetPanics(c, Cache.ROOTDEV, g.start + 1) {
      AllPinned(c, t.lh, g.start + 1);
    }
  }

  lemma AllPinned(c: Cache.Cache, lh: seq<nat>, n: nat)
    requires Cache.Inv(c) && Pins(c, lh) && Distinct(lh) && |lh| == Cache.NBUF && n !in lh
    ensures Cache.GetPanics(c, Cache.ROOTDEV, n)
  {
    if b: nat :| Cache.Caches(c, b, Cache.ROOTDEV, n) { HasBuffer(c, lh, b, n); }
    PinnedCount(c, lh, |lh|);
    assert |c.bufs| == Cache.NBUF;
    Cover(PinnedBy(c, lh, |lh|), {}, |c.bufs|);
    hide Cache.Inv, Cache.Caches, Pins, Cache.GetPanics;
    assert Busy(c) == {};
    PanicsExactly(c, lh, n);
  }

  // After an overflow the commit gets to its writes exactly if the log is smaller than LOGSIZE. With the
  // log that mkfs makes every buffer is pinned then, and the first bread panics before anything is written.
  lemma OverflowedCommit(g: Geometry, s: Runs.Sys, t: Runs.Sys, first: nat, data: Block, c: Cache.Cache, n: nat)
    requires Runs.Overflowed(g, s, t, first, data) && 2 <= g.size <= LOGSIZE
    requires Cache.Inv(c) && Pins(c, t.lh) && Busy(c) == {} && n < first
    ensures Cache.GetPanics(c, Cache.ROOTDEV, n) <==> g.size == LOGSIZE
  {
    assert Distinct(t.lh) && n !in t.lh && |t.lh| == g.size;
    hide Runs.Overflowed, Pins, Busy;
    if b: nat :| Cache.Caches(c, b, Cache.ROOTDEV, n) {
      HasBuffer(c, t.lh, b, n);
    } else {
      PanicsExactly(c, t.lh, n);
    }
  }

  function PinnedBuf(disk: seq<Block>, lh: seq<nat>, b: nat): Cache.Buf {
    if b < |lh| && lh[b] < |disk| then Cache.Buf(Cache.ROOTDEV, lh[b], true, true, 0, false, disk[lh[b]])
    else Cache.Buf(0, 0, false, false, 0, false, ZeroBlock())
  }

  // There are such caches: for any logged blocks that fit, one with their buffers pinned and no other in use.
  lemma PinnedCache(disk: seq<Block>, lh: seq<nat>) returns (c: Cache.Cache)
    requires Distinct(lh) && |lh| <= Cache.NBUF && forall n :: n in lh ==> n < |disk|
    ensures Cache.Inv(c) && Pins(c, lh) && Busy(c) == {} && c.disk == disk
  {
    var zeros := seq(Cache.NBUF, b => 0);
    c := Cache.Cache(seq(Cache.NBUF, b requires 0 <= b => PinnedBuf(disk, lh, b)),
                     seq(Cache.NBUF, j requires 0 <= j < Cache.NBUF => Cache.NBUF - 1 - j), disk, disk,
                     seq(Cache.NBUF, b => false), zeros, zeros, seq(Cache.NBUF, b requires 0 <= b => b), Cache.NBUF);
    forall b: nat ensures b in c.order <==> b < Cache.NBUF {
      if b < Cache.NBUF { assert c.order[Cache.NBUF - 1 - b] == b; }
    }
    forall j: nat, k: nat | j < k < |c.order| ensures Cache.OlderAt(c, j, k) {
      assert c.order[j] == Cache.NBUF - 1 - j && c.order[k] == Cache.NBUF - 1 - k;
    }
    forall n | n in lh ensures exists b: nat :: Pinned(c, b, n) {
      var b :| 0 <= b < |lh| && lh[b] == n;
      assert Pinned(c, b, n);
    }
  }
}
