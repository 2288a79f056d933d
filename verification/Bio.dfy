/** The buffer cache as an object (bio.c): the pool of buffers, threaded on a circular doubly linked list.
    Each method is one section that runs under bcache.lock or under a buffer's sleep lock; sections of
    different callers may follow one another in any order. */
module Bio {
  import opened Blocks
  import opened Lists
  import opened Wrappers
  import opened Ring
  import opened Bcache

  // The index of `bcache.head` in the arrays of links.
  const HEAD: nat := NBUF

  class BufferCache {
    const buf: array<Buf>
    const next: array<nat>
    const prev: array<nat>
    const memdisk: array<Block>
    ghost var order: seq<nat>
    ghost var contents: seq<Block>
    ghost var unsaved: seq<bool>
    ghost var waiting: seq<nat>
    ghost var leaving: seq<nat>
    ghost var stamp: seq<nat>
    ghost var clock: nat

    ghost function Value(): Cache
      reads this, buf, memdisk
    {
      Cache(buf[..], order, memdisk[..], contents, unsaved, waiting, leaving, stamp, clock)
    }

    ghost predicate Valid()
      reads this, buf, next, prev, memdisk
    {
      && buf.Length == NBUF && next.Length == prev.Length == NBUF + 1
      && next != prev
      && IsRing(next[..], prev[..], [HEAD] + order)
      && Inv(Value())
    }

    // binit, on a machine with this disk.
    constructor (image: seq<Block>)
      ensures Valid() && Initial(Value()) && Value().disk == image
      ensures fresh(buf) && fresh(next) && fresh(prev) && fresh(memdisk)
    {
      buf := new Buf[NBUF](_ => Buf(0, 0, false, false, 0, false, ZeroBlock()));
      next := new nat[NBUF + 1](_ => HEAD);
      prev := new nat[NBUF + 1](_ => HEAD);
      memdisk := new Block[|image|](i requires 0 <= i < |image| => image[i]);
      order, contents := [], image;
      unsaved, waiting, leaving := seq(NBUF, _ => false), seq(NBUF, _ => 0), seq(NBUF, _ => 0);
      stamp, clock := seq(NBUF, i => i), NBUF;
      new;
      assert EdgeAt(next[..], prev[..], [HEAD], 0);
      LinkAll();
      assert memdisk[..] == image;
      InitialInv(Value());
    }

    // The loop of binit.
    method LinkAll()
      requires next.Length == prev.Length == NBUF + 1 && next != prev && order == []
      requires IsRing(next[..], prev[..], [HEAD])
      modifies next, prev, this`order
      ensures |order| == NBUF && forall k :: 0 <= k < NBUF ==> order[k] == NBUF - 1 - k
      ensures IsRing(next[..], prev[..], [HEAD] + order)
    {
      assert [HEAD] + order == [HEAD];
      var b := 0;
      while b < NBUF
        invariant b <= NBUF && |order| == b && forall k :: 0 <= k < b ==> order[k] == b - 1 - k
        invariant IsRing(next[..], prev[..], [HEAD] + order)
      {
        LinkFront(next[..], prev[..], [HEAD] + order, b);
        var f := next[HEAD];
        next[b] := f;
        prev[b] := HEAD;
        prev[f] := b;
        next[HEAD] := b;
        assert InsertAt([HEAD] + order, 1, b) == [HEAD] + ([b] + order);
        order := [b] + order;
        b := b + 1;
      }
    }

    // bget up to the release of bcache.lock; None is its panic.
    method Bget(dev: nat, blockno: nat) returns (r: Option<nat>)
      requires Valid()
      modifies buf, this`waiting
      ensures Valid()
      ensures r.None? <==> GetPanics(old(Value()), dev, blockno)
      ensures r == Chosen(old(Value()), dev, blockno)
      ensures Value() == if r.Some? then AfterGet(old(Value()), dev, blockno) else old(Value())
      // the buffer is for the block, found or recycled, and has one reference more
      ensures r.Some? ==> r.value < NBUF && Taken(old(Value()), Value(), r.value, dev, blockno)
    {
      hide Inv, IsRing, Taken;
      r := Lookup(dev, blockno);
      if r.Some? {
        var b := r.value;
        buf[b] := buf[b].(refcnt := buf[b].refcnt + 1);
      } else {
        r := Recycle();
        if r.None? {
          return;
        }
        var b := r.value;
        buf[b] := buf[b].(dev := dev, blockno := blockno, valid := false, dirty := false, refcnt := 1);
      }
      SizesOf(old(Value()));
      waiting := waiting[r.value := waiting[r.value] + 1];
      assert Value() == AfterGet(old(Value()), dev, blockno);
      GetInv(old(Value()), dev, blockno);
      ghost var b := GetTakes(old(Value()), dev, blockno);
    }

    // The loop that looks for the block, from the front of the list.
    method Lookup(dev: nat, blockno: nat) returns (r: Option<nat>)
      requires Valid()
      ensures r == Hit(Value(), 0, dev, blockno) && (r.Some? ==> r.value < NBUF)
    {
      hide Inv, BufOk, Synced, Unique, ByRelease;
      ghost var xs, k := [HEAD] + order, 0;
      SizesOf(Value());
      InPool(Value());
      assert EdgeAt(next[..], prev[..], xs, 0);
      var b := next[HEAD];
      while b != HEAD
        invariant k <= |order| && b == (if k < |order| then order[k] else HEAD)
        invariant Hit(Value(), 0, dev, blockno) == Hit(Value(), k, dev, blockno)
        decreases |order| - k
      {
        if buf[b].dev == dev && buf[b].blockno == blockno {
          return Some(b);
        }
        assert EdgeAt(next[..], prev[..], xs, k + 1);
        b, k := next[b], k + 1;
      }
      r := None;
    }

    // The loop that looks for an unused buffer, from the back of the list.
    method Recycle() returns (r: Option<nat>)
      requires Valid()
      ensures r == Victim(Value(), |order|) && (r.Some? ==> r.value < NBUF)
    {
      hide Inv, BufOk, Synced, Unique, ByRelease;
      ghost var xs: seq<nat>, k: nat := [HEAD] + order, |order|;
      SizesOf(Value());
      InPool(Value());
      assert EdgeAt(next[..], prev[..], xs, |order|);
      var b := prev[HEAD];
      while b != HEAD
        invariant k <= |order| && b == (if k > 0 then order[k - 1] else HEAD)
        invariant Victim(Value(), |order|) == Victim(Value(), k)
        decreases k
      {
        if buf[b].refcnt == 0 && !buf[b].dirty {
          return Some(b);
        }
        assert EdgeAt(next[..], prev[..], xs, k - 1);
        b, k := prev[b], k - 1;
      }
      r := None;
    }

    // acquiresleep(&b->lock) at the end of bget.
    method Acquire(b: nat)
      requires Valid() && Enabled(Value(), Step.Acquire(b))
      modifies buf, this`waiting
      ensures Valid() && Value() == Do(old(Value()), Step.Acquire(b)) && buf[b].locked
    {
      StepInv(Value(), Step.Acquire(b));
      buf[b] := buf[b].(locked := true);
      waiting := waiting[b := waiting[b] - 1];
      assert Value() == Do(old(Value()), Step.Acquire(b));
    }

    // iderw; the result is false for its panics.
    method Iderw(b: nat) returns (ok: bool)
      requires b < buf.Length
      modifies buf, memdisk
      ensures ok == (old(buf[b]).locked && !(old(buf[b]).valid && !old(buf[b]).dirty) && OnDisk(old(Value()), b))
      ensures Value() == if ok then Bcache.Iderw(old(Value()), b) else old(Value())
    {
      var f := buf[b];
      if !f.locked || (f.valid && !f.dirty) || f.dev != ROOTDEV || f.blockno >= memdisk.Length {
        return false;
      }
      if f.dirty {
        buf[b] := f.(dirty := false);
        memdisk[f.blockno] := f.data;
      } else {
        buf[b] := f.(data := memdisk[f.blockno]);
      }
      buf[b] := buf[b].(valid := true);
      ok := true;
    }

    // bread once its bget has returned: the buffer holds what was last written to the block.
    method Bread(b: nat)
      requires Valid() && Enabled(Value(), Fill(b))
      modifies buf, memdisk
      ensures Valid() && Value() == Do(old(Value()), Fill(b))
      ensures buf[b].data == old(contents)[buf[b].blockno] && buf[b].valid
    {
      hide Inv, IsRing;
      SizesOf(Value());
      StepInv(Value(), Fill(b));
      BreadReadsLast(Value(), b);
      if !buf[b].valid {
        var ok := Iderw(b);
        assert ok;
      }
    }

    // The holder of a buffer overwrites its data.
    method Store(b: nat, data: Block)
      requires Valid() && Enabled(Value(), Step.Store(b, data))
      modifies buf, this`contents, this`unsaved
      ensures Valid() && Value() == Do(old(Value()), Step.Store(b, data))
    {
      StepInv(Value(), Step.Store(b, data));
      contents, unsaved := contents[buf[b].blockno := data], unsaved[b := true];
      buf[b] := buf[b].(data := data);
      assert Value() == Do(old(Value()), Step.Store(b, data));
    }

    // `b->flags |= B_DIRTY` in log_write.
    method Pin(b: nat)
      requires Valid() && Enabled(Value(), Step.Pin(b))
      modifies buf, this`unsaved
      ensures Valid() && Value() == Do(old(Value()), Step.Pin(b)) && buf[b].dirty
    {
      StepInv(Value(), Step.Pin(b));
      buf[b] := buf[b].(dirty := true);
      unsaved := unsaved[b := false];
      assert Value() == Do(old(Value()), Step.Pin(b));
    }

    method Bwrite(b: nat)
      requires Valid() && Enabled(Value(), Step.Bwrite(b))
      modifies buf, memdisk, this`unsaved
      ensures Valid() && Value() == Do(old(Value()), Step.Bwrite(b))
      ensures memdisk[..] == old(memdisk[..])[buf[b].blockno := old(buf[b]).data] && !buf[b].dirty && buf[b].valid
    {
      hide Inv, IsRing;
      SizesOf(Value());
      StepInv(Value(), Step.Bwrite(b));
      buf[b] := buf[b].(dirty := true);
      unsaved := unsaved[b := false];
      var ok := Iderw(b);
      assert ok;
    }

    // brelse up to the release of the buffer's lock.
    method Release(b: nat)
      requires Valid() && Enabled(Value(), Step.Release(b))
      modifies buf, this`leaving
      ensures Valid() && Value() == Do(old(Value()), Step.Release(b)) && !buf[b].locked
    {
      StepInv(Value(), Step.Release(b));
      buf[b] := buf[b].(locked := false);
      leaving := leaving[b := leaving[b] + 1];
      assert Value() == Do(old(Value()), Step.Release(b));
    }

    // The rest of brelse, under bcache.lock.
    method Unref(b: nat)
      requires Valid() && Enabled(Value(), Step.Unref(b))
      modifies buf, next, prev, this`leaving, this`order, this`stamp, this`clock
      ensures Valid() && Value() == Do(old(Value()), Step.Unref(b))
      // with its last reference gone the buffer is the first on the list
      ensures old(buf[b]).refcnt == 1 ==> next[HEAD] == b && prev[b] == HEAD
      ensures old(buf[b]).refcnt != 1 ==> next[..] == old(next[..]) && prev[..] == old(prev[..])
    {
      hide Inv, IsRing, Permutation;
      StepInv(Value(), Step.Unref(b));
      UnrefReady(Value(), b);
      buf[b] := buf[b].(refcnt := buf[b].refcnt - 1);
      leaving := leaving[b := leaving[b] - 1];
      if buf[b].refcnt == 0 {
        MoveToFront(b);
        stamp, clock := stamp[b := clock], clock + 1;
      }
      assert Value() == AfterUnref(old(Value()), b);
    }

    method MoveToFront(b: nat)
      requires next.Length == prev.Length == NBUF + 1 && next != prev && b < NBUF
      requires Permutation(order) && IsRing(next[..], prev[..], [HEAD] + order)
      modifies next, prev, this`order
      ensures order == ToFront(old(order), b)
      ensures IsRing(next[..], prev[..], [HEAD] + order) && next[HEAD] == b && prev[b] == HEAD
    {
      hide IsRing, Permutation;
      InOrder(order, b);
      ghost var i, xs := PlaceOf(order, b) + 1, [HEAD] + order;
      Unlink(next[..], prev[..], xs, i);
      Removed(order, b);
      prev[next[b]] := prev[b];
      next[prev[b]] := next[b];
      assert next[..] == old(next[..][prev[b] := next[b]]) && prev[..] == old(prev[..][next[b] := prev[b]]);
      ghost var ys := RemoveAt(xs, i);
      LinkFront(next[..], prev[..], ys, b);
      ghost var n: seq<nat>, p: seq<nat> := next[..], prev[..];
      next[b] := next[HEAD];
      prev[b] := HEAD;
      prev[next[HEAD]] := b;
      next[HEAD] := b;
      assert next[..] == n[b := n[HEAD]][HEAD := b] && prev[..] == p[b := HEAD][n[HEAD] := b];
      order := ToFront(order, b);
      RingStart(next[..], prev[..], order, b);
    }
  }

  lemma SizesOf(c: Cache)
    requires Inv(c)
    ensures Shape(c) && Permutation(c.order)
  {
  }

  lemma InPool(c: Cache)
    requires Permutation(c.order)
    ensures forall k :: 0 <= k < |c.order| ==> c.order[k] < NBUF
  {
    assert forall k :: 0 <= k < |c.order| ==> c.order[k] in c.order;
  }

  lemma UnrefReady(c: Cache, b: nat)
    requires Inv(c) && Enabled(c, Unref(b))
    ensures Shape(c) && Permutation(c.order) && b in c.order && 0 < c.bufs[b].refcnt
  {
    assert BufOk(c, b);
  }

  lemma RingStart(next: seq<nat>, prev: seq<nat>, order: seq<nat>, b: nat)
    requires IsRing(next, prev, [HEAD] + order) && order != [] && order[0] == b
    ensures HEAD < |next| && b < |prev| && next[HEAD] == b && prev[b] == HEAD
  {
    assert EdgeAt(next, prev, [HEAD] + order, 0);
  }

  lemma InOrder(order: seq<nat>, b: nat)
    requires Permutation(order) && b < NBUF
    ensures b in order
  {
  }

  // The list with its head, once b is unlinked and once it is linked in again behind the head.
  lemma Removed(order: seq<nat>, b: nat)
    requires Permutation(order) && b < NBUF
    ensures b in order
    ensures var ys := RemoveAt([HEAD] + order, PlaceOf(order, b) + 1);
      && ys[0] == HEAD && b !in ys && InsertAt(ys, 1, b) == [HEAD] + ToFront(order, b)
  {
    var k := PlaceOf(order, b);
    assert RemoveAt([HEAD] + order, k + 1) == [HEAD] + RemoveAt(order, k);
    RemoveHas(order, k, b);
  }
}
