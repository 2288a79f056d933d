/** The pipe as an object (pipe.c): a ring of bytes and two 32-bit counters that wrap around. */
module PipeRing {
  import opened Blocks
  import opened PipeQueue

  // How a section ends: the call returns a number, or its process sleeps having written i bytes.
  datatype Outcome = Returned(r: int) | Slept(i: nat)

  function Cell(k: nat): (i: nat)
    ensures i < PIPESIZE
  {
    k % PIPESIZE
  }

  function Wrap(k: nat): Uint {
    k % UINT
  }

  // The ring holds the bytes of `accepted` from the first undelivered one on.
  ghost predicate Holds(data: seq<Byte>, nread: Uint, nwrite: Uint, accepted: seq<Byte>, got: nat) {
    && |data| == PIPESIZE && got <= |accepted| <= got + PIPESIZE
    && nread == Wrap(got) && nwrite == Wrap(|accepted|)
    && forall k :: got <= k < |accepted| ==> data[Cell(k)] == accepted[k]
  }

  // The tests `nwrite == nread + PIPESIZE` and `nread == nwrite`, and the difference of the counters, are
  // about the bytes buffered however often the counters wrapped.
  lemma CountersTell(data: seq<Byte>, nread: Uint, nwrite: Uint, accepted: seq<Byte>, got: nat)
    requires Holds(data, nread, nwrite, accepted, got)
    ensures nwrite == (nread + PIPESIZE) % UINT <==> |accepted| - got == PIPESIZE
    ensures nread == nwrite <==> |accepted| == got
    ensures (nwrite - nread) % UINT == |accepted| - got
    ensures nread % PIPESIZE == Cell(got) && nwrite % PIPESIZE == Cell(|accepted|)
  {
    WrapDistance(got, |accepted|);
    WrapIndex(got);
    WrapIndex(|accepted|);
  }

  lemma WrapDistance(a: nat, b: nat)
    requires a <= b <= a + PIPESIZE
    ensures (Wrap(b) - Wrap(a)) % UINT == b - a
    ensures Wrap(b) == (Wrap(a) + PIPESIZE) % UINT <==> b - a == PIPESIZE
    ensures Wrap(b) == Wrap(a) <==> a == b
  {
    assert (b - a) % UINT == b - a;
  }

  lemma WrapIndex(a: nat)
    ensures Wrap(a) % PIPESIZE == Cell(a) && (Wrap(a) + 1) % UINT == Wrap(a + 1)
  {
    WrapCell(a);
    WrapNext(a);
  }

  lemma WrapCell(a: nat)
    ensures Wrap(a) % PIPESIZE == Cell(a)
  {
    var d := a / UINT;
    assert a == PIPESIZE * (0x80_0000 * d) + a % UINT;
    ModAdd(0x80_0000 * d, a % UINT);
  }

  lemma ModAdd(m: nat, r: nat)
    ensures (PIPESIZE * m + r) % PIPESIZE == r % PIPESIZE
  {
  }

  lemma WrapNext(a: nat)
    ensures (Wrap(a) + 1) % UINT == Wrap(a + 1)
  {
  }

  lemma CellsDiffer(a: nat, b: nat)
    requires a < b < a + PIPESIZE
    ensures Cell(a) != Cell(b)
  {
  }

  lemma HoldsStored(data: seq<Byte>, nread: Uint, nwrite: Uint, accepted: seq<Byte>, got: nat, b: Byte)
    requires Holds(data, nread, nwrite, accepted, got) && |accepted| < got + PIPESIZE
    ensures Holds(data[nwrite % PIPESIZE := b], nread, (nwrite + 1) % UINT, accepted + [b], got)
  {
    hide Cell, Wrap;
    WrapIndex(|accepted|);
    forall k | got <= k < |accepted| ensures Cell(k) != Cell(|accepted|) { CellsDiffer(k, |accepted|); }
  }

  lemma HoldsRead(data: seq<Byte>, nread: Uint, nwrite: Uint, accepted: seq<Byte>, got: nat)
    requires Holds(data, nread, nwrite, accepted, got) && got < |accepted|
    ensures data[nread % PIPESIZE] == accepted[got] && Holds(data, (nread + 1) % UINT, nwrite, accepted, got + 1)
  {
    hide Cell, Wrap;
    WrapIndex(got);
  }

  // q is q0 after the first k of the bytes were stored.
  ghost predicate Stored(q0: Pipe, bytes: seq<Byte>, k: nat, q: Pipe) {
    k <= |bytes| && k <= Room(q0) && q == PipeQueue.Store(q0, bytes[..k])
  }

  lemma StoredNone(q0: Pipe, bytes: seq<Byte>)
    ensures Stored(q0, bytes, 0, q0)
  {
  }

  lemma StoredNext(q0: Pipe, bytes: seq<Byte>, k: nat, q: Pipe)
    requires Stored(q0, bytes, k, q) && k < |bytes| && |q.queue| < PIPESIZE
    ensures Stored(q0, bytes, k + 1, PipeQueue.Store(q, [bytes[k]]))
  {
    assert bytes[..k + 1] == bytes[..k] + [bytes[k]];
  }

  lemma StoredStops(q0: Pipe, p: nat, bytes: seq<Byte>, killed: bool, k: nat, q: Pipe)
    requires Fifo(q0) && Stored(q0, bytes, k, q) && k < |bytes| && |q.queue| == PIPESIZE
    ensures k == Room(q0) && q.readopen == q0.readopen
    ensures Do(q0, Write(p, bytes, killed)) ==
      if !q.readopen || killed then q.(writing := q.writing - {p})
      else q.(readers := {}, writers := q.writers + {p}, writing := q.writing + {p})
  {
  }

  lemma StoredEnds(q0: Pipe, p: nat, bytes: seq<Byte>, killed: bool, q: Pipe)
    requires Stored(q0, bytes, |bytes|, q)
    ensures Do(q0, Write(p, bytes, killed)) == q.(readers := {}, writing := q.writing - {p})
  {
    assert bytes[..|bytes|] == bytes;
  }

  // q is q0 after its first k bytes were read.
  ghost predicate Taken(q0: Pipe, n: int, k: nat, q: Pipe) {
    k <= Take(q0, n) && q == q0.(queue := q0.queue[k..], delivered := q0.delivered + q0.queue[..k])
  }

  lemma TakenNext(q0: Pipe, n: int, k: nat, q: Pipe)
    requires Taken(q0, n, k, q) && k < n && q.queue != []
    ensures Taken(q0, n, k + 1, q.(queue := q.queue[1..], delivered := q.delivered + [q.queue[0]]))
    ensures k < |q0.queue|
    ensures q0.queue[..k + 1] == q0.queue[..k] + [q.queue[0]]
  {
    assert q0.queue[..k + 1] == q0.queue[..k] + [q0.queue[k]];
    assert q0.queue[k..][1..] == q0.queue[k + 1..];
  }

  lemma TakenAll(q0: Pipe, p: nat, n: int, killed: bool, k: nat, q: Pipe)
    requires Taken(q0, n, k, q) && (k >= n || q.queue == []) && !(q0.queue == [] && q0.writeopen)
    ensures Do(q0, Read(p, n, killed)) == q.(writers := {}, reading := q.reading - {p})
    ensures k == Take(q0, n) <= |q0.queue|
  {
  }

  lemma StoredFits(q0: Pipe, bytes: seq<Byte>, k: nat, q: Pipe)
    requires Stored(q0, bytes, k, q)
    ensures k <= Room(q0) && q.readopen == q0.readopen
  {
  }

  lemma TakenNone(q: Pipe, n: int)
    ensures Taken(q, n, 0, q)
  {
  }

  lemma TakenBytes(q0: Pipe, n: int, k: nat, q: Pipe)
    requires Taken(q0, n, k, q)
    ensures k <= |q0.queue| && q.delivered == q0.delivered + q0.queue[..k]
  {
  }

  lemma WriteStores(q: Pipe, p: nat, bytes: seq<Byte>, killed: bool)
    requires Fifo(q)
    ensures var room := 512 - |q.queue|;
      Do(q, Write(p, bytes, killed)).queue == q.queue + if |bytes| <= room then bytes else bytes[..room]
  {
  }

  lemma ReadTakes(q: Pipe, p: nat, n: int, killed: bool)
    ensures !(q.queue == [] && q.writeopen) ==>
      var k := if n <= 0 then 0 else if n <= |q.queue| then n else |q.queue|;
      && Do(q, Read(p, n, killed)).queue == q.queue[k..]
      && Do(q, Read(p, n, killed)).delivered == q.delivered + q.queue[..k]
  {
  }

  lemma DoReadAsleep(q: Pipe, p: nat, n: int, killed: bool)
    requires q.queue == [] && q.writeopen
    ensures Do(q, Read(p, n, killed)) ==
      if killed then q.(reading := q.reading - {p}) else q.(readers := q.readers + {p}, reading := q.reading + {p})
  {
  }

  class RingPipe {
    const data: array<Byte>
    var nread: Uint
    var nwrite: Uint
    var readopen: bool
    var writeopen: bool
    ghost var q: Pipe

    ghost predicate Valid()
      reads this, data
    {
      && Fifo(q) && q.readopen == readopen && q.writeopen == writeopen
      && Holds(data[..], nread, nwrite, q.accepted, |q.delivered|)
    }

    // The part of pipealloc that sets up the pipe.
    constructor ()
      ensures Valid() && Initial(q) && fresh(data)
    {
      data := new Byte[PIPESIZE](_ => 0);
      nread, nwrite, readopen, writeopen := 0, 0, true, true;
      q := Pipe([], true, true, {}, {}, {}, {}, [], []);
    }

    // pipewrite by process p, from addr[i] on, until it returns or sleeps.
    method Pipewrite(p: nat, addr: seq<Byte>, n: int, start: nat, killed: bool) returns (o: Outcome)
      requires Valid() && n <= |addr| && (start == 0 || start <= n)
      modifies this`nwrite, this`q, data
      ensures Valid()
      ensures var bytes := if n < 0 then [] else addr[start..n];
        && q == Do(old(q), Write(p, bytes, killed))
        && (|bytes| <= Room(old(q)) ==> o == Returned(n))
        && (|bytes| > Room(old(q)) ==> o == if readopen && !killed then Slept(start + Room(old(q))) else Returned(-1))
        // the bytes that fit into 512 are stored, all of them if they all do
        && (var room := 512 - |old(q).queue|;
            q.queue == old(q).queue + if |bytes| <= room then bytes else bytes[..room])
    {
      hide Holds, Do, Stored, Store;
      ghost var q0, bytes := q, if n < 0 then [] else addr[start..n];
      StoredNone(q0, bytes);
      WriteStores(q0, p, bytes, killed);
      var i := start;
      while i < n
        invariant start <= i && (n >= 0 ==> i <= n) && (n < 0 ==> i == 0)
        invariant Valid() && Stored(q0, bytes, i - start, q)
      {
        CountersTell(data[..], nread, nwrite, q.accepted, |q.delivered|);
        if nwrite == (nread + PIPESIZE) % UINT {
          StoredStops(q0, p, bytes, killed, i - start, q);
          if !readopen || killed {
            q := q.(writing := q.writing - {p});
            return Returned(-1);
          }
          q := q.(readers := {}, writers := q.writers + {p}, writing := q.writing + {p});
          return Slept(i);
        }
        StoredNext(q0, bytes, i - start, q);
        StoreByte(addr[i]);
        i := i + 1;
      }
      StoredEnds(q0, p, bytes, killed, q);
      StoredFits(q0, bytes, |bytes|, q);
      q := q.(readers := {}, writing := q.writing - {p});
      o := Returned(n);
    }

    // `p->data[p->nwrite++ % PIPESIZE] = b`.
    method StoreByte(b: Byte)
      requires Valid() && |q.queue| < PIPESIZE
      modifies this`nwrite, this`q, data
      ensures Valid() && q == PipeQueue.Store(old(q), [b])
    {
      HoldsStored(data[..], nread, nwrite, q.accepted, |q.delivered|, b);
      data[nwrite % PIPESIZE] := b;
      nwrite := (nwrite + 1) % UINT;
      q := PipeQueue.Store(q, [b]);
    }

    // piperead by process p, until it returns or sleeps; the bytes it copied out are `addr`.
    method Piperead(p: nat, n: int, killed: bool) returns (o: Outcome, addr: seq<Byte>)
      requires Valid()
      modifies this`nread, this`q
      ensures Valid() && q == Do(old(q), Read(p, n, killed))
      ensures q.delivered == old(q.delivered) + addr
      ensures o.Slept? <==> old(q.queue) == [] && writeopen && !killed
      ensures o.Returned? ==> o.r == if old(q.queue) == [] && writeopen then -1 else |addr|
      ensures o.Returned? && o.r == 0 && n > 0 ==> old(q.queue) == [] && !writeopen
      // as many of the oldest bytes as there are and were asked for
      ensures !(old(q.queue) == [] && writeopen) ==>
        && |addr| == (if n <= 0 then 0 else if n <= |old(q.queue)| then n else |old(q.queue)|)
        && addr == old(q.queue)[..|addr|] && q.queue == old(q.queue)[|addr|..]
    {
      hide Holds, Do, Taken;
      CountersTell(data[..], nread, nwrite, q.accepted, |q.delivered|);
      assert nread == nwrite <==> q.queue == [];
      if nread == nwrite && writeopen {
        DoReadAsleep(q, p, n, killed);
        if killed {
          q := q.(reading := q.reading - {p});
          return Returned(-1), [];
        }
        q := q.(readers := q.readers + {p}, reading := q.reading + {p});
        return Slept(0), [];
      }
      ghost var q0 := q;
      ReadTakes(q0, p, n, killed);
      addr := CopyOut(n);
      TakenAll(q0, p, n, killed, |addr|, q);
      TakenBytes(q0, n, |addr|, q);
      q := q.(writers := {}, reading := q.reading - {p});
      o := Returned(|addr|);
    }

    // The loop of piperead.
    method CopyOut(n: int) returns (addr: seq<Byte>)
      requires Valid()
      modifies this`nread, this`q
      ensures Valid() && Taken(old(q), n, |addr|, q) && (|addr| >= n || q.queue == [])
      ensures |addr| <= |old(q.queue)| && addr == old(q.queue)[..|addr|]
    {
      hide Holds, Taken;
      ghost var q0 := q;
      addr := [];
      TakenNone(q0, n);
      var i := 0;
      while i < n
        invariant 0 <= i == |addr| <= |q0.queue| && Valid() && Taken(q0, n, i, q) && addr == q0.queue[..i]
      {
        CountersTell(data[..], nread, nwrite, q.accepted, |q.delivered|);
        if nread == nwrite {
          return;
        }
        TakenNext(q0, n, i, q);
        var b := TakeByte();
        addr := addr + [b];
        i := i + 1;
      }
    }

    // `p->data[p->nread++ % PIPESIZE]`.
    method TakeByte() returns (b: Byte)
      requires Valid() && q.queue != []
      modifies this`nread, this`q
      ensures Valid() && b == old(q.queue)[0]
      ensures q == old(q).(queue := old(q.queue)[1..], delivered := old(q.delivered) + [b])
    {
      HoldsRead(data[..], nread, nwrite, q.accepted, |q.delivered|);
      b := data[nread % PIPESIZE];
      nread := (nread + 1) % UINT;
      q := q.(queue := q.queue[1..], delivered := q.delivered + [b]);
      assert q.accepted == q.delivered + q.queue;
    }

    // pipeclose; `last` tells that it frees the pipe.
    method Pipeclose(writable: bool) returns (last: bool)
      requires Valid()
      modifies this`readopen, this`writeopen, this`q
      ensures Valid() && q == Do(old(q), Close(writable))
      ensures last <==> !q.readopen && !q.writeopen
    {
      if writable {
        writeopen := false;
        q := q.(writeopen := false, readers := {});
      } else {
        readopen := false;
        q := q.(readopen := false, writers := {});
      }
      last := !readopen && !writeopen;
    }
  }
}
